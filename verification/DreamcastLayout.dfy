/** A Dreamcast card byte by byte: what its numbers mean, which images are cards, what a format writes, and which
    files are single saves. */
module DreamcastLayout {
  import opened Bytes
  import opened Status
  import opened Chains
  import opened FatVolume
  import opened DreamcastImage
  import opened DreamcastCard
  import opened DreamcastRepair

  /** The number the root block has at `field`, in block 255. */
  function RootNumber(image: Image, field: nat): nat
    requires field < 0x100
  {
    image[255 * 512 + field] as int + 256 * image[255 * 512 + field + 1] as int
  }

  /** A directory from block `low` to `high` keeps off the saves' blocks, the table and the root. */
  predicate Clears(low: int, high: int, table: nat, blocks: nat) {
    blocks <= low && high <= 254 && !(low <= table <= high)
  }

  /** The image is a card of this layout: sixteen bytes 0x55 begin its root block, its table is one block, under 255 and
      above the saves' blocks, which are some, and whose own cell and the root's end a chain; the directory runs down
      from its block where that keeps clear of the rest, and else up. */
  predicate IsCard(image: Image, l: Layout) {
    && (forall k {:trigger image[k]} :: 130560 <= k < 130576 ==> image[k] == 0x55)
    && l.fatBlock == RootNumber(image, 0x46) && RootNumber(image, 0x48) == 1 && l.dirBlock == RootNumber(image, 0x4A)
    && l.dirBlocks == RootNumber(image, 0x4C) && l.userBlocks == RootNumber(image, 0x50)
    && 0 < l.userBlocks <= l.fatBlock <= 254 && 0 < l.dirBlocks && l.dirBlock <= 254
    && (if Clears(l.dirBlock + 1 - l.dirBlocks, l.dirBlock, l.fatBlock, l.userBlocks) then !l.up
        else l.up && Clears(l.dirBlock, l.dirBlock + l.dirBlocks - 1, l.fatBlock, l.userBlocks))
    && image[512 * l.fatBlock + 510] == 0xFA && image[512 * l.fatBlock + 511] == 0xFF
    && image[514 * l.fatBlock] == 0xFA && image[514 * l.fatBlock + 1] == 0xFF
  }

  lemma FillIff(image: Image)
    ensures image[ROOT..ROOT + ROOT_FILL_LEN] == Filled(ROOT_FILL_LEN, ROOT_FILL)
       <==> forall k {:trigger image[k]} :: 130560 <= k < 130576 ==> image[k] == 0x55
  {
    var s := image[ROOT..ROOT + ROOT_FILL_LEN];
    assert forall k {:trigger s[k]} :: 0 <= k < 16 ==> s[k] == image[ROOT + k];
    if s == Filled(ROOT_FILL_LEN, ROOT_FILL) {
      forall k | 130560 <= k < 130576 ensures image[k] == 0x55 {
        assert image[k] == s[k - 130560];
      }
    }
  }

  lemma EndIff(image: Image, l: Layout, b: nat)
    requires l.fatBlock < 255 && b <= 255
    ensures FatGet(image, l, b) == FAT_END
       <==> image[512 * l.fatBlock + 2 * b] == 0xFA && image[512 * l.fatBlock + 2 * b + 1] == 0xFF
  {
  }

  /** Those images are read as cards, and no others. */
  lemma LayoutIff(image: Image, l: Layout)
    ensures ReadLayout(image) == Some(l) <==> IsCard(image, l)
  {
    hide Filled;
    FillIff(image);
    assert RootNumber(image, 0x46) == RootLe16(image, ROOT_FAT_BLOCK);
    assert RootNumber(image, 0x48) == RootLe16(image, ROOT_FAT_SIZE);
    assert RootNumber(image, 0x4A) == RootLe16(image, ROOT_DIR_BLOCK);
    assert RootNumber(image, 0x4C) == RootLe16(image, ROOT_DIR_SIZE);
    assert RootNumber(image, 0x50) == RootLe16(image, ROOT_USER_SIZE);
    if l.fatBlock < 255 {
      EndIff(image, l, 255);
      EndIff(image, l, l.fatBlock);
    }
  }

  /** What a cell of the table says. */
  lemma CellIs(image: Image, l: Layout, b: nat)
    requires l.Valid() && b < l.userBlocks
    ensures var v := image[512 * l.fatBlock + 2 * b] as int + 256 * image[512 * l.fatBlock + 2 * b + 1] as int;
            FatView(image, l)[b] == if v == 0xFFFC then Free else if v == 0xFFFA then End else Next(v)
  {
    assert FatView(image, l)[b] == LinkOf(FatGet(image, l, b));
  }

  /** What a directory entry says: a file when its first byte is 0x33 or 0xCC, vacant when it is 0. */
  lemma EntryIs(e: seq<u8>)
    requires |e| == 32
    ensures SlotOf(e) == if e[0] == 0x33 || e[0] == 0xCC
      then File(e[4..16], e[2] as int + 256 * e[3] as int, e[24] as int + 256 * e[25] as int, e[..2] + [0, 0] + e[4..])
      else if e[0] == 0 then Vacant else Other
  {
    assert Masked(e) == e[..2] + [0, 0] + e[4..] by {
      assert Le16Bytes(0) == [0, 0];
    }
  }

  /** Which bytes are a single save of `n` blocks. */
  lemma DciIff(dci: seq<u8>, n: nat)
    requires n > 0
    ensures DciBlocks(dci) == n <==>
      && |dci| == 32 + 512 * n && n <= 256 && (dci[0] == 0x33 || dci[0] == 0xCC)
      && dci[24] as int + 256 * dci[25] as int == n
  {
    if |dci| == 32 + 512 * n {
      assert (|dci| - 32) / 512 == n && (|dci| - 32) % 512 == 0;
    }
  }

  /** A save's data in a unit: block after block from byte 32 on, every four bytes the other way round. */
  lemma {:induction false} PackedAt(data: seq<seq<u8>>, b: nat, i: nat)
    requires forall k :: 0 <= k < |data| ==> |data[k]| == BLOCK_SIZE
    requires b < |data| && i < 512
    ensures 512 * b + i < |Packed(data)| && Packed(data)[512 * b + i] == data[b][i / 4 * 4 + 3 - i % 4]
    decreases |data|
  {
    var front := data[..|data| - 1];
    assert |Packed(front)| == 512 * |front|;
    if b < |front| {
      PackedAt(front, b, i);
    }
  }

  lemma UnitIs(save: Save, b: nat, i: nat)
    requires forall k :: 0 <= k < |save.data| ==> |save.data[k]| == BLOCK_SIZE
    requires |save.rest| == 32 && b < |save.data| && i < 512
    ensures |DciOf(save)| == 32 + 512 * |save.data| && DciOf(save)[..32] == save.rest
    ensures DciOf(save)[32 + 512 * b + i] == save.data[b][i / 4 * 4 + 3 - i % 4]
  {
    hide Packed;
    PackedAt(save.data, b, i);
  }

  /* ---- A formatted card ------------------------------------------------------------------------- */

  /** Byte `p` of a formatted card's root block. */
  function RootByte(p: nat): u8 {
    if p < 0x10 then 0x55
    else if p == 0x10 then 0x01 else if p < 0x15 then 0xFF
    else if p == 0x30 then 0x19 else if p == 0x31 then 0x98 else if p == 0x32 then 0x11 else if p == 0x33 then 0x27
    else if p == 0x36 then 0x58 else if p == 0x37 then 0x04
    else if p == 0x40 || p == 0x44 then 255
    else if p == 0x46 then 254 else if p == 0x48 then 1 else if p == 0x4A then 253 else if p == 0x4C then 13
    else if p == 0x50 then 200 else if p == 0x52 then 0x1F else if p == 0x56 then 0x80
    else 0
  }

  lemma FieldBytes(k: nat)
    requires k < 0x18
    ensures FormatFields()[k] == RootByte(0x40 + k)
  {
    assert Le16Bytes(255) == [255, 0] && Le16Bytes(254) == [254, 0] && Le16Bytes(1) == [1, 0];
    assert Le16Bytes(253) == [253, 0] && Le16Bytes(13) == [13, 0] && Le16Bytes(200) == [200, 0];
    assert Le16Bytes(0x1F) == [0x1F, 0] && Le16Bytes(0x80) == [0x80, 0];
    assert FormatFields() == [255, 0, 0, 0, 255, 0, 254, 0, 1, 0, 253, 0, 13, 0, 0, 0, 200, 0, 0x1F, 0, 0, 0, 0x80, 0];
  }

  lemma RootBytes(p: nat)
    requires p < 512
    ensures FormatRoot()[p] == RootByte(p)
  {
    hide FormatFields;
    if 0x40 <= p < 0x58 {
      FieldBytes(p - 0x40);
    }
  }

  /** What a format leaves, byte for byte: nothing below the table; a table of free cells up to 240, the directory's
      blocks chained down from 253 to 241, and a chain's end at 254 and 255; and the root block. */
  ghost predicate IsFormatted(image: Image) {
    && (forall p {:trigger image[p]} :: 0 <= p < 254 * 512 ==> image[p] == 0)
    && (forall b: nat {:trigger FatGet(image, FORMAT_LAYOUT, b)} :: b < 256 ==>
          image[254 * 512 + 2 * b] as int + 256 * image[254 * 512 + 2 * b + 1] as int
          == if b <= 240 then 0xFFFC else if b == 241 || b >= 254 then 0xFFFA else b - 1)
    && forall p: nat {:trigger RootByte(p)} :: p < 512 ==> image[255 * 512 + p] == RootByte(p)
  }

  /** That is what the format's own contract comes to. */
  lemma FormatIs(image: Image)
    requires image[ROOT..] == FormatRoot()
    requires forall b :: 0 <= b <= ROOT_BLOCK ==> FatGet(image, FORMAT_LAYOUT, b) == FormatCell(b)
    requires forall p :: 0 <= p < 254 * BLOCK_SIZE ==> image[p] == 0
    ensures IsFormatted(image)
  {
    hide RootByte, FormatRoot;
    forall b: nat | b < 256
      ensures image[254 * 512 + 2 * b] as int + 256 * image[254 * 512 + 2 * b + 1] as int
           == if b <= 240 then 0xFFFC else if b == 241 || b >= 254 then 0xFFFA else b - 1
    {
      assert FatGet(image, FORMAT_LAYOUT, b) == FormatCell(b);
    }
    forall p: nat | p < 512 ensures image[255 * 512 + p] == RootByte(p) {
      RootBytes(p);
      assert image[255 * 512 + p] == image[ROOT..][p];
    }
  }

  /* ---- A VMS file's header ------------------------------------------------------------------------ */

  /** The bytes a VMS file's checksum covers, by the numbers in its header. */
  lemma CoveredIs(file: seq<u8>)
    requires |file| >= 512
    ensures Covered(file) == 128 + 512 * (file[64] as int + 256 * file[65] as int)
      + EyecatchSize(file[68] as int + 256 * file[69] as int)
      + file[72] as int + 0x100 * file[73] as int + 0x1_0000 * file[74] as int + 0x100_0000 * file[75] as int
    ensures VMS_CRC == 70
  {
  }
}
