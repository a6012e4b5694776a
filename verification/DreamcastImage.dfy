/** The 128 KiB Dreamcast VMU image: where its root block, table and directory
    lie, and the volume its bytes hold. */
module DreamcastImage {
  import opened Bytes
  import opened Status
  import opened Chains
  import opened FatVolume

  const CARD_SIZE := 131072
  const BLOCK_SIZE := 512
  const ROOT_BLOCK := 255
  const ENTRY_SIZE := 32
  const SLOTS_PER_BLOCK := 16
  const FAT_FREE := 0xFFFC
  const FAT_END := 0xFFFA
  const TYPE_EMPTY := 0x00
  const TYPE_DATA := 0x33
  const TYPE_GAME := 0xCC

  const ROOT := 130560   // ROOT_BLOCK * BLOCK_SIZE
  const ROOT_FILL := 0x55
  const ROOT_FILL_LEN := 16
  const ROOT_FAT_BLOCK := 0x46
  const ROOT_FAT_SIZE := 0x48
  const ROOT_DIR_BLOCK := 0x4A
  const ROOT_DIR_SIZE := 0x4C
  const ROOT_USER_SIZE := 0x50

  const ENTRY_FIRST_BLOCK := 0x02
  const ENTRY_NAME := 0x04
  const NAME_LEN := 12
  const ENTRY_LENGTH := 0x18
  const ENTRY_HEADER := 0x1A

  type Image = s: seq<u8> | |s| == CARD_SIZE witness seq(CARD_SIZE, _ => 0)

  /** `up` when the directory runs up from its recorded block. */
  datatype Layout = Layout(fatBlock: nat, dirBlock: nat, dirBlocks: nat, up: bool, userBlocks: nat) {
    function DirLow(): int {
      if up then dirBlock else dirBlock + 1 - dirBlocks
    }

    predicate Valid() {
      && 0 < userBlocks <= fatBlock < ROOT_BLOCK
      && 0 < dirBlocks && userBlocks <= DirLow() && DirLow() + dirBlocks <= ROOT_BLOCK
      && (fatBlock < DirLow() || fatBlock >= DirLow() + dirBlocks)
    }

    function SlotCount(): nat {
      dirBlocks * SLOTS_PER_BLOCK
    }

    function SlotBlock(slot: nat): (b: nat)
      requires Valid() && slot < SlotCount()
      ensures DirLow() <= b < DirLow() + dirBlocks
    {
      if up then dirBlock + slot / SLOTS_PER_BLOCK else dirBlock - slot / SLOTS_PER_BLOCK
    }

    function SlotOffset(slot: nat): (off: nat)
      requires Valid() && slot < SlotCount()
      ensures DirLow() * BLOCK_SIZE <= off && off + ENTRY_SIZE <= (DirLow() + dirBlocks) * BLOCK_SIZE
    {
      SlotBlock(slot) * BLOCK_SIZE + slot % SLOTS_PER_BLOCK * ENTRY_SIZE
    }

    function CellOffset(block: nat): nat {
      fatBlock * BLOCK_SIZE + 2 * block
    }
  }

  predicate RangeClear(low: int, high: int, fatBlock: nat, userBlocks: nat) {
    low >= userBlocks && high < ROOT_BLOCK && (fatBlock < low || fatBlock > high)
  }

  function RootLe16(image: Image, field: nat): nat
    requires field < 0x100
  {
    Le16(image, ROOT + field)
  }

  /** The layout the root block records, with the direction in which the
      directory stays clear of the user area, the table and the root; None when
      the image is not a VMU. */
  function ReadLayout(image: Image): (r: Option<Layout>)
    ensures r.Some? ==> r.value.Valid()
  {
    var fatBlock := RootLe16(image, ROOT_FAT_BLOCK);
    var dirBlock := RootLe16(image, ROOT_DIR_BLOCK);
    var dirBlocks := RootLe16(image, ROOT_DIR_SIZE);
    var userBlocks := RootLe16(image, ROOT_USER_SIZE);
    if image[ROOT..ROOT + ROOT_FILL_LEN] != Filled(ROOT_FILL_LEN, ROOT_FILL) then None
    else if RootLe16(image, ROOT_FAT_SIZE) != 1 then None
    else if fatBlock >= ROOT_BLOCK || userBlocks == 0 || userBlocks > fatBlock then None
    else if dirBlocks == 0 || dirBlock >= ROOT_BLOCK then None
    else
      var down := dirBlock + 1 >= dirBlocks && RangeClear(dirBlock + 1 - dirBlocks, dirBlock, fatBlock, userBlocks);
      if !down && !RangeClear(dirBlock, dirBlock + dirBlocks - 1, fatBlock, userBlocks) then None
      else
        var l := Layout(fatBlock, dirBlock, dirBlocks, !down, userBlocks);
        if FatGet(image, l, ROOT_BLOCK) == FAT_END && FatGet(image, l, fatBlock) == FAT_END then Some(l) else None
  }

  function FatGet(image: Image, l: Layout, block: nat): nat
    requires l.fatBlock < ROOT_BLOCK && block <= ROOT_BLOCK
  {
    Le16(image, l.CellOffset(block))
  }

  function LinkOf(value: nat): Link {
    if value == FAT_FREE then Free else if value == FAT_END then End else Next(value)
  }

  function FatView(image: Image, l: Layout): (fat: Fat)
    requires l.Valid()
    ensures |fat| == l.userBlocks
    ensures forall b: nat {:trigger FatGet(image, l, b)} :: b < l.userBlocks ==> fat[b] == LinkOf(FatGet(image, l, b))
  {
    seq(l.userBlocks, b requires 0 <= b < l.userBlocks => LinkOf(FatGet(image, l, b)))
  }

  function Block(image: Image, block: nat): (d: seq<u8>)
    requires block <= ROOT_BLOCK
    ensures |d| == BLOCK_SIZE
  {
    image[block * BLOCK_SIZE..block * BLOCK_SIZE + BLOCK_SIZE]
  }

  function BlockView(image: Image, l: Layout): (blocks: seq<seq<u8>>)
    requires l.Valid()
    ensures |blocks| == l.userBlocks
    ensures forall b: nat {:trigger Block(image, b)} :: b < l.userBlocks ==> blocks[b] == Block(image, b)
  {
    seq(l.userBlocks, b requires 0 <= b < l.userBlocks => Block(image, b))
  }

  function Entry(image: Image, l: Layout, slot: nat): (e: seq<u8>)
    requires l.Valid() && slot < l.SlotCount()
    ensures |e| == ENTRY_SIZE
  {
    image[l.SlotOffset(slot)..l.SlotOffset(slot) + ENTRY_SIZE]
  }

  predicate IsFile(entry: seq<u8>)
    requires |entry| > 0
  {
    entry[0] == TYPE_DATA || entry[0] == TYPE_GAME
  }

  /** The stored entry without the block it happens to start at. */
  function Masked(entry: seq<u8>): (m: seq<u8>)
    requires |entry| >= ENTRY_SIZE
    ensures |m| == |entry|
  {
    Splice(entry, ENTRY_FIRST_BLOCK, Le16Bytes(0))
  }

  function EntryName(entry: seq<u8>): (name: seq<u8>)
    requires |entry| >= ENTRY_SIZE
    ensures |name| == NAME_LEN
  {
    entry[ENTRY_NAME..ENTRY_NAME + NAME_LEN]
  }

  function SlotOf(entry: seq<u8>): Slot
    requires |entry| == ENTRY_SIZE
  {
    if IsFile(entry) then
      File(EntryName(entry), Le16(entry, ENTRY_FIRST_BLOCK), Le16(entry, ENTRY_LENGTH), Masked(entry))
    else if entry[0] == TYPE_EMPTY then Vacant else Other
  }

  function DirView(image: Image, l: Layout): (dir: seq<Slot>)
    requires l.Valid()
    ensures |dir| == l.SlotCount()
    ensures forall s: nat {:trigger Entry(image, l, s)} :: s < l.SlotCount() ==> dir[s] == SlotOf(Entry(image, l, s))
  {
    seq(l.SlotCount(), s requires 0 <= s < l.SlotCount() => SlotOf(Entry(image, l, s)))
  }

  function View(image: Image, l: Layout): Volume
    requires l.Valid()
  {
    Volume(FatView(image, l), BlockView(image, l), DirView(image, l))
  }

  /** Outside the user blocks, their cells and the directory the bytes agree. */
  ghost predicate SameElsewhere(image: Image, image': Image, l: Layout)
    requires l.Valid()
  {
    forall p :: l.userBlocks * BLOCK_SIZE <= p < CARD_SIZE
      && !(l.CellOffset(0) <= p < l.CellOffset(l.userBlocks))
      && !(l.DirLow() * BLOCK_SIZE <= p < (l.DirLow() + l.dirBlocks) * BLOCK_SIZE)
      ==> image'[p] == image[p]
  }

  /* ---- What each write changes -------------------------------------------------- */

  lemma RootFrame(image: Image, image': Image, field: nat)
    requires image'[ROOT..] == image[ROOT..] && field < 0x100
    ensures RootLe16(image', field) == RootLe16(image, field)
  {
    assert image'[ROOT + field] == image'[ROOT..][field] && image[ROOT + field] == image[ROOT..][field];
    assert image'[ROOT + field + 1] == image'[ROOT..][field + 1] && image[ROOT + field + 1] == image[ROOT..][field + 1];
  }

  /** The layout reads only the root block and the table's two own cells. */
  lemma LayoutFrame(image: Image, image': Image, l: Layout)
    requires ReadLayout(image) == Some(l)
    requires image'[ROOT..] == image[ROOT..]
    requires FatGet(image', l, ROOT_BLOCK) == FatGet(image, l, ROOT_BLOCK)
    requires FatGet(image', l, l.fatBlock) == FatGet(image, l, l.fatBlock)
    ensures ReadLayout(image') == Some(l)
  {
    RootFrame(image, image', ROOT_FAT_BLOCK);
    RootFrame(image, image', ROOT_FAT_SIZE);
    RootFrame(image, image', ROOT_DIR_BLOCK);
    RootFrame(image, image', ROOT_DIR_SIZE);
    RootFrame(image, image', ROOT_USER_SIZE);
    assert image'[ROOT..ROOT + ROOT_FILL_LEN] == image'[ROOT..][..ROOT_FILL_LEN];
    assert image[ROOT..ROOT + ROOT_FILL_LEN] == image[ROOT..][..ROOT_FILL_LEN];
  }

  lemma SlotsApart(l: Layout, s: nat, t: nat)
    requires l.Valid() && s < l.SlotCount() && t < l.SlotCount() && s != t
    ensures l.SlotOffset(s) + ENTRY_SIZE <= l.SlotOffset(t) || l.SlotOffset(t) + ENTRY_SIZE <= l.SlotOffset(s)
  {
    if s / SLOTS_PER_BLOCK == t / SLOTS_PER_BLOCK {
      assert s % SLOTS_PER_BLOCK != t % SLOTS_PER_BLOCK;
    }
  }

  /** A write clear of the root block and the table keeps the layout and the table. */
  lemma FatFrame(image: Image, l: Layout, at: nat, bytes: seq<u8>)
    requires ReadLayout(image) == Some(l) && at + |bytes| <= ROOT
    requires at + |bytes| <= l.CellOffset(0) || l.CellOffset(256) <= at
    ensures ReadLayout(Splice(image, at, bytes)) == Some(l)
    ensures FatView(Splice(image, at, bytes), l) == FatView(image, l)
  {
    var image': Image := Splice(image, at, bytes);
    forall b | 0 <= b <= ROOT_BLOCK ensures FatGet(image', l, b) == FatGet(image, l, b) {
      Le16Frame(image, at, bytes, l.CellOffset(b));
    }
    LayoutFrame(image, image', l);
    assert FatView(image', l) == FatView(image, l);
  }

  /** A write past the user area keeps every user block. */
  lemma BlocksFrame(image: Image, l: Layout, at: nat, bytes: seq<u8>)
    requires l.Valid() && l.userBlocks * BLOCK_SIZE <= at && at + |bytes| <= CARD_SIZE
    ensures BlockView(Splice(image, at, bytes), l) == BlockView(image, l)
  {
    var image': Image := Splice(image, at, bytes);
    forall b | 0 <= b < l.userBlocks ensures Block(image', b) == Block(image, b) {
      SpliceFrame(image, at, bytes, b * BLOCK_SIZE, b * BLOCK_SIZE + BLOCK_SIZE);
    }
    assert BlockView(image', l) == BlockView(image, l);
  }

  lemma DirFrame(image: Image, l: Layout, at: nat, bytes: seq<u8>)
    requires l.Valid() && at + |bytes| <= CARD_SIZE
    requires at + |bytes| <= l.DirLow() * BLOCK_SIZE || (l.DirLow() + l.dirBlocks) * BLOCK_SIZE <= at
    ensures DirView(Splice(image, at, bytes), l) == DirView(image, l)
  {
    var image': Image := Splice(image, at, bytes);
    forall s | 0 <= s < l.SlotCount() ensures Entry(image', l, s) == Entry(image, l, s) {
      SpliceFrame(image, at, bytes, l.SlotOffset(s), l.SlotOffset(s) + ENTRY_SIZE);
    }
    assert DirView(image', l) == DirView(image, l);
  }

  lemma BlockWrite(image: Image, l: Layout, block: nat, data: seq<u8>)
    requires ReadLayout(image) == Some(l) && block < l.userBlocks && |data| == BLOCK_SIZE
    ensures var image' := Splice(image, block * BLOCK_SIZE, data);
      && ReadLayout(image') == Some(l) && SameElsewhere(image, image', l)
      && View(image', l) == View(image, l).(blocks := View(image, l).blocks[block := data])
  {
    hide ReadLayout, FatView, DirView;
    var at := block * BLOCK_SIZE;
    var image': Image := Splice(image, at, data);
    FatFrame(image, l, at, data);
    DirFrame(image, l, at, data);
    forall b | 0 <= b < l.userBlocks && b != block ensures Block(image', b) == Block(image, b) {
      SpliceFrame(image, at, data, b * BLOCK_SIZE, b * BLOCK_SIZE + BLOCK_SIZE);
    }
    assert Block(image', block) == data;
    assert BlockView(image', l) == BlockView(image, l)[block := data];
  }

  lemma CellWriteTable(image: Image, l: Layout, block: nat, value: nat)
    requires l.Valid() && block <= ROOT_BLOCK && value < 0x1_0000
    ensures var image' := Splice(image, l.CellOffset(block), Le16Bytes(value));
      forall b :: 0 <= b <= ROOT_BLOCK ==> FatGet(image', l, b) == if b == block then value else FatGet(image, l, b)
  {
    var at := l.CellOffset(block);
    forall b | 0 <= b <= ROOT_BLOCK && b != block
      ensures FatGet(Splice(image, at, Le16Bytes(value)), l, b) == FatGet(image, l, b)
    {
      Le16Frame(image, at, Le16Bytes(value), l.CellOffset(b));
    }
    Le16Written(image, at, value);
  }

  lemma CellWrite(image: Image, l: Layout, block: nat, value: nat)
    requires ReadLayout(image) == Some(l) && block < l.userBlocks && value < 0x1_0000
    ensures var image' := Splice(image, l.CellOffset(block), Le16Bytes(value));
      && ReadLayout(image') == Some(l) && SameElsewhere(image, image', l)
      && View(image', l) == View(image, l).(fat := View(image, l).fat[block := LinkOf(value)])
  {
    hide ReadLayout, BlockView, DirView, LinkOf;
    var at := l.CellOffset(block);
    var image': Image := Splice(image, at, Le16Bytes(value));
    CellWriteTable(image, l, block, value);
    SpliceFrame(image, at, Le16Bytes(value), ROOT, CARD_SIZE);
    LayoutFrame(image, image', l);
    BlocksFrame(image, l, at, Le16Bytes(value));
    DirFrame(image, l, at, Le16Bytes(value));
    assert FatView(image', l) == FatView(image, l)[block := LinkOf(value)];
  }

  lemma SlotWrite(image: Image, l: Layout, slot: nat, entry: seq<u8>)
    requires ReadLayout(image) == Some(l) && slot < l.SlotCount() && |entry| == ENTRY_SIZE
    ensures var image' := Splice(image, l.SlotOffset(slot), entry);
      && ReadLayout(image') == Some(l) && SameElsewhere(image, image', l)
      && View(image', l) == View(image, l).(dir := View(image, l).dir[slot := SlotOf(entry)])
  {
    hide ReadLayout, FatView, BlockView, SlotOf;
    var at := l.SlotOffset(slot);
    var image': Image := Splice(image, at, entry);
    FatFrame(image, l, at, entry);
    BlocksFrame(image, l, at, entry);
    forall s | 0 <= s < l.SlotCount() && s != slot ensures Entry(image', l, s) == Entry(image, l, s) {
      SlotsApart(l, slot, s);
      SpliceFrame(image, at, entry, l.SlotOffset(s), l.SlotOffset(s) + ENTRY_SIZE);
    }
    assert Entry(image', l, slot) == entry;
    assert DirView(image', l) == DirView(image, l)[slot := SlotOf(entry)];
  }

  /* ---- Format ---------------------------------------------------------------------- */

  const FORMAT_COLOUR: seq<u8> := [0x01, 0xFF, 0xFF, 0xFF, 0xFF]
  const FORMAT_TIME: seq<u8> := [0x19, 0x98, 0x11, 0x27, 0x00, 0x00, 0x58, 0x04]
  const FORMAT_LAYOUT := Layout(254, 253, 13, false, 200)

  /** The root block's fields, from 0x40 on. */
  function FormatFields(): (s: seq<u8>)
    ensures |s| == 0x18
  {
    Le16Bytes(ROOT_BLOCK) + [0, 0] + Le16Bytes(ROOT_BLOCK) + Le16Bytes(254) + Le16Bytes(1) + Le16Bytes(253)
    + Le16Bytes(13) + [0, 0] + Le16Bytes(200) + Le16Bytes(0x1F) + [0, 0] + Le16Bytes(0x80)
  }

  function FormatRoot(): (s: seq<u8>)
    ensures |s| == BLOCK_SIZE
  {
    Filled(ROOT_FILL_LEN, ROOT_FILL) + FORMAT_COLOUR + Zeros(0x1B) + FORMAT_TIME + Zeros(8) + FormatFields()
      + Zeros(0x1A8)
  }

  /** The table a format writes: free cells, then the directory's own chain. */
  function FormatCell(block: nat): (value: nat)
    ensures value < 0x1_0000
  {
    if block < 241 then FAT_FREE else if block == 241 || block >= 254 then FAT_END else (block - 1) % 0x1_0000
  }

  lemma FormatRootFields(image: Image)
    requires image[ROOT..] == FormatRoot()
    ensures image[ROOT..ROOT + ROOT_FILL_LEN] == Filled(ROOT_FILL_LEN, ROOT_FILL)
    ensures RootLe16(image, ROOT_FAT_BLOCK) == 254 && RootLe16(image, ROOT_FAT_SIZE) == 1
    ensures RootLe16(image, ROOT_DIR_BLOCK) == 253 && RootLe16(image, ROOT_DIR_SIZE) == 13
    ensures RootLe16(image, ROOT_USER_SIZE) == 200
  {
    var r := FormatRoot();
    assert image[ROOT..ROOT + ROOT_FILL_LEN] == image[ROOT..][..ROOT_FILL_LEN] == r[..ROOT_FILL_LEN];
    assert r[0x40..0x58] == FormatFields();
    forall i | 0 <= i < 0x18 ensures image[ROOT + 0x40 + i] == FormatFields()[i] {
      assert image[ROOT + 0x40 + i] == image[ROOT..][0x40 + i] == r[0x40..0x58][i];
    }
  }

  lemma FormatReads(image: Image)
    requires image[ROOT..] == FormatRoot()
    requires forall b :: 0 <= b <= ROOT_BLOCK ==> FatGet(image, FORMAT_LAYOUT, b) == FormatCell(b)
    ensures ReadLayout(image) == Some(FORMAT_LAYOUT)
  {
    FormatRootFields(image);
  }

  /** Writes an empty card: the root block, a table whose system blocks are chained, and vacant slots. */
  method Format(image: array<u8>)
    requires image.Length == CARD_SIZE
    modifies image
    ensures ReadLayout(image[..]) == Some(FORMAT_LAYOUT)
    ensures image[ROOT..] == FormatRoot()
    ensures forall b :: 0 <= b <= ROOT_BLOCK ==> FatGet(image[..], FORMAT_LAYOUT, b) == FormatCell(b)
    ensures forall p :: 0 <= p < 254 * BLOCK_SIZE ==> image[p] == 0
  {
    forall i | 0 <= i < image.Length {
      image[i] := 0;
    }
    WriteBytes(image, ROOT, FormatRoot());
    for b := 0 to 256
      invariant image[ROOT..] == FormatRoot()
      invariant forall c :: 0 <= c < b ==> FatGet(image[..], FORMAT_LAYOUT, c) == FormatCell(c)
      invariant forall p :: 0 <= p < 254 * BLOCK_SIZE ==> image[p] == 0
    {
      CellWriteTable(image[..], FORMAT_LAYOUT, b, FormatCell(b));
      SpliceFrame(image[..], FORMAT_LAYOUT.CellOffset(b), Le16Bytes(FormatCell(b)), ROOT, CARD_SIZE);
      WriteBytes(image, FORMAT_LAYOUT.CellOffset(b), Le16Bytes(FormatCell(b)));
    }
    FormatReads(image[..]);
  }
}
