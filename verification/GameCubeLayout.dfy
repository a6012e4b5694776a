/** A GameCube card byte by byte: what its numbers mean, which tables pass, what a format writes, and which files are
    single saves. */
module GameCubeLayout {
  import opened Bytes
  import opened Status
  import opened Chains
  import opened FatVolume
  import opened GameCubeImage
  import opened GameCubeCard
  import opened Text

  function Number(s: seq<u8>, at: nat): nat
    requires at + 2 <= |s|
  {
    256 * s[at] as int + s[at + 1] as int
  }

  /** The sum of `data` and the inverse sum stand at `at` of `s`. */
  predicate Summed(data: seq<u8>, s: seq<u8>, at: nat)
    requires at + 4 <= |s|
  {
    Number(s, at) == Checksum(data).0 && Number(s, at + 2) == Checksum(data).1
  }

  /** A directory is summed up to byte 0x1FFC, a block table from byte 4, and the header up to byte 0x1FC, where it also
      gives the card's size in megabits, sixteen blocks each. */
  lemma ValidIff(t: Table, total: nat)
    ensures DirValid(t) <==> Summed(t[..0x1FFC], t, 0x1FFC)
    ensures BatValid(t) <==> Summed(t[4..], t, 0)
    ensures HeaderValid(t, total) <==> Summed(t[..0x1FC], t, 0x1FC) && 16 * Number(t, 0x22) == total
  {
    hide Checksum;
  }

  /** What a directory entry says: a save unless its first byte is 0xFF, of the game and maker in its first six bytes
      and the name at byte 8. */
  lemma EntryIs(d: seq<u8>)
    requires |d| == 64
    ensures SlotOf(d) == if d[0] == 0xFF then Vacant
      else File(d[..6] + CString(d[8..40]), CellOf(Number(d, 0x36)), Number(d, 0x38), d[..0x36] + [0, 0] + d[0x38..])
  {
    assert Masked(d) == d[..0x36] + [0, 0] + d[0x38..];
  }

  /** What the table says of block `b`: 0 is free, 0xFFFF the end of a chain, and the first five blocks no save's. */
  lemma CellIs(bat: Table, total: nat, b: nat)
    requires 5 <= b < total <= 2048
    ensures var v := Number(bat, 2 * b);
            FatView(bat, total)[b - 5]
            == if v == 0 then Free else if v == 0xFFFF then End else if v < 5 then Broken else Next(v - 5)
  {
    assert FatView(bat, total)[b - 5] == LinkOf(BatLink(bat, b - 5));
  }

  /** Which bytes are a single save of `n` blocks. */
  lemma GciIff(gci: seq<u8>, n: nat)
    requires n > 0
    ensures GciBlocks(gci) == n <==>
      |gci| == 64 + 0x2000 * n && n <= 2043 && gci[0] != 0xFF && Number(gci, 0x38) == n
  {
    if |gci| == 64 + 0x2000 * n {
      assert (|gci| - 64) / 0x2000 == n && (|gci| - 64) % 0x2000 == 0;
    }
  }

  /* ---- A formatted card ------------------------------------------------------------------------ */

  /** The header a format writes: zeros up to the card's size and its encoding, 0xFF after them, and its sums. */
  lemma FormatHeaderIs(total: nat, shiftJis: bool)
    requires total in {64, 128, 256, 512, 1024, 2048}
    ensures var h := FormatHeader(total, shiftJis);
      && HeaderValid(h, total) && Number(h, 0x24) == (if shiftJis then 1 else 0)
      && (forall p :: 0 <= p < 0x22 ==> h[p] == 0)
      && forall p :: 0x26 <= p < 0x2000 && !(0x1FC <= p < 0x200) ==> h[p] == 0xFF
  {
    hide HeaderValid, Checksum, Matches;
    FormatHeaderReads(total, shiftJis);
    var flag := if shiftJis then 1 else 0;
    var h := Zeros(0x22) + Be16Bytes(total / 16) + Be16Bytes(flag) + Filled(0x2000 - 0x26, 0xFF);
    assert h[0x24] == Be16Bytes(flag)[0] && h[0x25] == Be16Bytes(flag)[1];
    assert FormatHeader(total, shiftJis) == Splice(h, 0x1FC, SealBytes(h[..0x1FC]));
  }

  /** The directories: 0xFF but for the update count and the sums. */
  lemma FormatDirIs(copy: nat)
    requires copy < 2
    ensures var d := FormatDir(copy);
      && DirValid(d) && Number(d, 0x1FFA) == copy && forall p :: 0 <= p < 0x1FFA ==> d[p] == 0xFF
  {
    hide DirValid, Checksum, DirView;
    FormatDirReads(copy);
    var e: Table := Filled(0x2000, 0xFF);
    var d: Table := Splice(e, 0x1FFA, Be16Bytes(copy));
    assert FormatDir(copy) == Splice(d, 0x1FFC, SealBytes(d[..0x1FFC]));
  }

  /** The block tables: the sums, the update count, the count of free blocks, block 4 as the last allocated, and
      zeros. */
  lemma FormatBatIs(total: nat, copy: nat)
    requires 5 <= total <= 2048 && copy < 2
    ensures var b := FormatBat(total, copy);
      && BatValid(b) && Number(b, 4) == copy && Number(b, 6) == total - 5 && Number(b, 8) == 4
      && forall p :: 10 <= p < 0x2000 ==> b[p] == 0
  {
    hide BatValid, Checksum, FatView;
    FormatBatReads(total, copy);
    var z: Table := Zeros(0x2000);
    var c: Table := Counted(z, copy, total - 5);
    var d: Table := Splice(c, 8, Be16Bytes(4));
    assert Be16Bytes(4) == [0, 4] && d[8..10] == [0, 4];
    assert d[8] == 0 && d[9] == 4;
    assert FormatBat(total, copy) == Splice(d, 0, SealBytes(d[4..]));
  }
}
