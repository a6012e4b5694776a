/** The GameCube card image: its header, the two copies of its directory and of
    its block table, and the volume the mounted copies hold. */
module GameCubeImage {
  import opened Bytes
  import opened Status
  import opened Chains
  import opened FatVolume
  import opened Text

  const BLOCK_SIZE := 0x2000
  const SYSTEM_BLOCKS := 5
  const DENTRY_SIZE := 0x40
  const DIR_ENTRIES := 127
  const MAX_DATA_BLOCKS := 2043

  const HEADER_SIZE_MBITS := 0x22
  const HEADER_ENCODING := 0x24
  const HEADER_CHECKSUM := 0x1FC

  const DIR_BLOCK_FIRST := 1
  const DIR_COUNTER := 0x1FFA
  const DIR_CHECKSUM := 0x1FFC

  const BAT_BLOCK_FIRST := 3
  const BAT_CHECKSUM := 0
  const BAT_COUNTER := 4
  const BAT_FREE_BLOCKS := 6
  const BAT_LAST_ALLOCATED := 8
  const BAT_MAP := 0xA
  const BAT_FREE := 0
  const BAT_CHAIN_END := 0xFFFF

  const DENTRY_MAKERCODE_END := 6
  const DENTRY_FILENAME := 8
  const FILENAME_LEN := 32
  const DENTRY_FIRST_BLOCK := 0x36
  const DENTRY_BLOCK_COUNT := 0x38
  const DENTRY_EMPTY := 0xFF

  type Table = s: seq<u8> | |s| == BLOCK_SIZE witness seq(BLOCK_SIZE, _ => 0)

  /* ---- Checksums ----------------------------------------------------------------- */

  /** The sum of the first `n` bytes as big-endian words, or of their complements. */
  function WordSum(data: seq<u8>, n: nat, inverted: bool): (s: nat)
    requires n % 2 == 0 && n <= |data|
    ensures s < 0x1_0000
  {
    if n == 0 then 0
    else (WordSum(data, n - 2, inverted) + if inverted
        then 0xFFFF - Be16(data, n - 2) else Be16(data, n - 2)) % 0x1_0000
  }

  function Folded(s: nat): (r: nat)
    requires s < 0x1_0000
    ensures r < 0xFFFF
  {
    if s == 0xFFFF then 0 else s
  }

  /** The sum and inverse sum, each with 0xFFFF stored as 0. */
  function Checksum(data: seq<u8>): (r: (nat, nat))
    ensures r.0 < 0x1_0000 && r.1 < 0x1_0000
  {
    var n := |data| - |data| % 2;
    (Folded(WordSum(data, n, false)), Folded(WordSum(data, n, true)))
  }

  lemma WordSumNext(data: seq<u8>, n: nat, inverted: bool)
    requires n % 2 == 0 && n + 2 <= |data|
    ensures WordSum(data, n + 2, inverted)
      == (WordSum(data, n, inverted) + if inverted then 0xFFFF - Be16(data, n) else Be16(data, n)) % 0x1_0000
  {
  }

  lemma NoWords(data: seq<u8>)
    ensures WordSum(data, 0, false) == 0 == WordSum(data, 0, true)
  {
  }

  method ComputeChecksum(data: seq<u8>) returns (sum: nat, inverse: nat)
    ensures (sum, inverse) == Checksum(data)
  {
    hide WordSum, Be16;
    NoWords(data);
    var i := 0;
    sum, inverse := 0, 0;
    ghost var n := |data| - |data| % 2;
    while i + 1 < |data|
      invariant 0 <= i <= n && i % 2 == 0
      invariant sum == WordSum(data, i, false) && inverse == WordSum(data, i, true)
    {
      WordSumNext(data, i, false);
      WordSumNext(data, i, true);
      var word := Be16(data, i);
      sum := (sum + word) % 0x1_0000;
      inverse := (inverse + (0xFFFF - word)) % 0x1_0000;
      i := i + 2;
    }
    sum := if sum == 0xFFFF then 0 else sum;
    inverse := if inverse == 0xFFFF then 0 else inverse;
  }

  function SealBytes(data: seq<u8>): (s: seq<u8>)
    ensures |s| == 4 && Be16(s, 0) == Checksum(data).0 && Be16(s, 2) == Checksum(data).1
  {
    var (sum, inverse) := Checksum(data);
    Be16Bytes(sum) + Be16Bytes(inverse)
  }

  predicate Matches(data: seq<u8>, stored: seq<u8>)
    requires |stored| == 4
  {
    (Be16(stored, 0), Be16(stored, 2)) == Checksum(data)
  }

  predicate DirValid(dir: Table) {
    Matches(dir[..DIR_CHECKSUM], dir[DIR_CHECKSUM..])
  }

  predicate BatValid(bat: Table) {
    Matches(bat[BAT_COUNTER..], bat[..BAT_COUNTER])
  }

  function SealDir(dir: Table): Table {
    Splice(dir, DIR_CHECKSUM, SealBytes(dir[..DIR_CHECKSUM]))
  }

  function SealBat(bat: Table): Table {
    Splice(bat, BAT_CHECKSUM, SealBytes(bat[BAT_COUNTER..]))
  }

  lemma SealedDirValid(dir: Table)
    ensures DirValid(SealDir(dir))
  {
    var r := SealDir(dir);
    SpliceFrame(dir, DIR_CHECKSUM, SealBytes(dir[..DIR_CHECKSUM]), 0, DIR_CHECKSUM);
    assert r[DIR_CHECKSUM..] == SealBytes(dir[..DIR_CHECKSUM]);
  }

  lemma SealedBatValid(bat: Table)
    ensures BatValid(SealBat(bat))
  {
    var r := SealBat(bat);
    SpliceFrame(bat, BAT_CHECKSUM, SealBytes(bat[BAT_COUNTER..]), BAT_COUNTER, BLOCK_SIZE);
    assert r[..BAT_COUNTER] == SealBytes(bat[BAT_COUNTER..]);
  }

  /* ---- The image --------------------------------------------------------------------- */

  function TotalBlocks(size: nat): (n: nat)
    ensures n in {0, 64, 128, 256, 512, 1024, 2048}
    ensures n > 0 ==> size == n * BLOCK_SIZE
  {
    if size % BLOCK_SIZE != 0 then 0
    else if size / BLOCK_SIZE in {64, 128, 256, 512, 1024, 2048} then size / BLOCK_SIZE else 0
  }

  function Block(image: seq<u8>, block: nat): (d: Table)
    requires (block + 1) * BLOCK_SIZE <= |image|
  {
    image[block * BLOCK_SIZE..(block + 1) * BLOCK_SIZE]
  }

  predicate HeaderValid(header: Table, total: nat) {
    Matches(header[..HEADER_CHECKSUM], header[HEADER_CHECKSUM..HEADER_CHECKSUM + 4])
    && Be16(header, HEADER_SIZE_MBITS) * 16 == total
  }

  function SignedCounter(counter: nat): int {
    if counter < 0x8000 then counter else counter - 0x1_0000
  }

  /** Which copy the console mounts: with both valid, the second only when the
      first one's counter is lower as a signed 16-bit value. */
  function CurrentCopy(valid0: bool, counter0: nat, valid1: bool, counter1: nat): (r: Option<nat>)
    ensures r.Some? ==> r.value < 2
  {
    if valid0 && valid1 then Some(if SignedCounter(counter0) < SignedCounter(counter1) then 1 else 0)
    else if valid0 then Some(0)
    else if valid1 then Some(1)
    else None
  }

  datatype CardView = CardView(total: nat, dirBlock: nat, batBlock: nat)

  /** The card's size and mounted copies; None when it isn't a readable card. */
  function OpenView(image: seq<u8>): (r: Option<CardView>)
    ensures r.Some? ==> r.value.total == TotalBlocks(|image|) >= 64 && |image| == r.value.total * BLOCK_SIZE
    ensures r.Some? ==> r.value.dirBlock in {1, 2} && r.value.batBlock in {3, 4}
  {
    var total := TotalBlocks(|image|);
    if total == 0 || !HeaderValid(Block(image, 0), total) then None
    else
      var dir0, dir1 := Block(image, DIR_BLOCK_FIRST), Block(image, DIR_BLOCK_FIRST + 1);
      var bat0, bat1 := Block(image, BAT_BLOCK_FIRST), Block(image, BAT_BLOCK_FIRST + 1);
      var dir := CurrentCopy(DirValid(dir0), Be16(dir0, DIR_COUNTER), DirValid(dir1), Be16(dir1, DIR_COUNTER));
      var bat := CurrentCopy(BatValid(bat0), Be16(bat0, BAT_COUNTER), BatValid(bat1), Be16(bat1, BAT_COUNTER));
      if dir.None? || bat.None? then None
      else Some(CardView(total, DIR_BLOCK_FIRST + dir.value, BAT_BLOCK_FIRST + bat.value))
  }

  /* ---- The volume -------------------------------------------------------------------- */

  /** A block number as a cell of the volume's table. Numbers inside the system
      area stay apart from every cell. */
  function CellOf(block: nat): nat {
    if block >= SYSTEM_BLOCKS then block - SYSTEM_BLOCKS else 0x1_0000_0000 + block
  }

  function LinkOf(value: nat): Link {
    if value == BAT_FREE then Free else if value == BAT_CHAIN_END then End
    else if value < SYSTEM_BLOCKS then Broken else Next(value - SYSTEM_BLOCKS)
  }

  function BatLink(bat: Table, cell: nat): nat
    requires cell < MAX_DATA_BLOCKS
  {
    Be16(bat, BAT_MAP + cell * 2)
  }

  function FatView(bat: Table, total: nat): (fat: Fat)
    requires SYSTEM_BLOCKS <= total <= 2048
    ensures |fat| == total - SYSTEM_BLOCKS
    ensures forall c: nat {:trigger BatLink(bat, c)} :: c < |fat| ==> fat[c] == LinkOf(BatLink(bat, c))
  {
    seq(total - SYSTEM_BLOCKS, c requires 0 <= c < total - SYSTEM_BLOCKS => LinkOf(BatLink(bat, c)))
  }

  function BlockView(image: seq<u8>, total: nat): (blocks: seq<seq<u8>>)
    requires SYSTEM_BLOCKS <= total && |image| == total * BLOCK_SIZE
    ensures |blocks| == total - SYSTEM_BLOCKS
    ensures forall b: nat {:trigger Block(image, b)} :: SYSTEM_BLOCKS <= b < total ==>
      blocks[b - SYSTEM_BLOCKS] == Block(image, b)
  {
    seq(total - SYSTEM_BLOCKS, c requires 0 <= c < total - SYSTEM_BLOCKS => Block(image, c + SYSTEM_BLOCKS))
  }

  function Dentry(dir: Table, index: nat): (d: seq<u8>)
    requires index < DIR_ENTRIES
    ensures |d| == DENTRY_SIZE
  {
    dir[index * DENTRY_SIZE..(index + 1) * DENTRY_SIZE]
  }

  predicate DentryLive(d: seq<u8>)
    requires |d| > 0
  {
    d[0] != DENTRY_EMPTY
  }

  /** Game code, maker code and file name. */
  function Identity(d: seq<u8>): seq<u8>
    requires |d| >= DENTRY_SIZE
  {
    d[..DENTRY_MAKERCODE_END] + CString(d[DENTRY_FILENAME..DENTRY_FILENAME + FILENAME_LEN])
  }

  function Masked(d: seq<u8>): (m: seq<u8>)
    requires |d| >= DENTRY_SIZE
    ensures |m| == |d|
  {
    Splice(d, DENTRY_FIRST_BLOCK, [0, 0])
  }

  function SlotOf(d: seq<u8>): Slot
    requires |d| == DENTRY_SIZE
  {
    if DentryLive(d) then File(Identity(d), CellOf(Be16(d, DENTRY_FIRST_BLOCK)), Be16(d, DENTRY_BLOCK_COUNT), Masked(d))
    else Vacant
  }

  function DirView(dir: Table): (slots: seq<Slot>)
    ensures |slots| == DIR_ENTRIES
    ensures forall i: nat {:trigger Dentry(dir, i)} :: i < DIR_ENTRIES ==> slots[i] == SlotOf(Dentry(dir, i))
  {
    seq(DIR_ENTRIES, i requires 0 <= i < DIR_ENTRIES => SlotOf(Dentry(dir, i)))
  }

  /** The volume the mounted directory and table describe. */
  function CardOf(image: seq<u8>): Volume
    requires OpenView(image).Some?
  {
    var v := OpenView(image).value;
    Volume(FatView(Block(image, v.batBlock), v.total), BlockView(image, v.total), DirView(Block(image, v.dirBlock)))
  }

  /* ---- What each write changes ---------------------------------------------------------- */

  lemma LinkWrite(bat: Table, total: nat, cell: nat, value: nat)
    requires SYSTEM_BLOCKS <= total <= 2048 && cell < total - SYSTEM_BLOCKS && value < 0x1_0000
    ensures FatView(Splice(bat, BAT_MAP + cell * 2, Be16Bytes(value)), total)
      == FatView(bat, total)[cell := LinkOf(value)]
  {
    var at := BAT_MAP + cell * 2;
    var bat': Table := Splice(bat, at, Be16Bytes(value));
    forall c | 0 <= c < total - SYSTEM_BLOCKS && c != cell ensures BatLink(bat', c) == BatLink(bat, c) {
      Be16Frame(bat, at, Be16Bytes(value), BAT_MAP + c * 2);
    }
    Be16Written(bat, at, value);
    assert FatView(bat', total) == FatView(bat, total)[cell := LinkOf(value)];
  }

  /** The map comes after the table's own header fields. */
  lemma BatHeaderFrame(bat: Table, total: nat, at: nat, bytes: seq<u8>)
    requires SYSTEM_BLOCKS <= total <= 2048 && at + |bytes| <= BAT_MAP
    ensures FatView(Splice(bat, at, bytes), total) == FatView(bat, total)
  {
    var bat': Table := Splice(bat, at, bytes);
    forall c | 0 <= c < total - SYSTEM_BLOCKS ensures BatLink(bat', c) == BatLink(bat, c) {
      Be16Frame(bat, at, bytes, BAT_MAP + c * 2);
    }
    assert FatView(bat', total) == FatView(bat, total);
  }

  lemma DentryWrite(dir: Table, index: nat, d: seq<u8>)
    requires index < DIR_ENTRIES && |d| == DENTRY_SIZE
    ensures DirView(Splice(dir, index * DENTRY_SIZE, d)) == DirView(dir)[index := SlotOf(d)]
  {
    var dir': Table := Splice(dir, index * DENTRY_SIZE, d);
    forall i | 0 <= i < DIR_ENTRIES && i != index ensures Dentry(dir', i) == Dentry(dir, i) {
      SpliceFrame(dir, index * DENTRY_SIZE, d, i * DENTRY_SIZE, (i + 1) * DENTRY_SIZE);
    }
    assert Dentry(dir', index) == d;
    assert DirView(dir') == DirView(dir)[index := SlotOf(d)];
  }

  /** The entries come before the directory's own trailer. */
  lemma DirTrailerFrame(dir: Table, at: nat, bytes: seq<u8>)
    requires DIR_COUNTER <= at && at + |bytes| <= BLOCK_SIZE
    ensures DirView(Splice(dir, at, bytes)) == DirView(dir)
  {
    var dir': Table := Splice(dir, at, bytes);
    forall i | 0 <= i < DIR_ENTRIES ensures Dentry(dir', i) == Dentry(dir, i) {
      SpliceFrame(dir, at, bytes, i * DENTRY_SIZE, (i + 1) * DENTRY_SIZE);
    }
    assert DirView(dir') == DirView(dir);
  }

  /** Writing one whole block changes that block and no other. */
  lemma BlockWrite(image: seq<u8>, block: nat, data: seq<u8>, b: nat)
    requires (block + 1) * BLOCK_SIZE <= |image| && (b + 1) * BLOCK_SIZE <= |image| && |data| == BLOCK_SIZE
    ensures Block(Splice(image, block * BLOCK_SIZE, data), b) == if b == block then data else Block(image, b)
  {
    if b != block {
      SpliceFrame(image, block * BLOCK_SIZE, data, b * BLOCK_SIZE, (b + 1) * BLOCK_SIZE);
    }
  }

  lemma DataWrite(image: seq<u8>, total: nat, cell: nat, data: seq<u8>)
    requires SYSTEM_BLOCKS <= total && |image| == total * BLOCK_SIZE && cell < total - SYSTEM_BLOCKS
      && |data| == BLOCK_SIZE
    ensures var image' := Splice(image, (cell + SYSTEM_BLOCKS) * BLOCK_SIZE, data);
      && BlockView(image', total) == BlockView(image, total)[cell := data]
      && forall b :: 0 <= b < SYSTEM_BLOCKS ==> Block(image', b) == Block(image, b)
  {
    var image' := Splice(image, (cell + SYSTEM_BLOCKS) * BLOCK_SIZE, data);
    forall b | 0 <= b < total ensures Block(image', b) == if b == cell + SYSTEM_BLOCKS then data else Block(image, b) {
      BlockWrite(image, cell + SYSTEM_BLOCKS, data, b);
    }
    assert BlockView(image', total) == BlockView(image, total)[cell := data];
  }

  lemma SystemWrite(image: seq<u8>, total: nat, block: nat, data: seq<u8>)
    requires SYSTEM_BLOCKS <= total && |image| == total * BLOCK_SIZE && block < SYSTEM_BLOCKS && |data| == BLOCK_SIZE
    ensures var image' := Splice(image, block * BLOCK_SIZE, data);
      && BlockView(image', total) == BlockView(image, total)
      && forall b :: 0 <= b < SYSTEM_BLOCKS ==> Block(image', b) == if b == block then data else Block(image, b)
  {
    var image' := Splice(image, block * BLOCK_SIZE, data);
    forall b | 0 <= b < total ensures Block(image', b) == if b == block then data else Block(image, b) {
      BlockWrite(image, block, data, b);
    }
    assert BlockView(image', total) == BlockView(image, total);
  }
}
