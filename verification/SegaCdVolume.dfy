/** A Sega CD backup RAM volume: saves back to back from block 1, a directory of
    encoded blocks, two entries each, growing down from the format block, and the
    counts the format block keeps four times over. */
module SegaCdVolume {
  import opened Bytes
  import opened Status
  import opened SegaCdBlock

  const NAME_LEN := 11
  const ENTRY_SIZE := 16
  const FORMAT_FREE := 0x10
  const FORMAT_FILES := 0x18

  predicate ValidSize(n: int) {
    n == 0x2000 || n == 0x4000 || n == 0x8000 || n == 0x1_0000 || n == 0x2_0000 || n == 0x4_0000 || n == 0x8_0000
  }

  predicate WholeBlocks(n: int) {
    n % 64 == 0 && 128 <= n / 64 <= 8192
  }

  type Volume = v: seq<u8> | WholeBlocks(|v|) witness Zeros(0x2000)

  function Blocks(v: Volume): (n: nat)
    ensures |v| == 64 * n && 128 <= n <= 8192
  {
    |v| / 64
  }

  function FormatAt(v: Volume): nat {
    |v| - 64
  }

  /* ---- Counts ---------------------------------------------------------------------------- */

  function Copy(s: seq<u8>, at: nat, j: nat): nat
    requires at + 8 <= |s| && j < 4
  {
    Be16(s, at + 2 * j)
  }

  /** How many of the first `n` copies hold `x`. */
  function Agree(s: seq<u8>, at: nat, x: nat, n: nat): nat
    requires at + 8 <= |s| && n <= 4
  {
    if n == 0 then 0 else Agree(s, at, x, n - 1) + (if Copy(s, at, n - 1) == x then 1 else 0)
  }

  /** A stored count: the first or second copy, when three copies agree with it. */
  function Count(s: seq<u8>, at: nat): Option<nat>
    requires at + 8 <= |s|
  {
    if Agree(s, at, Copy(s, at, 0), 4) >= 3 then Some(Copy(s, at, 0))
    else if Agree(s, at, Copy(s, at, 1), 4) >= 3 then Some(Copy(s, at, 1))
    else None
  }

  lemma AgreeFour(s: seq<u8>, at: nat, x: nat)
    requires at + 8 <= |s|
    ensures Agree(s, at, x, 4) == (if Copy(s, at, 0) == x then 1 else 0) + (if Copy(s, at, 1) == x then 1 else 0)
                                  + (if Copy(s, at, 2) == x then 1 else 0) + (if Copy(s, at, 3) == x then 1 else 0)
  {
    assert Agree(s, at, x, 1) == if Copy(s, at, 0) == x then 1 else 0;
    assert Agree(s, at, x, 2) == Agree(s, at, x, 1) + if Copy(s, at, 1) == x then 1 else 0;
    assert Agree(s, at, x, 3) == Agree(s, at, x, 2) + if Copy(s, at, 2) == x then 1 else 0;
  }

  /** A count stands exactly when three of its four copies agree, whichever three. */
  lemma CountStands(s: seq<u8>, at: nat, x: nat)
    requires at + 8 <= |s|
    ensures Count(s, at) == Some(x) <==> Agree(s, at, x, 4) >= 3
  {
    AgreeFour(s, at, x);
    AgreeFour(s, at, Copy(s, at, 0));
    AgreeFour(s, at, Copy(s, at, 1));
  }

  method ReadCount(vol: array<u8>, at: nat) returns (r: Option<nat>)
    requires at + 8 <= vol.Length
    ensures r == Count(vol[..], at)
  {
    for i := 0 to 2
      invariant i > 0 ==> Agree(vol[..], at, Copy(vol[..], at, 0), 4) < 3
      invariant i > 1 ==> Agree(vol[..], at, Copy(vol[..], at, 1), 4) < 3
    {
      var agree := 0;
      for j := 0 to 4
        invariant agree == Agree(vol[..], at, Copy(vol[..], at, i), j)
      {
        if Be16(vol[..], at + 2 * j) == Be16(vol[..], at + 2 * i) {
          agree := agree + 1;
        }
      }
      if agree >= 3 {
        return Some(Be16(vol[..], at + 2 * i));
      }
    }
    r := None;
  }

  function CountBytes(x: nat): (s: seq<u8>)
    ensures |s| == 8
  {
    Be16Bytes(x) + Be16Bytes(x) + Be16Bytes(x) + Be16Bytes(x)
  }

  /** Every copy of a count holds `x`. */
  ghost predicate AllCopies(s: seq<u8>, at: nat, x: nat)
    requires at + 8 <= |s|
  {
    forall j: nat {:trigger Copy(s, at, j)} :: j < 4 ==> Copy(s, at, j) == x
  }

  lemma AllCopiesStand(s: seq<u8>, at: nat, x: nat)
    requires at + 8 <= |s| && AllCopies(s, at, x)
    ensures Count(s, at) == Some(x)
  {
    AgreeFour(s, at, x);
    CountStands(s, at, x);
  }

  lemma CountWritten(s: seq<u8>, at: nat, x: nat)
    requires at + 8 <= |s| && x < 0x1_0000
    ensures AllCopies(Splice(s, at, CountBytes(x)), at, x)
  {
    var r := Splice(s, at, CountBytes(x));
    assert r[at..at + 8] == CountBytes(x);
    forall j: nat | j < 4 ensures Copy(r, at, j) == x {
      assert r[at + 2 * j] == CountBytes(x)[2 * j] == Be16Bytes(x)[0];
      assert r[at + 2 * j + 1] == CountBytes(x)[2 * j + 1] == Be16Bytes(x)[1];
    }
  }

  lemma CopiesSame(s: seq<u8>, t: seq<u8>, at: nat, x: nat)
    requires at + 8 <= |s| == |t| && s[at..at + 8] == t[at..at + 8]
    ensures AllCopies(s, at, x) ==> AllCopies(t, at, x)
  {
    forall j: nat | j < 4 ensures Copy(s, at, j) == Copy(t, at, j) {
      assert s[at + 2 * j] == s[at..at + 8][2 * j] && t[at + 2 * j] == t[at..at + 8][2 * j];
      assert s[at + 2 * j + 1] == s[at..at + 8][2 * j + 1] && t[at + 2 * j + 1] == t[at..at + 8][2 * j + 1];
    }
  }

  method WriteCount(vol: array<u8>, at: nat, x: nat)
    requires at + 8 <= vol.Length
    modifies vol
    ensures vol[..] == Splice(old(vol[..]), at, CountBytes(x))
  {
    ghost var was := vol[..];
    for j := 0 to 4
      invariant forall i :: 0 <= i < vol.Length ==>
        vol[i] == if at <= i < at + 2 * j then CountBytes(x)[i - at] else was[i]
    {
      vol[at + 2 * j], vol[at + 2 * j + 1] := Be16Bytes(x)[0], Be16Bytes(x)[1];
    }
    assert vol[..] == Splice(was, at, CountBytes(x));
  }

  /* ---- Space ------------------------------------------------------------------------------ */

  function DirBlocks(files: nat): nat {
    (files + 1) / 2
  }

  function DataEnd(blocks: nat, files: nat): int {
    blocks - 1 - DirBlocks(files)
  }

  /** The block held for the next entry's directory block when every one is full. */
  function HeldBlock(files: nat): nat {
    if files % 2 == 1 then 0 else 1
  }

  /** The free count for `files` saves ending before block `next`. */
  function BiosFree(blocks: nat, files: nat, next: nat): nat
    requires DirBlocks(files) + 1 <= blocks
  {
    var end := DataEnd(blocks, files);
    if end >= next + HeldBlock(files) then end - next - HeldBlock(files) else 0
  }

  function InjectCost(len: nat, files: nat): nat {
    len + files % 2
  }

  /* ---- Saves ------------------------------------------------------------------------------ */

  datatype Save = Save(name: seq<u8>, flag: u8, data: seq<u8>)

  function Len(s: Save): nat {
    |s.data| / 64
  }

  predicate BlockDecodes(code: Code, data: seq<u8>, i: nat)
    requires 64 * i + 64 <= |data|
  {
    code.decode(data[64 * i..64 * i + 64]).Some?
  }

  predicate AllDecode(code: Code, data: seq<u8>) {
    forall i: nat {:trigger BlockDecodes(code, data, i)} :: i < |data| / 64 ==> BlockDecodes(code, data, i)
  }

  /** A save of whole blocks, whose blocks decode if it is protected. */
  predicate Sound(code: Code, s: Save) {
    && |s.name| == NAME_LEN && |s.data| % 64 == 0 && 1 <= Len(s) < 0x1_0000
    && (s.flag != 0 ==> AllDecode(code, s.data))
  }

  predicate AllSound(code: Code, saves: seq<Save>) {
    forall i {:trigger Sound(code, saves[i])} :: 0 <= i < |saves| ==> Sound(code, saves[i])
  }

  /** The block save `i` starts at, when the saves lie back to back from block 1. */
  function Start(saves: seq<Save>, i: nat): (n: nat)
    requires i <= |saves|
    ensures n >= 1
  {
    if i == 0 then 1 else Start(saves, i - 1) + Len(saves[i - 1])
  }

  /** The block after the last save. */
  function End(saves: seq<Save>): (n: nat)
    ensures n >= 1
  {
    Start(saves, |saves|)
  }

  lemma {:induction false} StartPrefix(t: seq<Save>, u: seq<Save>, n: nat)
    requires n <= |t| <= |u| && forall i :: 0 <= i < n ==> t[i] == u[i]
    ensures Start(t, n) == Start(u, n)
  {
    if n > 0 {
      StartPrefix(t, u, n - 1);
    }
  }

  lemma {:induction false} StartGrows(saves: seq<Save>, i: nat, j: nat)
    requires i <= j <= |saves|
    ensures Start(saves, i) <= Start(saves, j)
    decreases j
  {
    if i < j {
      StartGrows(saves, i, j - 1);
    }
  }

  lemma EndSnoc(saves: seq<Save>, s: Save)
    ensures End(saves + [s]) == End(saves) + Len(s)
  {
    StartPrefix(saves, saves + [s], |saves|);
  }

  lemma SoundPrefix(code: Code, saves: seq<Save>, k: nat)
    requires k <= |saves| && AllSound(code, saves)
    ensures AllSound(code, saves[..k])
  {
    forall i | 0 <= i < k ensures Sound(code, saves[..k][i]) {
      assert Sound(code, saves[i]);
    }
  }

  lemma SoundSnoc(code: Code, saves: seq<Save>, s: Save)
    requires AllSound(code, saves) && Sound(code, s)
    ensures AllSound(code, saves + [s])
  {
    var u := saves + [s];
    forall i | 0 <= i < |u| ensures Sound(code, u[i]) {
      if i < |saves| {
        assert Sound(code, saves[i]);
      }
    }
  }

  /** The 16 bytes of an entry naming `s`, with its data from block `start`. */
  predicate IsEntry(raw: seq<u8>, s: Save, start: nat) {
    && |raw| == ENTRY_SIZE && |s.name| == NAME_LEN
    && raw[..NAME_LEN] == s.name && raw[11] == s.flag && Be16(raw, 12) == start && Be16(raw, 14) == Len(s)
  }

  lemma Be16Back(s: seq<u8>, at: nat)
    requires at + 2 <= |s|
    ensures Be16Bytes(Be16(s, at)) == s[at..at + 2]
  {
  }

  lemma Be16Same(s: seq<u8>, t: seq<u8>, at: nat)
    requires at + 2 <= |s| && at + 2 <= |t| && Be16(s, at) == Be16(t, at)
    ensures s[at] == t[at] && s[at + 1] == t[at + 1]
  {
  }

  /** An entry is its four fields and nothing more. */
  lemma EntryOnce(raw: seq<u8>, other: seq<u8>, s: Save, start: nat)
    requires IsEntry(raw, s, start) && IsEntry(other, s, start)
    ensures raw == other
  {
    Be16Same(raw, other, 12);
    Be16Same(raw, other, 14);
    forall i | 0 <= i < 16 ensures raw[i] == other[i] {
      if i < 11 {
        assert raw[i] == s.name[i] && other[i] == s.name[i];
      }
    }
  }

  lemma EntryBuilt(s: Save, start: nat)
    requires |s.name| == NAME_LEN && start < 0x1_0000 && Len(s) < 0x1_0000
    ensures IsEntry(s.name + [s.flag] + Be16Bytes(start) + Be16Bytes(Len(s)), s, start)
  {
    var raw := s.name + [s.flag] + Be16Bytes(start) + Be16Bytes(Len(s));
    assert raw[12] == Be16Bytes(start)[0] && raw[13] == Be16Bytes(start)[1];
    assert raw[14] == Be16Bytes(Len(s))[0] && raw[15] == Be16Bytes(Len(s))[1];
  }

  /* ---- Directory --------------------------------------------------------------------------- */

  /** Block `b` of the directory, counted down from the format block. */
  function DirBlock(v: Volume, b: nat): (s: seq<u8>)
    requires b + 2 <= Blocks(v)
    ensures |s| == 64
  {
    v[64 * (Blocks(v) - 2 - b)..64 * (Blocks(v) - 1 - b)]
  }

  function Half(slot: nat): nat {
    if slot % 2 == 1 then 0 else ENTRY_SIZE
  }

  function Slot(code: Code, v: Volume, slot: nat): (r: Option<seq<u8>>)
    requires slot / 2 + 2 <= Blocks(v)
    ensures r.Some? ==> |r.value| == ENTRY_SIZE
  {
    match code.decode(DirBlock(v, slot / 2))
    case None => None
    case Some(p) => Some(p[Half(slot)..Half(slot) + ENTRY_SIZE])
  }

  /** The file and free counts, when the size is one a volume has, both counts stand and
      the directory leaves a block for data. */
  function Counts(v: Volume): (r: Option<(nat, nat)>)
    ensures r.Some? ==> DirBlocks(r.value.0) + 2 <= Blocks(v)
  {
    if !ValidSize(|v|) then None
    else
      match (Count(v, FormatAt(v) + FORMAT_FILES), Count(v, FormatAt(v) + FORMAT_FREE))
      case (Some(files), Some(free)) => if DirBlocks(files) + 2 > Blocks(v) then None else Some((files, free))
      case _ => None
  }

  /** The save an entry names, when it is valid and begins where the last one ended. */
  function SaveAt(code: Code, v: Volume, files: nat, raw: seq<u8>, next: nat): Option<Save>
    requires |raw| == ENTRY_SIZE && DirBlocks(files) + 2 <= Blocks(v)
  {
    var start, len := Be16(raw, 12), Be16(raw, 14);
    if start < 1 || len < 1 || start + len + HeldBlock(files) > DataEnd(Blocks(v), files) || start != next then None
    else
      var data := v[64 * start..64 * (start + len)];
      if raw[11] != 0 && !AllDecode(code, data) then None
      else Some(Save(raw[..NAME_LEN], raw[11], data))
  }

  /** The saves of the first `i` entries. */
  function Parsed(code: Code, v: Volume, files: nat, i: nat): Option<seq<Save>>
    requires i <= files && DirBlocks(files) + 2 <= Blocks(v)
  {
    if i == 0 then Some([])
    else
      match Parsed(code, v, files, i - 1)
      case None => None
      case Some(t) =>
        match Slot(code, v, i - 1)
        case None => None
        case Some(raw) =>
          match SaveAt(code, v, files, raw, End(t))
          case None => None
          case Some(s) => Some(t + [s])
  }

  /** What reading the whole directory gives. */
  function Directory(code: Code, v: Volume): Option<seq<Save>> {
    match Counts(v)
    case None => None
    case Some((files, free)) => Parsed(code, v, files, files)
  }

  ghost predicate SlotHolds(code: Code, v: Volume, saves: seq<Save>, i: nat)
    requires i < |saves| && i / 2 + 2 <= Blocks(v)
  {
    Slot(code, v, i).Some? && IsEntry(Slot(code, v, i).value, saves[i], Start(saves, i))
  }

  ghost predicate SlotsHold(code: Code, v: Volume, saves: seq<Save>)
    requires DirBlocks(|saves|) + 1 <= Blocks(v)
  {
    forall i: nat {:trigger SlotHolds(code, v, saves, i)} :: i < |saves| ==> SlotHolds(code, v, saves, i)
  }

  ghost predicate DataAt(v: Volume, saves: seq<Save>, i: nat)
    requires i < |saves|
  {
    64 * Start(saves, i + 1) <= |v| && v[64 * Start(saves, i)..64 * Start(saves, i + 1)] == saves[i].data
  }

  ghost predicate DataHolds(v: Volume, saves: seq<Save>) {
    forall i: nat {:trigger DataAt(v, saves, i)} :: i < |saves| ==> DataAt(v, saves, i)
  }

  /** The volume holds exactly `saves`: counted, listed in order, lying back to back from
      block 1, and clear of the directory and the held block. */
  ghost predicate Holds(code: Code, v: Volume, saves: seq<Save>) {
    && Counts(v).Some? && Counts(v).value.0 == |saves|
    && AllSound(code, saves)
    && End(saves) + HeldBlock(|saves|) <= DataEnd(Blocks(v), |saves|)
    && SlotsHold(code, v, saves)
    && DataHolds(v, saves)
  }
}
