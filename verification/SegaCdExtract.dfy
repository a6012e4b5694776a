/** Copying a Sega CD save out as a unit, and formatting a volume. */
module SegaCdExtract {
  import opened Bytes
  import opened Status
  import opened SegaCdBlock
  import opened SegaCdVolume
  import opened SegaCdDirectory
  import opened SegaCdLayout
  import opened SegaCdUnit
  import opened SegaCdCard
  import opened SegaCdErase

  /* ---- Extraction --------------------------------------------------------------------------------- */

  /** Whether slot `i` holds a valid entry starting at `first`. */
  predicate SlotStarts(code: Code, v: Volume, files: nat, i: nat, first: nat)
    requires DirBlocks(files) + 2 <= Blocks(v) && i < files
  {
    match Slot(code, v, i)
    case None => false
    case Some(raw) => Be16(raw, 12) == first && SaveAt(code, v, files, raw, first).Some?
  }

  /** The first such slot, or the number of files. */
  function FindSlot(code: Code, v: Volume, files: nat, first: nat, i: nat): (k: nat)
    requires DirBlocks(files) + 2 <= Blocks(v) && i <= files
    ensures i <= k <= files && (k < files ==> SlotStarts(code, v, files, k, first))
    ensures forall j: nat {:trigger SlotStarts(code, v, files, j, first)} :: i <= j < k ==>
      !SlotStarts(code, v, files, j, first)
    decreases files - i
  {
    if i == files || SlotStarts(code, v, files, i, first) then i else FindSlot(code, v, files, first, i + 1)
  }

  /** What extraction gives of save `s`. */
  ghost predicate UnitIs(s: Save, blocks: nat, st: Status, unit: seq<u8>) {
    if Len(s) != blocks then st == InvalidArg else st == Status.Ok && |s.name| == NAME_LEN && unit == UnitOf(s)
  }

  /** What extraction answers and gives, on any volume. */
  ghost predicate ExtractResult(code: Code, v: Volume, first: nat, blocks: nat, st: Status, unit: seq<u8>) {
    match Counts(v)
    case None => st == InvalidArg
    case Some((files, free)) =>
      var k := FindSlot(code, v, files, first, 0);
      if k == files then st == InvalidArg
      else UnitIs(SaveAt(code, v, files, Slot(code, v, k).value, first).value, blocks, st, unit)
  }

  /** The unit of a valid entry, if it has the size asked for. */
  method UnitOfEntry(ghost code: Code, vol: array<u8>, files: nat, e: Entry, blocks: nat)
    returns (st: Status, unit: seq<u8>)
    requires WholeBlocks(vol.Length) && DirBlocks(files) + 2 <= vol.Length / 64 && |e.raw| == ENTRY_SIZE
      && e == EntryOf(e.raw)
    requires SaveAt(code, vol[..], files, e.raw, e.start).Some?
    ensures UnitIs(SaveAt(code, vol[..], files, e.raw, e.start).value, blocks, st, unit)
  {
    SaveAtFields(code, vol[..], files, e.raw, e.start);
    hide SaveAt;
    if e.blocks != blocks {
      return InvalidArg, [];
    }
    unit := MAGIC + e.raw[..NAME_LEN] + [e.raw[11]] + Be16Bytes(blocks) + [0, 0]
      + vol[64 * e.start..64 * (e.start + blocks)];
    st := Status.Ok;
  }

  /** Whether slot `i` holds a valid entry that starts at `first`, and its unit. */
  method SlotUnit(ghost code: Code, vol: array<u8>, files: nat, i: nat, first: nat, blocks: nat)
    returns (found: bool, st: Status, unit: seq<u8>)
    requires IsBlockCode(code) && WholeBlocks(vol.Length) && DirBlocks(files) + 2 <= vol.Length / 64 && i < files
    ensures found == SlotStarts(code, vol[..], files, i, first)
    ensures found ==> UnitIs(SaveAt(code, vol[..], files, Slot(code, vol[..], i).value, first).value, blocks, st, unit)
  {
    hide SaveAt, UnitIs, Slot;
    found, st, unit := false, InvalidArg, [];
    var e := ReadSlot(code, vol, i);
    if e.Some? && e.value.start == first {
      found := EntryValid(code, vol, files, e.value);
      if found {
        st, unit := UnitOfEntry(code, vol, files, e.value, blocks);
      }
    }
  }

  method Extract(ghost code: Code, vol: array<u8>, first: nat, blocks: nat) returns (st: Status, unit: seq<u8>)
    requires IsBlockCode(code) && WholeBlocks(vol.Length)
    ensures ExtractResult(code, vol[..], first, blocks, st, unit)
  {
    hide SaveAt, UnitIs, SlotStarts;
    unit := [];
    var c := ReadCounts(vol);
    if c.None? {
      return InvalidArg, unit;
    }
    ghost var v: Volume := vol[..];
    var files := c.value.0;
    for i := 0 to files
      invariant FindSlot(code, v, files, first, 0) == FindSlot(code, v, files, first, i)
    {
      var found;
      found, st, unit := SlotUnit(code, vol, files, i, first, blocks);
      if found {
        return;
      }
    }
    return InvalidArg, unit;
  }

  lemma StartsApart(code: Code, saves: seq<Save>, i: nat, j: nat)
    requires AllSound(code, saves) && i < j < |saves|
    ensures Start(saves, i) < Start(saves, j)
  {
    assert Sound(code, saves[i]);
    StartGrows(saves, i + 1, j);
  }

  lemma SaveAtIs(code: Code, v: Volume, files: nat, raw: seq<u8>, s: Save, start: nat)
    requires DirBlocks(files) + 2 <= Blocks(v) && IsEntry(raw, s, start) && Sound(code, s) && start >= 1
    requires start + Len(s) + HeldBlock(files) <= DataEnd(Blocks(v), files)
      && v[64 * start..64 * (start + Len(s))] == s.data
    ensures SaveAt(code, v, files, raw, start) == Some(s)
  {
  }

  lemma HeldParts(code: Code, v: Volume, saves: seq<Save>, i: nat)
    requires Holds(code, v, saves) && i < |saves|
    ensures SlotHolds(code, v, saves, i) && DataAt(v, saves, i) && Sound(code, saves[i])
    ensures 1 <= Start(saves, i) && Start(saves, i) + Len(saves[i]) == Start(saves, i + 1) <= End(saves)
  {
    StartGrows(saves, i + 1, |saves|);
  }

  lemma HeldSlot(code: Code, v: Volume, saves: seq<Save>, i: nat)
    requires Holds(code, v, saves) && i < |saves|
    ensures Slot(code, v, i).Some? && Be16(Slot(code, v, i).value, 12) == Start(saves, i)
    ensures SaveAt(code, v, |saves|, Slot(code, v, i).value, Start(saves, i)) == Some(saves[i])
  {
    hide SaveAt, Start, End, AllSound, SlotsHold, DataHolds, Slot, Sound;
    HeldParts(code, v, saves, i);
    SaveAtIs(code, v, |saves|, Slot(code, v, i).value, saves[i], Start(saves, i));
  }

  /** On a volume that holds saves, a slot starts at `first` exactly when its save does. */
  lemma SlotStartsIff(code: Code, v: Volume, saves: seq<Save>, i: nat, first: nat)
    requires Holds(code, v, saves) && i < |saves|
    ensures SlotStarts(code, v, |saves|, i, first) <==> Start(saves, i) == first
    ensures Slot(code, v, i).Some?
      && SaveAt(code, v, |saves|, Slot(code, v, i).value, Start(saves, i)) == Some(saves[i])
  {
    hide SaveAt, Start, AllSound, SlotsHold, DataHolds, Slot;
    HeldSlot(code, v, saves, i);
  }

  /** Extraction of a held save gives exactly its unit. */
  lemma ExtractsHeld(code: Code, v: Volume, saves: seq<Save>, k: nat, st: Status, unit: seq<u8>)
    requires Holds(code, v, saves) && k < |saves| && ExtractResult(code, v, Start(saves, k), Len(saves[k]), st, unit)
    ensures st == Status.Ok && |saves[k].name| == NAME_LEN && unit == UnitOf(saves[k])
  {
    SlotStartsIff(code, v, saves, k, Start(saves, k));
    var m := FindSlot(code, v, |saves|, Start(saves, k), 0);
    assert m <= k;
    SlotStartsIff(code, v, saves, m, Start(saves, k));
    if m < k {
      StartsApart(code, saves, m, k);
    }
    assert Sound(code, saves[k]);
  }

  /** Extraction from where no save starts, or with the wrong size, is refused. */
  lemma ExtractsOnlyHeld(code: Code, v: Volume, saves: seq<Save>, first: nat, blocks: nat, st: Status, unit: seq<u8>)
    requires Holds(code, v, saves) && ExtractResult(code, v, first, blocks, st, unit)
    ensures st == Status.Ok || st == InvalidArg
    ensures st == Status.Ok
      <==> exists k: nat {:trigger StartsAt(saves, k, first)} ::
        k < |saves| && StartsAt(saves, k, first) && Len(saves[k]) == blocks
  {
    var m := FindSlot(code, v, |saves|, first, 0);
    if m < |saves| {
      SlotStartsIff(code, v, saves, m, first);
      assert StartsAt(saves, m, first);
      forall k: nat | k < |saves| && StartsAt(saves, k, first) ensures k == m {
        if k < m {
          StartsApart(code, saves, k, m);
        } else if m < k {
          StartsApart(code, saves, m, k);
        }
      }
    } else {
      forall k: nat | k < |saves| ensures !StartsAt(saves, k, first) {
        SlotStartsIff(code, v, saves, k, first);
        assert !SlotStarts(code, v, |saves|, k, first);
      }
    }
  }

  /* ---- Format --------------------------------------------------------------------------------------- */

  /** What the format block holds before the counts and after them. */
  const FORMAT_HEAD: seq<u8> :=
    [0x5F, 0x5F, 0x5F, 0x5F, 0x5F, 0x5F, 0x5F, 0x5F, 0x5F, 0x5F, 0x5F, 0x00, 0x00, 0x00, 0x00, 0x40]

  const SIGNATURE: seq<u8> := [
    0x53, 0x45, 0x47, 0x41, 0x5F, 0x43, 0x44, 0x5F, 0x52, 0x4F, 0x4D, 0x00, 0x01, 0x00, 0x00, 0x00,
    0x52, 0x41, 0x4D, 0x5F, 0x43, 0x41, 0x52, 0x54, 0x52, 0x49, 0x44, 0x47, 0x45, 0x5F, 0x5F, 0x5F]

  ghost predicate FormatBlock(v: Volume) {
    v[FormatAt(v)..FormatAt(v) + 0x10] == FORMAT_HEAD && v[FormatAt(v) + 0x20..] == SIGNATURE
  }

  /** Every byte accounted for: the saves, their directory as encoding leaves it, the format
      block as formatting writes it, and zeros everywhere else. */
  ghost predicate Canonical(code: Code, v: Volume, saves: seq<Save>) {
    && HoldsCounted(code, v, saves) && TailEncodes(code, v, saves, 0) && FormatBlock(v)
    && ZeroBetween(v, 0, 64) && ZeroBetween(v, 64 * End(saves), 64 * (Blocks(v) - 1 - DirBlocks(|saves|)))
  }

  method Format(ghost code: Code, size: nat) returns (st: Status, vol: array<u8>)
    ensures st == if ValidSize(size) then Status.Ok else InvalidArg
    ensures fresh(vol) && (st.Ok? ==> vol.Length == size && Canonical(code, vol[..], []))
  {
    if !ValidSize(size) {
      vol := new u8[0];
      return InvalidArg, vol;
    }
    vol := new u8[size](_ => 0);
    var at := size - 64;
    WriteAt(vol, at, FORMAT_HEAD);
    ghost var v1: Volume := vol[..];
    WriteAt(vol, at + 0x20, SIGNATURE);
    ghost var v2: Volume := vol[..];
    WriteCounts(vol, BiosFree(size / 64, 0, 1), 0);
    FormatIsCanonical(code, v1, v2, vol[..]);
    st := Status.Ok;
  }

  lemma FormatIsCanonical(code: Code, v1: Volume, v2: Volume, w: Volume)
    requires Zeroed(v1[..FormatAt(v1)]) && v1[FormatAt(v1)..FormatAt(v1) + 0x10] == FORMAT_HEAD
    requires Wrote(v1, v2, FormatAt(v1) + 0x20, SIGNATURE) && Counted(v2, w, BiosFree(Blocks(v2), 0, 1), 0)
    ensures Canonical(code, w, [])
  {
    var f := FormatAt(v1);
    PrefixKept(v1, v2, f + 0x20, f, f + 0x10);
    PrefixKept(v1, v2, f + 0x20, 0, f);
    PrefixKept(v2, w, f, 0, 64);
    StampedCounts(w, BiosFree(Blocks(v2), 0, 1), 0);
    assert v2[f + 0x20..f + 0x20 + |SIGNATURE|] == v2[f + 0x20..];
    assert Zeroed(w[..f]);
    SubZero(w, f, 0, 64);
    SubZero(w, f, 64, 64 * (Blocks(w) - 1));
  }

  lemma SubZero(w: seq<u8>, f: nat, lo: nat, hi: nat)
    requires lo <= hi <= f <= |w| && Zeroed(w[..f])
    ensures ZeroBetween(w, lo, hi)
  {
    forall i | 0 <= i < hi - lo ensures w[lo..hi][i] == 0 {
      assert w[lo..hi][i] == w[..f][lo + i];
    }
  }
}
