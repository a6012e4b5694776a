/** Reading the Sega CD directory: the walk over the entries succeeds exactly on the
    volumes that hold some sequence of saves, and gives that sequence. */
module SegaCdDirectory {
  import opened Bytes
  import opened Status
  import opened SegaCdBlock
  import opened SegaCdVolume

  /** The first entries of a volume counting `files` name `t`. */
  ghost predicate HoldsFirst(code: Code, v: Volume, files: nat, t: seq<Save>) {
    && DirBlocks(files) + 2 <= Blocks(v) && |t| <= files && AllSound(code, t)
    && (t != [] ==> End(t) + HeldBlock(files) <= DataEnd(Blocks(v), files))
    && SlotsHold(code, v, t) && DataHolds(v, t)
  }

  lemma PrefixSlot(code: Code, v: Volume, t: seq<Save>, u: seq<Save>, i: nat)
    requires i < |t| <= |u| && i / 2 + 2 <= Blocks(v) && forall k :: 0 <= k <= i ==> t[k] == u[k]
    ensures SlotHolds(code, v, u, i) == SlotHolds(code, v, t, i)
  {
    StartPrefix(t, u, i);
  }

  lemma PrefixData(v: Volume, t: seq<Save>, u: seq<Save>, i: nat)
    requires i < |t| <= |u| && forall k :: 0 <= k <= i ==> t[k] == u[k]
    ensures DataAt(v, u, i) == DataAt(v, t, i)
  {
    StartPrefix(t, u, i);
    StartPrefix(t, u, i + 1);
  }

  /** What a longer list holds, a prefix of it holds. */
  lemma HoldPrefix(code: Code, v: Volume, u: seq<Save>, t: seq<Save>)
    requires |t| <= |u| && u[..|t|] == t && DirBlocks(|u|) + 1 <= Blocks(v) && SlotsHold(code, v, u) && DataHolds(v, u)
    ensures SlotsHold(code, v, t) && DataHolds(v, t)
  {
    forall i: nat | i < |t| ensures SlotHolds(code, v, t, i) && DataAt(v, t, i) {
      assert SlotHolds(code, v, u, i) && DataAt(v, u, i);
      PrefixSlot(code, v, t, u, i);
      PrefixData(v, t, u, i);
    }
  }

  lemma FirstShorter(code: Code, v: Volume, files: nat, t: seq<Save>)
    requires HoldsFirst(code, v, files, t) && t != []
    ensures HoldsFirst(code, v, files, t[..|t| - 1])
    ensures End(t) == End(t[..|t| - 1]) + Len(t[|t| - 1])
  {
    var p := t[..|t| - 1];
    assert t == p + [t[|t| - 1]];
    EndSnoc(p, t[|t| - 1]);
    SoundPrefix(code, t, |p|);
    HoldPrefix(code, v, t, p);
  }

  lemma SaveAtFields(code: Code, v: Volume, files: nat, raw: seq<u8>, next: nat)
    requires |raw| == ENTRY_SIZE && DirBlocks(files) + 2 <= Blocks(v) && SaveAt(code, v, files, raw, next).Some?
    ensures var s := SaveAt(code, v, files, raw, next).value;
      && Sound(code, s) && Len(s) == Be16(raw, 14) && IsEntry(raw, s, next)
      && next + Len(s) + HeldBlock(files) <= DataEnd(Blocks(v), files)
      && s.data == v[64 * next..64 * (next + Len(s))]
  {
  }

  lemma FirstLonger(code: Code, v: Volume, files: nat, t: seq<Save>, raw: seq<u8>)
    requires HoldsFirst(code, v, files, t) && |t| < files
    requires Slot(code, v, |t|) == Some(raw) && SaveAt(code, v, files, raw, End(t)).Some?
    ensures HoldsFirst(code, v, files, t + [SaveAt(code, v, files, raw, End(t)).value])
  {
    SaveAtFields(code, v, files, raw, End(t));
    Append(code, v, files, t, SaveAt(code, v, files, raw, End(t)).value);
  }

  lemma SlotsAppend(code: Code, v: Volume, t: seq<Save>, s: Save)
    requires |t| / 2 + 2 <= Blocks(v) && SlotsHold(code, v, t)
    requires Slot(code, v, |t|).Some? && IsEntry(Slot(code, v, |t|).value, s, End(t))
    ensures SlotsHold(code, v, t + [s])
  {
    var u := t + [s];
    forall i: nat | i < |u| ensures SlotHolds(code, v, u, i) {
      if i < |t| {
        assert SlotHolds(code, v, t, i);
        PrefixSlot(code, v, t, u, i);
      } else {
        StartPrefix(t, u, |t|);
      }
    }
  }

  lemma DataAppend(v: Volume, t: seq<Save>, s: Save)
    requires DataHolds(v, t) && 64 * End(t) <= 64 * (End(t) + Len(s)) <= |v|
    requires s.data == v[64 * End(t)..64 * (End(t) + Len(s))]
    ensures DataHolds(v, t + [s]) && End(t + [s]) == End(t) + Len(s)
  {
    var u := t + [s];
    EndSnoc(t, s);
    forall i: nat | i < |u| ensures DataAt(v, u, i) {
      if i < |t| {
        assert DataAt(v, t, i);
        PrefixData(v, t, u, i);
      } else {
        StartPrefix(t, u, |t|);
        assert Start(u, i + 1) == End(t) + Len(s);
      }
    }
  }

  lemma Append(code: Code, v: Volume, files: nat, t: seq<Save>, s: Save)
    requires HoldsFirst(code, v, files, t) && |t| < files && Sound(code, s)
    requires Slot(code, v, |t|).Some? && IsEntry(Slot(code, v, |t|).value, s, End(t))
    requires End(t) + Len(s) + HeldBlock(files) <= DataEnd(Blocks(v), files)
    requires s.data == v[64 * End(t)..64 * (End(t) + Len(s))]
    ensures HoldsFirst(code, v, files, t + [s])
  {
    SoundSnoc(code, t, s);
    DataAppend(v, t, s);
    SlotsAppend(code, v, t, s);
  }

  lemma EntryParses(code: Code, v: Volume, files: nat, t: seq<Save>)
    requires HoldsFirst(code, v, files, t) && t != []
    ensures var i := |t| - 1;
      Slot(code, v, i).Some? && SaveAt(code, v, files, Slot(code, v, i).value, End(t[..i])) == Some(t[i])
  {
    var i := |t| - 1;
    var s := t[i];
    StartPrefix(t[..i], t, i);
    assert SlotHolds(code, v, t, i) && DataAt(v, t, i);
    assert Sound(code, s);
    assert End(t) == End(t[..i]) + Len(s);
  }

  lemma {:induction false} ParsedHolds(code: Code, v: Volume, files: nat, i: nat)
    requires i <= files && DirBlocks(files) + 2 <= Blocks(v) && Parsed(code, v, files, i).Some?
    ensures var t := Parsed(code, v, files, i).value; |t| == i && HoldsFirst(code, v, files, t)
  {
    if i > 0 {
      ParsedHolds(code, v, files, i - 1);
      FirstLonger(code, v, files, Parsed(code, v, files, i - 1).value, Slot(code, v, i - 1).value);
    }
  }

  lemma {:induction false} HoldsParses(code: Code, v: Volume, files: nat, t: seq<Save>)
    requires HoldsFirst(code, v, files, t)
    ensures Parsed(code, v, files, |t|) == Some(t)
  {
    if t != [] {
      FirstShorter(code, v, files, t);
      HoldsParses(code, v, files, t[..|t| - 1]);
      EntryParses(code, v, files, t);
      assert t == t[..|t| - 1] + [t[|t| - 1]];
    }
  }

  /** The directory reads exactly when the volume holds a sequence of saves, and that
      sequence is what it reads as. */
  lemma DirectoryIff(code: Code, v: Volume, saves: seq<Save>)
    ensures Directory(code, v) == Some(saves) <==> Holds(code, v, saves)
  {
    if Counts(v).Some? {
      var files := Counts(v).value.0;
      if Directory(code, v) == Some(saves) {
        ParsedHolds(code, v, files, files);
      }
      if Holds(code, v, saves) {
        HoldsParses(code, v, files, saves);
      }
    }
  }

  lemma {:induction false} ParsedStops(code: Code, v: Volume, files: nat, i: nat, j: nat)
    requires i <= j <= files && DirBlocks(files) + 2 <= Blocks(v) && Parsed(code, v, files, i).None?
    ensures Parsed(code, v, files, j).None?
  {
    if i < j {
      ParsedStops(code, v, files, i, j - 1);
    }
  }

  /* ---- The reading methods ------------------------------------------------------------------ */

  datatype Entry = Entry(raw: seq<u8>, start: nat, blocks: nat, protect: bool)

  function EntryOf(raw: seq<u8>): Entry
    requires |raw| == ENTRY_SIZE
  {
    Entry(raw, Be16(raw, 12), Be16(raw, 14), raw[11] != 0)
  }

  method ReadCounts(vol: array<u8>) returns (c: Option<(nat, nat)>)
    requires WholeBlocks(vol.Length)
    ensures c == Counts(vol[..])
  {
    if !ValidSize(vol.Length) {
      return None;
    }
    var at := vol.Length - 64;
    var files := ReadCount(vol, at + FORMAT_FILES);
    var free := ReadCount(vol, at + FORMAT_FREE);
    if files.None? || free.None? {
      return None;
    }
    if DirBlocks(files.value) + 2 > vol.Length / 64 {
      return None;
    }
    return Some((files.value, free.value));
  }

  method ReadSlot(ghost code: Code, vol: array<u8>, slot: nat) returns (r: Option<Entry>)
    requires IsBlockCode(code)
    requires WholeBlocks(vol.Length) && slot / 2 + 2 <= vol.Length / 64
    ensures r == match Slot(code, vol[..], slot) case None => None case Some(raw) => Some(EntryOf(raw))
  {
    var at := vol.Length / 64 - 2 - slot / 2;
    var p := Decoded(code, vol[64 * at..64 * at + 64]);
    assert vol[64 * at..64 * at + 64] == DirBlock(vol[..], slot / 2);
    match p {
      case None => r := None;
      case Some(payload) => r := Some(EntryOf(payload[Half(slot)..Half(slot) + ENTRY_SIZE]));
    }
  }

  method BlocksDecode(ghost code: Code, data: seq<u8>) returns (ok: bool)
    requires IsBlockCode(code)
    ensures ok == AllDecode(code, data)
  {
    for i := 0 to |data| / 64
      invariant forall k: nat {:trigger BlockDecodes(code, data, k)} :: k < i ==> BlockDecodes(code, data, k)
    {
      assert BlockDecodes(code, data, i) == code.decode(data[64 * i..64 * i + 64]).Some?;
      var p := Decoded(code, data[64 * i..64 * i + 64]);
      if p.None? {
        return false;
      }
    }
    return true;
  }

  /** Whether an entry is valid; the walk over the directory asks it of each. */
  method EntryValid(ghost code: Code, vol: array<u8>, files: nat, e: Entry) returns (ok: bool)
    requires IsBlockCode(code)
    requires WholeBlocks(vol.Length) && DirBlocks(files) + 2 <= vol.Length / 64 && |e.raw| == ENTRY_SIZE
      && e == EntryOf(e.raw)
    ensures ok == SaveAt(code, vol[..], files, e.raw, e.start).Some?
  {
    if e.start < 1 || e.blocks < 1 || e.start + e.blocks + HeldBlock(files) > DataEnd(vol.Length / 64, files) {
      return false;
    }
    if !e.protect {
      return true;
    }
    ok := BlocksDecode(code, vol[64 * e.start..64 * (e.start + e.blocks)]);
    assert vol[64 * e.start..64 * (e.start + e.blocks)] == vol[..][64 * e.start..64 * (e.start + e.blocks)];
  }

  ghost predicate EntryMatches(entries: seq<Entry>, saves: seq<Save>, i: nat)
    requires i < |entries| && i < |saves|
  {
    IsEntry(entries[i].raw, saves[i], Start(saves, i)) && entries[i] == EntryOf(entries[i].raw)
  }

  ghost predicate EntriesMatch(entries: seq<Entry>, saves: seq<Save>) {
    && |entries| == |saves|
    && forall i: nat {:trigger EntryMatches(entries, saves, i)} :: i < |saves| ==> EntryMatches(entries, saves, i)
  }

  lemma MatchLonger(entries: seq<Entry>, saves: seq<Save>, raw: seq<u8>, s: Save)
    requires EntriesMatch(entries, saves) && IsEntry(raw, s, End(saves))
    ensures EntriesMatch(entries + [EntryOf(raw)], saves + [s])
    ensures End(saves + [s]) == End(saves) + Len(s)
  {
    var es, u := entries + [EntryOf(raw)], saves + [s];
    EndSnoc(saves, s);
    forall i: nat | i < |u| ensures EntryMatches(es, u, i) {
      StartPrefix(saves, u, i);
      if i < |saves| {
        assert EntryMatches(entries, saves, i);
      }
    }
  }

  lemma ReadStep(code: Code, v: Volume, files: nat, saves: seq<Save>, entries: seq<Entry>, raw: seq<u8>)
    requires |saves| < files && DirBlocks(files) + 2 <= Blocks(v)
    requires Parsed(code, v, files, |saves|) == Some(saves) && EntriesMatch(entries, saves)
    requires Slot(code, v, |saves|) == Some(raw) && SaveAt(code, v, files, raw, End(saves)).Some?
    ensures var t := saves + [SaveAt(code, v, files, raw, End(saves)).value];
      && Parsed(code, v, files, |saves| + 1) == Some(t) && EntriesMatch(entries + [EntryOf(raw)], t)
      && End(t) == End(saves) + Be16(raw, 14)
  {
    SaveAtFields(code, v, files, raw, End(saves));
    MatchLonger(entries, saves, raw, SaveAt(code, v, files, raw, End(saves)).value);
  }

  method ReadDirectory(ghost code: Code, vol: array<u8>)
    returns (st: Status, files: nat, free: nat, entries: seq<Entry>)
    requires IsBlockCode(code)
    requires WholeBlocks(vol.Length)
    ensures st == match Directory(code, vol[..]) case Some(_) => Status.Ok
      case None => if Counts(vol[..]).None? then InvalidArg else Unsupported
    ensures st.Ok? ==>
      var saves := Directory(code, vol[..]).value;
      && Holds(code, vol[..], saves) && files == |saves| && EntriesMatch(entries, saves)
      && free == BiosFree(vol.Length / 64, files, End(saves))
  {
    files, free, entries := 0, 0, [];
    var c := ReadCounts(vol);
    if c.None? {
      return InvalidArg, files, free, entries;
    }
    files := c.value.0;
    var next := 1;
    ghost var v: Volume := vol[..];
    ghost var saves: seq<Save> := [];
    for i := 0 to files
      invariant Parsed(code, v, files, i) == Some(saves) && |saves| == i
      invariant EntriesMatch(entries, saves) && next == End(saves)
    {
      var e := ReadSlot(code, vol, i);
      var ok := false;
      if e.Some? {
        ok := EntryValid(code, vol, files, e.value);
      }
      if !ok || e.value.start != next {
        ParsedStops(code, v, files, i + 1, files);
        return Unsupported, files, free, entries;
      }
      ghost var raw := Slot(code, v, i).value;
      ReadStep(code, v, files, saves, entries, raw);
      saves := saves + [SaveAt(code, v, files, raw, next).value];
      next := next + e.value.blocks;
      entries := entries + [e.value];
    }
    DirectoryIff(code, v, saves);
    free := BiosFree(vol.Length / 64, files, next);
    st := Status.Ok;
  }
}
