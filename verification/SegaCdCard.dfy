/** Sega CD backup RAM: adding, removing and copying out saves in place. */
module SegaCdCard {
  import opened Bytes
  import opened Status
  import opened SegaCdBlock
  import opened SegaCdVolume
  import opened SegaCdDirectory
  import opened SegaCdLayout
  import opened SegaCdUnit

  ghost predicate NameTaken(saves: seq<Save>, name: seq<u8>) {
    exists i :: 0 <= i < |saves| && saves[i].name == name
  }

  ghost function FreeOf(v: Volume, saves: seq<Save>): nat
    requires DirBlocks(|saves|) + 1 <= Blocks(v)
  {
    BiosFree(Blocks(v), |saves|, End(saves))
  }

  /* ---- Space accounting -------------------------------------------------------------------- */

  /** While the saves fit, an added save fits exactly when the free count covers its cost,
      and then the count falls by that cost, whichever the parity. */
  lemma CostIsExact(blocks: nat, files: nat, next: nat, len: nat)
    requires DirBlocks(files) + 2 <= blocks && len >= 1
    requires next + HeldBlock(files) <= DataEnd(blocks, files)
    ensures BiosFree(blocks, files, next) >= InjectCost(len, files)
      <==> next + len + HeldBlock(files + 1) <= DataEnd(blocks, files + 1)
    ensures BiosFree(blocks, files, next) >= InjectCost(len, files) ==>
      && DirBlocks(files + 1) + 2 <= blocks
      && BiosFree(blocks, files + 1, next + len) == BiosFree(blocks, files, next) - InjectCost(len, files)
  {
  }

  /** Whether `m` one-block saves can be added one after another. */
  predicate RoomFor(blocks: nat, files: nat, next: nat, m: nat)
    requires DirBlocks(files) + 2 <= blocks && next + HeldBlock(files) <= DataEnd(blocks, files)
    decreases m
  {
    m == 0 || (
      && BiosFree(blocks, files, next) >= InjectCost(1, files)
      && (CostIsExact(blocks, files, next, 1); RoomFor(blocks, files + 1, next + 1, m - 1)))
  }

  method CountFreeSlots(free: nat, files: nat) returns (slots: nat)
    ensures slots == FreeSlots(free, files)
  {
    var left, f := free, files;
    slots := 0;
    while left >= 1 + f % 2
      invariant slots + FreeSlots(left, f) == FreeSlots(free, files)
      decreases left
    {
      left := left - (1 + f % 2);
      f := f + 1;
      slots := slots + 1;
    }
  }

  function FreeSlots(left: nat, files: nat): nat
    decreases left
  {
    if left < 1 + files % 2 then 0 else 1 + FreeSlots(left - 1 - files % 2, files + 1)
  }

  /** The slots reported are the longest run of one-block saves that can be added. */
  lemma {:induction false} FreeSlotsIsLongestRun(blocks: nat, files: nat, next: nat, m: nat)
    requires DirBlocks(files) + 2 <= blocks && next + HeldBlock(files) <= DataEnd(blocks, files)
    ensures RoomFor(blocks, files, next, m) <==> m <= FreeSlots(BiosFree(blocks, files, next), files)
    decreases m
  {
    if m > 0 && BiosFree(blocks, files, next) >= InjectCost(1, files) {
      CostIsExact(blocks, files, next, 1);
      FreeSlotsIsLongestRun(blocks, files + 1, next + 1, m - 1);
    }
  }

  /* ---- Adding a save ------------------------------------------------------------------------ */

  /** The format blocks agree but for the two counts. */
  ghost predicate SameFormat(v: Volume, w: Volume)
    requires |w| == |v|
  {
    var f := FormatAt(v);
    w[f..f + 0x10] == v[f..f + 0x10] && w[f + 0x20..] == v[f + 0x20..]
  }

  /** Both counts, in all their copies. */
  ghost predicate Stamped(v: Volume, free: nat, files: nat) {
    AllCopies(v, FormatAt(v) + FORMAT_FREE, free) && AllCopies(v, FormatAt(v) + FORMAT_FILES, files)
  }

  lemma StampedCounts(v: Volume, free: nat, files: nat)
    requires ValidSize(|v|) && Stamped(v, free, files) && DirBlocks(files) + 2 <= Blocks(v)
    ensures Counts(v) == Some((files, free))
  {
    AllCopiesStand(v, FormatAt(v) + FORMAT_FREE, free);
    AllCopiesStand(v, FormatAt(v) + FORMAT_FILES, files);
  }

  /** The volume holds `saves`, and every copy of both counts says so. */
  ghost predicate HoldsCounted(code: Code, v: Volume, saves: seq<Save>) {
    Holds(code, v, saves) && Stamped(v, FreeOf(v, saves), |saves|)
  }

  /** The counts written, and nothing else. */
  ghost predicate Counted(v: Volume, w: Volume, free: nat, files: nat) {
    |w| == |v| && ValidSize(|v|) && w[..FormatAt(v)] == v[..FormatAt(v)] && SameFormat(v, w) && Stamped(w, free, files)
  }

  lemma CountsFrames(v: Volume, m: Volume, w: Volume, a: seq<u8>, b: seq<u8>)
    requires |a| == 8 && |b| == 8 && m == Splice(v, FormatAt(v) + FORMAT_FREE, a)
    requires |m| == |v| && w == Splice(m, FormatAt(v) + FORMAT_FILES, b)
    ensures |w| == |v| && w[..FormatAt(v)] == v[..FormatAt(v)] && SameFormat(v, w)
    ensures w[FormatAt(v) + FORMAT_FREE..FormatAt(v) + FORMAT_FREE + 8]
      == m[FormatAt(v) + FORMAT_FREE..FormatAt(v) + FORMAT_FREE + 8]
  {
    var f := FormatAt(v);
    SpliceFrame(v, f + 0x10, a, 0, f);
    SpliceFrame(v, f + 0x10, a, f, f + 0x10);
    SpliceFrame(v, f + 0x10, a, f + 0x20, |v|);
    SpliceFrame(m, f + 0x18, b, 0, f);
    SpliceFrame(m, f + 0x18, b, f, f + 0x10);
    SpliceFrame(m, f + 0x18, b, f + 0x20, |v|);
    SpliceFrame(m, f + 0x18, b, f + 0x10, f + 0x18);
  }

  lemma CountsStand(v: Volume, m: Volume, w: Volume, free: nat, files: nat, a: seq<u8>, b: seq<u8>)
    requires ValidSize(|v|) && |m| == |v| && |a| == 8 && |b| == 8
    requires m == Splice(v, FormatAt(v) + FORMAT_FREE, a) && AllCopies(m, FormatAt(v) + FORMAT_FREE, free)
    requires |w| == |m| && w == Splice(m, FormatAt(v) + FORMAT_FILES, b)
      && AllCopies(w, FormatAt(v) + FORMAT_FILES, files)
    ensures Counted(v, w, free, files)
  {
    CountsFrames(v, m, w, a, b);
    CopiesSame(m, w, FormatAt(v) + FORMAT_FREE, free);
  }

  method WriteCounts(vol: array<u8>, free: nat, files: nat)
    requires ValidSize(vol.Length) && free < 0x1_0000 && DirBlocks(files) + 2 <= vol.Length / 64
    modifies vol
    ensures Counted(old(vol[..]), vol[..], free, files)
  {
    ghost var v: Volume := vol[..];
    var at := vol.Length - 64;
    WriteCount(vol, at + FORMAT_FREE, free);
    ghost var m: Volume := vol[..];
    CountWritten(v, at + FORMAT_FREE, free);
    WriteCount(vol, at + FORMAT_FILES, files);
    CountWritten(m, at + FORMAT_FILES, files);
    CountsStand(v, m, vol[..], free, files, CountBytes(free), CountBytes(files));
  }

  /** The other saves and the free area are as they were. */
  ghost predicate DataFramed(v: Volume, w: Volume, saves: seq<Save>, s: Save)
    requires |w| == |v|
  {
    var end, stop := End(saves) + Len(s), Blocks(v) - 1 - DirBlocks(|saves| + 1);
    && end <= stop && w[..64 * End(saves)] == v[..64 * End(saves)] && w[64 * end..64 * stop] == v[64 * end..64 * stop]
  }

  ghost predicate HeadKept(v: Volume, w: Volume, n: nat)
    requires |w| == |v| && n + 1 <= Blocks(v)
  {
    forall b: nat {:trigger DirBlock(w, b)} :: b < n ==> DirBlock(w, b) == DirBlock(v, b)
  }

  /** `w` is `v` with the save appended: its entry in place, and every byte of the other
      saves, the free area, the other directory blocks and the format block as before. */
  ghost predicate Appended(code: Code, v: Volume, w: Volume, saves: seq<Save>, s: Save)
    requires DirBlocks(|saves|) + 2 <= Blocks(v)
  {
    && |w| == |v| && HoldsCounted(code, w, saves + [s]) && DataFramed(v, w, saves, s)
    && DirEncodes(code, w, saves + [s], |saves| / 2) && HeadKept(v, w, |saves| / 2)
    && SameFormat(v, w)
  }

  lemma DataAdds(v: Volume, w: Volume, saves: seq<Save>, s: Save)
    requires DataHolds(v, saves) && |s.data| == 64 * Len(s) && Wrote(v, w, 64 * End(saves), s.data)
    ensures DataHolds(w, saves + [s]) && End(saves + [s]) == End(saves) + Len(s)
    ensures w[..64 * End(saves)] == v[..64 * End(saves)]
      && w[64 * (End(saves) + Len(s))..] == v[64 * (End(saves) + Len(s))..]
  {
    assert 64 * End(saves) + |s.data| == 64 * (End(saves) + Len(s));
    DataKept(v, w, saves, 64 * End(saves));
    DataAppend(w, saves, s);
  }

  lemma DataKept(v: Volume, w: Volume, saves: seq<Save>, m: nat)
    requires DataHolds(v, saves) && |w| == |v| && 64 * End(saves) <= m <= |v| && w[..m] == v[..m]
    ensures DataHolds(w, saves)
  {
    forall i: nat | i < |saves| ensures DataAt(w, saves, i) {
      assert DataAt(v, saves, i);
      StartGrows(saves, i, i + 1);
      StartGrows(saves, i + 1, |saves|);
      PrefixKept(v, w, m, 64 * Start(saves, i), 64 * Start(saves, i + 1));
    }
  }

  lemma DirKept(v: Volume, w: Volume, lo: nat, hi: nat, b: nat)
    requires |w| == |v| && b + 2 <= Blocks(v) && lo <= DirAt(Blocks(v), b) && DirAt(Blocks(v), b) + 64 <= hi <= |v|
    requires w[lo..hi] == v[lo..hi]
    ensures DirBlock(w, b) == DirBlock(v, b)
  {
    SliceKept(v, w, lo, hi, DirAt(Blocks(v), b), DirAt(Blocks(v), b) + 64);
  }

  lemma SlotsKept(code: Code, v: Volume, w: Volume, saves: seq<Save>)
    requires DirBlocks(|saves|) + 1 <= Blocks(v) && |w| == |v| && SlotsHold(code, v, saves)
    requires HeadKept(v, w, DirBlocks(|saves|))
    ensures SlotsHold(code, w, saves)
  {
    forall i: nat | i < |saves| ensures SlotHolds(code, w, saves, i) {
      assert SlotHolds(code, v, saves, i);
      assert DirBlock(w, i / 2) == DirBlock(v, i / 2);
      SlotSame(code, v, w, saves, i);
    }
  }

  lemma HeadFrame(v: Volume, w: Volume, m: nat, n: nat)
    requires |w| == |v| && n + 1 <= Blocks(v) && m <= 64 * (Blocks(v) - 1 - n) && w[m..] == v[m..]
    ensures HeadKept(v, w, n) && SameFormat(v, w)
  {
    forall b: nat | b < n ensures DirBlock(w, b) == DirBlock(v, b) {
      DirKept(v, w, m, |v|, b);
    }
    TailKept(v, w, m);
  }

  lemma TailKept(v: Volume, w: Volume, m: nat)
    requires |w| == |v| && m <= FormatAt(v) && w[m..] == v[m..]
    ensures SameFormat(v, w)
  {
    SuffixKept(v, w, m, FormatAt(v), FormatAt(v) + 0x10);
    SuffixKept(v, w, m, FormatAt(v) + 0x20, |v|);
  }

  lemma HeadTrans(v: Volume, m: Volume, w: Volume, n: nat)
    requires |v| == |m| == |w| && n + 1 <= Blocks(v) && HeadKept(v, m, n) && HeadKept(m, w, n)
    ensures HeadKept(v, w, n)
  {
    forall b: nat | b < n ensures DirBlock(w, b) == DirBlock(v, b) {
      assert DirBlock(w, b) == DirBlock(m, b) == DirBlock(v, b);
    }
  }

  lemma HeadFewer(v: Volume, w: Volume, n: nat, m: nat)
    requires |v| == |w| && m <= n && n + 1 <= Blocks(v) && HeadKept(v, w, n)
    ensures HeadKept(v, w, m)
  {
  }

  /** The new entry's write, after the data's: everything the appended save needs. */
  lemma EntryAdded(code: Code, v: Volume, w: Volume, t: seq<Save>, s: Save, raw: seq<u8>)
    requires RoundTrips(code) && DirBlocks(|t| + 1) + 1 <= Blocks(v)
      && End(t + [s]) <= Blocks(v) - 1 - DirBlocks(|t| + 1)
    requires DataHolds(v, t + [s]) && SlotsHold(code, v, t) && IsEntry(raw, s, End(t))
      && SlotWritten(code, v, w, |t|, raw)
    ensures |w| == |v| && DataHolds(w, t + [s]) && SlotsHold(code, w, t + [s])
    ensures DirEncodes(code, w, t + [s], |t| / 2)
  {
    SlotAdds(code, v, w, t, s, raw);
    DataKept(v, w, t + [s], DirAt(Blocks(v), |t| / 2));
  }

  /** What the slot's write leaves as it was. */
  lemma SlotFrames(code: Code, v: Volume, w: Volume, n: nat, raw: seq<u8>)
    requires DirBlocks(n + 1) + 1 <= Blocks(v) && SlotWritten(code, v, w, n, raw)
    ensures SameFormat(v, w) && HeadKept(v, w, n / 2)
    ensures var at := 64 * (Blocks(v) - 1 - DirBlocks(n + 1)); w[..at] == v[..at] && w[at + 64..] == v[at + 64..]
  {
    SlotWriteFrame(v, w, n);
    TailKept(v, w, DirAt(Blocks(v), n / 2) + 64);
  }

  lemma CountedKeeps(code: Code, v: Volume, w: Volume, saves: seq<Save>)
    requires DirBlocks(|saves|) + 2 <= Blocks(v) && Counted(v, w, FreeOf(v, saves), |saves|)
    requires AllSound(code, saves) && DataHolds(v, saves) && SlotsHold(code, v, saves)
    requires End(saves) + HeldBlock(|saves|) <= DataEnd(Blocks(v), |saves|)
    ensures HoldsCounted(code, w, saves)
  {
    StampedCounts(w, FreeOf(v, saves), |saves|);
    CountedHead(v, w, FreeOf(v, saves), |saves|);
    SlotsKept(code, v, w, saves);
    DataKept(v, w, saves, FormatAt(v));
  }

  lemma CountedHead(v: Volume, w: Volume, free: nat, n: nat)
    requires Counted(v, w, free, n)
    ensures HeadKept(v, w, Blocks(v) - 1)
  {
    forall b: nat | b + 2 <= Blocks(v) ensures DirBlock(w, b) == DirBlock(v, b) {
      DirKept(v, w, 0, FormatAt(v), b);
    }
  }

  lemma SameEncodes(code: Code, v: Volume, w: Volume, saves: seq<Save>, b: nat)
    requires |w| == |v| && b + 2 <= Blocks(v) && DirBlock(w, b) == DirBlock(v, b) && DirEncodes(code, v, saves, b)
    ensures DirEncodes(code, w, saves, b)
  {
    var p :| IsDirPayload(p, saves, b) && code.encodes(DirBlock(v, b), p);
    assert code.encodes(DirBlock(w, b), p);
  }

  lemma ThreeFrames<T>(v: seq<T>, v1: seq<T>, v2: seq<T>, w: seq<T>, a: nat, end: nat, stop: nat, f: nat)
    requires |v| == |v1| == |v2| == |w| && a <= end <= stop <= f <= |v|
    requires v1[..a] == v[..a] && v1[end..] == v[end..] && v2[..stop] == v1[..stop] && w[..f] == v2[..f]
    ensures w[..a] == v[..a] && w[end..stop] == v[end..stop]
  {
    PrefixKept(v2, w, f, 0, a);
    PrefixKept(v1, v2, stop, 0, a);
    PrefixKept(v2, w, f, end, stop);
    PrefixKept(v1, v2, stop, end, stop);
    SuffixKept(v, v1, end, end, stop);
  }

  /** The three writes of an append: the data at block `a`, the entry, the counts. */
  ghost predicate AppendWrites(code: Code, v: Volume, v1: Volume, v2: Volume, w: Volume, n: nat, s: Save, raw: seq<u8>,
                               a: nat, free: nat)
    requires DirBlocks(n + 1) + 2 <= Blocks(v)
  {
    IsEntry(raw, s, a) && Wrote(v, v1, 64 * a, s.data) && SlotWritten(code, v1, v2, n, raw)
      && Counted(v2, w, free, n + 1)
  }

  /** The data and the entry written: the longer list of saves is held, the counts aside. */
  lemma EntryHolds(code: Code, w: Volume, w1: Volume, w2: Volume, t: seq<Save>, s: Save, raw: seq<u8>)
    requires RoundTrips(code) && AllSound(code, t) && Sound(code, s) && DirBlocks(|t| + 1) + 1 <= Blocks(w)
    requires End(t) + Len(s) <= Blocks(w) - 1 - DirBlocks(|t| + 1) && DataHolds(w, t) && SlotsHold(code, w, t)
    requires Wrote(w, w1, 64 * End(t), s.data) && SlotWritten(code, w1, w2, |t|, raw) && IsEntry(raw, s, End(t))
    ensures |w2| == |w| && DataHolds(w2, t + [s]) && SlotsHold(code, w2, t + [s])
      && DirEncodes(code, w2, t + [s], |t| / 2)
    ensures w1[..64 * End(t)] == w[..64 * End(t)] && w1[64 * (End(t) + Len(s))..] == w[64 * (End(t) + Len(s))..]
  {
    DataAdds(w, w1, t, s);
    HeadFrame(w, w1, 64 * (End(t) + Len(s)), DirBlocks(|t| + 1));
    HeadFewer(w, w1, DirBlocks(|t| + 1), DirBlocks(|t|));
    SlotsKept(code, w, w1, t);
    EntryAdded(code, w1, w2, t, s, raw);
  }

  lemma WritesHold(code: Code, v: Volume, v1: Volume, v2: Volume, w: Volume, t: seq<Save>, s: Save, raw: seq<u8>,
                   free: nat)
    requires RoundTrips(code) && AllSound(code, t) && DirBlocks(|t| + 1) + 2 <= Blocks(v)
    requires DataHolds(v, t) && SlotsHold(code, v, t) && Sound(code, s)
    requires End(t) + Len(s) + HeldBlock(|t| + 1) <= DataEnd(Blocks(v), |t| + 1)
    requires AppendWrites(code, v, v1, v2, w, |t|, s, raw, End(t), free)
    requires free == BiosFree(Blocks(v), |t| + 1, End(t) + Len(s))
    ensures |w| == |v| && DirEncodes(code, w, t + [s], |t| / 2) && HoldsCounted(code, w, t + [s])
  {
    EntryHolds(code, v, v1, v2, t, s, raw);
    CountedHolds(code, v2, w, t, s, free);
  }

  lemma CountedHolds(code: Code, v: Volume, w: Volume, t: seq<Save>, s: Save, free: nat)
    requires AllSound(code, t) && Sound(code, s) && DirBlocks(|t| + 1) + 2 <= Blocks(v) && Counted(v, w, free, |t| + 1)
    requires DataHolds(v, t + [s]) && SlotsHold(code, v, t + [s]) && DirEncodes(code, v, t + [s], |t| / 2)
    requires End(t) + Len(s) + HeldBlock(|t| + 1) <= DataEnd(Blocks(v), |t| + 1)
    requires free == BiosFree(Blocks(v), |t| + 1, End(t) + Len(s))
    ensures HoldsCounted(code, w, t + [s]) && DirEncodes(code, w, t + [s], |t| / 2)
  {
    SoundSnoc(code, t, s);
    EndSnoc(t, s);
    CountedKeeps(code, v, w, t + [s]);
    CountedHead(v, w, free, |t| + 1);
    SameEncodes(code, v, w, t + [s], |t| / 2);
  }

  lemma WritesFrame(code: Code, v: Volume, v1: Volume, v2: Volume, w: Volume, n: nat, free: nat, raw: seq<u8>, a: nat,
                    end: nat)
    requires |v1| == |v2| == |v| && DirBlocks(n + 1) + 2 <= Blocks(v) && a <= end <= Blocks(v) - 1 - DirBlocks(n + 1)
    requires v1[..64 * a] == v[..64 * a] && v1[64 * end..] == v[64 * end..] && SlotWritten(code, v1, v2, n, raw)
    requires Counted(v2, w, free, n + 1)
    ensures SameFormat(v, w) && HeadKept(v, w, n / 2)
    ensures var stop := 64 * (Blocks(v) - 1 - DirBlocks(n + 1));
      w[..64 * a] == v[..64 * a] && w[64 * end..stop] == v[64 * end..stop]
  {
    SlotFrames(code, v1, v2, n, raw);
    ThreeFrames(v, v1, v2, w, 64 * a, 64 * end, 64 * (Blocks(v) - 1 - DirBlocks(n + 1)), FormatAt(v));
    HeadFrame(v, v1, 64 * end, n / 2);
    CountedHead(v2, w, free, n + 1);
    HeadFewer(v2, w, Blocks(v) - 1, n / 2);
    HeadTrans(v, v1, v2, n / 2);
    HeadTrans(v, v2, w, n / 2);
  }

  lemma AppendRoom(blocks: nat, n: nat, next: nat, len: nat)
    requires DirBlocks(n) + 2 <= blocks && len >= 1 && next + HeldBlock(n) <= DataEnd(blocks, n)
    requires BiosFree(blocks, n, next) >= InjectCost(len, n)
    ensures DirBlocks(n + 1) + 2 <= blocks && next + len + HeldBlock(n + 1) <= DataEnd(blocks, n + 1)
    ensures next + len <= blocks - 1 - DirBlocks(n + 1) && 64 * (next + len) <= 64 * blocks
  {
    CostIsExact(blocks, n, next, len);
  }

  lemma WroteFrames(v: Volume, w: Volume, a: nat, data: seq<u8>, end: nat)
    requires Wrote(v, w, 64 * a, data) && |data| == 64 * (end - a) && a <= end
    ensures |w| == |v| && w[..64 * a] == v[..64 * a] && w[64 * end..] == v[64 * end..]
  {
    assert 64 * a + |data| == 64 * end;
  }

  lemma AppendFrames(code: Code, v: Volume, v1: Volume, v2: Volume, w: Volume, n: nat, s: Save, raw: seq<u8>, a: nat,
                     free: nat, end: nat)
    requires DirBlocks(n + 1) + 2 <= Blocks(v) && a <= end && |s.data| == 64 * (end - a)
    requires end <= Blocks(v) - 1 - DirBlocks(n + 1) && AppendWrites(code, v, v1, v2, w, n, s, raw, a, free)
    ensures |w| == |v| && HeadKept(v, w, n / 2) && SameFormat(v, w)
    ensures var stop := 64 * (Blocks(v) - 1 - DirBlocks(n + 1));
      w[..64 * a] == v[..64 * a] && w[64 * end..stop] == v[64 * end..stop]
  {
    WroteFrames(v, v1, a, s.data, end);
    WritesFrame(code, v, v1, v2, w, n, free, raw, a, end);
  }

  /** The three writes together append the save. */
  lemma WritesAppend(code: Code, v: Volume, v1: Volume, v2: Volume, w: Volume, t: seq<Save>, s: Save, raw: seq<u8>,
                     free: nat)
    requires RoundTrips(code) && AllSound(code, t) && DataHolds(v, t) && Sound(code, s)
      && DirBlocks(|t| + 1) + 2 <= Blocks(v)
    requires End(t) + Len(s) + HeldBlock(|t| + 1) <= DataEnd(Blocks(v), |t| + 1) && SlotsHold(code, v, t)
    requires free == BiosFree(Blocks(v), |t| + 1, End(t) + Len(s))
    requires AppendWrites(code, v, v1, v2, w, |t|, s, raw, End(t), free)
    ensures Appended(code, v, w, t, s)
  {
    WritesHold(code, v, v1, v2, w, t, s, raw, free);
    AppendFrames(code, v, v1, v2, w, |t|, s, raw, End(t), free, End(t) + Len(s));
  }

  lemma EntrySays(saves: seq<Save>, entries: seq<Entry>, i: nat)
    requires EntriesMatch(entries, saves) && i < |saves|
    ensures IsEntry(entries[i].raw, saves[i], Start(saves, i)) && |entries[i].raw| == ENTRY_SIZE
    ensures entries[i].raw[..NAME_LEN] == saves[i].name
    ensures entries[i].start == Start(saves, i) && entries[i].blocks == Len(saves[i])
  {
    assert EntryMatches(entries, saves, i);
  }

  /** What the entries say of a new name: whether it is taken, and where its data would go. */
  method FindRoom(ghost saves: seq<Save>, entries: seq<Entry>, name: seq<u8>) returns (taken: bool, start: nat)
    requires EntriesMatch(entries, saves) && forall i :: 0 <= i < |entries| ==> |entries[i].raw| == ENTRY_SIZE
    ensures taken <==> NameTaken(saves, name)
    ensures start == End(saves)
  {
    taken, start := false, 1;
    for i := 0 to |entries|
      invariant taken <==> exists k :: 0 <= k < i && saves[k].name == name
      invariant start == Start(saves, i)
    {
      EntrySays(saves, entries, i);
      if entries[i].raw[..NAME_LEN] == name {
        taken := true;
      }
      start := entries[i].start + entries[i].blocks;
    }
  }

  method AddSave(ghost code: Code, vol: array<u8>, unit: seq<u8>, blocks: nat, start: nat, files: nat)
    returns (ghost v1: Volume, ghost v2: Volume, ghost raw: seq<u8>)
    requires IsBlockCode(code) && ValidSize(vol.Length) && UnitSave(code, unit).Some?
      && blocks == Len(UnitSave(code, unit).value)
    requires 64 * (start + blocks) <= vol.Length && DirBlocks(files + 1) + 2 <= vol.Length / 64
    modifies vol
    ensures AppendWrites(code, old(vol[..]), v1, v2, vol[..], files, UnitSave(code, unit).value, raw, start,
              BiosFree(vol.Length / 64, files + 1, start + blocks))
  {
    WriteAt(vol, 64 * start, unit[HEADER_SIZE..]);
    v1 := vol[..];
    var entry := unit[4..0x0F] + [unit[0x0F]] + Be16Bytes(start) + Be16Bytes(blocks);
    EntryBuilt(UnitSave(code, unit).value, start);
    raw := entry;
    WriteSlot(code, vol, files, entry);
    v2 := vol[..];
    WriteCounts(vol, BiosFree(vol.Length / 64, files + 1, start + blocks), files + 1);
  }

  /** What adding a unit answers and leaves, by case. */
  ghost predicate InjectResult(code: Code, v: Volume, unit: seq<u8>, st: Status, w: Volume) {
    match (UnitSave(code, unit), Directory(code, v))
    case (Some(s), Some(saves)) =>
      && Holds(code, v, saves)
      && (if NameTaken(saves, s.name) then st == Exists && w == v
          else if FreeOf(v, saves) < InjectCost(Len(s), |saves|) then st == NoSpace && w == v
          else st == Status.Ok && Appended(code, v, w, saves, s))
    case _ => st == Unsupported && w == v
  }

  method Inject(ghost code: Code, vol: array<u8>, unit: seq<u8>) returns (st: Status)
    requires IsBlockCode(code) && WholeBlocks(vol.Length)
    modifies vol
    ensures InjectResult(code, old(vol[..]), unit, st, vol[..])
  {
    hide DataHolds, SlotsHold, AllSound, HoldsCounted, Directory;
    var blocks := UnitBlocks(code, unit);
    if blocks == 0 {
      return Unsupported;
    }
    var rc, files, free, entries := ReadDirectory(code, vol);
    if rc != Status.Ok {
      return Unsupported;
    }
    ghost var v: Volume := vol[..];
    ghost var saves := Directory(code, v).value;
    ghost var s := UnitSave(code, unit).value;
    RawsWhole(saves, entries);
    var taken, start := FindRoom(saves, entries, unit[4..0x0F]);
    if taken {
      return Exists;
    }
    if free < InjectCost(blocks, files) {
      return NoSpace;
    }
    AppendRoom(Blocks(v), files, start, blocks);
    BlockCodeRoundTrips(code);
    ghost var v1, v2, raw := AddSave(code, vol, unit, blocks, start, files);
    WritesAppend(code, v, v1, v2, vol[..], saves, s, raw, BiosFree(Blocks(v), files + 1, start + blocks));
    st := Status.Ok;
  }

  lemma RawsWhole(saves: seq<Save>, entries: seq<Entry>)
    requires EntriesMatch(entries, saves)
    ensures forall i :: 0 <= i < |entries| ==> |entries[i].raw| == ENTRY_SIZE
  {
    forall i | 0 <= i < |entries| ensures |entries[i].raw| == ENTRY_SIZE {
      EntrySays(saves, entries, i);
    }
  }
}
