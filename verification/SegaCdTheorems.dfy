/** Sega CD backup RAM over whole runs: from a formatted volume, the bytes are at every
    step the canonical form of a sequence of saves that adding appends to and removing
    takes from. */
module SegaCdTheorems {
  import opened Bytes
  import opened Status
  import opened SegaCdBlock
  import opened SegaCdVolume
  import opened SegaCdDirectory
  import opened SegaCdLayout
  import opened SegaCdUnit
  import opened SegaCdCard
  import opened SegaCdErase
  import opened SegaCdExtract
  import opened Simulation

  /* ---- Canonical volumes stay canonical ------------------------------------------------------------- */

  lemma ZeroKept(v: seq<u8>, w: seq<u8>, lo: nat, hi: nat, a: nat, b: nat)
    requires lo <= a <= b <= hi <= |v| && |w| == |v| && ZeroBetween(v, lo, hi) && w[a..b] == v[a..b]
    ensures ZeroBetween(w, a, b)
  {
    forall i | 0 <= i < b - a ensures w[a..b][i] == 0 {
      assert v[a..b][i] == v[lo..hi][a - lo + i];
    }
  }

  lemma ZeroJoins(w: seq<u8>, lo: nat, mid: nat, hi: nat)
    requires ZeroBetween(w, lo, mid) && ZeroBetween(w, mid, hi)
    ensures ZeroBetween(w, lo, hi)
  {
    forall i | 0 <= i < hi - lo ensures w[lo..hi][i] == 0 {
      if i < mid - lo {
        assert w[lo..hi][i] == w[lo..mid][i];
      } else {
        assert w[lo..hi][i] == w[mid..hi][i - (mid - lo)];
      }
    }
  }

  lemma FormatKept(v: Volume, w: Volume)
    requires |w| == |v| && SameFormat(v, w) && FormatBlock(v)
    ensures FormatBlock(w)
  {
  }

  lemma AppendedTail(code: Code, v: Volume, w: Volume, t: seq<Save>, s: Save)
    requires DirBlocks(|t| + 1) + 1 <= Blocks(v) && |w| == |v| && TailEncodes(code, v, t, 0)
    requires DirEncodes(code, w, t + [s], |t| / 2) && HeadKept(v, w, |t| / 2)
    ensures TailEncodes(code, w, t + [s], 0)
  {
    forall b: nat | b < DirBlocks(|t + [s]|) ensures DirEncodes(code, w, t + [s], b) {
      if b != |t| / 2 {
        assert DirEncodes(code, v, t, b) && DirBlock(w, b) == DirBlock(v, b);
        DirEncodesLonger(code, v, w, t, s, b);
      }
    }
  }

  /** Adding a save to a canonical volume leaves a canonical volume. */
  lemma AppendKeepsCanonical(code: Code, v: Volume, w: Volume, t: seq<Save>, s: Save)
    requires Canonical(code, v, t) && Appended(code, v, w, t, s)
    ensures Canonical(code, w, t + [s])
  {
    var stop := Blocks(v) - 1 - DirBlocks(|t| + 1);
    EndSnoc(t, s);
    AppendedTail(code, v, w, t, s);
    FormatKept(v, w);
    PrefixKept(v, w, 64 * End(t), 0, 64);
    ZeroKept(v, w, 0, 64, 0, 64);
    ZeroKept(v, w, 64 * End(t), 64 * (Blocks(v) - 1 - DirBlocks(|t|)), 64 * (End(t) + Len(s)), 64 * stop);
  }

  /** A directory block whose entries all come before the gap. */
  lemma HeadStays(code: Code, v: Volume, w: Volume, saves: seq<Save>, k: nat, b: nat)
    requires k < |saves| && 2 * b + 1 < k && b + 2 <= Blocks(v) && |w| == |v| && DirBlock(w, b) == DirBlock(v, b)
    requires DirEncodes(code, v, saves, b)
    ensures DirEncodes(code, w, Without(saves, k), b)
  {
    var t := Without(saves, k);
    var p :| IsDirPayload(p, saves, b) && code.encodes(DirBlock(v, b), p);
    assert forall i :: 0 <= i < k ==> t[i] == saves[i];
    EntryInPrefix(p[16..32], t, saves, 2 * b);
    EntryInPrefix(p[..16], t, saves, 2 * b + 1);
    assert IsDirPayload(p, t, b) && code.encodes(DirBlock(w, b), p);
  }

  lemma RemovedTail(code: Code, v: Volume, w: Volume, saves: seq<Save>, k: nat)
    requires k < |saves| && DirBlocks(|saves|) + 2 <= Blocks(v) && |w| == |v| && TailEncodes(code, v, saves, 0)
    requires HeadKept(v, w, k / 2) && TailEncodes(code, w, Without(saves, k), k)
    ensures TailEncodes(code, w, Without(saves, k), 0)
  {
    var t := Without(saves, k);
    forall b: nat | b < DirBlocks(|t|) ensures DirEncodes(code, w, t, b) {
      if b < k / 2 {
        assert DirEncodes(code, v, saves, b) && DirBlock(w, b) == DirBlock(v, b);
        HeadStays(code, v, w, saves, k, b);
      }
    }
  }

  lemma ClearedBlockZero(w: Volume, n: nat)
    requires n % 2 == 1 && n / 2 + 2 <= Blocks(w) && Zeroed(DirBlock(w, n / 2))
    ensures ZeroBetween(w, 64 * (Blocks(w) - 1 - DirBlocks(n)), 64 * (Blocks(w) - 1 - DirBlocks(n - 1)))
  {
    assert Blocks(w) - 1 - DirBlocks(n) == Blocks(w) - 2 - n / 2
      && Blocks(w) - 1 - DirBlocks(n - 1) == Blocks(w) - 1 - n / 2;
  }

  /** The free area after a removal: the freed data, what was free, and a directory block if one went. */
  lemma RemovedZero(code: Code, v: Volume, w: Volume, saves: seq<Save>, k: nat)
    requires Canonical(code, v, saves) && k < |saves| && Removed(code, v, w, saves, k)
    ensures |w| == |v| && ZeroBetween(w, 64 * End(Without(saves, k)), 64 * (Blocks(w) - 1 - DirBlocks(|saves| - 1)))
  {
    hide TailEncodes, FormatBlock, HeadKept, DataHolds, SlotsHold, AllSound, HoldsCounted, SameFormat;
    var t, n := Without(saves, k), |saves|;
    var stop := Blocks(v) - 1 - DirBlocks(n);
    ZeroKept(v, w, 64 * End(saves), 64 * stop, 64 * End(saves), 64 * stop);
    ZeroJoins(w, 64 * End(t), 64 * End(saves), 64 * stop);
    if n % 2 == 1 {
      ClearedBlockZero(w, n);
      ZeroJoins(w, 64 * End(t), 64 * stop, 64 * (Blocks(w) - 1 - DirBlocks(n - 1)));
    } else {
      assert DirBlocks(n - 1) == DirBlocks(n);
    }
  }

  /** Removing a save from a canonical volume leaves a canonical volume. */
  lemma RemoveKeepsCanonical(code: Code, v: Volume, w: Volume, saves: seq<Save>, k: nat)
    requires Canonical(code, v, saves) && k < |saves| && Removed(code, v, w, saves, k)
    ensures Canonical(code, w, Without(saves, k))
  {
    hide TailEncodes, FormatBlock, HeadKept, DataHolds, SlotsHold, AllSound;
    RemovedTail(code, v, w, saves, k);
    FormatKept(v, w);
    ZeroKept(v, w, 0, 64, 0, 64);
    RemovedZero(code, v, w, saves, k);
  }

  /* ---- One canonical form ----------------------------------------------------------------------------- */

  lemma {:induction false} DataSame(code: Code, v: Volume, w: Volume, saves: seq<Save>, j: nat)
    requires |v| == |w| && DataHolds(v, saves) && DataHolds(w, saves) && j <= |saves|
    ensures 64 * Start(saves, j) <= |v| && v[64..64 * Start(saves, j)] == w[64..64 * Start(saves, j)]
  {
    if j > 0 {
      DataSame(code, v, w, saves, j - 1);
      assert DataAt(v, saves, j - 1) && DataAt(w, saves, j - 1);
      var m, e := 64 * Start(saves, j - 1), 64 * Start(saves, j);
      assert v[64..e] == v[64..m] + v[m..e] && w[64..e] == w[64..m] + w[m..e];
    }
  }

  lemma DirSame(code: Code, v: Volume, w: Volume, saves: seq<Save>, b: nat)
    requires RoundTrips(code) && |v| == |w| && b + 2 <= Blocks(v) && DirEncodes(code, v, saves, b)
      && DirEncodes(code, w, saves, b)
    ensures DirBlock(v, b) == DirBlock(w, b)
  {
    var p :| IsDirPayload(p, saves, b) && code.encodes(DirBlock(v, b), p);
    var q :| IsDirPayload(q, saves, b) && code.encodes(DirBlock(w, b), q);
    DirPayloadOnce(p, q, saves, b);
  }

  lemma CopiesOnce(v: seq<u8>, w: seq<u8>, at: nat, x: nat)
    requires at + 8 <= |v| == |w| && AllCopies(v, at, x) && AllCopies(w, at, x)
    ensures v[at..at + 8] == w[at..at + 8]
  {
    var a, b := v[at..at + 8], w[at..at + 8];
    forall i | 0 <= i < |a| ensures a[i] == b[i] {
      var j: nat := i / 2;
      assert Copy(v, at, j) == x && Copy(w, at, j) == x;
      Be16Same(v, w, at + 2 * j);
      assert i == 2 * j || i == 2 * j + 1;
    }
  }

  lemma ZeroSame(v: seq<u8>, w: seq<u8>, lo: nat, hi: nat)
    requires |v| == |w| && ZeroBetween(v, lo, hi) && ZeroBetween(w, lo, hi)
    ensures v[lo..hi] == w[lo..hi]
  {
  }

  lemma BlocksSame(v: Volume, w: Volume)
    requires |v| == |w| && FormatBlock(v) && FormatBlock(w)
    ensures v[FormatAt(v)..FormatAt(v) + 0x10] == w[FormatAt(v)..FormatAt(v) + 0x10]
    ensures v[FormatAt(v) + 0x20..] == w[FormatAt(v) + 0x20..]
  {
  }

  lemma FormatSame(v: Volume, w: Volume, free: nat, files: nat)
    requires |v| == |w| && FormatBlock(v) && FormatBlock(w) && Stamped(v, free, files) && Stamped(w, free, files)
    ensures v[FormatAt(v)..] == w[FormatAt(v)..]
  {
    hide FormatBlock;
    var f := FormatAt(v);
    BlocksSame(v, w);
    CopiesOnce(v, w, f + 0x10, free);
    CopiesOnce(v, w, f + 0x18, files);
    JoinSame(v, w, f, f + 0x10, f + 0x18);
    JoinSame(v, w, f, f + 0x18, f + 0x20);
    JoinSame(v, w, f, f + 0x20, |v|);
  }

  lemma JoinSame(v: seq<u8>, w: seq<u8>, lo: nat, mid: nat, hi: nat)
    requires |v| == |w| && lo <= mid <= hi <= |v| && v[lo..mid] == w[lo..mid] && v[mid..hi] == w[mid..hi]
    ensures v[lo..hi] == w[lo..hi]
  {
    assert v[lo..hi] == v[lo..mid] + v[mid..hi] && w[lo..hi] == w[lo..mid] + w[mid..hi];
  }

  lemma {:induction false} DirRegionSame(code: Code, v: Volume, w: Volume, saves: seq<Save>, d: nat)
    requires RoundTrips(code) && |v| == |w| && d <= DirBlocks(|saves|) && DirBlocks(|saves|) + 2 <= Blocks(v)
    requires TailEncodes(code, v, saves, 0) && TailEncodes(code, w, saves, 0)
    ensures v[64 * (Blocks(v) - 1 - d)..FormatAt(v)] == w[64 * (Blocks(v) - 1 - d)..FormatAt(v)]
  {
    if d > 0 {
      DirRegionSame(code, v, w, saves, d - 1);
      assert DirEncodes(code, v, saves, d - 1) && DirEncodes(code, w, saves, d - 1);
      DirSame(code, v, w, saves, d - 1);
      assert Blocks(v) - 2 - (d - 1) == Blocks(v) - 1 - d && Blocks(v) - 1 - (d - 1) == Blocks(v) - d;
      JoinSame(v, w, 64 * (Blocks(v) - 1 - d), 64 * (Blocks(v) - d), FormatAt(v));
    }
  }

  /** Volumes of one size that are canonical for the same saves are the same bytes. */
  lemma CanonicalOnce(code: Code, v: Volume, w: Volume, saves: seq<Save>)
    requires RoundTrips(code) && |v| == |w| && Canonical(code, v, saves) && Canonical(code, w, saves)
    ensures v == w
  {
    var e, d := 64 * End(saves), 64 * (Blocks(v) - 1 - DirBlocks(|saves|));
    ZeroSame(v, w, 0, 64);
    DataSame(code, v, w, saves, |saves|);
    JoinSame(v, w, 0, 64, e);
    ZeroSame(v, w, e, d);
    JoinSame(v, w, 0, e, d);
    DirRegionSame(code, v, w, saves, DirBlocks(|saves|));
    JoinSame(v, w, 0, d, FormatAt(v));
    FormatSame(v, w, FreeOf(v, saves), |saves|);
    JoinSame(v, w, 0, FormatAt(v), |v|);
    assert v[0..|v|] == v && w[0..|v|] == w;
  }

  /** Removing the save just added gives back the volume byte for byte. */
  lemma DeleteUndoesInject(code: Code, v: Volume, w: Volume, x: Volume, saves: seq<Save>, s: Save)
    requires RoundTrips(code) && Canonical(code, v, saves) && Appended(code, v, w, saves, s)
    requires Removed(code, w, x, saves + [s], |saves|)
    ensures x == v
  {
    AppendKeepsCanonical(code, v, w, saves, s);
    RemoveKeepsCanonical(code, w, x, saves + [s], |saves|);
    assert Without(saves + [s], |saves|) == saves;
    CanonicalOnce(code, v, x, saves);
  }

  /** What goes in comes out: where the saves before it end, the unit just injected extracts, its two reserved bytes
      zero, and reads as the same save. */
  lemma InjectThenExtract(code: Code, v: Volume, saves: seq<Save>, unit: seq<u8>, w: Volume, st: Status, out: seq<u8>)
    requires Holds(code, v, saves) && InjectResult(code, v, unit, Status.Ok, w)
    requires ExtractResult(code, w, End(saves), Len(UnitSave(code, unit).value), st, out)
    ensures st == Status.Ok && out == unit[..0x12] + [0, 0] + unit[HEADER_SIZE..]
      && UnitSave(code, out) == UnitSave(code, unit)
  {
    hide DataHolds, SlotsHold, AllSound, ExtractResult, UnitSave;
    var s := UnitSave(code, unit).value;
    DirectoryIff(code, v, saves);
    StartSnoc(saves, s);
    ExtractsHeld(code, w, saves + [s], |saves|, st, out);
    SaveKeepsUnit(code, unit);
    UnitKeepsSave(code, s);
  }

  lemma StartSnoc(saves: seq<Save>, s: Save)
    ensures Start(saves + [s], |saves|) == End(saves)
  {
    StartPrefix(saves, saves + [s], |saves|);
  }

  /* ---- Runs ---------------------------------------------------------------------------------------------- */

  datatype Op = Inject(unit: seq<u8>) | Delete(first: nat)

  ghost predicate Step(code: Code, v: Volume, op: Op, st: Status, w: Volume) {
    match op
    case Inject(unit) => InjectResult(code, v, unit, st, w)
    case Delete(first) => DeleteResult(code, v, first, st, w)
  }

  /** What the same call does to the sequence of saves alone. */
  ghost predicate AbstractStep(code: Code, blocks: nat, saves: seq<Save>, op: Op, st: Status, next: seq<Save>)
    requires DirBlocks(|saves|) + 1 <= blocks
  {
    match op
    case Inject(unit) =>
      (match UnitSave(code, unit)
       case None => st == Unsupported && next == saves
       case Some(s) =>
         if NameTaken(saves, s.name) then st == Exists && next == saves
         else if BiosFree(blocks, |saves|, End(saves)) < InjectCost(Len(s), |saves|) then st == NoSpace && next == saves
         else st == Status.Ok && next == saves + [s])
    case Delete(first) =>
      if exists k: nat {:trigger StartsAt(saves, k, first)} :: k < |saves| && StartsAt(saves, k, first)
      then st == Status.Ok
        && exists k: nat {:trigger StartsAt(saves, k, first)} ::
           k < |saves| && StartsAt(saves, k, first) && next == Without(saves, k)
      else st == InvalidArg && next == saves
  }

  /** The volume holds `saves`, and is the one canonical volume that does if `canonical`. */
  ghost predicate Shows(code: Code, v: Volume, saves: seq<Save>, canonical: bool) {
    Holds(code, v, saves) && (canonical ==> Canonical(code, v, saves))
  }

  /** One call refines the abstract step, and keeps a canonical volume canonical. */
  lemma StepRefines(code: Code, v: Volume, op: Op, st: Status, w: Volume, saves: seq<Save>) returns (next: seq<Save>)
    requires Holds(code, v, saves) && Step(code, v, op, st, w)
    ensures |w| == |v| && AbstractStep(code, Blocks(v), saves, op, st, next)
    ensures Holds(code, w, next) && (Canonical(code, v, saves) ==> Canonical(code, w, next))
  {
    hide Canonical, DataHolds, SlotsHold, AllSound;
    DirectoryIff(code, v, saves);
    next := saves;
    match op {
      case Inject(unit) =>
        if st == Status.Ok {
          var s := UnitSave(code, unit).value;
          next := saves + [s];
          if Canonical(code, v, saves) {
            AppendKeepsCanonical(code, v, w, saves, s);
          }
        }
      case Delete(first) =>
        if st == Status.Ok {
          var k: nat :| k < |saves| && StartsAt(saves, k, first) && Removed(code, v, w, saves, k);
          next := Without(saves, k);
          if Canonical(code, v, saves) {
            RemoveKeepsCanonical(code, v, w, saves, k);
          }
        }
    }
  }

  ghost function Showing(code: Code, size: nat, canonical: bool): (Volume, seq<Save>) -> bool {
    (v: Volume, saves: seq<Save>) => |v| == size && Shows(code, v, saves, canonical)
  }

  ghost function Stepping(code: Code): (Volume, Op, Status, Volume) -> bool {
    (v: Volume, op: Op, st: Status, w: Volume) => Step(code, v, op, st, w)
  }

  ghost function AbstractStepping(code: Code, size: nat): (seq<Save>, Op, Status, seq<Save>) -> bool {
    (saves: seq<Save>, op: Op, st: Status, next: seq<Save>) => DirBlocks(|saves|) + 1 <= size / 64
      && AbstractStep(code, size / 64, saves, op, st, next)
  }

  lemma Simulated(code: Code, size: nat, canonical: bool)
    ensures Simulates(Showing(code, size, canonical), Stepping(code), AbstractStepping(code, size))
  {
    hide Canonical, Holds, Step, AbstractStep;
    var shows, step, dstep := Showing(code, size, canonical), Stepping(code), AbstractStepping(code, size);
    forall v, op, st, w, saves | shows(v, saves) && step(v, op, st, w)
      ensures exists next {:trigger dstep(saves, op, st, next)} :: shows(w, next) && dstep(saves, op, st, next) {
      HeldRoom(code, v, saves);
      var next := StepRefines(code, v, op, st, w, saves);
      assert shows(w, next) && dstep(saves, op, st, next);
    }
  }

  lemma HeldRoom(code: Code, v: Volume, saves: seq<Save>)
    requires Holds(code, v, saves)
    ensures DirBlocks(|saves|) + 1 <= Blocks(v)
  {
  }

  /** A run from any volume that holds a sequence of saves leaves, at every step, a volume that holds what the abstract
      calls make of the sequence, with the answers they give; from a canonical volume, as a formatted one is, it leaves
      at every step the canonical volume of those saves. */
  lemma RunRefines(code: Code, canonical: bool, states: seq<Volume>, ops: seq<Op>, sts: seq<Status>, start: seq<Save>)
    returns (saves: seq<seq<Save>>)
    requires IsRun(Stepping(code), states, ops, sts) && Shows(code, states[0], start, canonical)
    ensures ShowsAll(Showing(code, |states[0]|, canonical), states, saves)
    ensures IsRun(AbstractStepping(code, |states[0]|), saves, ops, sts) && saves[0] == start
  {
    Simulated(code, |states[0]|, canonical);
    saves := RunShows(Showing(code, |states[0]|, canonical), Stepping(code), AbstractStepping(code, |states[0]|),
        states, ops, sts, start);
  }
}
