/** Saturn backup RAM over runs: the calls act on the map of saves as they should, the
    free blocks are exactly accounted for, and removing undoes adding byte for byte. */
module SaturnRuns {
  import opened Bytes
  import opened Status
  import opened SaturnVolume
  import opened SaturnScan
  import opened SaturnCard
  import opened SaturnTheorems
  import Chains
  import opened Simulation

  /* ---- Counting free blocks ------------------------------------------------------------------ */

  ghost function Elements(list: seq<nat>): set<nat> {
    set x | x in list
  }

  lemma {:induction false} ElementCount(list: seq<nat>)
    requires Chains.Distinct(list)
    ensures |Elements(list)| == |list|
  {
    if list != [] {
      var p, x := list[..|list| - 1], list[|list| - 1];
      ElementCount(p);
      assert list == p + [x];
      assert Elements(list) == Elements(p) + {x};
    }
  }

  /** The free list of a scan holds each untaken block once. */
  lemma FreeListIs(v: seq<seq<u8>>, bs: nat, m: Lists, owner: seq<nat>, live: seq<Live>)
    requires Whole(v, bs, m) && Scanned(v, bs, |v|, owner, live)
    ensures |owner| == |v| && Elements(FreeBelow(owner, |v|)) == FreeSet(|v|, m)
      && |FreeBelow(owner, |v|)| == |FreeSet(|v|, m)|
  {
    ScannedInside(v, bs, |v|, owner, live);
    var free := FreeBelow(owner, |v|);
    forall x: nat ensures x in Elements(free) <==> x in FreeSet(|v|, m) {
      if x < |v| {
        FreeIsUntaken(v, bs, m, owner, live, x);
        if RESERVED <= x && owner[x] == 0 {
          FreeBelowHas(owner, |v|, x);
        }
      }
    }
    assert Elements(free) == FreeSet(|v|, m);
    FreeBelowDistinct(owner, |v|);
    ElementCount(free);
  }

  lemma TakenMore(m: Lists, a: nat, l: seq<nat>, x: nat)
    requires a !in m
    ensures Taken(m[a := l], x) <==> Taken(m, x) || x in [a] + l
  {
    var n := m[a := l];
    if Taken(n, x) {
      var c: nat :| Owns(n, c, x);
      assert c != a ==> Owns(m, c, x);
    }
    if Taken(m, x) {
      var c: nat :| Owns(m, c, x);
      assert Owns(n, c, x);
    }
    if x in [a] + l {
      assert Owns(n, a, x);
    }
  }

  /** Adding a save of free blocks takes exactly those. */
  lemma FreeFalls(n: nat, m: Lists, chosen: seq<nat>)
    requires |chosen| >= 1 && chosen[0] !in m
    ensures FreeSet(n, m[chosen[0] := chosen[1..]]) == FreeSet(n, m) - Elements(chosen)
  {
    var after := m[chosen[0] := chosen[1..]];
    assert [chosen[0]] + chosen[1..] == chosen;
    forall x: nat ensures x in FreeSet(n, after) <==> x in FreeSet(n, m) - Elements(chosen) {
      TakenMore(m, chosen[0], chosen[1..], x);
    }
  }

  /** Removing a save frees exactly its blocks. */
  lemma FreeRises(v: seq<seq<u8>>, bs: nat, m: Lists, a: nat)
    requires Whole(v, bs, m) && a in m
    ensures FreeSet(|v|, m - {a}) == FreeSet(|v|, m) + Elements([a] + m[a])
  {
    var n, own := m - {a}, [a] + m[a];
    assert IsArchive(v, bs, a) && n[a := m[a]] == m;
    forall i | 0 <= i < |own| ensures RESERVED <= own[i] < |v| && !Taken(n, own[i]) {
      assert Owns(m, a, own[i]);
      if i > 0 {
        assert Listable(v, bs, m[a][i - 1]);
      }
      NotTakenByOthers(v, bs, m, a, own[i]);
    }
    assert own[0] == a && own[1..] == m[a];
    FreeFalls(|v|, n, own);
  }

  lemma NotTakenByOthers(v: seq<seq<u8>>, bs: nat, m: Lists, a: nat, x: nat)
    requires Whole(v, bs, m) && Owns(m, a, x)
    ensures !Taken(m - {a}, x)
  {
    forall c: nat ensures !Owns(m - {a}, c, x) {
      if Owns(m - {a}, c, x) {
        assert Owns(m, c, x);
        OwnersApart(v, bs, m, a, c, x);
      }
    }
  }

  /* ---- One call --------------------------------------------------------------------------------- */

  /** The archive block and its list hold the save `s`. */
  ghost predicate SavedAs(v: seq<seq<u8>>, bs: nat, a: nat, list: seq<nat>, s: Save) {
    Shaped(v, bs) && IsList(v, bs, a, list) && SaveIn(v, bs, a, list) == s
  }

  /** The volume holds exactly the saves of the map, at the blocks that key it. */
  ghost predicate Holds(v: seq<seq<u8>>, bs: nat, m: Lists, saves: map<nat, Save>) {
    && Whole(v, bs, m) && saves.Keys == m.Keys
    && forall a: nat {:trigger SavedAs(v, bs, a, m[a], saves[a])} :: a in m ==> SavedAs(v, bs, a, m[a], saves[a])
  }

  lemma SavedKept(v: seq<seq<u8>>, w: seq<seq<u8>>, bs: nat, a: nat, list: seq<nat>, s: Save)
    requires SavedAs(v, bs, a, list, s) && SameSave(v, w, bs, a, list)
    ensures SavedAs(w, bs, a, list, s)
  {
  }

  lemma SavedName(v: seq<seq<u8>>, bs: nat, a: nat, list: seq<nat>, s: Save)
    requires SavedAs(v, bs, a, list, s)
    ensures a < |v| && |v[a]| == bs >= 64 && v[a][4..15] == s.name
  {
  }

  ghost predicate BlankIfFree(v: seq<seq<u8>>, bs: nat, m: Lists, x: nat) {
    x < |v| && (Taken(m, x) || v[x] == Zeros(bs))
  }

  /** The free blocks are zero as well, as they are from a format on. */
  ghost predicate Tidy(v: seq<seq<u8>>, bs: nat, m: Lists, saves: map<nat, Save>) {
    && Holds(v, bs, m, saves)
    && forall x: nat {:trigger BlankIfFree(v, bs, m, x)} :: RESERVED <= x < |v| ==> BlankIfFree(v, bs, m, x)
  }

  /** What a volume holds: each save by the block it starts at, the blocks it goes on in, and which
      blocks are free. */
  datatype Dir = Dir(lists: Lists, saves: map<nat, Save>, free: set<nat>)

  ghost predicate Shows(v: seq<seq<u8>>, bs: nat, d: Dir) {
    Holds(v, bs, d.lists, d.saves) && d.free == FreeSet(|v|, d.lists)
  }

  ghost predicate StaysTidy(v: seq<seq<u8>>, w: seq<seq<u8>>, bs: nat, d: Dir, n: Dir) {
    Tidy(v, bs, d.lists, d.saves) ==> Tidy(w, bs, n.lists, n.saves)
  }

  datatype Op = Inject(bup: seq<u8>) | Delete(first: nat)

  ghost predicate Step(v: seq<seq<u8>>, bs: nat, op: Op, st: Status, w: seq<seq<u8>>)
    requires Shaped(v, bs)
  {
    match op
    case Inject(bup) => InjectResult(v, bs, bup, st, w)
    case Delete(first) => DeleteResult(v, bs, first, st, w)
  }

  ghost predicate NameUsed(saves: map<nat, Save>, name: seq<u8>) {
    exists a {:trigger a in saves} :: a in saves && saves[a].name == name
  }

  /** Adding `s` in the lowest free blocks, as many as it needs, the first its archive block. */
  ghost predicate Adds(bs: nat, d: Dir, s: Save, n: Dir, cells: seq<nat>)
    requires bs >= 64
  {
    && cells != [] && cells[0] !in d.saves && Chains.Lowest(d.free, Needed(bs, |s.data|), cells)
    && n == Dir(d.lists[cells[0] := cells[1..]], d.saves[cells[0] := s], d.free - Elements(cells))
  }

  /** What the same call answers on the directory, and leaves of it. */
  ghost predicate DirStep(bs: nat, d: Dir, op: Op, st: Status, n: Dir)
    requires bs >= 64
  {
    match op
    case Inject(bup) =>
      (match BupSave(bup)
       case None => st == Unsupported && n == d
       case Some(s) =>
         if NameUsed(d.saves, s.name) then st == Exists && n == d
         else if |d.free| < Needed(bs, |s.data|) then st == NoSpace && n == d
         else st == Status.Ok && exists cells {:trigger Adds(bs, d, s, n, cells)} :: Adds(bs, d, s, n, cells))
    case Delete(first) =>
      if first in d.saves && first in d.lists
      then st == Status.Ok
        && n == Dir(d.lists - {first}, d.saves - {first}, d.free + Elements([first] + d.lists[first]))
      else st == InvalidArg && n == d
  }

  lemma LiveNames(v: seq<seq<u8>>, bs: nat, m: Lists, saves: map<nat, Save>, owner: seq<nat>, live: seq<Live>,
                  name: seq<u8>)
    requires Holds(v, bs, m, saves) && Scanned(v, bs, |v|, owner, live)
    ensures LiveNamed(v, bs, live, name) <==> NameUsed(saves, name)
  {
    ScanWhole(v, bs, m, |v|, owner, live);
    if LiveNamed(v, bs, live, name) {
      var i :| 0 <= i < |live| && live[i].archive < |v| && v[live[i].archive][4..15] == name;
      var a := live[i].archive;
      assert live[i] in live && a in m;
      assert SavedAs(v, bs, a, m[a], saves[a]);
      SavedName(v, bs, a, m[a], saves[a]);
    }
    if NameUsed(saves, name) {
      var a: nat :| a in saves && saves[a].name == name;
      assert SavedAs(v, bs, a, m[a], saves[a]);
      SavedName(v, bs, a, m[a], saves[a]);
      assert LiveOf(v, bs, m, a) in live;
      var i :| 0 <= i < |live| && live[i] == LiveOf(v, bs, m, a);
    }
  }

  lemma WriteKeepsHolds(v: seq<seq<u8>>, w: seq<seq<u8>>, bs: nat, m: Lists, saves: map<nat, Save>, chosen: seq<nat>,
                        s: Save)
    requires Holds(v, bs, m, saves) && SaveShaped(s) && |chosen| == Needed(bs, |s.data|) >= 1 && Chains.Distinct(chosen)
      && Untaken(m, chosen)
    requires forall i {:trigger chosen[i]} :: 0 <= i < |chosen| ==> RESERVED <= chosen[i] < |v|
    requires Laid(v, w, bs, chosen, StreamOf(s, chosen[1..]))
    ensures chosen[0] !in m && Holds(w, bs, m[chosen[0] := chosen[1..]], saves[chosen[0] := s])
  {
    hide SameSave, Laid, StreamOf, SaveShaped;
    var a, l := chosen[0], chosen[1..];
    var n, after := m[a := l], saves[a := s];
    WriteKeepsWhole(v, w, bs, m, chosen, s);
    assert SavedAs(w, bs, a, l, s);
    hide SavedAs;
    forall b: nat | b in n ensures SavedAs(w, bs, b, n[b], after[b]) {
      if b != a {
        HeldKept(v, w, bs, m, saves, b);
      }
    }
  }

  lemma WriteKeepsTidy(v: seq<seq<u8>>, w: seq<seq<u8>>, bs: nat, m: Lists, saves: map<nat, Save>, chosen: seq<nat>,
                       s: Save)
    requires Tidy(v, bs, m, saves) && SaveShaped(s) && |chosen| == Needed(bs, |s.data|) >= 1 && Chains.Distinct(chosen)
      && Untaken(m, chosen)
    requires forall i {:trigger chosen[i]} :: 0 <= i < |chosen| ==> RESERVED <= chosen[i] < |v|
    requires Laid(v, w, bs, chosen, StreamOf(s, chosen[1..]))
    ensures chosen[0] !in m && Tidy(w, bs, m[chosen[0] := chosen[1..]], saves[chosen[0] := s])
  {
    var a, l := chosen[0], chosen[1..];
    var n := m[a := l];
    WriteKeepsHolds(v, w, bs, m, saves, chosen, s);
    assert [a] + l == chosen && chosen[..|chosen|] == chosen;
    forall x: nat | RESERVED <= x < |w| ensures BlankIfFree(w, bs, n, x) {
      TakenMore(m, a, l, x);
      assert BlankIfFree(v, bs, m, x);
    }
  }

  lemma WipeKeepsHolds(v: seq<seq<u8>>, w: seq<seq<u8>>, bs: nat, m: Lists, saves: map<nat, Save>, a: nat)
    requires Holds(v, bs, m, saves) && a in m && Wiped(v, w, bs, [a] + m[a])
    ensures Holds(w, bs, m - {a}, saves - {a})
  {
    hide SavedAs, SameSave, Wiped;
    var n, after := m - {a}, saves - {a};
    WipeKeepsWhole(v, w, bs, m, a);
    forall b: nat | b in n ensures SavedAs(w, bs, b, n[b], after[b]) {
      HeldKept(v, w, bs, m, saves, b);
    }
  }

  lemma HeldKept(v: seq<seq<u8>>, w: seq<seq<u8>>, bs: nat, m: Lists, saves: map<nat, Save>, b: nat)
    requires Holds(v, bs, m, saves) && b in m && SameSave(v, w, bs, b, m[b])
    ensures SavedAs(w, bs, b, m[b], saves[b])
  {
    assert SavedAs(v, bs, b, m[b], saves[b]);
    SavedKept(v, w, bs, b, m[b], saves[b]);
  }

  lemma WipeKeepsTidy(v: seq<seq<u8>>, w: seq<seq<u8>>, bs: nat, m: Lists, saves: map<nat, Save>, a: nat)
    requires Tidy(v, bs, m, saves) && a in m && Wiped(v, w, bs, [a] + m[a])
    ensures Tidy(w, bs, m - {a}, saves - {a})
  {
    var n := m - {a};
    WipeKeepsHolds(v, w, bs, m, saves, a);
    assert n[a := m[a]] == m;
    forall x: nat | RESERVED <= x < |w| ensures BlankIfFree(w, bs, n, x) {
      TakenMore(n, a, m[a], x);
      assert BlankIfFree(v, bs, m, x);
    }
  }

  lemma LowestIs(owner: seq<nat>, b: nat, need: nat)
    requires RESERVED <= b <= |owner| && need <= |FreeBelow(owner, b)|
    ensures Chains.Lowest(Elements(FreeBelow(owner, b)), need, FreeBelow(owner, b)[..need])
  {
    hide FreeBelow;
    var free := FreeBelow(owner, b);
    var chosen := free[..need];
    forall i | 0 <= i < need ensures chosen[i] in Elements(free) {
      assert chosen[i] == free[i] && free[i] in free;
    }
    forall i, j | 0 <= i < j < need ensures chosen[i] < chosen[j] {
      FreeBelowAscends(owner, b, i, j);
    }
    assert forall k {:trigger free[k]} :: 0 <= k < need ==> free[k] == chosen[k];
    forall i, x | 0 <= i < need && x in Elements(free) && x !in chosen ensures chosen[i] < x {
      var k :| 0 <= k < |free| && free[k] == x;
      FreeBelowAscends(owner, b, i, k);
    }
  }

  /** The chosen blocks of a scan: the lowest free ones, each once, none of them taken. */
  lemma ChosenUntaken(v: seq<seq<u8>>, bs: nat, m: Lists, owner: seq<nat>, live: seq<Live>, need: nat)
    requires Whole(v, bs, m) && Scanned(v, bs, |v|, owner, live) && |owner| == |v|
    requires 1 <= need <= |FreeBelow(owner, |v|)|
    ensures var chosen := FreeBelow(owner, |v|)[..need];
      && Chains.Distinct(chosen) && Untaken(m, chosen) && Chains.Lowest(FreeSet(|v|, m), need, chosen)
      && forall i {:trigger chosen[i]} :: 0 <= i < |chosen| ==> RESERVED <= chosen[i] < |v|
  {
    var free := FreeBelow(owner, |v|);
    var chosen := free[..need];
    FreeListIs(v, bs, m, owner, live);
    FreeBelowDistinct(owner, |v|);
    forall i | 0 <= i < |chosen| ensures RESERVED <= chosen[i] < |v| && !Taken(m, chosen[i]) {
      assert chosen[i] == free[i] && free[i] in free;
      assert chosen[i] in Elements(free);
    }
    LowestIs(owner, |v|, need);
  }

  /** Adding, on a volume that holds saves: the directory gains the save, at a block that was free,
      or nothing changes, and the answer says which. */
  lemma InjectRefines(v: seq<seq<u8>>, bs: nat, d: Dir, bup: seq<u8>, st: Status, w: seq<seq<u8>>) returns (n: Dir)
    requires Shows(v, bs, d) && InjectResult(v, bs, bup, st, w)
    ensures Shows(w, bs, n) && DirStep(bs, d, Inject(bup), st, n) && StaysTidy(v, w, bs, d, n)
  {
    n := d;
    if BupSave(bup).Some? {
      var s := BupSave(bup).value;
      var owner: seq<nat>, live: seq<Live> :|
        && Scanned(v, bs, |v|, owner, live) && |owner| == |v|
        && (var free, need := FreeBelow(owner, |v|), Needed(bs, |s.data|);
            if LiveNamed(v, bs, live, s.name) then st == Exists && w == v
            else if |free| < need then st == NoSpace && w == v
            else need >= 1 && st == Status.Ok && Laid(v, w, bs, free[..need], StreamOf(s, free[1..need])));
      LiveNames(v, bs, d.lists, d.saves, owner, live, s.name);
      FreeListIs(v, bs, d.lists, owner, live);
      if st == Status.Ok {
        n := InjectOk(v, bs, d, s, owner, live, w);
      }
    }
  }

  lemma InjectOk(v: seq<seq<u8>>, bs: nat, d: Dir, s: Save, owner: seq<nat>, live: seq<Live>, w: seq<seq<u8>>)
    returns (n: Dir)
    requires Shows(v, bs, d) && SaveShaped(s) && Scanned(v, bs, |v|, owner, live) && |owner| == |v|
    requires 1 <= Needed(bs, |s.data|) <= |FreeBelow(owner, |v|)|
    requires var free, need := FreeBelow(owner, |v|), Needed(bs, |s.data|);
      Laid(v, w, bs, free[..need], StreamOf(s, free[1..need]))
    ensures Shows(w, bs, n) && StaysTidy(v, w, bs, d, n)
    ensures exists cells {:trigger Adds(bs, d, s, n, cells)} :: Adds(bs, d, s, n, cells)
  {
    var m, need := d.lists, Needed(bs, |s.data|);
    var chosen := FreeBelow(owner, |v|)[..need];
    assert chosen[1..] == FreeBelow(owner, |v|)[1..need];
    ChosenUntaken(v, bs, m, owner, live, need);
    WriteKeepsHolds(v, w, bs, m, d.saves, chosen, s);
    FreeFalls(|v|, m, chosen);
    n := Dir(m[chosen[0] := chosen[1..]], d.saves[chosen[0] := s], d.free - Elements(chosen));
    assert Adds(bs, d, s, n, chosen);
    if Tidy(v, bs, m, d.saves) {
      WriteKeepsTidy(v, w, bs, m, d.saves, chosen, s);
    }
  }

  /** Removing the save at `first` takes it out of the directory and frees its blocks. */
  lemma DeleteRefines(v: seq<seq<u8>>, bs: nat, d: Dir, first: nat, st: Status, w: seq<seq<u8>>) returns (n: Dir)
    requires Shows(v, bs, d) && DeleteResult(v, bs, first, st, w)
    ensures Shows(w, bs, n) && DirStep(bs, d, Delete(first), st, n) && StaysTidy(v, w, bs, d, n)
  {
    hide SavedAs, Scanned, NoneLive, IsList, Apart;
    var owner: seq<nat>, live: seq<Live> :|
      && Scanned(v, bs, |v|, owner, live)
      && (if NoneLive(live, first) then st == InvalidArg && w == v
          else st == Status.Ok && exists e {:trigger e in live} ::
            e in live && e.archive == first && Wiped(v, w, bs, [first] + e.list));
    n := d;
    LiveArchives(v, bs, d.lists, owner, live, first);
    if first in d.lists {
      var e :| e in live && e.archive == first && Wiped(v, w, bs, [first] + e.list);
      LiveInMap(v, bs, d.lists, owner, live, e);
      WipeKeepsHolds(v, w, bs, d.lists, d.saves, first);
      FreeRises(v, bs, d.lists, first);
      if Tidy(v, bs, d.lists, d.saves) {
        WipeKeepsTidy(v, w, bs, d.lists, d.saves, first);
      }
      n := Dir(d.lists - {first}, d.saves - {first}, d.free + Elements([first] + d.lists[first]));
    }
  }

  lemma LiveArchives(v: seq<seq<u8>>, bs: nat, m: Lists, owner: seq<nat>, live: seq<Live>, first: nat)
    requires Whole(v, bs, m) && Scanned(v, bs, |v|, owner, live)
    ensures NoneLive(live, first) <==> first !in m
  {
    ScanWhole(v, bs, m, |v|, owner, live);
    if first in m {
      assert IsArchive(v, bs, first) && LiveOf(v, bs, m, first) in live;
    }
  }

  /** Extraction gives the .BUP of the save the map has there, and nothing otherwise. */
  lemma ExtractReads(v: seq<seq<u8>>, bs: nat, m: Lists, saves: map<nat, Save>, first: nat, st: Status, bup: seq<u8>)
    requires Holds(v, bs, m, saves) && ExtractResult(v, bs, first, st, bup)
    ensures first !in saves ==> st == InvalidArg
    ensures first in saves ==> st == Status.Ok && SaveShaped(saves[first]) && bup == BupOf(saves[first], |m[first]| + 1)
  {
    var owner: seq<nat>, live: seq<Live> :|
      && Scanned(v, bs, |v|, owner, live)
      && (if NoneLive(live, first) then st == InvalidArg
          else st == Status.Ok && exists e {:trigger e in live} ::
            e in live && e.archive == first && BupFor(v, bs, e, bup));
    LiveArchives(v, bs, m, owner, live, first);
    if first in m {
      var e :| e in live && e.archive == first && BupFor(v, bs, e, bup);
      LiveInMap(v, bs, m, owner, live, e);
      HeldAt(v, bs, m, saves, first);
      BupOfSaved(v, bs, e, bup, saves[first]);
    }
  }

  /** What goes in comes out: at the lowest of the free blocks, where an inject puts its archive block, extraction
      succeeds and gives a .BUP that holds the save again, with its block count. */
  lemma InjectThenExtract(v: seq<seq<u8>>, bs: nat, d: Dir, bup: seq<u8>, w: seq<seq<u8>>, cells: seq<nat>, st: Status,
                          out: seq<u8>)
    requires Shows(v, bs, d) && InjectResult(v, bs, bup, Status.Ok, w) && Shaped(w, bs)
    requires Chains.Lowest(d.free, Needed(bs, |BupSave(bup).value.data|), cells) && cells != []
    requires ExtractResult(w, bs, cells[0], st, out)
    ensures st == Status.Ok && out == BupOf(BupSave(bup).value, |cells|) && BupSave(out) == BupSave(bup)
  {
    hide Holds, ExtractResult, Chains.Lowest, Scanned, Laid;
    var s := BupSave(bup).value;
    var n := InjectRefines(v, bs, d, bup, Status.Ok, w);
    var taken :| Adds(bs, d, s, n, taken);
    Chains.LowestOnce(d.free, Needed(bs, |s.data|), taken, cells);
    ExtractReads(w, bs, n.lists, n.saves, cells[0], st, out);
    BupKeepsSave(s, |cells|);
  }

  lemma LiveInMap(v: seq<seq<u8>>, bs: nat, m: Lists, owner: seq<nat>, live: seq<Live>, e: Live)
    requires Whole(v, bs, m) && Scanned(v, bs, |v|, owner, live) && e in live
    ensures e.archive in m && e.list == m[e.archive]
  {
    ScanWhole(v, bs, m, |v|, owner, live);
  }

  lemma HeldAt(v: seq<seq<u8>>, bs: nat, m: Lists, saves: map<nat, Save>, a: nat)
    requires Holds(v, bs, m, saves) && a in m
    ensures a in saves && SavedAs(v, bs, a, m[a], saves[a])
  {
  }

  lemma BupOfSaved(v: seq<seq<u8>>, bs: nat, e: Live, bup: seq<u8>, s: Save)
    requires SavedAs(v, bs, e.archive, e.list, s) && BupFor(v, bs, e, bup)
    ensures SaveShaped(s) && bup == BupOf(s, |e.list| + 1)
  {
  }

  /* ---- Format ---------------------------------------------------------------------------------------- */

  const FORMAT_MAGIC: seq<u8> :=
    [0x42, 0x61, 0x63, 0x6B, 0x55, 0x70, 0x52, 0x61, 0x6D, 0x20, 0x46, 0x6F, 0x72, 0x6D, 0x61, 0x74]

  method Format(bs: nat, blocks: nat) returns (st: Status, vol: array<seq<u8>>)
    ensures st == if Geometry(bs, blocks) then Status.Ok else InvalidArg
    ensures fresh(vol) && (st.Ok? ==> vol.Length == blocks && Tidy(vol[..], bs, map[], map[]))
    ensures st.Ok? ==> Shows(vol[..], bs, Dir(map[], map[], FreeSet(blocks, map[])))
    ensures forall b: nat {:trigger b in FreeSet(blocks, map[])} ::
      b in FreeSet(blocks, map[]) <==> RESERVED <= b < blocks
    ensures st.Ok? ==> forall i :: 0 <= i < bs ==> |vol[0]| == bs && vol[0][i] == FORMAT_MAGIC[i % 16]
  {
    NothingTaken(blocks);
    if !Geometry(bs, blocks) {
      vol := new seq<u8>[0];
      return InvalidArg, vol;
    }
    vol := new seq<u8>[blocks](_ => Zeros(bs));
    vol[0] := seq(bs, i requires 0 <= i < bs => FORMAT_MAGIC[i % 16]);
    FormattedIsTidy(vol[..], bs);
    st := Status.Ok;
  }

  lemma NothingTaken(n: nat)
    ensures forall b: nat {:trigger b in FreeSet(n, map[])} :: b in FreeSet(n, map[]) <==> RESERVED <= b < n
  {
    forall x: nat ensures !Taken(map[], x) {
    }
  }

  lemma FormattedIsTidy(v: seq<seq<u8>>, bs: nat)
    requires Shaped(v, bs) && forall b {:trigger v[b]} :: RESERVED <= b < |v| ==> v[b] == Zeros(bs)
    ensures Tidy(v, bs, map[], map[]) && Shows(v, bs, Dir(map[], map[], FreeSet(|v|, map[])))
  {
    var m: Lists := map[];
    forall x: nat ensures !Taken(m, x) {
    }
    forall a: nat ensures !IsArchive(v, bs, a) {
      if RESERVED <= a < |v| {
        assert v[a] == Zeros(bs);
      }
    }
  }

  /** Wiping blocks that were free and blank before they were laid gives back every byte. */
  lemma WipeUndoesLay(v: seq<seq<u8>>, bs: nat, m: Lists, saves: map<nat, Save>, chosen: seq<nat>, stream: seq<u8>,
                      w: seq<seq<u8>>, x: seq<seq<u8>>)
    requires Tidy(v, bs, m, saves) && |chosen| >= 1 && Untaken(m, chosen)
    requires forall i {:trigger chosen[i]} :: 0 <= i < |chosen| ==> RESERVED <= chosen[i] < |v|
    requires Laid(v, w, bs, chosen, stream) && Wiped(w, x, bs, chosen)
    ensures x == v
  {
    assert chosen[..|chosen|] == chosen;
    forall b | 0 <= b < |v| ensures x[b] == v[b] {
      if b in chosen {
        var i :| 0 <= i < |chosen| && chosen[i] == b;
        assert BlankIfFree(v, bs, m, chosen[i]);
      } else {
        assert w[b] == v[b];
      }
    }
  }

  /** The block list a delete wipes is the one the map has. */
  lemma DeleteWipes(v: seq<seq<u8>>, bs: nat, m: Lists, saves: map<nat, Save>, a: nat, w: seq<seq<u8>>)
    requires Holds(v, bs, m, saves) && DeleteResult(v, bs, a, Status.Ok, w)
    ensures a in m && Wiped(v, w, bs, [a] + m[a])
  {
    hide SavedAs, Scanned, IsList, Apart;
    var owner: seq<nat>, live: seq<Live> :| Scanned(v, bs, |v|, owner, live)
      && exists e {:trigger e in live} :: e in live && e.archive == a && Wiped(v, w, bs, [a] + e.list);
    var e :| e in live && e.archive == a && Wiped(v, w, bs, [a] + e.list);
    LiveInMap(v, bs, m, owner, live, e);
  }

  /** Removing the save just added, by the block it starts at, gives back the volume byte for byte. */
  lemma DeleteUndoesInject(v: seq<seq<u8>>, bs: nat, m: Lists, saves: map<nat, Save>, bup: seq<u8>, w: seq<seq<u8>>,
                           a: nat, x: seq<seq<u8>>)
    requires Tidy(v, bs, m, saves) && InjectResult(v, bs, bup, Status.Ok, w) && Shaped(w, bs)
    requires a !in m && DeleteResult(w, bs, a, Status.Ok, x)
    ensures x == v
  {
    hide SavedAs, IsList, Apart, StreamOf, Scanned, LiveNamed, BupSave, Laid, Wiped, FreeBelow;
    var s := BupSave(bup).value;
    var need := Needed(bs, |s.data|);
    var owner: seq<nat>, live: seq<Live> :|
      && Scanned(v, bs, |v|, owner, live) && |owner| == |v| && 1 <= need <= |FreeBelow(owner, |v|)|
      && Laid(v, w, bs, FreeBelow(owner, |v|)[..need], StreamOf(s, FreeBelow(owner, |v|)[1..need]));
    var chosen := FreeBelow(owner, |v|)[..need];
    assert chosen[1..] == FreeBelow(owner, |v|)[1..need] && [chosen[0]] + chosen[1..] == chosen;
    ChosenUntaken(v, bs, m, owner, live, need);
    WriteKeepsHolds(v, w, bs, m, saves, chosen, s);
    var n, after := m[chosen[0] := chosen[1..]], saves[chosen[0] := s];
    DeleteWipes(w, bs, n, after, a, x);
    WipeUndoesLay(v, bs, m, saves, chosen, StreamOf(s, chosen[1..]), w, x);
  }

  /* ---- Runs ------------------------------------------------------------------------------------------- */

  /** The saves at the blocks of `m`. */
  ghost function SavesOf(v: seq<seq<u8>>, bs: nat, m: Lists): map<nat, Save>
    requires Whole(v, bs, m)
  {
    map a: nat | a in m && IsList(v, bs, a, m[a]) :: SaveIn(v, bs, a, m[a])
  }

  /** Every volume whose archive blocks all parse, with lists apart, shows a directory. */
  lemma WholeShows(v: seq<seq<u8>>, bs: nat, m: Lists)
    requires Whole(v, bs, m)
    ensures Shows(v, bs, Dir(m, SavesOf(v, bs, m), FreeSet(|v|, m)))
  {
    var saves := SavesOf(v, bs, m);
    forall a: nat | a in m ensures a in saves && SavedAs(v, bs, a, m[a], saves[a]) {
      assert IsList(v, bs, a, m[a]);
    }
    assert saves.Keys == m.Keys;
  }

  /** A volume that shows `d`, its free blocks blank if `tidy`. */
  ghost predicate ShowsSo(v: seq<seq<u8>>, bs: nat, d: Dir, tidy: bool) {
    Shows(v, bs, d) && (tidy ==> Tidy(v, bs, d.lists, d.saves))
  }

  ghost function Showing(bs: nat, tidy: bool): (seq<seq<u8>>, Dir) -> bool {
    (v: seq<seq<u8>>, d: Dir) => ShowsSo(v, bs, d, tidy)
  }

  ghost function Stepping(bs: nat): (seq<seq<u8>>, Op, Status, seq<seq<u8>>) -> bool {
    (v: seq<seq<u8>>, op: Op, st: Status, w: seq<seq<u8>>) => Shaped(v, bs) && Step(v, bs, op, st, w)
  }

  ghost function DirStepping(bs: nat): (Dir, Op, Status, Dir) -> bool {
    (d: Dir, op: Op, st: Status, n: Dir) => bs >= 64 && DirStep(bs, d, op, st, n)
  }

  lemma StepRefines(v: seq<seq<u8>>, bs: nat, d: Dir, op: Op, st: Status, w: seq<seq<u8>>) returns (n: Dir)
    requires Shows(v, bs, d) && Step(v, bs, op, st, w)
    ensures Shows(w, bs, n) && DirStep(bs, d, op, st, n) && StaysTidy(v, w, bs, d, n)
  {
    match op {
      case Inject(bup) => n := InjectRefines(v, bs, d, bup, st, w);
      case Delete(first) => n := DeleteRefines(v, bs, d, first, st, w);
    }
  }

  lemma Simulated(bs: nat, tidy: bool)
    ensures Simulates(Showing(bs, tidy), Stepping(bs), DirStepping(bs))
  {
    var shows, step, dstep := Showing(bs, tidy), Stepping(bs), DirStepping(bs);
    forall v, op, st, w, d | shows(v, d) && step(v, op, st, w)
      ensures exists n {:trigger dstep(d, op, st, n)} :: shows(w, n) && dstep(d, op, st, n) {
      var n := StepRefines(v, bs, d, op, st, w);
      assert shows(w, n) && dstep(d, op, st, n);
    }
  }

  /** From any volume whose archive blocks all parse, every run acts on the directory as its steps say, and each
      answer and the free blocks are the ones they say; where the free blocks were blank they stay so. */
  lemma RunRefines(bs: nat, tidy: bool, states: seq<seq<seq<u8>>>, ops: seq<Op>, sts: seq<Status>, d: Dir)
    returns (dirs: seq<Dir>)
    requires IsRun(Stepping(bs), states, ops, sts) && ShowsSo(states[0], bs, d, tidy)
    ensures ShowsAll(Showing(bs, tidy), states, dirs) && IsRun(DirStepping(bs), dirs, ops, sts) && dirs[0] == d
  {
    Simulated(bs, tidy);
    dirs := RunShows(Showing(bs, tidy), Stepping(bs), DirStepping(bs), states, ops, sts, d);
  }
}
