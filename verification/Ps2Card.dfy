/** The whole of adding a save folder to a PS2 card: it happens altogether or not at all. */
module Ps2Card {
  import opened Bytes
  import opened Status
  import opened Chains
  import opened Division
  import opened Ps2Fat
  import opened Ps2Cells
  import opened Ps2Alloc
  import opened Ps2Read
  import opened Ps2Save
  import opened Ps2Grow
  import opened Ps2Write
  import opened Ps2Build
  import opened Ps2Inject

  /* ---- Directories as lists of entries ---------------------------------------------------------------------- */

  ghost predicate EntryIs(v: View, g: Geometry, chain: seq<nat>, want: seq<Entry>, e: nat) {
    && Sized(v, g) && e < |want| && Div(e, Per(g)) < |chain| && chain[Div(e, Per(g))] < g.end
    && EntryAt(v.data, g, chain, e) == want[e]
  }

  /** The directory along `chain` holds the entries `want`. */
  ghost predicate DirIs(v: View, g: Geometry, chain: seq<nat>, want: seq<Entry>) {
    forall e: nat {:trigger EntryIs(v, g, chain, want, e)} :: e < |want| ==> EntryIs(v, g, chain, want, e)
  }

  lemma DirAlong(v: View, w: View, g: Geometry, chain: seq<nat>, grown: seq<nat>, want: seq<Entry>)
    requires DirIs(v, g, chain, want) && Sized(w, g) && SameAlong(v, w, chain) && chain <= grown
    ensures DirIs(w, g, grown, want)
  {
    forall e: nat | e < |want| ensures EntryIs(w, g, grown, want, e) {
      assert EntryIs(v, g, chain, want, e);
    }
  }

  /** The entries with `e` at `i`, or on the end. */
  function PutAt(es: seq<Entry>, i: nat, e: Entry): (r: seq<Entry>)
    requires i <= |es|
    ensures |r| == if i == |es| then |es| + 1 else |es|
  {
    if i == |es| then es + [e] else es[i := e]
  }

  lemma DirPut(v: View, w: View, g: Geometry, chain: seq<nat>, want: seq<Entry>, i: nat, e: Entry)
    requires DirIs(v, g, chain, want) && i <= |want| && Sized(v, g) && EntryPut(v, w, g, chain, i, e)
    ensures DirIs(w, g, chain, PutAt(want, i, e))
  {
    var next := PutAt(want, i, e);
    forall j: nat | j < |next| ensures EntryIs(w, g, chain, next, j) {
      if j != i {
        assert EntryIs(v, g, chain, want, j);
        assert SameEntry(v, w, g, chain, j);
      }
    }
  }

  /* ---- The first entries --------------------------------------------------------------------------------------- */

  /** An inject that has taken nothing yet. */
  ghost function Begun(v: View, root: seq<nat>): Progress {
    Progress(v, root, FreeFrom(v.fat, 0), v, 0, [root, []])
  }

  lemma Begins(v: View, g: Geometry, root: seq<nat>)
    requires Sized(v, g) && IsChain(v.fat, root)
    ensures Growing(Begun(v, root), g, 0)
  {
    var s := Begun(v, root);
    assert Member(v.fat, s.chains, 0) && Member(v.fat, s.chains, 1);
  }

  /** The folder's own two entries make it a folder with no files. */
  lemma OpenBuilt(s: Progress, t: Progress, u: Progress, g: Geometry, save: Save, slot: nat)
    requires Sized(s.at, g) && Sized(t.at, g) && Sized(u.at, g) && Per(g) >= 2 && |s.chains| == 2 && |s.chains[1]| == 1
    requires Entered(s, t, g, 1, 0, SelfEntry(save, slot)) && Entered(t, u, g, 1, 1, save.parent)
    ensures Built(u, g, save, slot, 0) && SameAlong(s.at, u.at, s.chains[0])
  {
    assert SameAlong(s.at, t.at, s.chains[0]) && SameAlong(t.at, u.at, s.chains[0]);
    assert SameEntry(t.at, u.at, g, s.chains[1], 0);
    forall e: nat | e < 2 ensures DirEntryIs(u, g, save, slot, e) {
    }
  }

  /** Writes the root's entry for a new folder and the folder's own two entries. */
  method OpenFolder(vol: array<seq<u8>>, g: Geometry, save: Save, slot: nat, root: seq<nat>, dir: seq<nat>,
                    ghost s: Progress, ghost next: nat, ghost es: seq<Entry>)
    returns (ghost t: Progress)
    requires Holds(vol[..], g, s.at) && Growing(s, g, next) && Per(g) >= 2 && s.chains == [root, dir] && |dir| == 1
    requires DirIs(s.at, g, root, es) && slot <= |es| && Div(slot, Per(g)) < |root|
    modifies vol
    ensures Holds(vol[..], g, t.at) && Growing(t, g, next)
    ensures Built(t, g, save, slot, 0) && t == s.(at := s.at.(data := t.at.data))
    ensures DirIs(t.at, g, root, PutAt(es, slot, RootEntry(save, dir[0])))
  {
    t := WriteEntry(vol, g, root, slot, RootEntry(save, dir[0]), s, next, 0);
    DirPut(s.at, t.at, g, root, es, slot, RootEntry(save, dir[0]));
    ghost var t0 := t;
    t := WriteEntry(vol, g, dir, 0, SelfEntry(save, slot), t0, next, 1);
    ghost var t1 := t;
    t := WriteEntry(vol, g, dir, 1, save.parent, t1, next, 1);
    OpenBuilt(t0, t1, t, g, save, slot);
    DirAlong(t0.at, t.at, g, root, root, PutAt(es, slot, RootEntry(save, dir[0])));
  }

  /** Clusters the root directory takes for a new entry in `slot`. */
  function RootOpens(g: Geometry, root: seq<nat>, slot: nat, count: nat): nat
    requires Sane(g)
  {
    if slot == count && Opens(g, root, slot) then 1 else 0
  }

  /** The folder's first cluster is the next of the pool. */
  lemma FolderStarted(u: Progress, t: Progress, n: nat, grown: seq<nat>, bytes: seq<u8>)
    requires u.chains == [grown, []] && Appended(u, t, 1, n, bytes)
    ensures t.chains == [grown, [n]] && t.taken == u.taken + 1 && SameAlong(u.at, t.at, grown)
    ensures t.from == u.from && t.root == u.root && t.pool == u.pool
  {
    assert SameAlong(u.at, t.at, u.chains[0]);
    assert u.chains[1] + [n] == [n];
  }

  /** Makes room for the root's entry. */
  method ReserveRoot(a: Allocator, vol: array<seq<u8>>, g: Geometry, slot: nat, count: nat, root: seq<nat>,
                     ghost s: Progress, ghost es: seq<Entry>)
    returns (ok: bool, grown: seq<nat>, ghost t: Progress)
    requires Holds(vol[..], g, s.at) && Growing(s, g, a.next) && s.chains == [root, []]
    requires DirIs(s.at, g, root, es) && slot <= count == |es| && Ceil(count, Per(g)) <= |root|
    modifies a, vol
    ensures Holds(vol[..], g, t.at) && Growing(t, g, a.next)
    ensures ok == (s.taken + RootOpens(g, root, slot, count) <= |s.pool|)
    ensures ok ==> t.chains == [grown, []] && t.taken == s.taken + RootOpens(g, root, slot, count)
    ensures ok ==> Div(slot, Per(g)) < |grown|
    ensures ok ==> grown == root + s.pool[s.taken..t.taken]
    ensures ok ==> DirIs(t.at, g, grown, es) && t.from == s.from && t.root == s.root && t.pool == s.pool
  {
    hide Holds, DirIs;
    ok, grown, t := true, root, s;
    assert root + s.pool[s.taken..s.taken] == root;
    if slot == count {
      ok, grown, t := ReserveEntry(a, vol, g, root, slot, s, 0);
      if ok && Opens(g, root, slot) {
        RootGrown(s, t, g, root, grown, es);
        assert s.pool[s.taken..s.taken + 1] == [s.pool[s.taken]];
      }
    } else {
      DivBelowCeil(slot, count, Per(g));
    }
  }

  /** Makes room for the root's entry and for the folder's own. */
  method ReserveFolder(a: Allocator, vol: array<seq<u8>>, g: Geometry, slot: nat, count: nat, root: seq<nat>,
                       ghost s: Progress, ghost es: seq<Entry>)
    returns (ok: bool, grown: seq<nat>, dir: seq<nat>, ghost t: Progress)
    requires Holds(vol[..], g, s.at) && Growing(s, g, a.next) && s.chains == [root, []]
    requires DirIs(s.at, g, root, es) && slot <= count == |es| && Ceil(count, Per(g)) <= |root|
    modifies a, vol
    ensures Holds(vol[..], g, t.at) && Growing(t, g, a.next)
    ensures ok == (s.taken + RootOpens(g, root, slot, count) < |s.pool|)
    ensures ok ==> t.chains == [grown, dir] && t.taken == s.taken + RootOpens(g, root, slot, count) + 1
    ensures ok ==> Div(slot, Per(g)) < |grown|
    ensures ok ==> grown == root + s.pool[s.taken..t.taken - 1] && dir == [s.pool[t.taken - 1]]
    ensures ok ==> DirIs(t.at, g, grown, es) && t.from == s.from && t.root == s.root && t.pool == s.pool
  {
    hide Holds, DirIs, Appended, SameAlong, RootOpens;
    dir := [];
    ok, grown, t := ReserveRoot(a, vol, g, slot, count, root, s, es);
    if !ok {
      return;
    }
    ghost var u := t;
    var n;
    ok, n, t := Append(a, vol, g, [], Filled(g.cs, PAD), u, 1);
    if ok {
      dir := [n];
      FolderStarted(u, t, n, grown, Filled(g.cs, PAD));
      DirAlong(u.at, t.at, g, grown, grown, es);
    }
  }

  lemma RootGrown(s: Progress, t: Progress, g: Geometry, root: seq<nat>, grown: seq<nat>, es: seq<Entry>)
    requires Sized(s.at, g) && Sized(t.at, g) && s.chains == [root, []] && |grown| == |root| + 1
    requires Own(s.from, s.root, s.chains) && |s.from.fat| == |s.at.data|
    requires Appended(s, t, 0, grown[|root|], Filled(g.cs, PAD)) && |t.chains| == 2 && t.chains[0] == grown
      && DirIs(s.at, g, root, es)
    ensures t.chains == [grown, []] && root <= grown && DirIs(t.at, g, grown, es)
  {
    assert OwnCells(s.from, s.root, s.chains[0]);
    assert SameAlong(s.at, t.at, root);
    DirAlong(s.at, t.at, g, root, grown, es);
  }

  /* ---- The root's own entry -------------------------------------------------------- */

  /** Card date `a` is later than `b`, looking at bytes `i` and below, the year's first. */
  predicate TodLater(a: seq<u8>, b: seq<u8>, i: nat)
    requires i < |a| && i < |b|
  {
    if i == 0 then false else if a[i] != b[i] then a[i] > b[i] else TodLater(a, b, i - 1)
  }

  function Tod(e: Entry, at: nat): (tod: seq<u8>)
    requires at + TOD_SIZE <= ENTRY_SIZE
    ensures |tod| == TOD_SIZE
  {
    e[at..at + TOD_SIZE]
  }

  /** The root's first entry once a folder is added: one entry more when it went on the end, and
      changed no earlier than the folder was created. */
  function RootSelf(e: Entry, save: Save, slot: nat, count: nat): Entry {
    var counted := if slot == count then WithLe32(e, LENGTH, count + 1) else e;
    if TodLater(Tod(save.self, CREATED), Tod(counted, MODIFIED), TOD_SIZE - 1)
    then Splice(counted, MODIFIED, Tod(save.self, CREATED))
    else counted
  }

  method ReadEntry(vol: array<seq<u8>>, g: Geometry, chain: seq<nat>, i: nat, ghost v: View, ghost want: seq<Entry>)
    returns (e: Entry)
    requires Holds(vol[..], g, v) && DirIs(v, g, chain, want) && i < |want|
    ensures e == want[i]
  {
    ghost var c := vol[..];
    assert EntryIs(v, g, chain, want, i);
    var n := chain[Div(i, Per(g))];
    assert DataOf(c, g)[n] == c[g.offset + n];
    e := vol[g.offset + n][ENTRY_SIZE * Mod(i, Per(g))..ENTRY_SIZE * Mod(i, Per(g)) + ENTRY_SIZE];
  }

  /** The folder is as it was while the root's own entry is written. */
  lemma SelfBuilt(s: Progress, t: Progress, g: Geometry, save: Save, slot: nat, e: Entry)
    requires Built(s, g, save, slot, |save.files|) && Sized(s.at, g) && Sized(t.at, g) && Entered(s, t, g, 0, 0, e)
    ensures Built(t, g, save, slot, |save.files|)
  {
    forall i: nat | i < |save.files| + 2 ensures DirEntryIs(t, g, save, slot, i) && (i >= 2 ==> FileIs(t, g, save, i)) {
      assert DirEntryIs(s, g, save, slot, i) && SameAlong(s.at, t.at, s.chains[1]);
      if i >= 2 {
        assert FileIs(s, g, save, i) && SameAlong(s.at, t.at, s.chains[i]);
      }
    }
  }

  /** The root's entries once `save` is in `slot`, its folder starting at `first`. */
  function RootAfter(es: seq<Entry>, save: Save, slot: nat, first: nat): (r: seq<Entry>)
    requires 2 <= slot <= |es|
  {
    PutAt(es, slot, RootEntry(save, first))[0 := RootSelf(es[0], save, slot, |es|)]
  }

  /* ---- Adding the folder ----------------------------------------------------------- */

  /** What the first files and the next one take is part of what all take. */
  lemma FileNeeds(g: Geometry, save: Save, done: nat)
    requires Sane(g) && done < |save.files|
    ensures Ceil(done + 2, Per(g)) + DataNeeded(g, save.files, done) + FileCost(g, save, done)
         == Ceil(done + 3, Per(g)) + DataNeeded(g, save.files, done + 1)
         <= Ceil(|save.files| + 2, Per(g)) + DataNeeded(g, save.files, |save.files|)
  {
    CeilNext(done + 2, Per(g));
    CeilGrows(done + 3, |save.files| + 2, Per(g));
    DataNeededGrows(g, save.files, done + 1, |save.files|);
  }

  /** Adds the files one after another. */
  method AddFiles(a: Allocator, vol: array<seq<u8>>, g: Geometry, save: Save, slot: nat, dir: seq<nat>,
                  ghost s: Progress, ghost want: seq<Entry>)
    returns (ok: bool, ghost t: Progress)
    requires Holds(vol[..], g, s.at) && Growing(s, g, a.next) && Built(s, g, save, slot, 0) && s.chains[1] == dir
    requires DirIs(s.at, g, s.chains[0], want) && dir != []
    modifies a, vol
    ensures Holds(vol[..], g, t.at) && Growing(t, g, a.next)
    ensures ok == (s.taken + Ceil(|save.files| + 2, Per(g)) - |dir|
        + DataNeeded(g, save.files, |save.files|) <= |s.pool|)
    ensures ok ==> Built(t, g, save, slot, |save.files|) && DirIs(t.at, g, t.chains[0], want)
    ensures ok ==> t.chains[0] == s.chains[0] && t.chains[1] != [] && t.chains[1][0] == dir[0]
    ensures ok ==> t.from == s.from && t.root == s.root && t.pool == s.pool
    ensures ok ==> t.taken == s.taken + Ceil(|save.files| + 2, Per(g)) - |dir| + DataNeeded(g, save.files, |save.files|)
  {
    assert DataNeeded(g, save.files, 0) == 0;
    hide Growing, Holds, DirIs, DataNeeded, Ceil, Div;
    t := s;
    var chain := dir;
    for done := 0 to |save.files|
      invariant Holds(vol[..], g, t.at) && Growing(t, g, a.next)
      invariant Built(t, g, save, slot, done) && t.chains[1] == chain && DirIs(t.at, g, t.chains[0], want)
      invariant t.chains[0] == s.chains[0] && chain != [] && chain[0] == dir[0]
      invariant t.from == s.from && t.root == s.root && t.pool == s.pool
      invariant t.taken == s.taken + Ceil(done + 2, Per(g)) - |dir| + DataNeeded(g, save.files, done)
    {
      ghost var was := t;
      FileNeeds(g, save, done);
      ok, chain, t := AddFile(a, vol, g, save, slot, done, chain, was);
      if !ok {
        return;
      }
      assert chain[0] == was.chains[1][0];
      DirAlong(was.at, t.at, g, was.chains[0], t.chains[0], want);
    }
    ok := true;
  }

  /** The root's new cluster, if it takes one, and then the folder's first are the first of the pool. */
  ghost predicate FirstDrawn(s: Progress, opens: nat) {
    && opens < s.taken <= |s.pool| && |s.chains| >= 2 && s.chains[0] == s.root + s.pool[..opens]
    && s.chains[1] != [] && s.chains[1][0] == s.pool[opens]
  }

  /** What was taken of the pool is what is no longer free, and is all on the chains. */
  ghost predicate AllDrawn(s: Progress) {
    AllOn(s.pool, s.taken, s.chains) && FreeCells(s.at.fat) == FreeCells(s.from.fat) - CellSet(s.pool[..s.taken])
  }

  /** What an inject leaves: the folder built along new chains out of the lowest free cells, its entry in the root,
      and nothing else on the card changed. */
  ghost predicate Injected(s: Progress, g: Geometry, save: Save, slot: nat, es: seq<Entry>, v: View) {
    && s.from == v && s.root == ChainOf(v.fat, g.root) && s.pool == FreeFrom(v.fat, 0)
    && Sized(v, g) && Sized(s.at, g) && Family(s.at.fat, s.chains) && Own(v, s.root, s.chains)
       && Untouched(v, s.at, s.root)
    && Built(s, g, save, slot, |save.files|) && s.root <= s.chains[0] && s.chains[1] != []
    && FirstDrawn(s, RootOpens(g, s.root, slot, |es|)) && AllDrawn(s)
    && 2 <= slot <= |es| && DirIs(s.at, g, s.chains[0], RootAfter(es, save, slot, s.chains[1][0]))
    && FreeCount(s.at.fat) + s.taken == FreeCount(v.fat)
    && s.taken == RootOpens(g, s.root, slot, |es|) + Ceil(|save.files| + 2, Per(g))
       + DataNeeded(g, save.files, |save.files|)
  }

  /** Cells handed out are exactly the ones no longer free. */
  lemma TakenCount(s: Progress, g: Geometry, next: nat)
    requires Growing(s, g, next)
    ensures FreeCount(s.at.fat) + s.taken == FreeCount(s.from.fat) == |s.pool|
  {
    FreeFromDistinct(s.from.fat, 0);
    FreeFromDistinct(s.at.fat, next);
    NoneBelow(s.at.fat, next);
  }

  lemma {:induction false} NoneBelow(fat: Fat, n: nat)
    requires n <= |fat| && forall b {:trigger fat[b]} :: 0 <= b < n ==> fat[b] != Free
    ensures FreeBelow(fat, n) == 0
  {
    if n > 0 {
      NoneBelow(fat, n - 1);
    }
  }

  /** A whole folder, its entry in the root and its clusters drawn as they come. */
  ghost predicate Whole(s: Progress, g: Geometry, save: Save, slot: nat, es: seq<Entry>, v: View) {
    && s.from == v && s.root == ChainOf(v.fat, g.root) && 2 <= slot <= |es|
    && Built(s, g, save, slot, |save.files|) && FirstDrawn(s, RootOpens(g, s.root, slot, |es|))
    && DirIs(s.at, g, s.chains[0], PutAt(es, slot, RootEntry(save, s.chains[1][0])))
    && s.taken == RootOpens(g, s.root, slot, |es|) + Ceil(|save.files| + 2, Per(g))
       + DataNeeded(g, save.files, |save.files|)
  }

  lemma FolderClosed(s: Progress, t: Progress, g: Geometry, next: nat, save: Save, slot: nat, es: seq<Entry>, v: View)
    requires Whole(s, g, save, slot, es, v) && Growing(t, g, next) && Sized(s.at, g)
    requires Entered(s, t, g, 0, 0, RootSelf(es[0], save, slot, |es|))
    ensures Injected(t, g, save, slot, es, v)
  {
    hide RootEntry, DataNeeded, Ceil, Family, AllOn, FreeCells, FreeFrom, RootSelf, Built, DirIs, RootOpens;
    SelfBuilt(s, t, g, save, slot, RootSelf(es[0], save, slot, |es|));
    DirPut(s.at, t.at, g, s.chains[0], PutAt(es, slot, RootEntry(save, s.chains[1][0])), 0,
        RootSelf(es[0], save, slot, |es|));
    TakenCount(t, g, next);
    DrawnFree(v.fat, t.at.fat, t.taken, next);
  }

  /** Updates the root's own entry, the last write of all. */
  method CloseFolder(vol: array<seq<u8>>, g: Geometry, save: Save, slot: nat, count: nat, root: seq<nat>,
                     ghost s: Progress, ghost next: nat, ghost es: seq<Entry>, ghost v: View)
    returns (ghost t: Progress)
    requires Holds(vol[..], g, s.at) && Growing(s, g, next) && Whole(s, g, save, slot, es, v) && s.chains[0] == root
      && count == |es|
    modifies vol
    ensures Holds(vol[..], g, t.at) && Injected(t, g, save, slot, es, v)
  {
    hide RootEntry, DataNeeded, Ceil, Family, AllOn, FreeCells, FreeFrom, Built, RootOpens, Injected, RootSelf, Drawn;
    ghost var want := PutAt(es, slot, RootEntry(save, s.chains[1][0]));
    assert EntryIs(s.at, g, root, want, 0);
    var self := ReadEntry(vol, g, root, 0, s.at, want);
    t := WriteEntry(vol, g, root, 0, RootSelf(self, save, slot, count), s, next, 0);
    FolderClosed(s, t, g, next, save, slot, es, v);
  }

  /** Adds the folder in root slot `slot`. */
  method PlaceFolder(a: Allocator, vol: array<seq<u8>>, g: Geometry, save: Save, slot: nat, count: nat, root: seq<nat>,
                     ghost v: View, ghost es: seq<Entry>)
    returns (ok: bool, ghost t: Progress)
    requires Holds(vol[..], g, v) && Sized(v, g) && a.next == 0 && Per(g) >= 2
    requires root == ChainOf(v.fat, g.root) && IsChain(v.fat, root) && Ceil(count, Per(g)) <= |root|
    requires 2 <= slot <= count == |es| && DirIs(v, g, root, es)
    modifies a, vol
    ensures Holds(vol[..], g, t.at)
    ensures ok == (RootOpens(g, root, slot, count) + Ceil(|save.files| + 2, Per(g))
        + DataNeeded(g, save.files, |save.files|) <= FreeCount(v.fat))
    ensures ok ==> Injected(t, g, save, slot, es, v)
  {
    hide Growing, Holds, DirIs, DataNeeded, Ceil, RootEntry, RootOpens, Injected, Div, DirEntryIs, FileIs;
    Begins(v, g, root);
    ghost var s := Begun(v, root);
    TakenCount(s, g, 0);
    CeilGrows(1, |save.files| + 2, Per(g));
    CeilOne(Per(g));
    var grown, dir;
    ok, grown, dir, t := ReserveFolder(a, vol, g, slot, count, root, s, es);
    if !ok {
      return;
    }
    assert grown == root + s.pool[..RootOpens(g, root, slot, count)]
      && dir[0] == s.pool[RootOpens(g, root, slot, count)];
    t := OpenFolder(vol, g, save, slot, grown, dir, t, a.next, es);
    ghost var want := PutAt(es, slot, RootEntry(save, dir[0]));
    ok, t := AddFiles(a, vol, g, save, slot, dir, t, want);
    if !ok {
      return;
    }
    assert FirstDrawn(t, RootOpens(g, root, slot, count));
    t := CloseFolder(vol, g, save, slot, count, grown, t, a.next, es, v);
  }

  lemma CeilOne(p: nat)
    requires p >= 1
    ensures Ceil(1, p) == 1
  {
  }

  /** A live root entry, the two for the root aside, has the name. */
  ghost predicate NameTaken(es: seq<Entry>, name: seq<u8>) {
    exists i {:trigger es[i]} :: 2 <= i < |es| && Live(es[i]) && Name(es[i]) == name
  }

  /** The first slot a deleted folder left, or the one past the end. */
  ghost predicate SlotFor(es: seq<Entry>, slot: nat) {
    2 <= slot <= |es| && (slot < |es| ==> !Live(es[slot])) && forall i {:trigger es[i]} :: 2 <= i < slot ==> Live(es[i])
  }

  method FindSlot(es: seq<Entry>) returns (slot: nat)
    requires |es| >= 2
    ensures SlotFor(es, slot)
  {
    slot := 2;
    while slot < |es| && Live(es[slot])
      invariant 2 <= slot <= |es| && forall i {:trigger es[i]} :: 2 <= i < slot ==> Live(es[i])
    {
      slot := slot + 1;
    }
  }

  method FindName(es: seq<Entry>, name: seq<u8>) returns (found: bool)
    requires |es| >= 2
    ensures found == NameTaken(es, name)
  {
    for i := 2 to |es|
      invariant forall j {:trigger es[j]} :: 2 <= j < i && j < |es| ==> !(Live(es[j]) && Name(es[j]) == name)
    {
      if Live(es[i]) && Name(es[i]) == name {
        return true;
      }
    }
    return false;
  }

  method NeededFor(g: Geometry, save: Save, slot: nat, count: nat) returns (need: nat)
    requires Sane(g)
    ensures need == Needed(g, save, slot, count)
  {
    need := if slot == count && Mod(count, Per(g)) == 0 then 1 else 0;
    need := need + Ceil(|save.files| + 2, Per(g));
    for i := 0 to |save.files|
      invariant need == (if slot == count && Mod(count, Per(g)) == 0 then 1 else 0)
                        + Ceil(|save.files| + 2, Per(g)) + DataNeeded(g, save.files, i)
    {
      need := need + Ceil(|save.files[i].data|, g.cs);
    }
  }

  /** The root directory reads to the end, if its own entry counts any folder at all. */
  ghost predicate RootReads(v: View, g: Geometry)
    requires Sized(v, g)
  {
    RootCount(v, g) >= 2 ==> DirReads(v, g, g.root, RootCount(v, g))
  }

  ghost function RootEntries(v: View, g: Geometry): (es: seq<Entry>)
    requires Sized(v, g) && RootReads(v, g)
    ensures |es| == if RootCount(v, g) >= 2 then RootCount(v, g) else 0
  {
    if RootCount(v, g) >= 2 then Entries(v, g, g.root, RootCount(v, g)) else []
  }

  /** What an inject answers. */
  ghost predicate Answers(v: View, g: Geometry, save: Save, slot: nat, st: Status)
    requires Sized(v, g) && RootReads(v, g)
  {
    var es := RootEntries(v, g);
    if es == [] then st == Unsupported
    else if NameTaken(es, Name(save.entry)) then st == Status.Exists
    else SlotFor(es, slot) && st == if Needed(g, save, slot, |es|) > FreeCount(v.fat) then NoSpace else Ok
  }

  lemma RootIs(v: View, g: Geometry)
    requires Sized(v, g) && DirReads(v, g, g.root, RootCount(v, g))
    ensures IsChain(v.fat, ChainOf(v.fat, g.root)) && Ceil(RootCount(v, g), Per(g)) <= |ChainOf(v.fat, g.root)|
    ensures DirIs(v, g, ChainOf(v.fat, g.root), Entries(v, g, g.root, RootCount(v, g)))
  {
    var es: seq<Entry> := Entries(v, g, g.root, RootCount(v, g));
    forall e: nat | e < |es| ensures EntryIs(v, g, ChainOf(v.fat, g.root), es, e) {
      EntriesAt(v, g, g.root, RootCount(v, g), e);
    }
  }

  /** Adds `save` as a new folder. Once the space check passes no allocation fails, so the folder
      is added whole; in every other case the card is left as it was. A root directory that breaks off
      counts as one with no folders, and has no slot but the one past its end. */
  method Inject(vol: array<seq<u8>>, g: Geometry, save: Save, ghost v: View)
    returns (st: Status, ghost slot: nat, ghost t: Progress)
    requires Holds(vol[..], g, v) && Sized(v, g) && Per(g) >= 2 && Proper(save)
    requires RootReads(v, g) || Needed(g, save, RootCount(v, g), RootCount(v, g)) > FreeCount(v.fat)
    modifies vol
    ensures RootReads(v, g) ==> Answers(v, g, save, slot, st)
    ensures !RootReads(v, g) ==> st == NoSpace
    ensures st != Ok ==> vol[..] == old(vol[..])
    ensures st == Ok ==> Holds(vol[..], g, t.at) && Injected(t, g, save, slot, RootEntries(v, g), v)
  {
    t, slot := Begun(v, []), 0;
    var count := ReadRootCount(vol, g, v);
    if count < 2 {
      return Unsupported, 0, t;
    }
    var es: seq<Entry>, at := [], count;
    var read := ReadDir(vol, g, g.root, count, v);
    if read.Some? {
      es := read.value;
      var taken := FindName(es, Name(save.entry));
      if taken {
        return Status.Exists, 0, t;
      }
      at := FindSlot(es);
    }
    slot := at;
    var need := NeededFor(g, save, at, count);
    var free := CountFree(vol, g, v);
    if need > free {
      return NoSpace, at, t;
    }
    RootIs(v, g);
    var root := WalkChain(vol, g, g.root, v);
    var a := new Allocator();
    var ok;
    ok, t := PlaceFolder(a, vol, g, save, at, count, root, v, es);
    st := if ok then Ok else NoSpace;
  }
}
