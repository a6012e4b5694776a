/** Runs of a PS2 card: what it holds by name is what the adds and deletes said, each folder
    extracts to the save that went in, and a formatted card starts a run. */
module Ps2Theorems {
  import opened Bytes
  import opened Status
  import opened Chains
  import opened Division
  import opened Ps2Fat
  import opened Ps2Cells
  import opened Ps2Alloc
  import opened Ps2Read
  import opened Ps2Save
  import opened Ps2Grow
  import opened Ps2Build
  import opened Ps2Inject
  import opened Ps2Card
  import opened Ps2Frame
  import opened Ps2Result
  import opened Ps2Sound
  import opened Ps2Delete
  import opened Ps2Runs
  import opened Simulation

  /* ---- Extracting what is held ----------------------------------------------------------------------------- */

  /** Two sound folders do not start at the same cluster. */
  lemma StartsApart(v: View, g: Geometry, e: Entry, f: Entry)
    requires FolderSound(v, g, e) && FolderSound(v, g, f) && FoldersApart(v, g, e, f)
    ensures Cluster(e) != Cluster(f)
  {
    var c, d := FolderChains(v, g, e)[0], FolderChains(v, g, f)[0];
    assert c[0] == Cluster(e) && d[0] == Cluster(f);
    assert !Crossing(v, g, e, f, 0, 0);
  }

  /** The root's entry for a live folder of a well-formed card is the one it is found by. */
  lemma FoundBy(v: View, g: Geometry, i: nat)
    requires WellFormed(v, g) && LiveAt(RootEntries(v, g), i)
    ensures FolderOk(v, g, RootEntries(v, g)[i]) && FolderAt(v, g, Cluster(RootEntries(v, g)[i]), i)
    ensures Extractable(v, g, Cluster(RootEntries(v, g)[i]))
  {
    var es := RootEntries(v, g);
    assert SoundAt(v, g, es, i);
    var first := Cluster(es[i]);
    forall j | 2 <= j < i ensures !PointsAt(es[j], first) {
      if Live(es[j]) {
        assert SoundAt(v, g, es, j) && ApartAt(v, g, es, j, i);
        StartsApart(v, g, es[j], es[i]);
      }
    }
    assert PointsAt(es[i], first);
    assert FirstFor(es, first, i);
    assert FolderAt(v, g, first, i);
  }

  /** A held folder extracts, to what the map says it is and to nothing else. */
  lemma ExtractHeld(v: View, g: Geometry, m: Folders, name: seq<u8>)
    requires Holding(v, g, m) && name in m
    ensures Extractable(v, g, m[name].first)
    ensures forall s {:trigger Extracts(v, g, m[name].first, s)} :: Extracts(v, g, m[name].first, s) ==>
      Plain(s) == m[name].save
  {
    var es, i := RootEntries(v, g), m[name].slot;
    HeldIs(v, g, m, name);
    FoundBy(v, g, i);
    forall k: nat | FolderAt(v, g, m[name].first, k) ensures k == i {
      FolderOnce(v, g, m[name].first, i, k);
    }
  }

  /* ---- The card as a directory ----------------------------------------------------------------------------------- */

  /** What a card holds: its folders by name, the entries its root counts, the clusters its root has,
      and which clusters are free. */
  datatype Dir = Dir(folders: Folders, count: nat, room: nat, free: set<nat>)

  ghost predicate Shows(v: View, g: Geometry, d: Dir) {
    && Holding(v, g, d.folders) && d.count == |RootEntries(v, g)|
    && d.room == |ChainOf(v.fat, g.root)| && d.free == FreeCells(v.fat)
  }

  ghost predicate InSlot(d: Dir, name: seq<u8>, i: nat) {
    name in d.folders && d.folders[name].slot == i
  }

  ghost predicate Occupied(d: Dir, i: nat) {
    exists name {:trigger InSlot(d, name, i)} :: InSlot(d, name, i)
  }

  /** The slot a new folder goes in: the first a deleted one left, or the one past the end. */
  ghost predicate SlotIn(d: Dir, slot: nat) {
    2 <= slot <= d.count && (slot < d.count ==>
        !Occupied(d, slot)) && forall i: nat {:trigger Occupied(d, i)} :: 2 <= i < slot ==> Occupied(d, i)
  }

  ghost predicate StartsAt(d: Dir, name: seq<u8>, first: nat) {
    name in d.folders && d.folders[name].first == first
  }

  /** Clusters the root takes for an entry in `slot`. */
  function Opening(g: Geometry, d: Dir, slot: nat): nat
    requires Sane(g)
  {
    if slot == d.count && Mod(slot, Per(g)) == 0 && d.room <= Div(slot, Per(g)) then 1 else 0
  }

  /** The directory with a folder for `save` in `slot`, once `taken` are: the root's new cluster first, if it takes
      one, then the folder's. */
  ghost function WithFolder(g: Geometry, d: Dir, save: Save, slot: nat, taken: seq<nat>): Dir
    requires Sane(g) && Opening(g, d, slot) < |taken|
  {
    var opens := Opening(g, d, slot);
    Dir(d.folders[Name(save.entry) := Folder(Incoming(save), slot, taken[opens], CellSet(taken[opens..]))],
        if slot == d.count then d.count + 1 else d.count, d.room + opens, d.free - CellSet(taken))
  }

  ghost function WithoutFolder(d: Dir, name: seq<u8>): Dir
    requires name in d.folders
  {
    Dir(d.folders - {name}, d.count, d.room, d.free + d.folders[name].cells)
  }

  /* ---- One step -------------------------------------------------------------------- */

  datatype Op = Add(save: Save) | Remove(first: nat)

  ghost predicate Added(v: View, g: Geometry, save: Save, st: Status, w: View, slot: nat, t: Progress) {
    && Sized(v, g) && RootReads(v, g) && Answers(v, g, save, slot, st)
    && if st == Ok then Injected(t, g, save, slot, RootEntries(v, g), v) && w == t.at else w == v
  }

  ghost predicate Removed(v: View, g: Geometry, first: nat, st: Status, w: View, at: nat) {
    && Sized(v, g) && DeleteAnswers(v, g, first, at, st)
    && if st == Ok then DeletedAs(v, w, g, at) else w == v
  }

  /** One call on the card, as the methods' contracts state it. */
  ghost predicate Step(v: View, g: Geometry, op: Op, st: Status, w: View) {
    match op
    case Add(save) => Loadable(save)
      && exists slot: nat, t {:trigger Added(v, g, save, st, w, slot, t)} :: Added(v, g, save, st, w, slot, t)
    case Remove(first) => exists at: nat {:trigger Removed(v, g, first, st, w, at)} :: Removed(v, g, first, st, w, at)
  }

  /** The folder goes in the lowest free clusters, as many as it and the root need; it starts where no other does. */
  ghost predicate AddsTaking(g: Geometry, d: Dir, save: Save, n: Dir, slot: nat, taken: seq<nat>)
    requires Sane(g)
  {
    && Opening(g, d, slot) < |taken| && Lowest(d.free, Opening(g, d, slot) + Cost(g, save), taken)
    && n == WithFolder(g, d, save, slot, taken)
    && forall name {:trigger name in d.folders} :: name in d.folders ==>
       d.folders[name].first != taken[Opening(g, d, slot)]
  }

  /** Adding to the directory in slot `slot`: it is refused only when the clusters it may need are more
      than are free. */
  ghost predicate AddIn(g: Geometry, d: Dir, save: Save, st: Status, n: Dir, slot: nat)
    requires Sane(g)
  {
    && SlotIn(d, slot)
    && if (if slot == d.count && Mod(d.count, Per(g)) == 0 then 1 else 0) + Cost(g, save) > |d.free|
       then st == NoSpace && n == d
       else st == Ok && exists taken {:trigger AddsTaking(g, d, save, n, slot, taken)} ::
         AddsTaking(g, d, save, n, slot, taken)
  }

  /** The same call on the directory, which settles its answer and what it leaves. */
  ghost predicate DirStep(g: Geometry, d: Dir, op: Op, st: Status, n: Dir)
    requires Sane(g)
  {
    match op
    case Add(save) =>
      if Name(save.entry) in d.folders then st == Status.Exists && n == d
      else exists slot: nat {:trigger AddIn(g, d, save, st, n, slot)} :: AddIn(g, d, save, st, n, slot)
    case Remove(first) =>
      if exists name {:trigger StartsAt(d, name, first)} :: StartsAt(d, name, first)
      then st == Ok && exists name {:trigger StartsAt(d, name, first)} ::
        StartsAt(d, name, first) && n == WithoutFolder(d, name)
      else st == InvalidArg && n == d
  }

  lemma OccupiedIff(v: View, g: Geometry, d: Dir, i: nat)
    requires Shows(v, g, d)
    ensures Occupied(d, i) <==> LiveAt(RootEntries(v, g), i)
  {
    var es := RootEntries(v, g);
    if LiveAt(es, i) {
      assert HeldAt(v, g, es, i, d.folders);
      assert InSlot(d, Name(es[i]), i);
    }
    if Occupied(d, i) {
      var name :| InSlot(d, name, i);
      HeldIs(v, g, d.folders, name);
    }
  }

  lemma SlotIff(v: View, g: Geometry, d: Dir, slot: nat)
    requires Shows(v, g, d) && SlotFor(RootEntries(v, g), slot)
    ensures SlotIn(d, slot)
  {
    forall i: nat | 2 <= i < slot ensures Occupied(d, i) {
      OccupiedIff(v, g, d, i);
    }
    OccupiedIff(v, g, d, slot);
  }

  /** A new folder starts where no other does. */
  lemma StartIsNew(w: View, g: Geometry, m: Folders, name: seq<u8>, other: seq<u8>)
    requires Holding(w, g, m) && name in m && other in m && name != other
    ensures m[name].first != m[other].first
  {
    HeldIs(w, g, m, name);
    HeldIs(w, g, m, other);
    var es := RootEntries(w, g);
    assert ApartAt(w, g, es, m[name].slot, m[other].slot);
    StartsApart(w, g, es[m[name].slot], es[m[other].slot]);
  }

  /** What an inject took of the free clusters. */
  function Taken(t: Progress): seq<nat>
    requires t.taken <= |t.pool|
  {
    t.pool[..t.taken]
  }

  lemma InjectedDraws(t: Progress, g: Geometry, save: Save, slot: nat, es: seq<Entry>, v: View)
    requires Injected(t, g, save, slot, es, v)
    ensures t.root == ChainOf(v.fat, g.root) && t.pool == FreeFrom(v.fat, 0)
    ensures t.taken == RootOpens(g, t.root, slot, |es|) + Cost(g, save)
      && RootOpens(g, t.root, slot, |es|) < t.taken <= |t.pool|
    ensures FreeCells(t.at.fat) == FreeCells(v.fat) - CellSet(t.pool[..t.taken])
  {
  }

  lemma AddTakes(v: View, g: Geometry, d: Dir, save: Save, slot: nat, t: Progress)
    requires Shows(v, g, d) && Adds(t, g, save, slot, v, d.folders)
    ensures t.taken <= |t.pool| && RootOpens(g, t.root, slot, |RootEntries(v, g)|) == Opening(g, d, slot) < |Taken(t)|
    ensures Lowest(d.free, Opening(g, d, slot) + Cost(g, save), Taken(t))
    ensures CellSet(Taken(t)[Opening(g, d, slot)..]) == CellSet(t.pool[Opening(g, d, slot)..t.taken])
    ensures FreeCells(t.at.fat) == d.free - CellSet(Taken(t))
  {
    hide Injected, AllSound, HeldAt, RootEntries, Lowest, FreeFrom, FreeCells, CellSet, Loadable, SlotFor, NameTaken,
      Ceil, DataNeeded, ChainOf;
    InjectedDraws(t, g, save, slot, RootEntries(v, g), v);
    assert Taken(t)[Opening(g, d, slot)..] == t.pool[Opening(g, d, slot)..t.taken];
    PoolLowest(v.fat, t.taken);
  }

  lemma AddShows(v: View, g: Geometry, d: Dir, save: Save, slot: nat, t: Progress)
    requires Shows(v, g, d) && Adds(t, g, save, slot, v, d.folders)
    requires t.taken <= |t.pool| && Opening(g, d, slot) < |Taken(t)|
    ensures Shows(t.at, g, WithFolder(g, d, save, slot, Taken(t)))
  {
    hide Incoming, Cost, Lowest;
    AddTakes(v, g, d, save, slot, t);
    AddedRoot(t, g, save, slot, v, d.folders);
    InjectRefines(t, g, save, slot, v, d.folders);
  }

  lemma AddStarts(v: View, w: View, g: Geometry, d: Dir, save: Save, slot: nat, taken: seq<nat>)
    requires Sane(g) && Holding(v, g, d.folders) && Name(save.entry) !in d.folders
    requires Opening(g, d, slot) < |taken| && Shows(w, g, WithFolder(g, d, save, slot, taken))
    ensures forall name {:trigger name in d.folders} :: name in d.folders ==>
      d.folders[name].first != taken[Opening(g, d, slot)]
  {
    var m := WithFolder(g, d, save, slot, taken).folders;
    forall name | name in d.folders ensures d.folders[name].first != taken[Opening(g, d, slot)] {
      StartIsNew(w, g, m, Name(save.entry), name);
    }
  }

  lemma AddRefines(v: View, g: Geometry, d: Dir, save: Save, st: Status, w: View, slot: nat, t: Progress)
    returns (n: Dir)
    requires Shows(v, g, d) && Loadable(save) && Added(v, g, save, st, w, slot, t)
    ensures Shows(w, g, n) && DirStep(g, d, Add(save), st, n)
  {
    n := d;
    TakenIff(v, g, d.folders, Name(save.entry));
    if Name(save.entry) !in d.folders {
      SlotIff(v, g, d, slot);
      if st == Ok {
        AddTakes(v, g, d, save, slot, t);
        AddShows(v, g, d, save, slot, t);
        AddStarts(v, w, g, d, save, slot, Taken(t));
        n := WithFolder(g, d, save, slot, Taken(t));
        assert AddsTaking(g, d, save, n, slot, Taken(t));
      }
      FreeCountCard(v.fat);
      assert AddIn(g, d, save, st, n, slot);
    }
  }

  /** The root points at `first` exactly when a folder starts there. */
  lemma PointedIff(v: View, g: Geometry, d: Dir, first: nat, k: nat)
    requires Shows(v, g, d)
    ensures FolderAt(v, g, first, k) ==>
      StartsAt(d, Name(RootEntries(v, g)[k]), first) && Extractable(v, g, first) && LiveAt(RootEntries(v, g), k)
    ensures forall name {:trigger StartsAt(d, name, first)} :: StartsAt(d, name, first) ==>
      FolderAt(v, g, first, d.folders[name].slot)
  {
    var es := RootEntries(v, g);
    if FolderAt(v, g, first, k) {
      assert PointsAt(es[k], first);
      assert HeldAt(v, g, es, k, d.folders);
      FoundBy(v, g, k);
    }
    forall name | StartsAt(d, name, first) ensures FolderAt(v, g, first, d.folders[name].slot) {
      HeldIs(v, g, d.folders, name);
      FoundBy(v, g, d.folders[name].slot);
    }
  }

  lemma RemoveRefines(v: View, g: Geometry, d: Dir, first: nat, st: Status, w: View, at: nat) returns (n: Dir)
    requires Shows(v, g, d) && Removed(v, g, first, st, w, at)
    ensures Shows(w, g, n) && DirStep(g, d, Remove(first), st, n)
  {
    hide Deleted, NameTaken, FreeingOrder, SaveAt, EntryCleared, FolderSound, FoldersApart, CutAll;
    n := d;
    PointedIff(v, g, d, first, at);
    if st == InvalidArg {
      forall name ensures !StartsAt(d, name, first) {
      }
    } else {
      var name := Name(RootEntries(v, g)[at]);
      assert StartsAt(d, name, first) && st == Ok;
      assert SoundAt(v, g, RootEntries(v, g), at);
      DeletedSoundly(v, w, g, at);
      DeleteRefines(v, w, g, at, d.folders);
      DeletedRoot(v, w, g, at);
      n := WithoutFolder(d, name);
    }
  }

  /* ---- Runs ------------------------------------------------------------------------ */

  ghost function Showing(g: Geometry): (View, Dir) -> bool {
    (v: View, d: Dir) => Shows(v, g, d)
  }

  ghost function Stepping(g: Geometry): (View, Op, Status, View) -> bool {
    (v: View, op: Op, st: Status, w: View) => Step(v, g, op, st, w)
  }

  ghost function DirStepping(g: Geometry): (Dir, Op, Status, Dir) -> bool
    requires Sane(g)
  {
    (d: Dir, op: Op, st: Status, n: Dir) => DirStep(g, d, op, st, n)
  }

  lemma Simulated(g: Geometry)
    requires Sane(g)
    ensures Simulates(Showing(g), Stepping(g), DirStepping(g))
  {
    var shows, step, dstep := Showing(g), Stepping(g), DirStepping(g);
    forall v, op, st, w, d | shows(v, d) && step(v, op, st, w)
      ensures exists n {:trigger dstep(d, op, st, n)} :: shows(w, n) && dstep(d, op, st, n) {
      var n := StepRefines(v, g, d, op, st, w);
      assert shows(w, n) && dstep(d, op, st, n);
    }
  }

  lemma StepRefines(v: View, g: Geometry, d: Dir, op: Op, st: Status, w: View) returns (n: Dir)
    requires Sane(g) && Shows(v, g, d) && Step(v, g, op, st, w)
    ensures Shows(w, g, n) && DirStep(g, d, op, st, n)
  {
    match op {
      case Add(save) =>
        var slot: nat, t :| Added(v, g, save, st, w, slot, t);
        n := AddRefines(v, g, d, save, st, w, slot, t);
      case Remove(first) =>
        var at: nat :| Removed(v, g, first, st, w, at);
        n := RemoveRefines(v, g, d, first, st, w, at);
    }
  }

  /** Every run from a card that shows `d` goes through cards that show what the same calls, with the same
      answers, make of `d`. */
  lemma RunRefines(g: Geometry, states: seq<View>, ops: seq<Op>, sts: seq<Status>, d: Dir) returns (dirs: seq<Dir>)
    requires Sane(g) && IsRun(Stepping(g), states, ops, sts) && Shows(states[0], g, d)
    ensures ShowsAll(Showing(g), states, dirs) && IsRun(DirStepping(g), dirs, ops, sts) && dirs[0] == d
  {
    Simulated(g);
    dirs := RunShows(Showing(g), Stepping(g), DirStepping(g), states, ops, sts, d);
  }
}
