/** Deleting a save folder from a PS2 card: every chain of it is freed, and its root entry is
    no longer live. */
module Ps2Delete {
  import opened Bytes
  import opened Status
  import opened Chains
  import opened Division
  import opened Ps2Fat
  import opened Ps2Cells
  import opened Ps2Alloc
  import opened Ps2Read
  import opened Ps2Save
  import opened Ps2Grow
  import opened Ps2Write
  import opened Ps2Card
  import opened Ps2Frame
  import opened Ps2Sound

  /* ---- Freeing a family of chains ------------------------------------------------------------------------- */

  ghost predicate EmptiedAt(fat: Fat, after: Fat, cs: seq<seq<nat>>, n: nat, b: nat) {
    b < |fat| == |after| && after[b] == if InSome(cs, n, b) then Free else fat[b]
  }

  /** The cells of the first `n` of `cs` are free, and every other cell is as it was. */
  ghost predicate Emptied(fat: Fat, after: Fat, cs: seq<seq<nat>>, n: nat) {
    |after| == |fat| && forall b: nat {:trigger EmptiedAt(fat, after, cs, n, b)} :: b < |fat| ==>
      EmptiedAt(fat, after, cs, n, b)
  }

  function TotalLen(cs: seq<seq<nat>>, n: nat): nat
    requires n <= |cs|
  {
    if n == 0 then 0 else TotalLen(cs, n - 1) + |cs[n - 1]|
  }

  /** The next chain is untouched by the ones freed before it. */
  lemma NextIntact(fat: Fat, after: Fat, cs: seq<seq<nat>>, n: nat)
    requires Family(fat, cs) && Emptied(fat, after, cs, n) && n < |cs| && cs[n] != []
    ensures IsChain(after, cs[n]) && ChainOf(after, cs[n][0]) == cs[n]
  {
    assert Member(fat, cs, n);
    forall i | 0 <= i < |cs[n]| ensures after[cs[n][i]] == fat[cs[n][i]] {
      assert EmptiedAt(fat, after, cs, n, cs[n][i]);
      forall a | 0 <= a < n ensures cs[n][i] !in cs[a] {
        assert Apart(cs, a, n);
      }
    }
    ChainFrame(fat, after, cs[n]);
  }

  lemma EmptiedNext(fat: Fat, after: Fat, later: Fat, cs: seq<seq<nat>>, n: nat)
    requires Emptied(fat, after, cs, n) && n < |cs| && FreedFrom(after, cs[n], later)
    ensures Emptied(fat, later, cs, n + 1)
  {
    var k := n + 1;
    forall b: nat | b < |fat| ensures EmptiedAt(fat, later, cs, k, b) {
      assert EmptiedAt(fat, after, cs, n, b);
      if b in cs[n] {
        var i :| 0 <= i < |cs[n]| && cs[n][i] == b;
        assert later[cs[n][i]] == Free;
      } else {
        assert InSome(cs, n + 1, b) <==> InSome(cs, n, b);
      }
    }
  }

  /** The table with the chain from `start` freed, if there is an intact one. */
  ghost function Cut(fat: Fat, start: nat): (after: Fat)
    ensures |after| == |fat| && forall b {:trigger after[b]} :: 0 <= b < |fat| ==>
      after[b] == if b in ChainOf(fat, start) then Free else fat[b]
  {
    seq(|fat|, b requires 0 <= b < |fat| => if b in ChainOf(fat, start) then Free else fat[b])
  }

  lemma CutFreed(fat: Fat, start: nat)
    ensures FreedFrom(fat, ChainOf(fat, start), Cut(fat, start))
  {
  }

  lemma FreedIsCut(fat: Fat, start: nat, after: Fat)
    requires FreedFrom(fat, ChainOf(fat, start), after)
    ensures after == Cut(fat, start)
  {
    var c, cut := ChainOf(fat, start), Cut(fat, start);
    forall b | 0 <= b < |fat| ensures after[b] == cut[b] {
      if b in c {
        var k :| 0 <= k < |c| && c[k] == b;
        assert after[c[k]] == Free;
      }
    }
  }

  /** Frees the cells of one chain. */
  method FreeChain(vol: array<seq<u8>>, g: Geometry, cells: seq<nat>, ghost v: View) returns (ghost w: View)
    requires Holds(vol[..], g, v) && forall i {:trigger cells[i]} :: 0 <= i < |cells| ==> cells[i] < g.end
    modifies vol
    ensures Holds(vol[..], g, w) && w.data == v.data && FreedFrom(v.fat, cells, w.fat)
  {
    w := v;
    for i := 0 to |cells|
      invariant Holds(vol[..], g, w) && w.data == v.data && FreeingAt(v.fat, cells, i, w.fat)
    {
      FreeingStep(v.fat, cells, i, w.fat);
      var ok := FatSet(vol, g, cells[i], CHAIN_END, w);
      w := w.(fat := w.fat[cells[i] := Free]);
    }
    assert cells[..|cells|] == cells;
  }

  /** Walks the chain from `start` and frees it. */
  method FreeWalked(vol: array<seq<u8>>, g: Geometry, start: nat, ghost v: View) returns (ghost w: View)
    requires Holds(vol[..], g, v)
    modifies vol
    ensures Holds(vol[..], g, w) && w == v.(fat := Cut(v.fat, start))
  {
    hide Cut;
    var chain := WalkChain(vol, g, start, v);
    w := FreeChain(vol, g, chain, v);
    FreedIsCut(v.fat, start, w.fat);
  }

  lemma SkipNext(fat: Fat, after: Fat, cs: seq<seq<nat>>, n: nat)
    requires Emptied(fat, after, cs, n) && n < |cs| && cs[n] == []
    ensures Emptied(fat, after, cs, n + 1)
  {
    var k := n + 1;
    forall b: nat | b < |fat| ensures EmptiedAt(fat, after, cs, k, b) {
      assert EmptiedAt(fat, after, cs, n, b);
      assert InSome(cs, n + 1, b) <==> InSome(cs, n, b);
    }
  }

  /* ---- The folder's chains, in the order they are freed ------------------------------------------------------ */

  /** The files' chains, then the folder's own. */
  ghost function FreeingOrder(v: View, s: Save): (cs: seq<seq<nat>>)
    ensures |cs| == |s.files| + 1
    ensures forall i {:trigger cs[i]} :: 0 <= i < |s.files| ==> cs[i] == FileChain(v, s.files[i])
    ensures cs[|s.files|] == ChainOf(v.fat, Cluster(s.entry))
  {
    seq(|s.files|, i requires 0 <= i < |s.files| => FileChain(v, s.files[i])) + [ChainOf(v.fat, Cluster(s.entry))]
  }

  /** Where chain `a` of that order, of a folder with `m` files, stands among the folder's chains
      with the root's first. */
  function PlaceAmong(a: nat, m: nat): nat {
    if a < m then a + 2 else 1
  }

  lemma OrderFamily(v: View, g: Geometry, e: Entry)
    requires FolderSound(v, g, e)
    ensures Family(v.fat, FreeingOrder(v, SaveAt(v, g, e)))
  {
    var s := SaveAt(v, g, e);
    var cs, fs := FreeingOrder(v, s), [ChainOf(v.fat, g.root)] + FolderChains(v, g, e);
    var m := |s.files|;
    assert forall a: nat {:trigger cs[a]} :: a < m + 1 ==> cs[a] == fs[PlaceAmong(a, m)];
    forall a: nat | a < m + 1 ensures Member(v.fat, cs, a) {
      assert Member(v.fat, fs, PlaceAmong(a, m));
    }
    forall a: nat, b: nat | a < m + 1 && b < m + 1 && a != b ensures Apart(cs, a, b) {
      assert Apart(fs, PlaceAmong(a, m), PlaceAmong(b, m));
    }
  }

  /* ---- Deleting -------------------------------------------------------------------------------------------------- */

  /** The entry with its live bit cleared. */
  function Cleared(e: Entry): (r: Entry)
    requires Live(e)
    ensures !Live(r)
  {
    Le16Written(e, 0, Mode(e) - EXISTS);
    Splice(e, 0, Le16Bytes(Mode(e) - EXISTS))
  }

  /** What a delete leaves: the folder's chains free, its root entry not live, the rest as it was. */
  ghost predicate Deleted(v: View, w: View, g: Geometry, i: nat) {
    && Sized(v, g) && Sized(w, g) && RootReads(v, g) && LiveAt(RootEntries(v, g), i)
       && FolderOk(v, g, RootEntries(v, g)[i])
    && var e: Entry := RootEntries(v, g)[i];
       var root, cs := ChainOf(v.fat, g.root), FreeingOrder(v, SaveAt(v, g, e));
       && Emptied(v.fat, w.fat, cs, |cs|) && FreeCount(w.fat) == FreeCount(v.fat) + TotalLen(cs, |cs|)
       && DirIs(w, g, root, RootEntries(v, g)[i := Cleared(e)])
       && forall b: nat {:trigger w.data[b]} :: b < g.end && b !in root ==> w.data[b] == v.data[b]
  }

  ghost predicate Freed(v: View, w: View, cs: seq<seq<nat>>, n: nat) {
    w.data == v.data && n <= |cs| && Emptied(v.fat, w.fat, cs, n)
      && FreeCount(w.fat) == FreeCount(v.fat) + TotalLen(cs, n)
  }

  lemma NoneFreed(v: View, cs: seq<seq<nat>>)
    ensures Freed(v, v, cs, 0)
  {
    forall b: nat | b < |v.fat| ensures EmptiedAt(v.fat, v.fat, cs, 0, b) {
    }
  }

  /** Where the chain freed `i`th starts: a file's, if it has bytes, or at last the folder's own. */
  function StartOf(s: Save, i: nat): Option<nat>
    requires i <= |s.files|
  {
    if i == |s.files| then Some(Cluster(s.entry))
    else if Length(s.files[i].entry) > 0 then Some(Cluster(s.files[i].entry)) else None
  }

  /** The table once the first `n` of the folder's chains are walked and freed, one after another: one that meets a
      chain freed before it is no longer intact, and stays. */
  ghost function CutAll(fat: Fat, s: Save, n: nat): (after: Fat)
    requires n <= |s.files| + 1
    ensures |after| == |fat|
  {
    if n == 0 then fat
    else match StartOf(s, n - 1)
         case None => CutAll(fat, s, n - 1)
         case Some(start) => Cut(CutAll(fat, s, n - 1), start)
  }

  /** Frees every chain of the folder. */
  method FreeFolder(vol: array<seq<u8>>, g: Geometry, s: Save, ghost v: View) returns (ghost w: View)
    requires Holds(vol[..], g, v)
    modifies vol
    ensures Holds(vol[..], g, w) && w == v.(fat := CutAll(v.fat, s, |s.files| + 1))
  {
    hide Holds, Cut;
    w := v;
    for i := 0 to |s.files| + 1
      invariant Holds(vol[..], g, w) && w == v.(fat := CutAll(v.fat, s, i))
    {
      var start := StartOf(s, i);
      if start.Some? {
        w := FreeWalked(vol, g, start.value, w);
      }
    }
  }

  /** On a sound folder that frees every chain whole. */
  lemma {:induction false} CutFreesAll(v: View, g: Geometry, e: Entry, n: nat)
    requires FolderSound(v, g, e) && n <= |SaveAt(v, g, e).files| + 1
    ensures Freed(v, v.(fat := CutAll(v.fat, SaveAt(v, g, e), n)), FreeingOrder(v, SaveAt(v, g, e)), n)
  {
    hide SaveAt, FreeingOrder, Cut, FolderReads, Family;
    var s := SaveAt(v, g, e);
    var cs := FreeingOrder(v, s);
    NoneFreed(v, cs);
    if n > 0 {
      var i: nat := n - 1;
      var fat := CutAll(v.fat, s, i);
      CutFreesAll(v, g, e, i);
      OrderFamily(v, g, e);
      OrderStarts(v, g, e, i);
      match StartOf(s, i) {
        case None => SkipNext(v.fat, fat, cs, i);
        case Some(start) =>
          NextIntact(v.fat, fat, cs, i);
          CutFreed(fat, start);
          EmptiedNext(v.fat, fat, Cut(fat, start), cs, i);
          FreeCountFreed(fat, cs[i], Cut(fat, start));
      }
    }
  }

  /** The chain freed `i`th starts where it should, and is not there exactly when the file has no bytes. */
  lemma OrderStarts(v: View, g: Geometry, e: Entry, i: nat)
    requires FolderSound(v, g, e) && i <= |SaveAt(v, g, e).files|
    ensures var cs := FreeingOrder(v, SaveAt(v, g, e));
            match StartOf(SaveAt(v, g, e), i) case None => cs[i] == []
              case Some(start) => cs[i] != [] && cs[i][0] == start
  {
    var s := SaveAt(v, g, e);
    if i < |s.files| && Length(s.files[i].entry) > 0 {
      SaveFileIntact(v, g, e, i);
    }
  }

  /** What a delete answers: whether the root points at the folder, and the folder reads. */
  ghost predicate DeleteAnswers(v: View, g: Geometry, first: nat, i: nat, st: Status)
    requires Sized(v, g)
  {
    && (st == InvalidArg <==> forall k: nat {:trigger FolderAt(v, g, first, k)} :: !FolderAt(v, g, first, k))
    && (st != InvalidArg ==> FolderAt(v, g, first, i) && st == if Extractable(v, g, first) then Ok else Unsupported)
  }

  /** Some cells are free that were not; the others are as they were. */
  ghost predicate OnlyFrees(fat: Fat, after: Fat) {
    |after| == |fat| && forall b {:trigger after[b]} :: 0 <= b < |fat| ==> after[b] == fat[b] || after[b] == Free
  }

  lemma {:induction false} CutOnlyFrees(fat: Fat, s: Save, n: nat)
    requires n <= |s.files| + 1
    ensures OnlyFrees(fat, CutAll(fat, s, n))
  {
    if n > 0 {
      CutOnlyFrees(fat, s, n - 1);
    }
  }

  /** A chain that is still intact is the one it was. */
  lemma StillChain(fat: Fat, after: Fat, first: nat)
    requires OnlyFrees(fat, after) && Intact(after, first)
    ensures IsChain(fat, ChainOf(fat, first)) && ChainOf(after, first) == ChainOf(fat, first)
  {
    var c := ChainOf(after, first);
    forall k | 0 <= k < |c| ensures fat[c[k]] == after[c[k]] {
      if after[c[k]] == Free {
        ChainAvoidsFree(after, c, c[k]);
      }
    }
    ChainFrame(after, fat, c);
  }

  /** Root entry `i` no longer live, if the root's chain still is whole; nothing else changed. */
  ghost predicate EntryCleared(v: View, w: View, g: Geometry, i: nat, es: seq<Entry>, x: View) {
    && Sized(v, g) && Sized(x, g) && x.fat == w.fat && i < |es| && Live(es[i])
    && if Intact(w.fat, g.root)
       then ChainOf(w.fat, g.root) == ChainOf(v.fat, g.root)
         && DirIs(x, g, ChainOf(v.fat, g.root), es[i := Cleared(es[i])])
            && forall b: nat {:trigger x.data[b]} :: b < g.end && b !in ChainOf(v.fat, g.root) ==>
               x.data[b] == v.data[b]
       else x.data == v.data
  }

  lemma DirEntryAt(v: View, g: Geometry, chain: seq<nat>, es: seq<Entry>, i: nat)
    requires DirIs(v, g, chain, es) && i < |es|
    ensures EntryIs(v, g, chain, es, i)
  {
  }

  /** Marks root entry `i` no longer live, walking the root's chain anew. */
  method ClearEntry(vol: array<seq<u8>>, g: Geometry, i: nat, ghost v: View, ghost w: View, ghost es: seq<Entry>)
    returns (ghost x: View)
    requires Holds(vol[..], g, w) && Sized(w, g) && w.data == v.data && Sized(v, g) && OnlyFrees(v.fat, w.fat)
    requires DirIs(v, g, ChainOf(v.fat, g.root), es) && i < |es| && Live(es[i])
    modifies vol
    ensures Holds(vol[..], g, x) && EntryCleared(v, w, g, i, es, x)
  {
    hide DirIs, OnlyFrees, Cleared, EntryPut;
    x := w;
    var root := WalkChain(vol, g, g.root, w);
    if Intact(w.fat, g.root) {
      StillChain(v.fat, w.fat, g.root);
      DirEntryAt(v, g, root, es, i);
    }
    var q := Div(i, Per(g));
    if q < |root| {
      assert SameAlong(v, w, root);
      DirAlong(v, w, g, root, root, es);
      var e := ReadEntry(vol, g, root, i, w, es);
      EntryPuts(w, g, root, i, Cleared(e));
      var n := root[q];
      ghost var c := vol[..];
      assert DataOf(c, g)[n] == c[g.offset + n];
      var bytes := EntrySplice(g, vol[g.offset + n], i, Cleared(e));
      SetCluster(vol, g, n, bytes, w);
      x := w.(data := w.data[n := bytes]);
      DirPut(w, x, g, root, es, i, Cleared(e));
    }
  }

  /** What a delete leaves, whatever the folder's chains share: each walked and freed in turn, and the root's entry
      cleared if the root's own chain was not among what they share. */
  ghost predicate DeletedAs(v: View, w: View, g: Geometry, i: nat) {
    && Sized(v, g) && RootReads(v, g) && LiveAt(RootEntries(v, g), i) && FolderOk(v, g, RootEntries(v, g)[i])
    && var s := SaveAt(v, g, RootEntries(v, g)[i]);
       EntryCleared(v, v.(fat := CutAll(v.fat, s, |s.files| + 1)), g, i, RootEntries(v, g), w)
  }

  /** On a sound folder that is every chain freed and the entry cleared. */
  lemma DeletedSoundly(v: View, w: View, g: Geometry, i: nat)
    requires DeletedAs(v, w, g, i) && FolderSound(v, g, RootEntries(v, g)[i])
    ensures Deleted(v, w, g, i)
  {
    hide SaveAt, FreeingOrder, Emptied, Cut, CutAll, DirIs, FolderReads, Family;
    var e: Entry := RootEntries(v, g)[i];
    CutFreesAll(v, g, e, |SaveAt(v, g, e).files| + 1);
    OrderSize(v, SaveAt(v, g, e));
    RootSurvives(v, w.fat, g, e);
    RootWhole(v, w.fat, g);
  }

  lemma OrderSize(v: View, s: Save)
    ensures |FreeingOrder(v, s)| == |s.files| + 1
  {
  }

  lemma RootWhole(v: View, after: Fat, g: Geometry)
    requires IsChain(after, ChainOf(v.fat, g.root)) && ChainOf(after, g.root) == ChainOf(v.fat, g.root)
    ensures Intact(after, g.root)
  {
  }

  /** Deletes the folder that starts at `first`: frees its files' clusters, then its own, and
      clears its root entry. A folder the root does not point at, or that does not read, is left. */
  method Delete(vol: array<seq<u8>>, g: Geometry, first: nat, ghost v: View)
    returns (st: Status, ghost at: nat, ghost w: View)
    requires Holds(vol[..], g, v) && Sized(v, g)
    modifies vol
    ensures DeleteAnswers(v, g, first, at, st)
    ensures st != Ok ==> vol[..] == old(vol[..])
    ensures st == Ok ==> Holds(vol[..], g, w) && DeletedAs(v, w, g, at) && Cluster(RootEntries(v, g)[at]) == first
    ensures st == Ok && FolderSound(v, g, RootEntries(v, g)[at]) ==> Deleted(v, w, g, at)
  {
    hide CutAll, FolderReads, EntryCleared, DirIs, FolderSound, Extracts, Extractable, SaveAt, Deleted, OnlyFrees,
      Holds, FolderOk;
    HoldsReads(vol[..], g, v);
    w := v;
    var found, i := FindFolder(vol, g, first, v);
    at := i;
    if found.None? {
      return InvalidArg, at, v;
    }
    var save := Extract(vol, g, first, v);
    if save.None? {
      return Unsupported, at, v;
    }
    var s := save.value;
    ghost var es := RootEntries(v, g);
    DeletedSave(v, g, first, i, s);
    RootIs(v, g);
    w := FreeFolder(vol, g, s, v);
    CutOnlyFrees(v.fat, s, |s.files| + 1);
    ghost var x := w;
    w := ClearEntry(vol, g, i, v, x, es);
    if FolderSound(v, g, es[i]) {
      DeletedSoundly(v, w, g, i);
    }
    st := Ok;
  }

  lemma DeletedSave(v: View, g: Geometry, first: nat, i: nat, s: Save)
    requires Sized(v, g) && FolderAt(v, g, first, i) && Extracts(v, g, first, s)
    ensures RootReads(v, g) && LiveAt(RootEntries(v, g), i) && FolderOk(v, g, RootEntries(v, g)[i])
    ensures Cluster(RootEntries(v, g)[i]) == first && s == SaveAt(v, g, RootEntries(v, g)[i])
  {
    forall k: nat | FolderAt(v, g, first, k) ensures k == i {
      FolderOnce(v, g, first, i, k);
    }
  }

  lemma SaveFileIntact(v: View, g: Geometry, e: Entry, k: nat)
    requires FolderOk(v, g, e) && k < |SaveAt(v, g, e).files| && Length(SaveAt(v, g, e).files[k].entry) > 0
    ensures Intact(v.fat, Cluster(SaveAt(v, g, e).files[k].entry))
  {
    var es: seq<Entry> := Entries(v, g, Cluster(e), Length(e));
    FilesIntact(v, g, es, |es|, k);
  }

  lemma {:induction false} FilesIntact(v: View, g: Geometry, es: seq<Entry>, n: nat, k: nat)
    requires Sized(v, g) && n <= |es| && FilesRead(v, g, es, n) && k < |FilesOf(v, g, es, n)|
    requires Length(FilesOf(v, g, es, n)[k].entry) > 0
    ensures Intact(v.fat, Cluster(FilesOf(v, g, es, n)[k].entry))
  {
    if n > 2 && k < |FilesOf(v, g, es, n - 1)| {
      FilesIntact(v, g, es, n - 1, k);
    }
  }

  /** The root's chain is none of the folder's. */
  lemma RootSurvives(v: View, after: Fat, g: Geometry, e: Entry)
    requires Sized(v, g) && RootReads(v, g) && RootEntries(v, g) != [] && FolderSound(v, g, e)
    requires var cs := FreeingOrder(v, SaveAt(v, g, e)); Emptied(v.fat, after, cs, |cs|)
    ensures IsChain(after, ChainOf(v.fat, g.root)) && ChainOf(after, g.root) == ChainOf(v.fat, g.root)
  {
    var root, s := ChainOf(v.fat, g.root), SaveAt(v, g, e);
    var cs, fs, m := FreeingOrder(v, s), [root] + FolderChains(v, g, e), |s.files|;
    assert forall a: nat {:trigger cs[a]} :: a < m + 1 ==> cs[a] == fs[PlaceAmong(a, m)];
    forall i | 0 <= i < |root| ensures after[root[i]] == v.fat[root[i]] {
      assert EmptiedAt(v.fat, after, cs, |cs|, root[i]);
      forall a: nat | a < m + 1 ensures root[i] !in cs[a] {
        assert Apart(fs, 0, PlaceAmong(a, m));
      }
    }
    ChainFrame(v.fat, after, root);
  }
}
