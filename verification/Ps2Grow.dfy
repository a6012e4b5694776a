/** The steps of a PS2 inject: chains that grow cluster by cluster out of the cells that were
    free, and the clusters and entries written along them. */
module Ps2Grow {
  import opened Bytes
  import opened Status
  import opened Chains
  import opened Division
  import opened Ps2Fat
  import opened Ps2Cells
  import opened Ps2Alloc
  import opened Ps2Read
  import opened Ps2Save

  const PAD: u8 := 0xFF

  /* ---- Where an inject may write -------------------------------------------------------------------- */

  /** Cell `n` is one an inject may write: it was free, or is on the root directory's chain. */
  ghost predicate Writable(v0: View, root0: seq<nat>, n: nat) {
    n < |v0.fat| && (v0.fat[n] == Free || n in root0)
  }

  ghost predicate OwnCells(v0: View, root0: seq<nat>, chain: seq<nat>) {
    forall k {:trigger chain[k]} :: 0 <= k < |chain| ==> Writable(v0, root0, chain[k])
  }

  ghost predicate Own(v0: View, root0: seq<nat>, fs: seq<seq<nat>>) {
    forall i {:trigger fs[i]} :: 0 <= i < |fs| ==> OwnCells(v0, root0, fs[i])
  }

  ghost predicate CellKept(v0: View, v: View, n: nat) {
    n < |v0.fat| == |v.fat| == |v0.data| == |v.data| && v.fat[n] == v0.fat[n] && v.data[n] == v0.data[n]
  }

  /** Every other cell and its cluster are as they were. */
  ghost predicate Untouched(v0: View, v: View, root0: seq<nat>) {
    forall n: nat {:trigger CellKept(v0, v, n)} :: n < |v0.fat| && !Writable(v0, root0, n) ==> CellKept(v0, v, n)
  }

  ghost predicate InSome(cs: seq<seq<nat>>, n: nat, b: nat) {
    exists a {:trigger cs[a]} :: 0 <= a < n && a < |cs| && b in cs[a]
  }

  /** Every cell taken of the pool is on one of the chains. */
  ghost predicate AllOn(pool: seq<nat>, taken: nat, cs: seq<seq<nat>>) {
    taken <= |pool| && forall j {:trigger pool[j]} :: 0 <= j < taken ==> InSome(cs, |cs|, pool[j])
  }

  lemma AllOnGrown(pool: seq<nat>, taken: nat, cs: seq<seq<nat>>, i: nat)
    requires AllOn(pool, taken, cs) && taken < |pool| && i < |cs|
    ensures AllOn(pool, taken + 1, cs[i := cs[i] + [pool[taken]]])
  {
    var ds := cs[i := cs[i] + [pool[taken]]];
    forall j | 0 <= j < taken + 1 ensures InSome(ds, |ds|, pool[j]) {
      if j < taken {
        var a :| 0 <= a < |cs| && pool[j] in cs[a];
        assert pool[j] in ds[a];
      } else {
        assert pool[j] in ds[i];
      }
    }
  }

  lemma AllOnStarted(pool: seq<nat>, taken: nat, cs: seq<seq<nat>>)
    requires AllOn(pool, taken, cs)
    ensures AllOn(pool, taken, cs + [[]])
  {
    var ds := cs + [[]];
    forall j | 0 <= j < taken ensures InSome(ds, |ds|, pool[j]) {
      var a :| 0 <= a < |cs| && pool[j] in cs[a];
      assert ds[a] == cs[a];
    }
  }

  /** An inject under way: from card `from`, whose root chain was `root` and whose free cells
      were `pool`, the card has become `at` and `chains` have grown by the first `taken` of the
      pool. */
  datatype Progress = Progress(from: View, root: seq<nat>, pool: seq<nat>, at: View, taken: nat, chains: seq<seq<nat>>)

  ghost predicate Growing(s: Progress, g: Geometry, next: nat) {
    && Sized(s.from, g) && Sized(s.at, g)
    && s.pool == FreeFrom(s.from.fat, 0)
    && Drawn(s.at.fat, s.pool, s.taken, next) && Family(s.at.fat, s.chains)
    && Own(s.from, s.root, s.chains) && Untouched(s.from, s.at, s.root)
    && AllOn(s.pool, s.taken, s.chains)
  }

  /** Chain `i` grown by the next cell of the pool. */
  ghost function Grown(s: Progress, i: nat): Progress
    requires i < |s.chains| && s.taken < |s.pool| && s.pool[s.taken] < |s.at.fat| && Member(s.at.fat, s.chains, i)
  {
    var n := s.pool[s.taken];
    s.(at := s.at.(fat := Linked(s.at.fat, s.chains[i], n)), taken := s.taken + 1,
        chains := s.chains[i := s.chains[i] + [n]])
  }

  lemma GrowStep(s: Progress, g: Geometry, next: nat, i: nat, next': nat)
    requires Growing(s, g, next) && i < |s.chains| && s.taken < |s.pool|
    requires s.pool[s.taken] < |s.at.fat| && s.at.fat[s.pool[s.taken]] == Free
    requires Member(s.at.fat, s.chains, i)
    requires Drawn(Linked(s.at.fat, s.chains[i], s.pool[s.taken]), s.pool, s.taken + 1, next')
    ensures Growing(Grown(s, i), g, next')
  {
    hide AllOn;
    var n, fs, t := s.pool[s.taken], s.chains, Grown(s, i);
    Grow(s.at.fat, fs, i, n);
    AllOnGrown(s.pool, s.taken, fs, i);
    assert s.from.fat[n] == Free;
    forall j | 0 <= j < |t.chains| ensures OwnCells(s.from, s.root, t.chains[j]) {
      assert OwnCells(s.from, s.root, fs[j]);
    }
    forall m: nat | m < |s.from.fat| && !Writable(s.from, s.root, m) ensures CellKept(s.from, t.at, m) {
      assert CellKept(s.from, s.at, m);
      assert OwnCells(s.from, s.root, fs[i]);
      if fs[i] != [] {
        assert Writable(s.from, s.root, fs[i][|fs[i]| - 1]);
      }
    }
  }

  lemma StartStep(s: Progress, g: Geometry, next: nat)
    requires Growing(s, g, next)
    ensures Growing(s.(chains := s.chains + [[]]), g, next)
  {
    hide AllOn;
    Start(s.at.fat, s.chains);
    AllOnStarted(s.pool, s.taken, s.chains);
  }

  /** The cells of a growing chain are in range and writable. */
  lemma GrowingCell(s: Progress, g: Geometry, next: nat, i: nat, p: nat)
    requires Growing(s, g, next) && i < |s.chains| && p < |s.chains[i]|
    ensures s.chains[i][p] < |s.at.fat| == |s.at.data| && Writable(s.from, s.root, s.chains[i][p])
  {
    assert OwnCells(s.from, s.root, s.chains[i]);
  }

  /** Cluster `n` overwritten. */
  ghost function Written(s: Progress, n: nat, bytes: seq<u8>): Progress
    requires n < |s.at.data|
  {
    s.(at := s.at.(data := s.at.data[n := bytes]))
  }

  lemma WriteStep(s: Progress, g: Geometry, next: nat, n: nat, bytes: seq<u8>)
    requires Growing(s, g, next) && Writable(s.from, s.root, n) && |bytes| == g.cs
    ensures n < |s.at.data| && Growing(Written(s, n, bytes), g, next)
  {
    var t := Written(s, n, bytes);
    forall m: nat | m < |s.from.fat| && !Writable(s.from, s.root, m) ensures CellKept(s.from, t.at, m) {
      assert CellKept(s.from, s.at, m);
    }
  }

  /* ---- What stays while other chains are written ------------------------------------------------------ */

  /** The clusters of `chain` read the same. */
  ghost predicate SameAlong(v: View, w: View, chain: seq<nat>) {
    |v.data| == |w.data| && forall k {:trigger chain[k]} :: 0 <= k < |chain| ==>
      chain[k] < |v.data| && w.data[chain[k]] == v.data[chain[k]]
  }

  /** Every chain but the `i`th reads the same. */
  ghost predicate SameBut(v: View, w: View, fs: seq<seq<nat>>, i: nat) {
    forall j {:trigger fs[j]} :: 0 <= j < |fs| && j != i ==> SameAlong(v, w, fs[j])
  }

  lemma WriteKeepsOthers(v: View, g: Geometry, fs: seq<seq<nat>>, i: nat, p: nat, bytes: seq<u8>)
    requires Sized(v, g) && Family(v.fat, fs) && i < |fs| && p < |fs[i]| && fs[i][p] < |v.data|
    ensures SameBut(v, v.(data := v.data[fs[i][p] := bytes]), fs, i)
  {
    forall j | 0 <= j < |fs| && j != i ensures SameAlong(v, v.(data := v.data[fs[i][p] := bytes]), fs[j]) {
      assert Apart(fs, i, j) && Member(v.fat, fs, j);
    }
  }
}
