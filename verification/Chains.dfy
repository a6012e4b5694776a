/** Allocation chains, shared by every card that keeps a file allocation table:
    each cell of the table is free, ends a chain, or links to the next cell. */
module Chains {

  /** `Broken` is a cell whose table does not read. */
  datatype Link = Free | End | Next(cell: nat) | Broken

  type Fat = seq<Link>

  predicate Steps(fat: Fat, p: seq<nat>, i: nat) {
    0 < i < |p| && p[i - 1] < |fat| && fat[p[i - 1]] == Next(p[i])
  }

  /** Cells inside the table, each linked to the one after it. */
  ghost predicate IsPath(fat: Fat, p: seq<nat>) {
    && (forall i :: 0 <= i < |p| ==> p[i] < |fat|)
    && (forall i: nat {:trigger Steps(fat, p, i)} :: 0 < i < |p| ==> Steps(fat, p, i))
  }

  /** A finite path that ends in the end mark: an intact chain. */
  ghost predicate IsChain(fat: Fat, c: seq<nat>) {
    |c| > 0 && IsPath(fat, c) && fat[c[|c| - 1]] == End
  }

  ghost predicate Intact(fat: Fat, first: nat) {
    exists c :: IsChain(fat, c) && c[0] == first
  }

  /** The intact chain starting at `first`, or nothing. */
  ghost function ChainOf(fat: Fat, first: nat): (c: seq<nat>)
    ensures Intact(fat, first) ==> IsChain(fat, c) && c[0] == first
    ensures !Intact(fat, first) ==> c == []
  {
    if Intact(fat, first) then
      var c :| IsChain(fat, c) && c[0] == first;
      c
    else
      []
  }

  predicate Distinct<T(==)>(s: seq<T>) {
    forall i, j :: 0 <= i < j < |s| ==> s[i] != s[j]
  }

  /** The `n` lowest of the free cells, rising. */
  ghost predicate Lowest(free: set<nat>, n: nat, cells: seq<nat>) {
    && |cells| == n && (forall i {:trigger cells[i]} :: 0 <= i < n ==> cells[i] in free)
    && (forall i, j {:trigger cells[i], cells[j]} :: 0 <= i < j < n ==> cells[i] < cells[j])
    && forall i, x {:trigger cells[i], x in free} :: 0 <= i < n && x in free && x !in cells ==> cells[i] < x
  }

  lemma LowestAt(free: set<nat>, n: nat, a: seq<nat>, b: seq<nat>, i: nat)
    requires Lowest(free, n, a) && Lowest(free, n, b) && i < n && forall j :: 0 <= j < i ==> a[j] == b[j]
    ensures b[i] <= a[i]
  {
  }

  /** There is one such choice. */
  lemma {:induction false} LowestOnce(free: set<nat>, n: nat, a: seq<nat>, b: seq<nat>)
    requires Lowest(free, n, a) && Lowest(free, n, b)
    ensures a == b
  {
    for i := 0 to n
      invariant forall j {:trigger a[j]} :: 0 <= j < i ==> a[j] == b[j]
    {
      LowestAt(free, n, a, b, i);
      LowestAt(free, n, b, a, i);
    }
  }

  ghost predicate Disjoint<T>(s: seq<T>, t: seq<T>) {
    forall i, j :: 0 <= i < |s| && 0 <= j < |t| ==> s[i] != t[j]
  }

  lemma PathPrefix(fat: Fat, p: seq<nat>, n: nat)
    requires IsPath(fat, p) && n <= |p|
    ensures IsPath(fat, p[..n])
  {
    var q := p[..n];
    forall i: nat | 0 < i < |q| ensures Steps(fat, q, i) {
      assert Steps(fat, p, i);
    }
  }

  /** Links are a function of the cell, so a path stays on the chain it starts on. */
  lemma {:induction false} PathFollowsChain(fat: Fat, p: seq<nat>, c: seq<nat>)
    requires IsPath(fat, p) && |p| > 0
    requires IsChain(fat, c) && c[0] == p[0]
    ensures |p| <= |c| && p == c[..|p|]
  {
    if |p| > 1 {
      var n := |p| - 1;
      PathPrefix(fat, p, n);
      PathFollowsChain(fat, p[..n], c);
      assert Steps(fat, p, n);
      assert c[n - 1] == p[..n][n - 1];
      assert n < |c| ==> Steps(fat, c, n);
    }
  }

  lemma ChainUnique(fat: Fat, c: seq<nat>, d: seq<nat>)
    requires IsChain(fat, c) && IsChain(fat, d) && c[0] == d[0]
    ensures c == d
  {
    PathFollowsChain(fat, c, d);
    PathFollowsChain(fat, d, c);
  }

  lemma ChainOfUnique(fat: Fat, c: seq<nat>)
    requires IsChain(fat, c)
    ensures ChainOf(fat, c[0]) == c
  {
    ChainUnique(fat, c, ChainOf(fat, c[0]));
  }

  /** A suffix of a chain is the chain of the cell it starts at. */
  lemma ChainSuffix(fat: Fat, c: seq<nat>, k: nat)
    requires IsChain(fat, c) && k < |c|
    ensures IsChain(fat, c[k..])
  {
    var d := c[k..];
    forall i: nat | 0 < i < |d| ensures Steps(fat, d, i) {
      assert Steps(fat, c, k + i);
    }
  }

  /** An intact chain never comes back to a cell: it would then never end. */
  lemma ChainDistinct(fat: Fat, c: seq<nat>)
    requires IsChain(fat, c)
    ensures Distinct(c)
  {
    forall i, j | 0 <= i < j < |c| ensures c[i] != c[j] {
      if c[i] == c[j] {
        ChainSuffix(fat, c, i);
        ChainSuffix(fat, c, j);
        ChainUnique(fat, c[i..], c[j..]);
      }
    }
  }

  /** Two intact chains that share a cell end together. */
  lemma ChainsMerge(fat: Fat, c: seq<nat>, d: seq<nat>, i: nat, j: nat)
    requires IsChain(fat, c) && IsChain(fat, d) && i < |c| && j < |d| && c[i] == d[j]
    ensures c[i..] == d[j..]
  {
    ChainSuffix(fat, c, i);
    ChainSuffix(fat, d, j);
    ChainUnique(fat, c[i..], d[j..]);
  }

  lemma ChainsMergeAt(fat: Fat, c: seq<nat>, d: seq<nat>, i: nat, j: nat, k: nat)
    requires IsChain(fat, c) && IsChain(fat, d) && i < |c| && j <= k < |d| && c[i] == d[j]
    ensures d[k] in c
  {
    ChainsMerge(fat, c, d, i, j);
    assert d[k] == d[j..][k - j] == c[i..][k - j];
  }

  /** Every cell of an intact chain is a link or the end mark. */
  lemma ChainLinks(fat: Fat, c: seq<nat>)
    requires IsChain(fat, c)
    ensures forall i :: 0 <= i < |c| ==> fat[c[i]].Next? || fat[c[i]].End?
  {
    forall i | 0 <= i < |c| ensures fat[c[i]].Next? || fat[c[i]].End? {
      if i + 1 < |c| {
        assert Steps(fat, c, i + 1);
      }
    }
  }

  /** The one fact every card rests on: an intact chain never passes through a
      free cell. */
  lemma ChainAvoidsFree(fat: Fat, c: seq<nat>, cell: nat)
    requires IsChain(fat, c) && cell < |fat| && fat[cell] == Free
    ensures cell !in c
  {
    ChainLinks(fat, c);
  }

  /** Chains look only at their own cells. */
  lemma ChainFrame(fat: Fat, fat': Fat, c: seq<nat>)
    requires IsChain(fat, c) && |fat| <= |fat'|
    requires forall i :: 0 <= i < |c| ==> fat'[c[i]] == fat[c[i]]
    ensures IsChain(fat', c)
    ensures ChainOf(fat', c[0]) == c
  {
    forall i: nat | 0 < i < |c| ensures Steps(fat', c, i) {
      assert Steps(fat, c, i);
    }
    ChainOfUnique(fat', c);
  }

  lemma {:induction false} DistinctBound(s: seq<nat>, n: nat)
    requires Distinct(s) && forall i :: 0 <= i < |s| ==> s[i] < n
    ensures |s| <= n
  {
    if s != [] {
      assert s[0] < n;
      if n - 1 in s {
        var k :| 0 <= k < |s| && s[k] == n - 1;
        var t := s[..k] + s[k + 1..];
        DistinctBound(t, n - 1);
      } else {
        DistinctBound(s, n - 1);
      }
    }
  }

  /** Pigeonhole: a chain is no longer than its table. */
  lemma ChainBound(fat: Fat, c: seq<nat>)
    requires IsChain(fat, c)
    ensures |c| <= |fat|
  {
    ChainDistinct(fat, c);
    DistinctBound(c, |fat|);
  }

  /** The cell a path steps to is the one its chain has next. */
  lemma PathNext(fat: Fat, p: seq<nat>, next: nat, c: seq<nat>)
    requires IsPath(fat, p) && |p| > 0 && fat[p[|p| - 1]] == Next(next)
    requires IsChain(fat, c) && c[0] == p[0]
    ensures |p| < |c| && p == c[..|p|] && c[|p|] == next
  {
    PathFollowsChain(fat, p, c);
    assert c[|p| - 1] == p[|p| - 1];
    assert |p| < |c| ==> Steps(fat, c, |p|);
  }

  lemma PathExtends(fat: Fat, p: seq<nat>, next: nat)
    requires IsPath(fat, p) && next < |fat| && (|p| > 0 ==> fat[p[|p| - 1]] == Next(next))
    ensures IsPath(fat, p + [next])
  {
    var q := p + [next];
    forall i: nat | 0 < i < |q| ensures Steps(fat, q, i) {
      assert i < |p| ==> Steps(fat, p, i);
    }
  }

  /** A path that reaches a cell that is neither a link nor the end mark belongs
      to no intact chain. */
  lemma StuckEndsPath(fat: Fat, p: seq<nat>)
    requires IsPath(fat, p) && |p| > 0 && fat[p[|p| - 1]] in {Free, Broken}
    ensures !Intact(fat, p[0])
  {
    var q, next := p[..|p| - 1], p[|p| - 1];
    PathPrefix(fat, p, |p| - 1);
    assert q != [] ==> Steps(fat, p, |p| - 1);
    assert q + [next] == p;
    DeadEnd(fat, q, next);
  }

  /** A path that steps to a cell already on it, or out of the table, or onto a
      cell that is neither a link nor the end mark, belongs to no intact chain. */
  lemma DeadEnd(fat: Fat, p: seq<nat>, next: nat)
    requires IsPath(fat, p)
    requires |p| > 0 ==> fat[p[|p| - 1]] == Next(next)
    requires next >= |fat| || next in p || fat[next] == Free || fat[next] == Broken
    ensures !Intact(fat, (p + [next])[0])
  {
    if Intact(fat, (p + [next])[0]) {
      var c :| IsChain(fat, c) && c[0] == (p + [next])[0];
      if p != [] {
        PathNext(fat, p, next, c);
      }
      assert forall k :: 0 <= k < |p| ==> p[k] == c[k];
      ChainLinks(fat, c);
      ChainDistinct(fat, c);
    }
  }

  /* ---- Writing and freeing chains ------------------------------------------ */

  function LinkAt(cells: seq<nat>, i: nat): Link
    requires i < |cells|
  {
    if i + 1 == |cells| then End else Next(cells[i + 1])
  }

  /** `after` is `fat` with `cells` linked into one chain, in order, and every
      other cell as it was. */
  ghost predicate LinkedInto(fat: Fat, cells: seq<nat>, after: Fat) {
    && |after| == |fat|
    && IsChain(after, cells)
    && forall b :: 0 <= b < |fat| && b !in cells ==> after[b] == fat[b]
  }

  /** `after` is `fat` with `cells` freed and every other cell as it was. */
  ghost predicate FreedFrom(fat: Fat, cells: seq<nat>, after: Fat) {
    && |after| == |fat|
    && (forall i :: 0 <= i < |cells| ==> cells[i] < |fat| && after[cells[i]] == Free)
    && forall b :: 0 <= b < |fat| && b !in cells ==> after[b] == fat[b]
  }

  /** The first `n` of `cells` freed so far. */
  ghost predicate FreeingAt(fat: Fat, cells: seq<nat>, n: nat, after: Fat) {
    n <= |cells| && FreedFrom(fat, cells[..n], after)
  }

  lemma FreeingStep(fat: Fat, cells: seq<nat>, n: nat, after: Fat)
    requires FreeingAt(fat, cells, n, after) && n < |cells| && cells[n] < |fat|
    ensures FreeingAt(fat, cells, n + 1, after[cells[n] := Free])
  {
    assert cells[..n + 1] == cells[..n] + [cells[n]];
  }

  /* ---- Counting ------------------------------------------------------------- */

  /** Free cells below `n`. */
  function FreeBelow(fat: Fat, n: nat): (k: nat)
    requires n <= |fat|
    ensures k <= n
  {
    if n == 0 then 0 else FreeBelow(fat, n - 1) + if fat[n - 1] == Free then 1 else 0
  }

  function FreeCount(fat: Fat): (k: nat)
    ensures k <= |fat|
  {
    FreeBelow(fat, |fat|)
  }

  ghost function FreeCells(fat: Fat): set<nat> {
    set b | 0 <= b < |fat| && fat[b] == Free
  }

  ghost function CellSet(c: seq<nat>): set<nat> {
    set b | b in c
  }

  lemma {:induction false} DistinctCard(c: seq<nat>)
    requires Distinct(c)
    ensures |CellSet(c)| == |c|
  {
    if c != [] {
      DistinctCard(c[1..]);
      assert CellSet(c) == CellSet(c[1..]) + {c[0]};
      assert c[0] !in CellSet(c[1..]);
    } else {
      assert CellSet(c) == {};
    }
  }

  lemma {:induction false} FreeBelowCard(fat: Fat, n: nat)
    requires n <= |fat|
    ensures FreeBelow(fat, n) == |(set b: nat | 0 <= b < n && fat[b] == Free)|
  {
    var f := set b: nat | 0 <= b < n && fat[b] == Free;
    if n == 0 {
      assert f == {};
    } else {
      FreeBelowCard(fat, n - 1);
      var g := set b: nat | 0 <= b < n - 1 && fat[b] == Free;
      if fat[n - 1] == Free {
        assert f == g + {n - 1};
      } else {
        assert f == g;
      }
    }
  }

  lemma FreeCountCard(fat: Fat)
    ensures FreeCount(fat) == |FreeCells(fat)|
  {
    FreeBelowCard(fat, |fat|);
    assert FreeCells(fat) == set b: nat | 0 <= b < |fat| && fat[b] == Free;
  }

  /** Linking free cells takes exactly them; freeing a chain gives back exactly its cells. */
  lemma FreeCountLinked(fat: Fat, cells: seq<nat>, after: Fat)
    requires LinkedInto(fat, cells, after)
    requires forall i :: 0 <= i < |cells| ==> fat[cells[i]] == Free
    ensures FreeCount(after) == FreeCount(fat) - |cells|
  {
    FreeCountCard(fat);
    FreeCountCard(after);
    ChainDistinct(after, cells);
    DistinctCard(cells);
    ChainLinks(after, cells);
    assert FreeCells(after) !! CellSet(cells);
    forall b | b in FreeCells(fat) ensures b in FreeCells(after) + CellSet(cells) {
      if b !in cells { assert after[b] == fat[b]; }
    }
    forall b | b in FreeCells(after) ensures b in FreeCells(fat) {
      assert b !in CellSet(cells);
    }
    assert FreeCells(fat) == FreeCells(after) + CellSet(cells);
  }

  lemma FreeCountFreed(fat: Fat, cells: seq<nat>, after: Fat)
    requires FreedFrom(fat, cells, after) && IsChain(fat, cells)
    ensures FreeCount(after) == FreeCount(fat) + |cells|
  {
    FreeCountCard(fat);
    FreeCountCard(after);
    ChainDistinct(fat, cells);
    DistinctCard(cells);
    ChainLinks(fat, cells);
    assert FreeCells(after) == FreeCells(fat) + CellSet(cells);
    assert FreeCells(fat) !! CellSet(cells);
  }

  /* ---- Choosing free cells --------------------------------------------------- */

  /** The free cells below `n`, lowest first. */
  function FreeUp(fat: Fat, n: nat): (s: seq<nat>)
    requires n <= |fat|
    ensures forall i :: 0 <= i < |s| ==> s[i] < n && fat[s[i]] == Free
  {
    if n == 0 then [] else FreeUp(fat, n - 1) + if fat[n - 1] == Free then [n - 1] else []
  }

  /** The free cells from `n` up, highest first. */
  function FreeDown(fat: Fat, n: nat): (s: seq<nat>)
    requires n <= |fat|
    ensures forall i :: 0 <= i < |s| ==> n <= s[i] < |fat| && fat[s[i]] == Free
    decreases |fat| - n
  {
    if n == |fat| then [] else FreeDown(fat, n + 1) + if fat[n] == Free then [n] else []
  }

  lemma {:induction false} FreeUpDistinct(fat: Fat, n: nat)
    requires n <= |fat|
    ensures Distinct(FreeUp(fat, n)) && |FreeUp(fat, n)| == FreeBelow(fat, n)
  {
    if n > 0 {
      FreeUpDistinct(fat, n - 1);
    }
  }

  lemma {:induction false} FreeDownDistinct(fat: Fat, n: nat)
    requires n <= |fat|
    ensures Distinct(FreeDown(fat, n)) && |FreeDown(fat, n)| == FreeCount(fat) - FreeBelow(fat, n)
    decreases |fat| - n
  {
    if n < |fat| {
      FreeDownDistinct(fat, n + 1);
    }
  }

  lemma {:induction false} FreeUpPrefix(fat: Fat, n: nat, m: nat)
    requires n <= m <= |fat|
    ensures FreeUp(fat, n) <= FreeUp(fat, m)
  {
    if n < m {
      FreeUpPrefix(fat, n, m - 1);
    }
  }

  lemma {:induction false} FreeDownPrefix(fat: Fat, n: nat, m: nat)
    requires n <= m <= |fat|
    ensures FreeDown(fat, m) <= FreeDown(fat, n)
    decreases m - n
  {
    if n < m {
      FreeDownPrefix(fat, n + 1, m);
    }
  }

  /** Every free cell is offered by both orders. */
  lemma {:induction false} FreeUpHas(fat: Fat, n: nat, b: nat)
    requires b < n <= |fat| && fat[b] == Free
    ensures b in FreeUp(fat, n)
  {
    if b < n - 1 {
      FreeUpHas(fat, n - 1, b);
    }
  }
}
