/** The PS2 cluster allocator: it hands out the free clusters lowest first, linking each to
    the chain its caller grows, while several chains grow at once. */
module Ps2Alloc {
  import opened Bytes
  import opened Status
  import opened Chains
  import opened Ps2Fat
  import opened Ps2Cells

  /* ---- The free cells still to come ------------------------------------------------------------ */

  /** The free cells from `n` up, lowest first. */
  function FreeFrom(fat: Fat, n: nat): (s: seq<nat>)
    requires n <= |fat|
    ensures forall i {:trigger s[i]} :: 0 <= i < |s| ==> n <= s[i] < |fat| && fat[s[i]] == Free
    decreases |fat| - n
  {
    if n == |fat| then [] else (if fat[n] == Free then [n] else []) + FreeFrom(fat, n + 1)
  }

  lemma {:induction false} FreeFromDistinct(fat: Fat, n: nat)
    requires n <= |fat|
    ensures Distinct(FreeFrom(fat, n)) && |FreeFrom(fat, n)| == FreeCount(fat) - FreeBelow(fat, n)
    decreases |fat| - n
  {
    if n < |fat| {
      FreeFromDistinct(fat, n + 1);
    }
  }

  /** Changes that leave what is free from `n` up leave the cells to come. */
  lemma {:induction false} FreeFromSame(fat: Fat, fat': Fat, n: nat)
    requires n <= |fat| == |fat'|
    requires forall b {:trigger fat'[b]} :: n <= b < |fat| ==> ((fat'[b] == Free) <==> (fat[b] == Free))
    ensures FreeFrom(fat', n) == FreeFrom(fat, n)
    decreases |fat| - n
  {
    if n < |fat| {
      FreeFromSame(fat, fat', n + 1);
    }
  }

  lemma {:induction false} FreeFromHas(fat: Fat, n: nat, b: nat)
    requires n <= b < |fat| && fat[b] == Free
    ensures b in FreeFrom(fat, n)
    decreases b - n
  {
    if n < b {
      FreeFromHas(fat, n + 1, b);
    }
  }

  lemma {:induction false} FreeFromAscends(fat: Fat, n: nat, i: nat, j: nat)
    requires n <= |fat| && i < j < |FreeFrom(fat, n)|
    ensures FreeFrom(fat, n)[i] < FreeFrom(fat, n)[j]
    decreases |fat| - n
  {
    hide FreeFrom;
    FreeFromFirst(fat, n);
    var d := if fat[n] == Free then 1 else 0;
    if i >= d {
      FreeFromAscends(fat, n + 1, i - d, j - d);
    }
  }

  lemma FreeFromFirst(fat: Fat, n: nat)
    requires n <= |fat| && FreeFrom(fat, n) != []
    ensures n < |fat| && FreeFrom(fat, n) == (if fat[n] == Free then [n] else []) + FreeFrom(fat, n + 1)
  {
  }

  /** The first `k` of the free cells are the lowest. */
  lemma PoolLowest(fat: Fat, k: nat)
    requires k <= |FreeFrom(fat, 0)|
    ensures Lowest(FreeCells(fat), k, FreeFrom(fat, 0)[..k])
  {
    hide FreeFrom;
    var pool := FreeFrom(fat, 0);
    var cells := pool[..k];
    forall i | 0 <= i < k ensures cells[i] in FreeCells(fat) {
      assert cells[i] == pool[i];
    }
    forall i, j | 0 <= i < j < k ensures cells[i] < cells[j] {
      FreeFromAscends(fat, 0, i, j);
    }
    assert forall j {:trigger pool[j]} :: 0 <= j < k ==> cells[j] == pool[j];
    forall i, x | 0 <= i < k && x in FreeCells(fat) && x !in cells ensures cells[i] < x {
      FreeFromHas(fat, 0, x);
      var j :| 0 <= j < |pool| && pool[j] == x;
      FreeFromAscends(fat, 0, i, j);
    }
  }

  /* ---- A family of chains that share no cell ------------------------------------------------------ */

  /** Chain `i` of the family is empty, or an intact chain. */
  ghost predicate Member(fat: Fat, fs: seq<seq<nat>>, i: nat) {
    i < |fs| && (fs[i] == [] || IsChain(fat, fs[i]))
  }

  ghost predicate Apart(fs: seq<seq<nat>>, i: nat, j: nat) {
    i < |fs| && j < |fs| && Disjoint(fs[i], fs[j])
  }

  ghost predicate Family(fat: Fat, fs: seq<seq<nat>>) {
    && (forall i: nat {:trigger Member(fat, fs, i)} :: i < |fs| ==> Member(fat, fs, i))
    && (forall i: nat, j: nat {:trigger Apart(fs, i, j)} :: i < |fs| && j < |fs| && i != j ==> Apart(fs, i, j))
  }

  /** The table once `n` is linked to the end of `chain`. */
  function Linked(fat: Fat, chain: seq<nat>, n: nat): (after: Fat)
    requires n < |fat| && forall k {:trigger chain[k]} :: 0 <= k < |chain| ==> chain[k] < |fat|
    ensures |after| == |fat|
  {
    if chain == [] then fat[n := End] else fat[n := End][chain[|chain| - 1] := Next(n)]
  }

  lemma LinkedChain(fat: Fat, chain: seq<nat>, n: nat)
    requires n < |fat| && fat[n] == Free && (chain == [] || IsChain(fat, chain))
    ensures IsChain(Linked(fat, chain, n), chain + [n])
    ensures n !in chain
  {
    var fat', d := Linked(fat, chain, n), chain + [n];
    if chain != [] {
      ChainDistinct(fat, chain);
      ChainAvoidsFree(fat, chain, n);
    }
    forall i: nat | 0 < i < |d| ensures Steps(fat', d, i) {
      if i < |chain| {
        assert Steps(fat, chain, i);
        assert chain[i - 1] != chain[|chain| - 1];
      }
    }
  }

  lemma OtherChain(fat: Fat, chain: seq<nat>, n: nat, other: seq<nat>)
    requires n < |fat| && fat[n] == Free && (chain == [] || IsChain(fat, chain))
    requires IsChain(fat, other) && Disjoint(chain, other)
    ensures IsChain(Linked(fat, chain, n), other) && n !in other
  {
    ChainAvoidsFree(fat, other, n);
    ChainFrame(fat, Linked(fat, chain, n), other);
  }

  /** Growing one chain of a family by a free cell leaves a family. */
  lemma Grow(fat: Fat, fs: seq<seq<nat>>, i: nat, n: nat)
    requires Family(fat, fs) && i < |fs| && n < |fat| && fat[n] == Free
    ensures Member(fat, fs, i)
    ensures Family(Linked(fat, fs[i], n), fs[i := fs[i] + [n]])
  {
    assert Member(fat, fs, i);
    var gs, fat' := fs[i := fs[i] + [n]], Linked(fat, fs[i], n);
    LinkedChain(fat, fs[i], n);
    forall j: nat | j < |gs| ensures Member(fat', gs, j) && (j != i ==> n !in fs[j]) {
      if j != i {
        assert Member(fat, fs, j) && Apart(fs, i, j);
        if fs[j] != [] {
          OtherChain(fat, fs[i], n, fs[j]);
        }
      }
    }
    forall j: nat, k: nat | j < |gs| && k < |gs| && j != k ensures Apart(gs, j, k) {
      assert Apart(fs, j, k);
    }
  }

  /** Starting an empty chain, and forgetting the last one, leave a family. */
  lemma Start(fat: Fat, fs: seq<seq<nat>>)
    requires Family(fat, fs)
    ensures Family(fat, fs + [[]])
  {
    var gs := fs + [[]];
    forall j: nat | j < |gs| ensures Member(fat, gs, j) {
      if j < |fs| {
        assert Member(fat, fs, j);
      }
    }
    forall j: nat, k: nat | j < |gs| && k < |gs| && j != k ensures Apart(gs, j, k) {
      if j < |fs| && k < |fs| {
        assert Apart(fs, j, k);
      }
    }
  }

  /* ---- The allocator -------------------------------------------------------------------------------- */

  /** Of the cells `pool` that were free, the first `k` are taken and the others, all from
      `next` up, are the ones that are free. */
  ghost predicate Drawn(fat: Fat, pool: seq<nat>, k: nat, next: nat) {
    && next <= |fat| && k <= |pool| && FreeFrom(fat, next) == pool[k..]
    && forall b {:trigger fat[b]} :: 0 <= b < next ==> fat[b] != Free
  }

  /** What is drawn from the pool is what is no longer free. */
  lemma DrawnFree(fat: Fat, after: Fat, k: nat, next: nat)
    requires Drawn(after, FreeFrom(fat, 0), k, next)
    ensures FreeCells(after) == FreeCells(fat) - CellSet(FreeFrom(fat, 0)[..k])
  {
    hide FreeFrom;
    var pool := FreeFrom(fat, 0);
    FreeFromDistinct(fat, 0);
    assert pool == pool[..k] + pool[k..];
    forall b: nat ensures b in FreeCells(after) <==> b in FreeCells(fat) && b !in pool[..k] {
      if b in FreeCells(after) {
        FreeFromHas(after, next, b);
        assert b in pool[k..];
        var j :| 0 <= j < |pool[k..]| && pool[k..][j] == b;
        assert pool[k + j] == b;
      }
      if b in FreeCells(fat) && b !in pool[..k] {
        FreeFromHas(fat, 0, b);
        assert b in pool[k..] && b in FreeFrom(after, next);
      }
    }
  }

  lemma DrawnNext(fat: Fat, pool: seq<nat>, k: nat, next: nat)
    requires Drawn(fat, pool, k, next) && next < |fat|
    ensures fat[next] != Free ==> Drawn(fat, pool, k, next + 1)
    ensures fat[next] == Free ==> k < |pool| && pool[k] == next
  {
    if fat[next] == Free {
      assert FreeFrom(fat, next)[0] == next;
    } else {
      assert FreeFrom(fat, next) == FreeFrom(fat, next + 1);
    }
  }

  lemma DrawnNone(fat: Fat, pool: seq<nat>, k: nat, next: nat)
    requires Drawn(fat, pool, k, next) && next == |fat|
    ensures k == |pool|
  {
  }

  /** Linking a cell in takes it from the free ones, and nothing else. */
  lemma LinkedFree(fat: Fat, chain: seq<nat>, n: nat, b: nat)
    requires n < |fat| && b < |fat| && (chain == [] || IsChain(fat, chain))
    ensures Linked(fat, chain, n)[b] == Free <==> fat[b] == Free && b != n
  {
    if chain != [] {
      ChainLinks(fat, chain);
    }
  }

  lemma HeadTaken(free: seq<nat>, n: nat, rest: seq<nat>, pool: seq<nat>, k: nat)
    requires k <= |pool| && free == pool[k..] == [n] + rest
    ensures k < |pool| && pool[k] == n && pool[k + 1..] == rest
  {
    assert pool[k..][0] == n && pool[k..][1..] == rest;
  }

  lemma FreeFromTaken(fat: Fat, n: nat)
    requires n < |fat| && fat[n] == Free
    ensures FreeFrom(fat, n) == [n] + FreeFrom(fat, n + 1)
  {
  }

  lemma DrawnTaken(fat: Fat, pool: seq<nat>, k: nat, next: nat, chain: seq<nat>)
    requires Drawn(fat, pool, k, next) && next < |fat| && fat[next] == Free
    requires chain == [] || IsChain(fat, chain)
    ensures k < |pool| && pool[k] == next && Drawn(Linked(fat, chain, next), pool, k + 1, next + 1)
  {
    hide FreeFrom, Linked;
    FreeFromTaken(fat, next);
    var after := Linked(fat, chain, next);
    forall b: nat | b < |fat| ensures after[b] == Free <==> fat[b] == Free && b != next {
      LinkedFree(fat, chain, next, b);
    }
    HeadTaken(FreeFrom(fat, next), next, FreeFrom(fat, next + 1), pool, k);
    FreeFromSame(fat, after, next + 1);
  }

  /** Marks cell `n` the end of a chain, and links the last cell of `chain` to it. */
  method LinkCell(vol: array<seq<u8>>, g: Geometry, chain: seq<nat>, n: nat, ghost v: View) returns (ok: bool)
    requires Holds(vol[..], g, v) && n < |v.fat| && forall k {:trigger chain[k]} :: 0 <= k < |chain| ==>
      chain[k] < |v.fat|
    modifies vol
    ensures ok && Holds(vol[..], g, v.(fat := Linked(v.fat, chain, n)))
  {
    ok := FatSet(vol, g, n, 0xFFFF_FFFF, v);
    if ok && chain != [] {
      ok := FatSet(vol, g, chain[|chain| - 1], ALLOCATED + n, v.(fat := v.fat[n := End]));
    }
  }

  class Allocator {
    var next: nat

    constructor ()
      ensures next == 0
    {
      next := 0;
    }

    /** Moves on to the lowest cell that is free, or to the end of the table. */
    method Seek(vol: array<seq<u8>>, g: Geometry, ghost v: View, ghost pool: seq<nat>, ghost k: nat)
      requires Holds(vol[..], g, v) && Drawn(v.fat, pool, k, next)
      modifies this
      ensures Drawn(v.fat, pool, k, next)
      ensures next < |v.fat| ==> v.fat[next] == Free
    {
      while next < g.end
        invariant Drawn(v.fat, pool, k, next)
      {
        var free := IsFree(vol, g, next, v);
        if free {
          return;
        }
        DrawnNext(v.fat, pool, k, next);
        next := next + 1;
      }
    }

    /** Takes the lowest free cell and links it after the last cell of `chain`. Fails exactly
        when every free cell is taken. */
    method Allocate(vol: array<seq<u8>>, g: Geometry, chain: seq<nat>, ghost v: View, ghost pool: seq<nat>,
                    ghost k: nat)
      returns (ok: bool, n: nat)
      requires Holds(vol[..], g, v) && Drawn(v.fat, pool, k, next)
      requires chain == [] || IsChain(v.fat, chain)
      modifies this, vol
      ensures ok == (k < |pool|)
      ensures !ok ==> Holds(vol[..], g, v) && Drawn(v.fat, pool, k, next)
      ensures ok ==> n == pool[k] < |v.fat| && v.fat[n] == Free
      ensures ok ==> Holds(vol[..], g, v.(fat := Linked(v.fat, chain, n)))
      ensures ok ==> Drawn(Linked(v.fat, chain, n), pool, k + 1, next)
    {
      hide FreeFrom, Linked, Steps;
      Seek(vol, g, v, pool, k);
      n := next;
      if n >= g.end {
        DrawnNone(v.fat, pool, k, n);
        return false, n;
      }
      DrawnTaken(v.fat, pool, k, n, chain);
      next := next + 1;
      ok := LinkCell(vol, g, chain, n, v);
    }
  }
}
