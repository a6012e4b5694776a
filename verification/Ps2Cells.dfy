/** Writes to a PS2 card's table and clusters, and the chain walk that counts instead of
    remembering where it has been. */
module Ps2Cells {
  import opened Bytes
  import opened Status
  import opened Chains
  import opened Division
  import opened Ps2Fat

  /* ---- Table writes ------------------------------------------------------------------------- */

  lemma Le32Written(s: seq<u8>, at: nat, v: nat)
    requires at + 4 <= |s| && v < 0x1_0000_0000
    ensures Le32(Splice(s, at, Le32Bytes(v)), at) == v
  {
    var r, b := Splice(s, at, Le32Bytes(v)), Le32Bytes(v);
    assert r[at..at + 4] == b;
    assert r[at] == b[0] && r[at + 1] == b[1] && r[at + 2] == b[2] && r[at + 3] == b[3];
  }

  lemma Le32Frame(s: seq<u8>, at: nat, bytes: seq<u8>, p: nat)
    requires at + |bytes| <= |s| && p + 4 <= |s|
    requires p + 4 <= at || at + |bytes| <= p
    ensures Le32(Splice(s, at, bytes), p) == Le32(s, p)
  {
  }

  /** The card after `value` is written to cell `n`'s place in table `t`. */
  function CellWritten(c: Card, g: Geometry, n: nat, t: nat, value: nat): (d: Card)
    requires Shaped(c, g) && t < |c| && value < 0x1_0000_0000
    ensures Shaped(d, g)
  {
    c[t := Splice(c[t], 4 * PlaceOf(g, n), Le32Bytes(value))]
  }

  lemma CellTabled(c: Card, g: Geometry, n: nat, t: nat, value: nat)
    requires Tabled(c, g) && n < g.end && value < 0x1_0000_0000 && TableAt(c, g, TableOf(g, n)) == Some(t)
    ensures t < g.offset && Tabled(CellWritten(c, g, n, t, value), g)
  {
    CellTables(c, g, n, n);
    TabledFrame(c, CellWritten(c, g, n, t, value), g);
  }

  lemma CellReads(c: Card, g: Geometry, n: nat, t: nat, value: nat, m: nat)
    requires Tabled(c, g) && n < g.end && m < g.end && value < 0x1_0000_0000
    requires TableAt(c, g, TableOf(g, n)) == Some(t)
    ensures CellLink(CellWritten(c, g, n, t, value), g, m) == if m == n then LinkOf(value) else CellLink(c, g, m)
  {
    var d := CellWritten(c, g, n, t, value);
    CellTables(c, g, n, m);
    TableBelow(g, m);
    TableFrame(c, d, g, TableOf(g, m));
    var u := TableAt(c, g, TableOf(g, m)).value;
    if m == n {
      Le32Written(c[t], 4 * PlaceOf(g, n), value);
    } else if u == t {
      if PlaceOf(g, m) == PlaceOf(g, n) {
        PlacesApart(g, n, m);
      }
      Le32Frame(c[t], 4 * PlaceOf(g, n), Le32Bytes(value), 4 * PlaceOf(g, m));
    }
  }

  /** Writing a cell changes that cell and nothing else. */
  lemma CellWrite(c: Card, g: Geometry, n: nat, t: nat, value: nat)
    requires Tabled(c, g) && n < g.end && value < 0x1_0000_0000 && TableAt(c, g, TableOf(g, n)) == Some(t)
    ensures Tabled(CellWritten(c, g, n, t, value), g)
    ensures FatOf(CellWritten(c, g, n, t, value), g) == FatOf(c, g)[n := LinkOf(value)]
    ensures DataOf(CellWritten(c, g, n, t, value), g) == DataOf(c, g)
  {
    var d := CellWritten(c, g, n, t, value);
    CellTabled(c, g, n, t, value);
    forall m: nat | m < g.end ensures FatOf(d, g)[m] == FatOf(c, g)[n := LinkOf(value)][m] {
      CellReads(c, g, n, t, value, m);
    }
  }

  /** Writing a data cluster changes that cluster and nothing else. */
  lemma ClusterWrite(c: Card, g: Geometry, n: nat, bytes: seq<u8>)
    requires Tabled(c, g) && n < g.end && |bytes| == g.cs
    ensures Tabled(c[g.offset + n := bytes], g)
    ensures FatOf(c[g.offset + n := bytes], g) == FatOf(c, g)
    ensures DataOf(c[g.offset + n := bytes], g) == DataOf(c, g)[n := bytes]
  {
    var d := c[g.offset + n := bytes];
    TabledFrame(c, d, g);
    forall m: nat | m < g.end ensures FatOf(d, g)[m] == FatOf(c, g)[m] {
      CellTables(c, g, m, m);
      TableBelow(g, m);
      TableFrame(c, d, g, TableOf(g, m));
    }
  }

  /* ---- The card as its table and its data clusters ------------------------------------------- */

  /** What the rest of the model sees of a card. */
  datatype View = View(fat: Fat, data: seq<seq<u8>>)

  ghost function ViewOf(c: Card, g: Geometry): View
    requires Shaped(c, g)
  {
    View(FatOf(c, g), DataOf(c, g))
  }

  /** The card reads as `v`, whatever its tables are: cells that no table gives are broken. */
  ghost predicate ReadsAs(c: Card, g: Geometry, v: View) {
    Shaped(c, g) && ViewOf(c, g) == v
  }

  /** The card reads as `v`, and can be written: its tables are where writes to cells and clusters stay apart. */
  ghost predicate Holds(c: Card, g: Geometry, v: View) {
    Tabled(c, g) && ViewOf(c, g) == v
  }

  lemma HoldsReads(c: Card, g: Geometry, v: View)
    requires Holds(c, g, v)
    ensures ReadsAs(c, g, v)
  {
  }

  ghost predicate Sized(v: View, g: Geometry) {
    Sane(g) && |v.fat| == g.end && |v.data| == g.end && forall n {:trigger v.data[n]} :: 0 <= n < g.end ==>
      |v.data[n]| == g.cs
  }

  lemma ReadsSized(c: Card, g: Geometry, v: View)
    requires ReadsAs(c, g, v)
    ensures Sized(v, g)
  {
  }

  /** Sets cell `n`, when the tables it is reached through read. */
  method FatSet(vol: array<seq<u8>>, g: Geometry, n: nat, value: nat, ghost v: View) returns (ok: bool)
    requires Holds(vol[..], g, v) && n < g.end && value < 0x1_0000_0000
    modifies vol
    ensures ok && Holds(vol[..], g, v.(fat := v.fat[n := LinkOf(value)]))
  {
    ghost var c := vol[..];
    CellTables(c, g, n, n);
    var at := TableAt(vol[..], g, TableOf(g, n));
    ok := at.Some?;
    if ok {
      CellWrite(c, g, n, at.value, value);
      vol[at.value] := Splice(vol[at.value], 4 * PlaceOf(g, n), Le32Bytes(value));
      assert vol[..] == CellWritten(c, g, n, at.value, value);
    }
  }

  /** Overwrites the data cluster of cell `n`. */
  method SetCluster(vol: array<seq<u8>>, g: Geometry, n: nat, bytes: seq<u8>, ghost v: View)
    requires Holds(vol[..], g, v) && n < g.end && |bytes| == g.cs
    modifies vol
    ensures Holds(vol[..], g, v.(data := v.data[n := bytes]))
  {
    ghost var c := vol[..];
    ClusterWrite(c, g, n, bytes);
    vol[g.offset + n] := bytes;
    assert vol[..] == c[g.offset + n := bytes];
  }

  method IsFree(vol: array<seq<u8>>, g: Geometry, n: nat, ghost v: View) returns (free: bool)
    requires ReadsAs(vol[..], g, v) && n < g.end
    ensures free == (v.fat[n] == Free)
  {
    ghost var c := vol[..];
    assert FatOf(c, g)[n] == CellLink(c, g, n);
    free := CellLink(vol[..], g, n) == Free;
  }

  /** Free cells of the whole card. */
  method CountFree(vol: array<seq<u8>>, g: Geometry, ghost v: View) returns (count: nat)
    requires ReadsAs(vol[..], g, v)
    ensures count == FreeCount(v.fat)
  {
    count := 0;
    for n := 0 to g.end
      invariant count == FreeBelow(v.fat, n)
    {
      var free := IsFree(vol, g, n, v);
      count := count + if free then 1 else 0;
    }
  }

  /* ---- The chain walk ------------------------------------------------------------------------- */

  /** Walks the chain from `first`, giving up after as many steps as there are cells. With no
      record of where it has been it still finds exactly the intact chains, and returns their
      cells in order; nothing for a chain that reaches a free cell, leaves the card or loops. */
  method WalkChain(vol: array<seq<u8>>, g: Geometry, first: nat, ghost v: View) returns (order: seq<nat>)
    requires ReadsAs(vol[..], g, v)
    ensures order == ChainOf(v.fat, first)
    ensures order != [] <==> Intact(v.fat, first)
    ensures Distinct(order)
  {
    order := [];
    var cluster: nat := first;
    while |order| < g.end
      invariant IsPath(v.fat, order)
      invariant order != [] ==> order[0] == first && v.fat[order[|order| - 1]] == Next(cluster)
      invariant order == [] ==> cluster == first
      decreases g.end - |order|
    {
      ghost var path := order;
      if cluster >= g.end {
        DeadEnd(v.fat, path, cluster);
        return [];
      }
      ghost var c := vol[..];
      assert FatOf(c, g)[cluster] == CellLink(c, g, cluster);
      var link := CellLink(vol[..], g, cluster);
      PathExtends(v.fat, path, cluster);
      order := order + [cluster];
      if link == Free || link == Broken {
        DeadEnd(v.fat, path, cluster);
        return [];
      }
      if link == End {
        ChainOfUnique(v.fat, order);
        ChainDistinct(v.fat, order);
        return order;
      }
      cluster := link.cell;
    }
    PathTooLong(v.fat, order, cluster);
    return [];
  }

  /** A path of as many cells as the table has, and still another to go, is on no intact chain. */
  lemma PathTooLong(fat: Fat, p: seq<nat>, next: nat)
    requires IsPath(fat, p) && |p| >= |fat| && |p| > 0 && fat[p[|p| - 1]] == Next(next)
    ensures !Intact(fat, p[0])
  {
    if Intact(fat, p[0]) {
      var c := ChainOf(fat, p[0]);
      PathNext(fat, p, next, c);
      ChainBound(fat, c);
    }
  }
}
