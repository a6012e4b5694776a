/** The PS2 card's clusters, and the file allocation table it reaches through a table of
    tables. The card is its clusters, `cs` bytes each; cluster `offset` + k holds the data
    of cell k. */
module Ps2Fat {
  import opened Bytes
  import opened Status
  import opened Chains
  import opened Division

  const IFC_SLOTS := 32
  const ALLOCATED := 0x8000_0000
  const CHAIN_END := 0x7FFF_FFFF
  const ENTRY_SIZE := 512

  datatype Geometry = Geometry(cs: nat, clusters: nat, offset: nat, end: nat, root: nat, ifc: seq<nat>)

  type Card = seq<seq<u8>>

  /** What loading a card demands of its superblock. */
  predicate Sane(g: Geometry) {
    && g.cs % ENTRY_SIZE == 0 && 1 <= g.cs / ENTRY_SIZE <= 16 && |g.ifc| == IFC_SLOTS
    && 1 <= g.clusters <= 0x10_0000 && g.offset < g.clusters && 1 <= g.end <= g.clusters - g.offset
  }

  ghost predicate Shaped(c: Card, g: Geometry) {
    Sane(g) && |c| == g.clusters && forall k {:trigger c[k]} :: 0 <= k < |c| ==> |c[k]| == g.cs
  }

  /* ---- Reading the table ------------------------------------------------------------------ */

  /** Cells a table holds. */
  function PerTable(g: Geometry): (n: nat)
    requires Sane(g)
    ensures g.cs == 4 * n && n >= 128
  {
    g.cs / 4
  }

  /** Which table cell `n` is in, and its place there. */
  function TableOf(g: Geometry, n: nat): nat
    requires Sane(g)
  {
    Div(n, PerTable(g))
  }

  function PlaceOf(g: Geometry, n: nat): (p: nat)
    requires Sane(g)
    ensures p < PerTable(g) && 4 * p + 4 <= g.cs
  {
    Mod(n, PerTable(g))
  }

  lemma PlacesApart(g: Geometry, n: nat, m: nat)
    requires Sane(g) && TableOf(g, n) == TableOf(g, m) && PlaceOf(g, n) == PlaceOf(g, m)
    ensures n == m
  {
    SameParts(n, m, PerTable(g));
  }

  /** The cluster that table `t` is, when the tables it is reached through read. */
  function TableAt(c: Card, g: Geometry, t: nat): (r: Option<nat>)
    requires Shaped(c, g)
    ensures r.Some? ==> r.value < |c|
  {
    var slot := Div(t, PerTable(g));
    if slot >= IFC_SLOTS || g.ifc[slot] >= |c| then None
    else
      var at := Le32(c[g.ifc[slot]], 4 * PlaceOf(g, t));
      if at >= |c| then None else Some(at)
  }

  function FatValue(c: Card, g: Geometry, n: nat): Option<nat>
    requires Shaped(c, g)
  {
    match TableAt(c, g, TableOf(g, n))
    case None => None
    case Some(t) => Some(Le32(c[t], 4 * PlaceOf(g, n)))
  }

  function LinkOf(value: nat): Link {
    if value < ALLOCATED then Free
    else if value - ALLOCATED == CHAIN_END then End
    else Next(value - ALLOCATED)
  }

  function CellLink(c: Card, g: Geometry, n: nat): Link
    requires Shaped(c, g)
  {
    match FatValue(c, g, n)
    case None => Broken
    case Some(value) => LinkOf(value)
  }

  function FatOf(c: Card, g: Geometry): (fat: Fat)
    requires Shaped(c, g)
    ensures |fat| == g.end
    ensures forall n {:trigger fat[n]} :: 0 <= n < g.end ==> fat[n] == CellLink(c, g, n)
  {
    seq(g.end, n requires 0 <= n < g.end => CellLink(c, g, n))
  }

  /** The allocatable clusters, by cell. */
  function DataOf(c: Card, g: Geometry): (data: seq<seq<u8>>)
    requires Shaped(c, g)
    ensures |data| == g.end
    ensures forall n {:trigger data[n]} :: 0 <= n < g.end ==> data[n] == c[g.offset + n] && |data[n]| == g.cs
  {
    seq(g.end, n requires 0 <= n < g.end => c[g.offset + n])
  }

  /* ---- Tables kept apart from the data -------------------------------------------------------- */

  /** `at` is a cluster of the table of tables that some cell is read through. */
  ghost predicate Indirect(g: Geometry, at: nat)
    requires Sane(g)
  {
    exists t: nat {:trigger IndirectFor(g, t, at)} :: IndirectFor(g, t, at)
  }

  ghost predicate IndirectFor(g: Geometry, t: nat, at: nat)
    requires Sane(g)
  {
    t < g.end && Div(t, PerTable(g)) < IFC_SLOTS && g.ifc[Div(t, PerTable(g))] == at
  }

  /** Table `t` reads, and lies before the data and apart from the tables of tables. */
  ghost predicate TableSound(c: Card, g: Geometry, t: nat)
    requires Shaped(c, g)
  {
    TableAt(c, g, t).Some? && TableAt(c, g, t).value < g.offset && !Indirect(g, TableAt(c, g, t).value)
  }

  ghost predicate TablesApart(c: Card, g: Geometry, t: nat, u: nat)
    requires Shaped(c, g)
  {
    TableAt(c, g, t) != TableAt(c, g, u)
  }

  /** The tables the cells are read through are distinct clusters before the data. */
  ghost predicate Tabled(c: Card, g: Geometry) {
    && Shaped(c, g)
    && (forall t: nat {:trigger TableSound(c, g, t)} :: t <= TableOf(g, g.end - 1) ==> TableSound(c, g, t))
    && (forall t: nat, u: nat {:trigger TablesApart(c, g, t, u)} :: t < u <= TableOf(g, g.end - 1) ==>
        TablesApart(c, g, t, u))
    && (forall at: nat {:trigger Indirect(g, at)} :: Indirect(g, at) ==> at < g.offset)
  }

  lemma TableBelow(g: Geometry, n: nat)
    requires Sane(g) && n < g.end
    ensures TableOf(g, n) <= TableOf(g, g.end - 1) && TableOf(g, n) <= n
  {
    DivGrows(n, g.end - 1, PerTable(g));
    DivGrows(0, n, PerTable(g));
    DivGrows(n, n, PerTable(g));
  }

  /** A table reads from the cluster of tables alone. */
  lemma TableFrame(c: Card, d: Card, g: Geometry, t: nat)
    requires Shaped(c, g) && Shaped(d, g) && t < g.end
    requires forall at: nat {:trigger Indirect(g, at)} :: Indirect(g, at) && at < |c| ==> c[at] == d[at]
    ensures TableAt(d, g, t) == TableAt(c, g, t)
  {
    var slot := Div(t, PerTable(g));
    if slot < IFC_SLOTS {
      assert IndirectFor(g, t, g.ifc[slot]);
      assert Indirect(g, g.ifc[slot]);
    }
  }

  /** A change that leaves the tables of tables alone leaves the tables where they were. */
  lemma TabledFrame(c: Card, d: Card, g: Geometry)
    requires Tabled(c, g) && Shaped(d, g)
    requires forall at: nat {:trigger Indirect(g, at)} :: Indirect(g, at) && at < |c| ==> c[at] == d[at]
    ensures Tabled(d, g)
  {
    TableBelow(g, g.end - 1);
    forall t: nat | t <= TableOf(g, g.end - 1) ensures TableSound(d, g, t) {
      assert TableSound(c, g, t);
      TableFrame(c, d, g, t);
    }
    forall t: nat, u: nat | t < u <= TableOf(g, g.end - 1) ensures TablesApart(d, g, t, u) {
      assert TablesApart(c, g, t, u);
      TableFrame(c, d, g, t);
      TableFrame(c, d, g, u);
    }
  }

  /** Two cells' tables are the same cluster only when they are the same table. */
  lemma CellTables(c: Card, g: Geometry, n: nat, m: nat)
    requires Tabled(c, g) && n < g.end && m < g.end
    ensures TableSound(c, g, TableOf(g, n)) && TableSound(c, g, TableOf(g, m))
    ensures TableAt(c, g, TableOf(g, n)) == TableAt(c, g, TableOf(g, m)) ==> TableOf(g, n) == TableOf(g, m)
  {
    var t, u := TableOf(g, n), TableOf(g, m);
    TableBelow(g, n);
    TableBelow(g, m);
    if t < u {
      assert TablesApart(c, g, t, u);
    } else if u < t {
      assert TablesApart(c, g, u, t);
    }
  }
}
