/** Formatting a PS2 card: an 8 MB card with an empty root directory. */
module Ps2Format {
  import opened Bytes
  import opened Status
  import opened Chains
  import opened Division
  import opened Ps2Fat
  import opened Ps2Cells
  import opened Ps2Alloc
  import opened Ps2Read
  import opened Ps2Save
  import opened Ps2Build
  import opened Ps2Card
  import opened Ps2Result
  import opened Ps2Sound
  import opened Ps2Runs
  import opened Ps2Theorems

  const CLUSTERS := 8192
  const IFC := 8
  const FAT_FIRST := 9
  const ALLOC_OFFSET := 41
  const ALLOC_END := 8135
  const ROOT_SELF := 0x8427
  const ROOT_PARENT := 0xA426

  /** The geometry a format gives the card. */
  function Layout(): (g: Geometry)
    ensures Sane(g)
  {
    Geometry(1024, CLUSTERS, ALLOC_OFFSET, ALLOC_END, 0, [IFC] + Filled(IFC_SLOTS - 1, 0))
  }

  /** What a format writes to cell `n` of the table. */
  function CellValue(n: nat): nat {
    if n == 0 || n >= ALLOC_END then 0xFFFF_FFFF else CHAIN_END
  }

  /** A cluster that lists `values`, four bytes each. */
  ghost predicate Lists(b: seq<u8>, from: nat, count: nat, value: nat -> nat) {
    |b| == 1024 && count <= 256 && forall p: nat {:trigger Le32(b, 4 * p)} :: p < count ==>
      Le32(b, 4 * p) == value(from + p)
  }

  method List(b: seq<u8>, from: nat, count: nat, value: nat -> nat) returns (r: seq<u8>)
    requires |b| == 1024 && count <= 256 && forall n: nat {:trigger value(n)} :: from <= n < from + count ==>
      value(n) < 0x1_0000_0000
    ensures Lists(r, from, count, value)
  {
    r := b;
    for p := 0 to count
      invariant Lists(r, from, p, value)
    {
      ghost var was := r;
      Le32Written(r, 4 * p, value(from + p));
      r := Splice(r, 4 * p, Le32Bytes(value(from + p)));
      forall q: nat | q < p ensures Le32(r, 4 * q) == value(from + q) {
        Le32Frame(was, 4 * p, Le32Bytes(value(from + p)), 4 * q);
      }
    }
  }

  /** A directory entry with nothing but these fields. */
  function DirEntry(mode: nat, length: nat, tod: seq<u8>, name: seq<u8>): Entry
    requires |tod| == TOD_SIZE && |name| <= NAME_LEN
  {
    var e0 := Splice(Zeros(ENTRY_SIZE), 0, Le16Bytes(mode));
    var e1 := Splice(e0, CREATED, tod);
    var e2 := Splice(e1, MODIFIED, tod);
    WithLe32(Splice(e2, NAME, name), LENGTH, length)
  }

  function RootCluster(tod: seq<u8>): (b: seq<u8>)
    requires |tod| == TOD_SIZE
    ensures |b| == 1024
  {
    DirEntry(ROOT_SELF, 2, tod, [0x2E]) + DirEntry(ROOT_PARENT, 0, tod, [0x2E, 0x2E])
  }

  /* ---- What the written clusters read as --------------------------------------------------------------------- */

  /** Cluster `k` is the table it should be. */
  ghost predicate TableCluster(b: seq<u8>, k: nat) {
    k >= FAT_FIRST && Lists(b, 256 * (k - FAT_FIRST), 256, CellValue)
  }

  ghost predicate Tables(c: Card) {
    && |c| == CLUSTERS && |c[IFC]| == 1024 && Lists(c[IFC], FAT_FIRST, 32, n => n)
    && forall k {:trigger c[k]} :: FAT_FIRST <= k < ALLOC_OFFSET ==> TableCluster(c[k], k)
  }

  lemma TableIs(c: Card, t: nat)
    requires Shaped(c, Layout()) && Tables(c) && t < 32
    ensures TableAt(c, Layout(), t) == Some(FAT_FIRST + t)
  {
    DivIsDivision(t, 256);
    assert Layout().ifc[0] == IFC;
    assert Le32(c[IFC], 4 * t) == FAT_FIRST + t;
  }

  lemma CellIs(c: Card, n: nat)
    requires Shaped(c, Layout()) && Tables(c) && n < ALLOC_END
    ensures TableOf(Layout(), n) < 32
    ensures CellLink(c, Layout(), n) == if n == 0 then End else Free
  {
    DivIsDivision(n, 256);
    var t := n / 256;
    TableIs(c, t);
    var b, p: nat := c[FAT_FIRST + t], n % 256;
    assert TableCluster(b, FAT_FIRST + t);
    assert Le32(b, 4 * p) == CellValue(256 * t + p);
  }

  lemma FormatTabled(c: Card)
    requires Shaped(c, Layout()) && Tables(c)
    ensures Tabled(c, Layout())
  {
    var g := Layout();
    CellIs(c, g.end - 1);
    forall at: nat | Indirect(g, at) ensures at == IFC || at == 0 {
      var t: nat :| IndirectFor(g, t, at);
    }
    forall t: nat | t <= TableOf(g, g.end - 1) ensures TableSound(c, g, t) {
      TableIs(c, t);
    }
    forall t: nat, u: nat | t < u <= TableOf(g, g.end - 1) ensures TablesApart(c, g, t, u) {
      TableIs(c, t);
      TableIs(c, u);
    }
  }

  /** The root's own entry counts itself and its parent. */
  lemma RootClusterReads(tod: seq<u8>)
    requires |tod| == TOD_SIZE
    ensures Length(RootCluster(tod)[..ENTRY_SIZE]) == 2
  {
    var e := DirEntry(ROOT_SELF, 2, tod, [0x2E]);
    assert RootCluster(tod)[..ENTRY_SIZE] == e;
    var e0 := Splice(Zeros(ENTRY_SIZE), 0, Le16Bytes(ROOT_SELF));
    FieldWritten(Splice(Splice(Splice(e0, CREATED, tod), MODIFIED, tod), NAME, [0x2E]), LENGTH, 2);
  }

  /** Every cluster but the root's is free. */
  ghost predicate AllButFirst(free: set<nat>) {
    forall b: nat {:trigger b in free} :: b in free <==> 1 <= b < ALLOC_END
  }

  /** A formatted card is well formed, holds no saves and has every other cluster free. */
  lemma FormatHolds(c: Card, tod: seq<u8>)
    requires Shaped(c, Layout()) && Tables(c) && |tod| == TOD_SIZE && c[ALLOC_OFFSET] == RootCluster(tod)
    ensures Holds(c, Layout(), ViewOf(c, Layout()))
    ensures var free := FreeCells(ViewOf(c, Layout()).fat);
      AllButFirst(free) && Shows(ViewOf(c, Layout()), Layout(), Dir(map[], 2, 1, free))
  {
    var g := Layout();
    var v := ViewOf(c, g);
    FormatTabled(c);
    forall n: nat | n < g.end ensures v.fat[n] == if n == 0 then End else Free {
      CellIs(c, n);
    }
    FormatRoot(v, tod);
  }

  lemma FormatRoot(v: View, tod: seq<u8>)
    requires Sized(v, Layout()) && |tod| == TOD_SIZE && v.fat[0] == End && v.data[0] == RootCluster(tod)
    ensures Holding(v, Layout(), map[]) && |RootEntries(v, Layout())| == 2 && ChainOf(v.fat, 0) == [0]
  {
    hide RootCluster;
    var g := Layout();
    var b := RootCluster(tod);
    assert IsChain(v.fat, [0]);
    ChainOfUnique(v.fat, [0]);
    var es: seq<Entry> := [b[..ENTRY_SIZE], b[ENTRY_SIZE..2 * ENTRY_SIZE]];
    forall e: nat | e < 2 ensures EntryIs(v, g, [0], es, e) {
      assert Div(e, 2) == 0 && Mod(e, 2) == e;
    }
    RootClusterReads(tod);
    RootRead(v, g, [0], es);
  }

  /** Formats a card dated `tod`. */
  method Format(tod: seq<u8>) returns (vol: array<seq<u8>>, ghost v: View)
    requires |tod| == TOD_SIZE
    ensures fresh(vol) && Holds(vol[..], Layout(), v)
    ensures AllButFirst(FreeCells(v.fat)) && Shows(v, Layout(), Dir(map[], 2, 1, FreeCells(v.fat)))
  {
    vol := new seq<u8>[CLUSTERS](_ => Zeros(1024));
    var indirect := List(Filled(1024, 0xFF), FAT_FIRST, 32, n => n);
    vol[IFC] := indirect;
    for t := FAT_FIRST to ALLOC_OFFSET
      invariant vol[IFC] == indirect
      invariant forall k {:trigger vol[k]} :: 0 <= k < vol.Length ==> |vol[k]| == 1024
      invariant forall k {:trigger vol[k]} :: FAT_FIRST <= k < t ==> TableCluster(vol[k], k)
    {
      vol[t] := List(Zeros(1024), 256 * (t - FAT_FIRST), 256, CellValue);
    }
    vol[ALLOC_OFFSET] := RootCluster(tod);
    for b := 8176 to 8184
      invariant vol[IFC] == indirect && vol[ALLOC_OFFSET] == RootCluster(tod)
      invariant forall k {:trigger vol[k]} :: 0 <= k < vol.Length ==> |vol[k]| == 1024
      invariant forall k {:trigger vol[k]} :: FAT_FIRST <= k < ALLOC_OFFSET ==> TableCluster(vol[k], k)
    {
      vol[b] := Filled(1024, 0xFF);
    }
    FormatHolds(vol[..], tod);
    v := ViewOf(vol[..], Layout());
  }
}
