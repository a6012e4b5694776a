/** How the code words of a Sega CD block lie in its 8x8 grid of bytes: 6-bit words
    in the top bits along diagonals, 8-bit words as the bit planes of each column. */
module SegaCdGrid {
  import opened SegaCdField
  import opened SegaCdWord

  const GRID := 64

  type Grid = b: seq<bv8> | |b| == 64 witness seq(64, _ => 0)

  /* ---- The 6-bit words ------------------------------------------------------------------ */

  function Top6(b: bv8): bv8 {
    b >> 2
  }

  /** A byte with its top six bits replaced. */
  function Joined(symbol: bv8, b: bv8): bv8 {
    (symbol << 2) | (b & 3)
  }

  lemma JoinedParts(s: bv8, b: bv8)
    ensures Symbol(GF6, Top6(b)) && Joined(Top6(b), b) == b
    ensures Symbol(GF6, s) ==> Top6(Joined(s, b)) == s
  {
  }

  const RS6_LAST: seq<nat> := [0x2D, 0x2E, 0x2F, 0x08, 0x11, 0x1A, 0x23, 0x2C]

  /** Where symbol `i` of a column's 6-bit word lies. */
  function Rs6Pos(column: nat, i: nat): (p: nat)
    requires column < 8 && i < 8
    ensures p < GRID
  {
    if i < 5 then column + i * 9
    else if i == 5 then RS6_LAST[column]
    else (if i == 6 then 0x30 else 0x38) + column
  }

  /** The column whose word byte `p` belongs to, and its place there. */
  function Rs6Column(p: nat): (column: nat)
    requires p < GRID
    ensures column < 8
  {
    var row, c := p / 8, p % 8;
    if p >= 0x30 then c
    else if row == 5 && c >= 5 then c - 5
    else if c + 1 == row then row + 2
    else if c >= row then c - row
    else c + 9 - row
  }

  function Rs6Index(p: nat): (i: nat)
    requires p < GRID
    ensures i < 8
  {
    var row, c := p / 8, p % 8;
    if p >= 0x30 then row
    else if (row == 5 && c >= 5) || c + 1 == row then 5
    else if c >= row then row
    else row - 1
  }

  lemma Rs6PosPlaces(column: nat, i: nat)
    requires column < 8 && i < 8
    ensures Rs6Column(Rs6Pos(column, i)) == column && Rs6Index(Rs6Pos(column, i)) == i
    ensures i < 6 <==> Rs6Pos(column, i) < 0x30
  {
    if i < 5 {
      var p := Rs6Pos(column, i);
      if column + i < 8 {
        assert p / 8 == i && p % 8 == column + i;
      } else {
        assert p / 8 == i + 1 && p % 8 == column + i - 8;
      }
    }
  }

  lemma Rs6PlacesPos(p: nat)
    requires p < GRID
    ensures Rs6Pos(Rs6Column(p), Rs6Index(p)) == p
  {
  }

  /** The words share the grid out: every byte is one symbol of one word. */
  lemma Rs6Partition(column: nat, i: nat, p: nat)
    requires column < 8 && i < 8 && p < GRID
    ensures Rs6Pos(column, i) == p <==> Rs6Column(p) == column && Rs6Index(p) == i
    ensures Rs6Pos(Rs6Column(p), Rs6Index(p)) == p
    ensures i < 6 <==> Rs6Pos(column, i) < 0x30
  {
    Rs6PosPlaces(column, i);
    Rs6PlacesPos(p);
  }

  function Rs6Word(b: Grid, column: nat): (c: Word)
    requires column < 8
    ensures forall i :: 0 <= i < 8 ==> c[i] == Top6(b[Rs6Pos(column, i)])
  {
    seq(8, i requires 0 <= i < 8 => Top6(b[Rs6Pos(column, i)]))
  }

  lemma Rs6WordSymbols(b: Grid, column: nat)
    requires column < 8
    ensures Symbols(GF6, Rs6Word(b, column))
  {
    forall i | 0 <= i < 8 ensures Symbol(GF6, Rs6Word(b, column)[i]) {
      JoinedParts(0, b[Rs6Pos(column, i)]);
    }
  }

  /** The grid with a column's 6-bit word replaced. */
  function Rs6With(b: Grid, column: nat, c: Word): (r: Grid)
    requires column < 8
    ensures forall p :: 0 <= p < GRID ==> r[p] == if Rs6Column(p) == column then Joined(c[Rs6Index(p)], b[p]) else b[p]
  {
    seq(GRID, p requires 0 <= p < GRID => if Rs6Column(p) == column then Joined(c[Rs6Index(p)], b[p]) else b[p])
  }

  lemma Rs6WithWord(b: Grid, column: nat, c: Word, other: nat)
    requires column < 8 && other < 8 && Symbols(GF6, c)
    ensures Rs6Word(Rs6With(b, column, c), other) == if other == column then c else Rs6Word(b, other)
  {
    forall i | 0 <= i < 8
      ensures Rs6Word(Rs6With(b, column, c), other)[i] == if other == column then c[i] else Rs6Word(b, other)[i]
    {
      var p := Rs6Pos(other, i);
      Rs6Partition(other, i, p);
      JoinedParts(c[i], b[p]);
    }
  }

  lemma Rs6PutBack(b: Grid, column: nat)
    requires column < 8
    ensures Rs6With(b, column, Rs6Word(b, column)) == b
  {
    forall p | 0 <= p < GRID ensures Rs6With(b, column, Rs6Word(b, column))[p] == b[p] {
      Rs6Partition(column, 0, p);
      JoinedParts(0, b[p]);
    }
  }

  method Rs6Get(blk: array<bv8>, column: nat, c: array<bv8>)
    requires blk.Length == 64 && c.Length == 8 && column < 8 && blk != c
    modifies c
    ensures c[..] == Rs6Word(blk[..], column)
  {
    for i := 0 to 8
      invariant blk[..] == old(blk[..])
      invariant forall k :: 0 <= k < i ==> c[k] == Top6(blk[Rs6Pos(column, k)])
    {
      c[i] := blk[Rs6Pos(column, i)] >> 2;
    }
  }

  method Rs6Put(blk: array<bv8>, column: nat, c: array<bv8>)
    requires blk.Length == 64 && c.Length == 8 && column < 8 && blk != c
    modifies blk
    ensures blk[..] == Rs6With(old(blk[..]), column, c[..])
  {
    ghost var was: Grid := blk[..];
    for i := 0 to 8
      invariant forall p :: 0 <= p < GRID ==>
        blk[p] == if Rs6Column(p) == column && Rs6Index(p) < i then Joined(c[Rs6Index(p)], was[p]) else was[p]
    {
      var p := Rs6Pos(column, i);
      Rs6Partition(column, i, p);
      blk[p] := (c[i] << 2) | (blk[p] & 3);
      forall q | 0 <= q < GRID && q != p ensures Rs6Column(q) != column || Rs6Index(q) != i {
        Rs6Partition(column, i, q);
      }
    }
    assert blk[..] == Rs6With(was, column, c[..]);
  }

  /* ---- The 8-bit words ------------------------------------------------------------------ */

  /** Bit `j` of a byte, counted from the top. */
  function BitOf(b: bv8, j: nat): bv8 {
    match j
    case 0 => (b >> 7) & 1
    case 1 => (b >> 6) & 1
    case 2 => (b >> 5) & 1
    case 3 => (b >> 4) & 1
    case 4 => (b >> 3) & 1
    case 5 => (b >> 2) & 1
    case 6 => (b >> 1) & 1
    case _ => b & 1
  }

  /** A bit shifted in from below. */
  function Push(g: bv8, t: bv8): bv8 {
    (g << 1) | t
  }

  /** Bit `j` of each of the first `n` bytes, the first in the highest place. */
  function Gather(x: Word, j: nat, n: nat): bv8
    requires n <= 8
  {
    if n == 0 then 0 else Push(Gather(x, j, n - 1), BitOf(x[n - 1], j))
  }

  /** The 8x8 bit matrix of eight bytes, transposed. */
  function Transposed(x: Word): (t: Word)
    ensures forall j :: 0 <= j < 8 ==> t[j] == Gather(x, j, |x|)
  {
    seq(8, j requires 0 <= j < 8 => Gather(x, j, |x|))
  }

  lemma BitIsBit(b: bv8, j: nat)
    ensures BitOf(b, j) <= 1
  {
  }

  function Folded(t0: bv8, t1: bv8, t2: bv8, t3: bv8, t4: bv8, t5: bv8): bv8 {
    Push(Push(Push(Push(Push(t0, t1), t2), t3), t4), t5)
  }

  lemma FoldedBits(t0: bv8, t1: bv8, t2: bv8, t3: bv8, t4: bv8, t5: bv8, t6: bv8, t7: bv8)
    requires t0 <= 1 && t1 <= 1 && t2 <= 1 && t3 <= 1 && t4 <= 1 && t5 <= 1 && t6 <= 1 && t7 <= 1
    ensures var r := Push(Push(Folded(t0, t1, t2, t3, t4, t5), t6), t7);
      && BitOf(r, 0) == t0 && BitOf(r, 1) == t1 && BitOf(r, 2) == t2 && BitOf(r, 3) == t3
      && BitOf(r, 4) == t4 && BitOf(r, 5) == t5 && BitOf(r, 6) == t6 && BitOf(r, 7) == t7
      && r >> 2 == Folded(t0, t1, t2, t3, t4, t5)
  {
  }

  lemma GatherSix(x: Word, j: nat)
    ensures Gather(x, j, 6)
      == Folded(BitOf(x[0], j), BitOf(x[1], j), BitOf(x[2], j), BitOf(x[3], j), BitOf(x[4], j), BitOf(x[5], j))
    ensures Gather(x, j, 8) == Push(Push(Gather(x, j, 6), BitOf(x[6], j)), BitOf(x[7], j))
  {
    assert Push(Gather(x, j, 0), BitOf(x[0], j)) == BitOf(x[0], j);
    assert Gather(x, j, 1) == BitOf(x[0], j);
    assert Gather(x, j, 2) == Push(Gather(x, j, 1), BitOf(x[1], j));
    assert Gather(x, j, 3) == Push(Gather(x, j, 2), BitOf(x[2], j));
    assert Gather(x, j, 4) == Push(Gather(x, j, 3), BitOf(x[3], j));
    assert Gather(x, j, 5) == Push(Gather(x, j, 4), BitOf(x[4], j));
    assert Gather(x, j, 6) == Push(Gather(x, j, 5), BitOf(x[5], j));
    assert Gather(x, j, 7) == Push(Gather(x, j, 6), BitOf(x[6], j));
  }

  /** Bit `r` of a gathered byte is bit `j` of byte `r`. */
  lemma GatherBit(x: Word, j: nat, r: nat)
    requires j < 8 && r < 8
    ensures BitOf(Gather(x, j, 8), r) == BitOf(x[r], j)
  {
    GatherSix(x, j);
    var t := seq(8, i requires 0 <= i < 8 => BitOf(x[i], j));
    forall i | 0 <= i < 8 ensures t[i] <= 1 {
      BitIsBit(x[i], j);
    }
    FoldedBits(t[0], t[1], t[2], t[3], t[4], t[5], t[6], t[7]);
  }

  lemma SameBits(a: bv8, b: bv8)
    requires forall j :: 0 <= j < 8 ==> BitOf(a, j) == BitOf(b, j)
    ensures a == b
  {
    assert BitOf(a, 0) == BitOf(b, 0) && BitOf(a, 1) == BitOf(b, 1) && BitOf(a, 2) == BitOf(b, 2);
    assert BitOf(a, 3) == BitOf(b, 3) && BitOf(a, 4) == BitOf(b, 4) && BitOf(a, 5) == BitOf(b, 5);
    assert BitOf(a, 6) == BitOf(b, 6) && BitOf(a, 7) == BitOf(b, 7);
  }

  lemma TransposedTwice(x: Word)
    ensures Transposed(Transposed(x)) == x
  {
    forall r | 0 <= r < 8 ensures Transposed(Transposed(x))[r] == x[r] {
      forall j | 0 <= j < 8 ensures BitOf(Gather(Transposed(x), r, 8), j) == BitOf(x[r], j) {
        GatherBit(Transposed(x), r, j);
        GatherBit(x, j, r);
      }
      SameBits(Transposed(Transposed(x))[r], x[r]);
    }
  }

  lemma {:induction false} GatherSame(x: Word, y: Word, j: nat, n: nat)
    requires n <= 8 && forall i :: 0 <= i < n ==> BitOf(x[i], j) == BitOf(y[i], j)
    ensures Gather(x, j, n) == Gather(y, j, n)
  {
    if n > 0 {
      GatherSame(x, y, j, n - 1);
    }
  }

  /** The last two symbols reach only the low two bits of each byte. */
  lemma DataKeepsTops(c: Word, w: Word, r: nat)
    requires r < 8 && c[..6] == w[..6]
    ensures Top6(Transposed(c)[r]) == Top6(Transposed(w)[r])
  {
    forall i | 0 <= i < 6 ensures c[i] == w[i] {
      assert c[..6][i] == w[..6][i];
    }
    GatherSame(c, w, r, 6);
    GatherTop(c, r);
    GatherTop(w, r);
  }

  lemma GatherTop(x: Word, j: nat)
    requires j < 8
    ensures Top6(Gather(x, j, 8)) == Gather(x, j, 6)
  {
    GatherSix(x, j);
    var t := seq(8, i requires 0 <= i < 8 => BitOf(x[i], j));
    forall i | 0 <= i < 8 ensures t[i] <= 1 {
      BitIsBit(x[i], j);
    }
    FoldedBits(t[0], t[1], t[2], t[3], t[4], t[5], t[6], t[7]);
  }

  /** Symbols 0 to 5 depend on the top six bits of the bytes alone. */
  lemma TopsKeepData(x: Word, y: Word, j: nat)
    requires j < 6 && forall r :: 0 <= r < 8 ==> Top6(x[r]) == Top6(y[r])
    ensures Transposed(x)[j] == Transposed(y)[j]
  {
    forall i | 0 <= i < 8 ensures BitOf(x[i], j) == BitOf(y[i], j) {
      TopBit(x[i], y[i], j);
    }
    GatherSame(x, y, j, 8);
  }

  lemma TopBit(a: bv8, b: bv8, j: nat)
    requires j < 6 && Top6(a) == Top6(b)
    ensures BitOf(a, j) == BitOf(b, j)
  {
  }

  /** The bytes of a column of the grid. */
  function Column(b: Grid, column: nat): (c: Word)
    requires column < 8
    ensures forall r :: 0 <= r < 8 ==> c[r] == b[column + 8 * r]
  {
    seq(8, r requires 0 <= r < 8 => b[column + 8 * r])
  }

  function Rs8Word(b: Grid, column: nat): Word
    requires column < 8
  {
    Transposed(Column(b, column))
  }

  function Rs8With(b: Grid, column: nat, c: Word): (r: Grid)
    requires column < 8
    ensures forall p :: 0 <= p < GRID ==> r[p] == if p % 8 == column then Transposed(c)[p / 8] else b[p]
  {
    seq(GRID, p requires 0 <= p < GRID => if p % 8 == column then Transposed(c)[p / 8] else b[p])
  }

  lemma RowAndColumn(column: nat, r: nat)
    requires column < 8
    ensures (column + 8 * r) % 8 == column && (column + 8 * r) / 8 == r
  {
  }

  lemma Rs8WithColumn(b: Grid, column: nat, c: Word, other: nat)
    requires column < 8 && other < 8
    ensures Column(Rs8With(b, column, c), other) == if other == column then Transposed(c) else Column(b, other)
  {
    forall r | 0 <= r < 8
      ensures Column(Rs8With(b, column, c), other)[r] == if other == column
        then Transposed(c)[r] else Column(b, other)[r]
    {
      RowAndColumn(other, r);
      assert Column(Rs8With(b, column, c), other)[r] == Rs8With(b, column, c)[other + 8 * r];
    }
  }

  lemma Rs8WithWord(b: Grid, column: nat, c: Word, other: nat)
    requires column < 8 && other < 8
    ensures Rs8Word(Rs8With(b, column, c), other) == if other == column then c else Rs8Word(b, other)
  {
    Rs8WithColumn(b, column, c, other);
    TransposedTwice(c);
  }

  /** Grids with the same columns are the same grid. */
  lemma SameColumns(a: Grid, b: Grid)
    requires forall col: nat :: col < 8 ==> Column(a, col) == Column(b, col)
    ensures a == b
  {
    forall p | 0 <= p < GRID ensures a[p] == b[p] {
      assert Column(a, p % 8)[p / 8] == Column(b, p % 8)[p / 8];
    }
  }

  method Rs8Get(blk: array<bv8>, column: nat, c: array<bv8>)
    requires blk.Length == 64 && c.Length == 8 && column < 8 && blk != c
    modifies c
    ensures c[..] == Rs8Word(blk[..], column)
  {
    ghost var x := Column(blk[..], column);
    for j := 0 to 8
      invariant blk[..] == old(blk[..])
      invariant forall k :: 0 <= k < j ==> c[k] == Gather(x, k, 8)
    {
      var s: bv8 := 0;
      for r := 0 to 8
        invariant s == Gather(x, j, r)
      {
        s := Push(s, BitOf(blk[column + 8 * r], j));
      }
      c[j] := s;
    }
  }

  method Rs8Put(blk: array<bv8>, column: nat, c: array<bv8>)
    requires blk.Length == 64 && c.Length == 8 && column < 8 && blk != c
    modifies blk
    ensures blk[..] == Rs8With(old(blk[..]), column, c[..])
  {
    ghost var was: Grid := blk[..];
    for r := 0 to 8
      invariant forall p :: 0 <= p < GRID ==>
        blk[p] == if p % 8 == column && p / 8 < r then Transposed(c[..])[p / 8] else was[p]
    {
      var v: bv8 := 0;
      for j := 0 to 8
        invariant v == Gather(c[..], r, j)
      {
        v := Push(v, BitOf(c[j], r));
      }
      blk[column + 8 * r] := v;
    }
    assert blk[..] == Rs8With(was, column, c[..]);
  }
}
