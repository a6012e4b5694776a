/** The two fields of the Sega CD block code, GF(2^8) over 0x11D and GF(2^6) over
    0x43. The algebra the code words need is proved once, of any doubling that is
    linear and does not come back to a symbol in fewer than eight steps. */
module SegaCdField {

  datatype Field = GF8 | GF6

  /** The bit a doubled symbol may spill into, and what folds it back. */
  function High(f: Field): bv16 {
    if f.GF8? then 0x100 else 0x40
  }

  function Poly(f: Field): bv16 {
    if f.GF8? then 0x11D else 0x43
  }

  function InvAlphaPlus1(f: Field): bv8 {
    if f.GF8? then 0xF4 else 0x3E
  }

  function AlphaPow(f: Field, k: nat): bv8 {
    match k
    case 0 => 0x01
    case 1 => 0x02
    case 2 => 0x04
    case 3 => 0x08
    case 4 => 0x10
    case 5 => 0x20
    case 6 => if f.GF8? then 0x40 else 0x03
    case _ => if f.GF8? then 0x80 else 0x06
  }

  predicate Symbol(f: Field, a: bv8) {
    f.GF8? || a & 0xC0 == 0
  }

  /* ---- Any linear doubling ------------------------------------------------------------- */

  type Doubling = bv8 -> bv8

  /** Addition in either field. */
  function Xor(a: bv8, b: bv8): bv8 {
    a ^ b
  }

  ghost predicate Additive(d: Doubling, x: bv8, y: bv8) {
    d(Xor(x, y)) == Xor(d(x), d(y))
  }

  ghost predicate Linear(d: Doubling) {
    forall x, y {:trigger Additive(d, x, y)} :: Additive(d, x, y)
  }

  function Pick(b: bv8, a: bv8): bv8 {
    if b & 1 != 0 then a else 0
  }

  /** The product of two symbols: `a` times each power of alpha that `b` holds, summed. */
  function Times(d: Doubling, a: bv8, b: bv8): bv8
    decreases b
  {
    if b == 0 then 0 else Xor(Pick(b, a), Times(d, d(a), b >> 1))
  }

  /** `x` times alpha to the `k`. */
  function Scaled(d: Doubling, x: bv8, k: nat): bv8 {
    if k == 0 then x else d(Scaled(d, x, k - 1))
  }

  lemma Regroup(s: bv8, p: bv8, t: bv8)
    ensures Xor(Xor(s, p), t) == Xor(s, Xor(p, t)) && Xor(s, 0) == s
  {
  }

  lemma ZeroXor(s: bv8)
    ensures Xor(0, s) == s && Xor(s, 0) == s
  {
  }

  lemma XorComm(a: bv8, b: bv8)
    ensures Xor(a, b) == Xor(b, a)
  {
  }

  lemma XorZeroIff(a: bv8, b: bv8)
    ensures Xor(a, b) == 0 <==> a == b
    ensures Xor(Xor(a, b), b) == a
  {
  }

  lemma SwapPairs(a: bv8, b: bv8, s: bv8, t: bv8)
    ensures Xor(Xor(a, b), Xor(s, t)) == Xor(Xor(a, s), Xor(b, t))
  {
    Regroup(a, b, Xor(s, t));
    Regroup(b, s, t);
    XorComm(b, s);
    Regroup(s, b, t);
    Regroup(a, s, Xor(b, t));
  }

  lemma {:induction false} ScaledLinear(d: Doubling, x: bv8, y: bv8, k: nat)
    requires Linear(d)
    ensures Scaled(d, Xor(x, y), k) == Xor(Scaled(d, x, k), Scaled(d, y, k))
  {
    if k > 0 {
      ScaledLinear(d, x, y, k - 1);
      assert Additive(d, Scaled(d, x, k - 1), Scaled(d, y, k - 1));
    }
  }

  lemma {:induction false} ScaledTwice(d: Doubling, x: bv8, j: nat, k: nat)
    ensures Scaled(d, Scaled(d, x, j), k) == Scaled(d, x, j + k)
  {
    if k > 0 {
      ScaledTwice(d, x, j, k - 1);
    }
  }

  lemma LinearZero(d: Doubling)
    requires Linear(d)
    ensures d(0) == 0
  {
    assert Additive(d, 0, 0);
    assert (0 as bv8) ^ 0 == 0;
    assert d(0) ^ d(0) == 0;
  }

  /** One turn of the multiplication loop keeps the total. */
  lemma SumStep(d: Doubling, a: bv8, b: bv8, s: bv8, total: bv8)
    requires b != 0 && Xor(s, Times(d, a, b)) == total
    ensures Xor(Xor(s, Pick(b, a)), Times(d, d(a), b >> 1)) == total
  {
    Regroup(s, Pick(b, a), Times(d, d(a), b >> 1));
  }

  /* ---- The two doublings ---------------------------------------------------------------- */

  function Doubled8(a: bv8): bv8 {
    if a & 0x80 != 0 then (a << 1) ^ 0x1D else a << 1
  }

  function Doubled6(a: bv8): bv8 {
    if a & 0x20 != 0 then (a << 1) ^ 0x43 else a << 1
  }

  function Double(f: Field): Doubling {
    if f.GF8? then Doubled8 else Doubled6
  }

  lemma Linear8(x: bv8, y: bv8)
    ensures Doubled8(Xor(x, y)) == Xor(Doubled8(x), Doubled8(y))
  {
    if x & 0x80 != 0 {
      if y & 0x80 != 0 {
        assert (x ^ y) & 0x80 == 0;
      } else {
        assert (x ^ y) & 0x80 != 0;
      }
    } else if y & 0x80 != 0 {
      assert (x ^ y) & 0x80 != 0;
    } else {
      assert (x ^ y) & 0x80 == 0;
    }
  }

  lemma Linear6(x: bv8, y: bv8)
    ensures Doubled6(Xor(x, y)) == Xor(Doubled6(x), Doubled6(y))
  {
    if x & 0x20 != 0 {
      if y & 0x20 != 0 {
        assert (x ^ y) & 0x20 == 0;
      } else {
        assert (x ^ y) & 0x20 != 0;
      }
    } else if y & 0x20 != 0 {
      assert (x ^ y) & 0x20 != 0;
    } else {
      assert (x ^ y) & 0x20 == 0;
    }
  }

  lemma DoubleLinear(f: Field)
    ensures Linear(Double(f))
  {
    forall x, y ensures Additive(Double(f), x, y) {
      if f.GF8? {
        Linear8(x, y);
      } else {
        Linear6(x, y);
      }
    }
  }

  lemma DoubleSymbol(f: Field, a: bv8)
    requires Symbol(f, a)
    ensures Symbol(f, Double(f)(a))
  {
  }

  /** One doubling as the loop does it, on a word wide enough for the spilled bit. */
  lemma DoubledWide(f: Field, a: bv8)
    requires Symbol(f, a)
    ensures var s := (a as bv16) << 1; (if s & High(f) != 0 then s ^ Poly(f) else s) == Double(f)(a) as bv16
  {
  }

  lemma {:induction false} ScaledSymbol(f: Field, x: bv8, k: nat)
    requires Symbol(f, x)
    ensures Symbol(f, Scaled(Double(f), x, k))
  {
    if k > 0 {
      ScaledSymbol(f, x, k - 1);
      DoubleSymbol(f, Scaled(Double(f), x, k - 1));
    }
  }

  lemma WideXor(a: bv8, b: bv8)
    ensures (a as bv16) ^ (b as bv16) == Xor(a, b) as bv16
  {
  }

  lemma WideBits(b: bv8)
    ensures (b as bv16) & 1 == 0 <==> b & 1 == 0
    ensures (b as bv16) >> 1 == (b >> 1) as bv16
    ensures b as bv16 == 0 <==> b == 0
    ensures b != 0 ==> b >> 1 < b
    ensures ((b as bv16) & 0xFF) as bv8 == b
  {
  }

  lemma PickWide(a: bv8, b: bv8, s: bv8)
    ensures (if (b as bv16) & 1 != 0 then (s as bv16) ^ (a as bv16) else s as bv16) == Xor(s, Pick(b, a)) as bv16
  {
    WideXor(s, a);
    Regroup(s, 0, 0);
  }

  method GfMul(f: Field, a: bv8, b: bv8) returns (r: bv8)
    requires Symbol(f, a)
    ensures r == Times(Double(f), a, b)
  {
    var x, y := a as bv16, b as bv16;
    var sum: bv16 := 0;
    ghost var d := Double(f);
    ghost var a8, b8, s8 := a, b, 0 as bv8;
    ZeroXor(Times(d, a, b));
    while y != 0
      invariant x == a8 as bv16 && y == b8 as bv16 && sum == s8 as bv16 && Symbol(f, a8)
      invariant Xor(s8, Times(d, a8, b8)) == Times(d, a, b)
      decreases b8
    {
      WideBits(b8);
      SumStep(d, a8, b8, s8, Times(d, a, b));
      PickWide(a8, b8, s8);
      DoubledWide(f, a8);
      DoubleSymbol(f, a8);
      sum := if y & 1 != 0 then sum ^ x else sum;
      y := y >> 1;
      x := x << 1;
      x := if x & High(f) != 0 then x ^ Poly(f) else x;
      s8, b8, a8 := Xor(s8, Pick(b8, a8)), b8 >> 1, d(a8);
    }
    WideBits(b8);
    WideBits(s8);
    Regroup(s8, 0, 0);
    r := (sum & 0xFF) as bv8;
  }

  /* ---- Field facts -------------------------------------------------------------------- */

  /** The doublings written out, from 1 to 7. */
  lemma ScaledOut(d: Doubling, x: bv8)
    ensures var a1 := d(x); var a2 := d(a1); var a3 := d(a2); var a4 := d(a3); var a5 := d(a4); var a6 := d(a5);
      && Scaled(d, x, 0) == x && Scaled(d, x, 1) == a1 && Scaled(d, x, 2) == a2 && Scaled(d, x, 3) == a3
      && Scaled(d, x, 4) == a4 && Scaled(d, x, 5) == a5 && Scaled(d, x, 6) == a6 && Scaled(d, x, 7) == d(a6)
  {
    assert Scaled(d, x, 1) == d(x);
    assert Scaled(d, x, 2) == d(Scaled(d, x, 1));
    assert Scaled(d, x, 3) == d(Scaled(d, x, 2));
    assert Scaled(d, x, 4) == d(Scaled(d, x, 3));
    assert Scaled(d, x, 5) == d(Scaled(d, x, 4));
    assert Scaled(d, x, 6) == d(Scaled(d, x, 5));
  }

  lemma TimesEven(d: Doubling, x: bv8, b: bv8)
    requires b != 0 && b & 1 == 0
    ensures Times(d, x, b) == Times(d, d(x), b >> 1)
  {
    ZeroXor(Times(d, d(x), b >> 1));
  }

  lemma TimesOdd(d: Doubling, x: bv8, b: bv8)
    requires b & 1 == 1
    ensures Times(d, x, b) == Xor(x, Times(d, d(x), b >> 1))
  {
  }

  lemma TimesOne(d: Doubling, x: bv8)
    ensures Times(d, x, 1) == x
  {
    assert (1 as bv8) >> 1 == 0;
    assert Times(d, d(x), 0) == 0;
    ZeroXor(x);
  }

  /** A power of two multiplies by as many doublings. */
  lemma {:induction false} TimesBit(d: Doubling, x: bv8, k: nat)
    requires k < 8
    ensures Times(d, x, AlphaPow(GF8, k)) == Scaled(d, x, k)
    decreases k
  {
    if k == 0 {
      TimesOne(d, x);
    } else {
      TimesEven(d, x, AlphaPow(GF8, k));
      assert AlphaPow(GF8, k) >> 1 == AlphaPow(GF8, k - 1);
      TimesBit(d, d(x), k - 1);
      assert Scaled(d, x, 1) == d(Scaled(d, x, 0));
      ScaledTwice(d, x, 1, k - 1);
    }
  }

  lemma Wrap6(x: bv8)
    requires Symbol(GF6, x)
    ensures Doubled6(Doubled6(Doubled6(Doubled6(Doubled6(Doubled6(x)))))) == Xor(x, Doubled6(x))
  {
  }

  lemma TimesThree(d: Doubling, x: bv8)
    ensures Times(d, x, 3) == Xor(x, d(x))
  {
    assert (3 as bv8) >> 1 == 1;
    TimesOdd(d, x, 3);
    TimesOne(d, d(x));
  }

  lemma TimesPow6(x: bv8, k: nat)
    requires Symbol(GF6, x) && 6 <= k < 8
    ensures Times(Doubled6, x, AlphaPow(GF6, k)) == Scaled(Doubled6, x, k)
  {
    ScaledOut(Doubled6, x);
    Wrap6(x);
    if k == 6 {
      TimesThree(Doubled6, x);
    } else {
      assert (6 as bv8) >> 1 == 3;
      TimesEven(Doubled6, x, 6);
      TimesThree(Doubled6, Doubled6(x));
      Linear6(x, Doubled6(x));
    }
  }

  /** The tables hold the powers of alpha: multiplying by entry `k` is doubling `k` times. */
  lemma TimesPow(f: Field, x: bv8, k: nat)
    requires Symbol(f, x) && k < 8
    ensures Times(Double(f), x, AlphaPow(f, k)) == Scaled(Double(f), x, k)
  {
    if f.GF6? && k >= 6 {
      TimesPow6(x, k);
    } else {
      assert AlphaPow(f, k) == AlphaPow(GF8, k);
      TimesBit(Double(f), x, k);
    }
  }

  lemma Return8(e: bv8)
    requires e != 0
    ensures var a1 := Doubled8(e); var a2 := Doubled8(a1); var a3 := Doubled8(a2);
      var a4 := Doubled8(a3); var a5 := Doubled8(a4); var a6 := Doubled8(a5); var a7 := Doubled8(a6);
      && a1 != e && a2 != e && a3 != e && a4 != e && a5 != e && a6 != e && a7 != e
  {
  }

  lemma Return6(e: bv8)
    requires e != 0 && Symbol(GF6, e)
    ensures var a1 := Doubled6(e); var a2 := Doubled6(a1); var a3 := Doubled6(a2);
      var a4 := Doubled6(a3); var a5 := Doubled6(a4); var a6 := Doubled6(a5); var a7 := Doubled6(a6);
      && a1 != e && a2 != e && a3 != e && a4 != e && a5 != e && a6 != e && a7 != e
  {
  }

  lemma Inverse8(x: bv8)
    ensures var a1 := Doubled8(x); var a2 := Doubled8(a1); var a3 := Doubled8(a2);
      var a4 := Doubled8(a3); var a5 := Doubled8(a4); var a6 := Doubled8(a5); var a7 := Doubled8(a6);
      var p := Xor(a2, Xor(a4, Xor(a5, Xor(a6, a7))));
      Xor(Doubled8(p), p) == x
  {
  }

  lemma Inverse6(x: bv8)
    requires Symbol(GF6, x)
    ensures var a1 := Doubled6(x); var a2 := Doubled6(a1); var a3 := Doubled6(a2);
      var a4 := Doubled6(a3); var a5 := Doubled6(a4);
      var p := Xor(a1, Xor(a2, Xor(a3, Xor(a4, a5))));
      Xor(Doubled6(p), p) == x && Symbol(GF6, p)
  {
  }

  lemma TimesF4(d: Doubling, x: bv8)
    ensures var a1 := d(x); var a2 := d(a1); var a3 := d(a2); var a4 := d(a3); var a5 := d(a4); var a6 := d(a5);
      Times(d, x, 0xF4) == Xor(a2, Xor(a4, Xor(a5, Xor(a6, d(a6)))))
  {
    var a1 := d(x);
    var a2 := d(a1);
    var a3 := d(a2);
    var a4 := d(a3);
    var a5 := d(a4);
    var a6 := d(a5);
    assert (0xF4 as bv8) >> 1 == 0x7A && (0x7A as bv8) >> 1 == 0x3D && (0x3D as bv8) >> 1 == 0x1E;
    assert (0x1E as bv8) >> 1 == 0x0F && (0x0F as bv8) >> 1 == 0x07 && (0x07 as bv8) >> 1 == 0x03;
    TimesEven(d, x, 0xF4);
    TimesEven(d, a1, 0x7A);
    TimesOdd(d, a2, 0x3D);
    TimesEven(d, a3, 0x1E);
    TimesOdd(d, a4, 0x0F);
    TimesOdd(d, a5, 0x07);
    TimesThree(d, a6);
  }

  lemma Times3E(d: Doubling, x: bv8)
    ensures var a1 := d(x); var a2 := d(a1); var a3 := d(a2); var a4 := d(a3);
      Times(d, x, 0x3E) == Xor(a1, Xor(a2, Xor(a3, Xor(a4, d(a4)))))
  {
    var a1 := d(x);
    var a2 := d(a1);
    var a3 := d(a2);
    var a4 := d(a3);
    assert (0x3E as bv8) >> 1 == 0x1F && (0x1F as bv8) >> 1 == 0x0F && (0x0F as bv8) >> 1 == 0x07;
    assert (0x07 as bv8) >> 1 == 0x03;
    TimesEven(d, x, 0x3E);
    TimesOdd(d, a1, 0x1F);
    TimesOdd(d, a2, 0x0F);
    TimesOdd(d, a3, 0x07);
    TimesThree(d, a4);
  }

  /** The parity multiplier is the inverse of alpha + 1. */
  lemma ParityInverse(f: Field, x: bv8)
    requires Symbol(f, x)
    ensures var p := Times(Double(f), x, InvAlphaPlus1(f)); Xor(Double(f)(p), p) == x && Symbol(f, p)
  {
    if f.GF8? {
      TimesF4(Doubled8, x);
      Inverse8(x);
    } else {
      Times3E(Doubled6, x);
      Inverse6(x);
    }
  }

  /** A nonzero symbol times two different powers of alpha below the eighth gives two
      different products, neither of them 0. */
  lemma PowersApart(f: Field, e: bv8, j: nat, k: nat)
    requires Symbol(f, e) && e != 0 && j < k < 8
    ensures Scaled(Double(f), e, j) != Scaled(Double(f), e, k)
    ensures Scaled(Double(f), e, j) != 0
  {
    ScaledNonzero(f, e, j);
    ScaledSymbol(f, e, j);
    var s := Scaled(Double(f), e, j);
    ScaledTwice(Double(f), e, j, k - j);
    ScaledOut(Double(f), s);
    if f.GF8? {
      Return8(s);
    } else {
      Return6(s);
    }
  }

  lemma {:induction false} ScaledNonzero(f: Field, e: bv8, k: nat)
    requires Symbol(f, e) && e != 0
    ensures Scaled(Double(f), e, k) != 0
  {
    if k > 0 {
      ScaledNonzero(f, e, k - 1);
      ScaledSymbol(f, e, k - 1);
    }
  }
}
