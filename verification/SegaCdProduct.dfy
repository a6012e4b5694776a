/** What the multiplication of the Sega CD block code computes: the product of two polynomials,
    modulo the one each field is made with. */
module SegaCdProduct {
  import opened BitTerms
  import opened Polynomials
  import opened SegaCdField

  /** x^8 + x^4 + x^3 + x^2 + 1, and x^6 + x + 1. */
  function Modulus(f: Field): Polynomials.Poly {
    if f.GF8? then {8, 4, 3, 2, 0} else {6, 1, 0}
  }

  function Degree(f: Field): nat {
    if f.GF8? then 8 else 6
  }

  function SymbolTerms(a: bv8): Polynomials.Poly {
    WordTerms(a as bv16)
  }

  lemma FoldBits(f: Field)
    ensures var p := SegaCdField.Poly(f);
      && p & 0x1 != 0 && (p & 0x2 != 0 <==> f.GF6?) && (p & 0x4 != 0 <==> f.GF8?) && (p & 0x8 != 0 <==> f.GF8?)
      && (p & 0x10 != 0 <==> f.GF8?) && p & 0x20 == 0 && (p & 0x40 != 0 <==> f.GF6?) && p & 0x80 == 0
      && (p & 0x100 != 0 <==> f.GF8?) && p & 0x200 == 0 && p & 0x400 == 0 && p & 0x800 == 0
      && p & 0x1000 == 0 && p & 0x2000 == 0 && p & 0x4000 == 0 && p & 0x8000 == 0
  {
  }

  /** The words the loop folds with are the two moduli. */
  lemma FoldTerms(f: Field)
    ensures WordTerms(SegaCdField.Poly(f)) == Modulus(f)
  {
    hide SegaCdField.Poly;
    Masks();
    FoldBits(f);
    var p := SegaCdField.Poly(f);
    forall e: nat | e < 16 ensures Bit(p, e) <==> e in Modulus(f) {
      assert e == 0 || e == 1 || e == 2 || e == 3 || e == 4 || e == 5 || e == 6 || e == 7
        || e == 8 || e == 9 || e == 10 || e == 11 || e == 12 || e == 13 || e == 14 || e == 15;
    }
  }

  lemma ByteWide(a: bv8)
    ensures a as bv16 & 0x8000 == 0
  {
  }

  lemma Folds(f: Field, s: bv16, d: bv16, high: bool)
    requires d == if high then s ^ SegaCdField.Poly(f) else s
    ensures Plus(WordTerms(d), if high then Modulus(f) else {}) == WordTerms(s)
  {
    hide WordTerms, SegaCdField.Poly, Modulus, Plus;
    Nothing(WordTerms(d));
    if high {
      XorTerms(s, SegaCdField.Poly(f));
      FoldTerms(f);
      PlusTwice(WordTerms(s), Modulus(f));
    }
  }

  lemma PlusTwice(a: Polynomials.Poly, b: Polynomials.Poly)
    ensures Plus(Plus(a, b), b) == a
  {
  }

  /** Doubling is multiplying by x, with the modulus taken off when it comes out too high. */
  lemma DoubledTerms(f: Field, a: bv8) returns (high: bool)
    requires Symbol(f, a)
    ensures Plus(SymbolTerms(Double(f)(a)), if high then Modulus(f) else {}) == Shift(SymbolTerms(a), 1)
  {
    hide WordTerms, SegaCdField.Poly, Modulus, Shift, Plus;
    var s := (a as bv16) << 1;
    high := s & High(f) != 0;
    DoubledWide(f, a);
    ByteWide(a);
    UpTerms(a as bv16);
    Nothing(WordTerms(s));
    Folds(f, s, Double(f)(a) as bv16, high);
  }

  lemma Nothing(a: Polynomials.Poly)
    ensures Plus(a, {}) == a && Plus({}, a) == a
  {
  }

  /** A byte is its lowest bit and x times the rest. */
  lemma HalvedTerms(b: bv8)
    ensures SymbolTerms(b) == Plus(Shift(SymbolTerms(b >> 1), 1), if b & 1 != 0 then {0} else {})
  {
    hide WordTerms, Shift;
    var w, h := b as bv16, (b >> 1) as bv16;
    ByteWide(b >> 1);
    HalfWide(b);
    UpTerms(h);
    Nothing(WordTerms(h << 1));
    XorTerms(h << 1, if b & 1 != 0 then 1 else 0);
    LowWords();
  }

  lemma HalfWide(b: bv8)
    ensures (((b >> 1) as bv16) << 1) ^ (if b & 1 != 0 then 1 else 0) == b as bv16
  {
  }

  lemma LowWords()
    ensures WordTerms(0) == {} && WordTerms(1) == {0}
  {
    Masks();
    forall e: nat | e < 16 ensures Bit(1, e) <==> e == 0 {
      assert e == 0 || e == 1 || e == 2 || e == 3 || e == 4 || e == 5 || e == 6 || e == 7
        || e == 8 || e == 9 || e == 10 || e == 11 || e == 12 || e == 13 || e == 14 || e == 15;
    }
    forall e: nat | e < 16 ensures !Bit(0, e) {
    }
  }

  /** `p` is the product of the two symbols' polynomials, and `r` what is left of it modulo the field's. */
  ghost predicate Reduces(f: Field, a: bv8, b: bv8, p: Polynomials.Poly, r: bv8) {
    IsProduct(p, SymbolTerms(a), SymbolTerms(b)) && Same(Modulus(f), p, SymbolTerms(r)) && Symbol(f, r)
  }

  lemma DividesProduct(g: Polynomials.Poly, c: Polynomials.Poly) returns (p: Polynomials.Poly)
    ensures IsProduct(p, g, c) && Divides(g, p)
  {
    p := HasProduct(g, c);
    ProductSwaps(p, g, c);
  }

  /** x times `a`, times `c`, from the product of what doubling `a` gives. */
  lemma DoubledProduct(f: Field, a: bv8, c: Polynomials.Poly, p: Polynomials.Poly)
    returns (q: Polynomials.Poly)
    requires Symbol(f, a) && IsProduct(p, SymbolTerms(Double(f)(a)), c)
    ensures IsProduct(q, SymbolTerms(a), Shift(c, 1)) && Same(Modulus(f), q, p)
  {
    hide WordTerms, Modulus, Shift, IsProduct, Divides, SymbolTerms, Double;
    var high := DoubledTerms(f, a);
    var d := SymbolTerms(Double(f)(a));
    if high {
      var m := DividesProduct(Modulus(f), c);
      SumProduct(p, m, d, Modulus(f), c);
      q := Plus(p, m);
      PlusTwice(m, p);
      assert Plus(q, p) == m;
    } else {
      q := p;
      Nothing(d);
      SameItself(Modulus(f), p);
    }
    ShiftAcross(q, SymbolTerms(a), c);
  }

  /** And with the lowest bit of the other symbol. */
  lemma PickedProduct(f: Field, a: bv8, b: bv8, q: Polynomials.Poly, t: bv8) returns (p: Polynomials.Poly)
    requires IsProduct(q, SymbolTerms(a), Shift(SymbolTerms(b >> 1), 1)) && Same(Modulus(f), q, SymbolTerms(t))
    ensures IsProduct(p, SymbolTerms(a), SymbolTerms(b)) && Same(Modulus(f), p, SymbolTerms(Xor(Pick(b, a), t)))
  {
    hide WordTerms, Modulus, Shift, IsProduct, Divides, SymbolTerms;
    HalvedTerms(b);
    var h := Shift(SymbolTerms(b >> 1), 1);
    if b & 1 != 0 {
      ProductSwaps(q, SymbolTerms(a), h);
      OneProduct(SymbolTerms(a));
      SumProduct(q, SymbolTerms(a), h, {0}, SymbolTerms(a));
      p := Plus(q, SymbolTerms(a));
      ProductSwaps(p, SymbolTerms(b), SymbolTerms(a));
      SameItself(Modulus(f), SymbolTerms(a));
      SameSum(Modulus(f), q, SymbolTerms(t), SymbolTerms(a), SymbolTerms(a));
      XorSymbols(t, a);
      XorComm(t, a);
    } else {
      p := q;
      Nothing(h);
      ZeroXor(t);
    }
  }

  lemma XorSymbols(a: bv8, b: bv8)
    ensures SymbolTerms(Xor(a, b)) == Plus(SymbolTerms(a), SymbolTerms(b))
  {
    hide WordTerms, Plus;
    WideXor(a, b);
    XorTerms(a as bv16, b as bv16);
  }

  lemma NoProduct(a: Polynomials.Poly)
    ensures IsProduct({}, a, {})
  {
    OneProduct(a);
    ProductSwaps({}, {}, a);
  }

  /** The product of two symbols is the product of their polynomials, modulo the field's. */
  lemma {:induction false} TimesReduces(f: Field, a: bv8, b: bv8) returns (p: Polynomials.Poly)
    requires Symbol(f, a)
    ensures Reduces(f, a, b, p, Times(Double(f), a, b))
    decreases b
  {
    hide WordTerms, Modulus, Shift, IsProduct, Divides, Double;
    if b == 0 {
      p := {};
      LowWords();
      NoProduct(SymbolTerms(a));
      SameItself(Modulus(f), {});
    } else {
      DoubleSymbol(f, a);
      WideBits(b);
      var d, t := Double(f), Times(Double(f), Double(f)(a), b >> 1);
      var q := TimesReduces(f, d(a), b >> 1);
      p := DoubledProduct(f, a, SymbolTerms(b >> 1), q);
      SameOn(Modulus(f), p, q, SymbolTerms(t));
      p := PickedProduct(f, a, b, p, t);
      PickSymbol(f, a, b, t);
    }
  }

  lemma PickSymbol(f: Field, a: bv8, b: bv8, t: bv8)
    requires Symbol(f, a) && Symbol(f, t)
    ensures Symbol(f, Xor(Pick(b, a), t))
  {
  }

  lemma LowSymbol(f: Field, a: bv8)
    requires Symbol(f, a)
    ensures Below(SymbolTerms(a), Degree(f))
  {
    LowTerms(a);
    if f.GF6? {
      Masks();
      var w := a as bv16;
      SixBits(a);
      assert !Bit(w, 6) && !Bit(w, 7);
      forall e | e in SymbolTerms(a) ensures e < 6 {
        assert e != 6 && e != 7;
      }
    }
  }

  lemma SixBits(a: bv8)
    requires a & 0xC0 == 0
    ensures a as bv16 & 0x40 == 0 && a as bv16 & 0x80 == 0
  {
  }

  lemma SymbolOnce(f: Field, a: bv8, b: bv8)
    requires Symbol(f, a) && Symbol(f, b) && Same(Modulus(f), SymbolTerms(a), SymbolTerms(b))
    ensures a == b
  {
    hide WordTerms, Divides;
    LowSymbol(f, a);
    LowSymbol(f, b);
    SameOnce(Modulus(f), Degree(f), SymbolTerms(a), SymbolTerms(b));
    WordTermsOnce(a as bv16, b as bv16);
    WideOnce(a, b);
  }

  lemma WideOnce(a: bv8, b: bv8)
    requires a as bv16 == b as bv16
    ensures a == b
  {
  }

  lemma ProductOnce(p: Polynomials.Poly, q: Polynomials.Poly, a: Polynomials.Poly, b: Polynomials.Poly)
    requires IsProduct(p, a, b) && IsProduct(q, a, b)
    ensures p == q
  {
    forall k: nat ensures k in p <==> k in q {
    }
  }

  /** A symbol is the product of two exactly when it is what their polynomials' product leaves modulo the field's. */
  lemma TimesIff(f: Field, a: bv8, b: bv8, r: bv8)
    requires Symbol(f, a)
    ensures r == Times(Double(f), a, b)
       <==> exists p: Polynomials.Poly {:trigger Reduces(f, a, b, p, r)} :: Reduces(f, a, b, p, r)
  {
    hide WordTerms, Modulus, IsProduct, Divides, Double, SymbolTerms;
    var q := TimesReduces(f, a, b);
    var t := Times(Double(f), a, b);
    if p: Polynomials.Poly {:trigger Reduces(f, a, b, p, r)} :| Reduces(f, a, b, p, r) {
      ProductOnce(p, q, SymbolTerms(a), SymbolTerms(b));
      SameBoth(Modulus(f), p, SymbolTerms(r));
      SameOn(Modulus(f), SymbolTerms(r), p, SymbolTerms(t));
      SymbolOnce(f, r, t);
    }
  }
}
