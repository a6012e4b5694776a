/** Bytes and 16-bit words as polynomials: a bit is a coefficient. */
module BitTerms {
  import opened Polynomials

  function Mask(e: nat): bv16 {
    if e == 0 then 1 else Mask(e - 1) << 1
  }

  /** A word has the term x^e when it has bit `e`, counted from the lowest. */
  predicate Bit(w: bv16, e: nat) {
    w & Mask(e) != 0
  }

  function WordTerms(w: bv16): Poly {
    set e: nat | e < 16 && Bit(w, e)
  }

  /** A message is the polynomial of its bits, the first bit of the first byte the highest. */
  function Terms(data: seq<bv8>): Poly {
    set e: nat | e < 8 * |data| && HasTerm(data, e)
  }

  predicate HasTerm(data: seq<bv8>, e: nat)
    requires e < 8 * |data|
  {
    Bit(data[|data| - 1 - e / 8] as bv16, e % 8)
  }

  lemma Masks()
    ensures Mask(0) == 0x1 && Mask(1) == 0x2 && Mask(2) == 0x4 && Mask(3) == 0x8
    ensures Mask(4) == 0x10 && Mask(5) == 0x20 && Mask(6) == 0x40 && Mask(7) == 0x80
    ensures Mask(8) == 0x100 && Mask(9) == 0x200 && Mask(10) == 0x400 && Mask(11) == 0x800
    ensures Mask(12) == 0x1000 && Mask(13) == 0x2000 && Mask(14) == 0x4000 && Mask(15) == 0x8000
    ensures forall e: nat {:trigger Mask(e)} :: e >= 16 ==> Mask(e) == 0
  {
    assert Mask(3) == 8;
    assert Mask(6) == 0x40;
    assert Mask(9) == 0x200;
    assert Mask(12) == 0x1000;
    assert Mask(15) == 0x8000;
    forall e: nat | e >= 16 ensures Mask(e) == 0 {
      NoMask(e);
    }
  }

  lemma {:induction false} NoMask(e: nat)
    requires e >= 16
    ensures Mask(e) == 0
  {
    if e == 16 {
      assert Mask(12) == 0x1000;
      assert Mask(15) == 0x8000;
    } else {
      NoMask(e - 1);
    }
  }

  lemma OneBit(e: nat)
    ensures Mask(e) & (Mask(e) - 1) == 0
  {
    Masks();
  }

  lemma NotTop(e: nat)
    requires e < 15
    ensures Mask(e) & 0x8000 == 0
  {
    Masks();
  }

  lemma XorBit(a: bv16, b: bv16, m: bv16)
    requires m & (m - 1) == 0
    ensures (a ^ b) & m != 0 <==> (a & m != 0) != (b & m != 0)
  {
  }

  lemma UpBit(a: bv16, up: bv16, m: bv16, n: bv16)
    requires m & 0x8000 == 0 && up == a << 1 && n == m << 1
    ensures up & n != 0 <==> a & m != 0
  {
  }

  lemma XorBitAt(a: bv16, b: bv16, e: nat)
    ensures Bit(a ^ b, e) <==> Bit(a, e) != Bit(b, e)
  {
    hide Mask;
    OneBit(e);
    XorBit(a, b, Mask(e));
  }

  lemma XorTerms(a: bv16, b: bv16)
    ensures WordTerms(a ^ b) == Plus(WordTerms(a), WordTerms(b))
  {
    hide Bit;
    forall e: nat | e < 16 ensures Bit(a ^ b, e) <==> Bit(a, e) != Bit(b, e) {
      XorBitAt(a, b, e);
    }
  }

  lemma LowestClear(a: bv16)
    ensures (a << 1) & 1 == 0
  {
  }

  lemma MaskUp(e: nat)
    ensures Mask(e + 1) == Mask(e) << 1
  {
  }

  lemma BitMasked(w: bv16, e: nat, m: bv16)
    requires m == Mask(e)
    ensures Bit(w, e) <==> w & m != 0
  {
  }

  lemma UpBitAt(a: bv16, up: bv16, e: nat)
    requires e < 16 && up == a << 1
    ensures Bit(up, e) <==> e > 0 && Bit(a, e - 1)
  {
    hide Mask, Bit;
    if e == 0 {
      Masks();
      LowestClear(a);
      BitMasked(up, 0, 1);
    } else {
      NotTop(e - 1);
      MaskUp(e - 1);
      var m, n := Mask(e - 1), Mask(e);
      UpBit(a, up, m, n);
      BitMasked(up, e, n);
      BitMasked(a, e - 1, m);
    }
  }

  /** Doubling a word multiplies it by x, but for the term that falls off. */
  lemma UpTerms(a: bv16)
    ensures Plus(WordTerms(a << 1), if a & 0x8000 != 0 then {16} else {}) == Shift(WordTerms(a), 1)
  {
    hide Bit, Shift;
    var top: Poly := if a & 0x8000 != 0 then {16} else {};
    TopBit(a);
    forall e: nat ensures e in Plus(WordTerms(a << 1), top) <==> e in Shift(WordTerms(a), 1) {
      ShiftHas(WordTerms(a), 1, e);
      if e < 16 {
        UpBitAt(a, a << 1, e);
      }
    }
  }

  lemma TopBit(a: bv16)
    ensures Bit(a, 15) <==> a & 0x8000 != 0
  {
    Masks();
  }

  lemma LowTerms(b: bv8)
    ensures Below(WordTerms(b as bv16), 8)
  {
    Masks();
    ByteBits(b);
    var w := b as bv16;
    forall e: nat | 8 <= e < 16 ensures !Bit(w, e) {
      assert e == 8 || e == 9 || e == 10 || e == 11 || e == 12 || e == 13 || e == 14 || e == 15;
    }
  }

  lemma ByteBits(b: bv8)
    ensures var w := b as bv16;
      && w & 0x100 == 0 && w & 0x200 == 0 && w & 0x400 == 0 && w & 0x800 == 0
      && w & 0x1000 == 0 && w & 0x2000 == 0 && w & 0x4000 == 0 && w & 0x8000 == 0
  {
  }

  /** A byte more moves what came before up by eight. */
  lemma TermsNext(data: seq<bv8>, b: bv8)
    ensures Terms(data + [b]) == Plus(Shift(Terms(data), 8), WordTerms(b as bv16))
  {
    LowTerms(b);
    forall e: nat ensures e in Terms(data + [b]) <==> e in Plus(Shift(Terms(data), 8), WordTerms(b as bv16)) {
      ShiftHas(Terms(data), 8, e);
      if e >= 8 {
        assert e / 8 == (e - 8) / 8 + 1 && e % 8 == (e - 8) % 8;
      }
    }
  }

  lemma HighByte(b: bv8)
    ensures WordTerms(b as bv16 << 8) == Shift(WordTerms(b as bv16), 8)
  {
    hide Bit, Shift;
    LowTerms(b);
    var w, h := b as bv16, b as bv16 << 8;
    forall e: nat ensures e in WordTerms(h) <==> e in Shift(WordTerms(w), 8) {
      ShiftHas(WordTerms(w), 8, e);
      if e < 16 {
        HighByteAt(b, e);
      }
    }
  }

  lemma HighByteAt(b: bv8, e: nat)
    requires e < 16
    ensures Bit(b as bv16 << 8, e) <==> e >= 8 && Bit(b as bv16, e - 8)
  {
    Masks();
    HighByteBits(b);
    assert e == 0 || e == 1 || e == 2 || e == 3 || e == 4 || e == 5 || e == 6 || e == 7
      || e == 8 || e == 9 || e == 10 || e == 11 || e == 12 || e == 13 || e == 14 || e == 15;
  }

  lemma HighByteBits(b: bv8)
    ensures var w := b as bv16; var h := b as bv16 << 8;
      && h & 0x1 == 0 && h & 0x2 == 0 && h & 0x4 == 0 && h & 0x8 == 0
      && h & 0x10 == 0 && h & 0x20 == 0 && h & 0x40 == 0 && h & 0x80 == 0
      && (h & 0x100 == 0 <==> w & 0x1 == 0) && (h & 0x200 == 0 <==> w & 0x2 == 0)
      && (h & 0x400 == 0 <==> w & 0x4 == 0) && (h & 0x800 == 0 <==> w & 0x8 == 0)
      && (h & 0x1000 == 0 <==> w & 0x10 == 0) && (h & 0x2000 == 0 <==> w & 0x20 == 0)
      && (h & 0x4000 == 0 <==> w & 0x40 == 0) && (h & 0x8000 == 0 <==> w & 0x80 == 0)
  {
  }

  lemma NoBits(w: bv16)
    requires w & 0x1 == 0 && w & 0x2 == 0 && w & 0x4 == 0 && w & 0x8 == 0
    requires w & 0x10 == 0 && w & 0x20 == 0 && w & 0x40 == 0 && w & 0x80 == 0
    requires w & 0x100 == 0 && w & 0x200 == 0 && w & 0x400 == 0 && w & 0x800 == 0
    requires w & 0x1000 == 0 && w & 0x2000 == 0 && w & 0x4000 == 0 && w & 0x8000 == 0
    ensures w == 0
  {
  }

  lemma NoTermsNone(w: bv16)
    requires WordTerms(w) == {}
    ensures w == 0
  {
    Masks();
    forall e: nat | e < 16 ensures !Bit(w, e) {
      assert e !in WordTerms(w);
    }
    assert !Bit(w, 0) && !Bit(w, 1) && !Bit(w, 2) && !Bit(w, 3) && !Bit(w, 4) && !Bit(w, 5) && !Bit(w, 6) && !Bit(w, 7);
    assert !Bit(w, 8) && !Bit(w, 9) && !Bit(w, 10) && !Bit(w, 11) && !Bit(w, 12) && !Bit(w, 13) && !Bit(w, 14);
    assert !Bit(w, 15);
    NoBits(w);
  }

  lemma WordTermsOnce(a: bv16, b: bv16)
    requires WordTerms(a) == WordTerms(b)
    ensures a == b
  {
    XorTerms(a, b);
    assert Plus(WordTerms(a), WordTerms(b)) == {};
    NoTermsNone(a ^ b);
    XorNone(a, b);
  }

  lemma XorNone(a: bv16, b: bv16)
    requires a ^ b == 0
    ensures a == b
  {
  }

  function Pair(hi: bv8, lo: bv8): bv16 {
    ((hi as bv16) << 8) | (lo as bv16)
  }

  lemma PairXor(hi: bv8, lo: bv8)
    ensures Pair(hi, lo) == (hi as bv16 << 8) ^ (lo as bv16)
  {
  }

  lemma TermsPair(data: seq<bv8>, hi: bv8, lo: bv8)
    ensures Terms(data + [hi, lo]) == Plus(Shift(Terms(data), 16), WordTerms(Pair(hi, lo)))
  {
    hide Terms, WordTerms, Shift;
    assert data + [hi, lo] == (data + [hi]) + [lo];
    var m, h, l := Terms(data), WordTerms(hi as bv16), WordTerms(lo as bv16);
    TermsNext(data, hi);
    TermsNext(data + [hi], lo);
    ShiftSum(Shift(m, 8), h, 8);
    ShiftTwice(m, 8, 8);
    PairXor(hi, lo);
    HighByte(hi);
    XorTerms(hi as bv16 << 8, lo as bv16);
    assert Plus(Plus(Shift(m, 16), Shift(h, 8)), l) == Plus(Shift(m, 16), Plus(Shift(h, 8), l));
  }
}
