/** CRC-16, polynomial 0x1021 from 0, most significant bit first. The VMS file
    header and the Sega CD block both use it. */
module Crc16 {
  import opened BitTerms
  import opened Polynomials

  const POLY: bv16 := 0x1021

  function ShiftBit(n: bv16): bv16 {
    if n & 0x8000 != 0 then (n << 1) ^ POLY else n << 1
  }

  function ShiftBits(n: bv16, k: nat): bv16 {
    if k == 0 then n else ShiftBit(ShiftBits(n, k - 1))
  }

  function Crc(data: seq<bv8>): bv16 {
    if data == [] then 0
    else ShiftBits(Crc(data[..|data| - 1]) ^ (data[|data| - 1] as bv16 << 8), 8)
  }

  method Compute(data: seq<bv8>) returns (crc: bv16)
    ensures crc == Crc(data)
  {
    crc := 0;
    for i := 0 to |data|
      invariant crc == Crc(data[..i])
    {
      assert data[..i + 1][..i] == data[..i];
      crc := crc ^ (data[i] as bv16 << 8);
      ghost var start := crc;
      for b := 0 to 8
        invariant crc == ShiftBits(start, b)
      {
        crc := if crc & 0x8000 != 0 then (crc << 1) ^ POLY else crc << 1;
      }
    }
    assert data[..|data|] == data;
  }

  /* ---- What the checksum is -------------------------------------------------------------------------- */

  /** x^16 + x^12 + x^5 + 1. */
  const GENERATOR: Poly := {16, 12, 5, 0}

  lemma PolyTerms()
    ensures Plus(WordTerms(POLY), {16}) == GENERATOR
  {
    Masks();
    forall e: nat | e < 16 ensures Bit(POLY, e) <==> e in {12, 5, 0} {
      PolyBits();
      assert e == 0 || e == 1 || e == 2 || e == 3 || e == 4 || e == 5 || e == 6 || e == 7
        || e == 8 || e == 9 || e == 10 || e == 11 || e == 12 || e == 13 || e == 14 || e == 15;
    }
  }

  lemma PolyBits()
    ensures POLY & 0x1 != 0 && POLY & 0x2 == 0 && POLY & 0x4 == 0 && POLY & 0x8 == 0
    ensures POLY & 0x10 == 0 && POLY & 0x20 != 0 && POLY & 0x40 == 0 && POLY & 0x80 == 0
    ensures POLY & 0x100 == 0 && POLY & 0x200 == 0 && POLY & 0x400 == 0 && POLY & 0x800 == 0
    ensures POLY & 0x1000 != 0 && POLY & 0x2000 == 0 && POLY & 0x4000 == 0 && POLY & 0x8000 == 0
  {
  }

  lemma Folded(up: bv16, t: Poly, top: bool)
    requires Plus(WordTerms(up), if top then {16} else {}) == t
    ensures Same(GENERATOR, t, WordTerms(if top then up ^ POLY else up))
  {
    hide WordTerms, Divides;
    DividesOnce(GENERATOR);
    if top {
      XorTerms(up, POLY);
      PolyTerms();
      Cancels(WordTerms(up), WordTerms(POLY), {16});
      assert Plus(t, WordTerms(up ^ POLY)) == GENERATOR;
    } else {
      Cancels(WordTerms(up), {}, {});
      assert Plus({}, {}) == {};
    }
  }

  /** One turn of the loop multiplies by x, modulo the generator. */
  lemma ShiftBitSame(n: bv16)
    ensures Same(GENERATOR, Shift(WordTerms(n), 1), WordTerms(ShiftBit(n)))
  {
    hide WordTerms, Shift, Same, Plus, POLY;
    UpTerms(n);
    Folded(n << 1, Shift(WordTerms(n), 1), n & 0x8000 != 0);
  }

  lemma {:induction false} ShiftBitsSame(n: bv16, k: nat)
    ensures Same(GENERATOR, Shift(WordTerms(n), k), WordTerms(ShiftBits(n, k)))
  {
    if k == 0 {
      SameItself(GENERATOR, WordTerms(n));
      assert Shift(WordTerms(n), 0) == WordTerms(n);
    } else {
      var m := ShiftBits(n, k - 1);
      ShiftBitsSame(n, k - 1);
      SameShift(GENERATOR, Shift(WordTerms(n), k - 1), WordTerms(m), 1);
      ShiftTwice(WordTerms(n), k - 1, 1);
      ShiftBitSame(m);
      SameOn(GENERATOR, Shift(WordTerms(n), k), Shift(WordTerms(m), 1), WordTerms(ShiftBits(n, k)));
    }
  }

  /** The register after a byte: the register before and the byte, eight places up. */
  lemma ByteSame(c: bv16, b: bv8)
    ensures Same(GENERATOR, Plus(Shift(WordTerms(c), 8), Shift(WordTerms(b as bv16), 16)),
                 WordTerms(ShiftBits(c ^ (b as bv16 << 8), 8)))
  {
    hide ShiftBits, Same, WordTerms, Shift, Plus;
    XorTerms(c, b as bv16 << 8);
    HighByte(b);
    ShiftSum(WordTerms(c), Shift(WordTerms(b as bv16), 8), 8);
    ShiftTwice(WordTerms(b as bv16), 8, 8);
    ShiftBitsSame(c ^ (b as bv16 << 8), 8);
  }

  lemma CrcNext(data: seq<bv8>, b: bv8)
    ensures Crc(data + [b]) == ShiftBits(Crc(data) ^ (b as bv16 << 8), 8)
  {
    assert (data + [b])[..|data|] == data;
  }

  lemma {:induction false} CrcRemains(data: seq<bv8>)
    ensures Same(GENERATOR, Shift(Terms(data), 16), WordTerms(Crc(data)))
  {
    if data == [] {
      Masks();
      SameItself(GENERATOR, {});
      assert Terms(data) == {} && WordTerms(0) == {} && Shift({}, 16) == {};
    } else {
      var d, b := data[..|data| - 1], data[|data| - 1];
      assert data == d + [b];
      CrcRemains(d);
      TermsNext(d, b);
      var m, c, t := Terms(d), WordTerms(Crc(d)), WordTerms(b as bv16);
      ShiftSum(Shift(m, 8), t, 16);
      ShiftTwice(m, 8, 16);
      ShiftTwice(m, 16, 8);
      SameShift(GENERATOR, Shift(m, 16), c, 8);
      SameItself(GENERATOR, Shift(t, 16));
      SameSum(GENERATOR, Shift(m, 24), Shift(c, 8), Shift(t, 16), Shift(t, 16));
      CrcNext(d, b);
      ByteSame(Crc(d), b);
      SameOn(GENERATOR, Shift(Terms(data), 16), Plus(Shift(c, 8), Shift(t, 16)), WordTerms(Crc(data)));
    }
  }

  /** A word is the checksum of a message exactly when the message, moved up sixteen places, and the
      word together are a multiple of the generator. */
  lemma CrcIff(data: seq<bv8>, w: bv16)
    ensures w == Crc(data) <==> Divides(GENERATOR, Plus(Shift(Terms(data), 16), WordTerms(w)))
  {
    CrcRemains(data);
    if Same(GENERATOR, Shift(Terms(data), 16), WordTerms(w)) {
      SameBoth(GENERATOR, Shift(Terms(data), 16), WordTerms(w));
      SameOn(GENERATOR, WordTerms(w), Shift(Terms(data), 16), WordTerms(Crc(data)));
      SameOnce(GENERATOR, 16, WordTerms(w), WordTerms(Crc(data)));
      WordTermsOnce(w, Crc(data));
    }
  }

  /** With its checksum after it, the high byte first, a message is a multiple of the generator, and
      with no other two bytes. */
  lemma CodeWordIff(data: seq<bv8>, hi: bv8, lo: bv8)
    ensures Pair(hi, lo) == Crc(data) <==> Divides(GENERATOR, Terms(data + [hi, lo]))
  {
    CrcIff(data, Pair(hi, lo));
    TermsPair(data, hi, lo);
  }

  lemma EightTurns(n: bv16)
    ensures ShiftBits(n, 8)
         == ShiftBit(ShiftBit(ShiftBit(ShiftBit(ShiftBit(ShiftBit(ShiftBit(ShiftBit(n))))))))
  {
    assert ShiftBits(n, 1) == ShiftBit(ShiftBits(n, 0)) && ShiftBits(n, 2) == ShiftBit(ShiftBits(n, 1));
    assert ShiftBits(n, 3) == ShiftBit(ShiftBits(n, 2)) && ShiftBits(n, 4) == ShiftBit(ShiftBits(n, 3));
    assert ShiftBits(n, 5) == ShiftBit(ShiftBits(n, 4)) && ShiftBits(n, 6) == ShiftBit(ShiftBits(n, 5));
    assert ShiftBits(n, 7) == ShiftBit(ShiftBits(n, 6)) && ShiftBits(n, 8) == ShiftBit(ShiftBits(n, 7));
  }

  lemma CrcAt(s: seq<bv8>, n: nat, before: bv16, after: bv16)
    requires n < |s| && Crc(s[..n]) == before
    requires var t := before ^ (s[n] as bv16 << 8);
             after == ShiftBit(ShiftBit(ShiftBit(ShiftBit(ShiftBit(ShiftBit(ShiftBit(ShiftBit(t))))))))
    ensures Crc(s[..n + 1]) == after
  {
    CrcNext(s[..n], s[n]);
    assert s[..n] + [s[n]] == s[..n + 1];
    EightTurns(before ^ (s[n] as bv16 << 8));
  }

  /** The check value the catalogues of checksums give for this one. */
  lemma CheckValue()
    ensures Crc([0x31, 0x32, 0x33, 0x34, 0x35, 0x36, 0x37, 0x38, 0x39]) == 0x31C3
  {
    hide Crc, ShiftBits;
    var s: seq<bv8> := [0x31, 0x32, 0x33, 0x34, 0x35, 0x36, 0x37, 0x38, 0x39];
    NoBytes();
    assert s[..0] == [];
    CrcAt(s, 0, 0x0, 0x2672);
    CrcAt(s, 1, 0x2672, 0x20B5);
    CrcAt(s, 2, 0x20B5, 0x9752);
    CrcAt(s, 3, 0x9752, 0xD789);
    CrcAt(s, 4, 0xD789, 0x546C);
    CrcAt(s, 5, 0x546C, 0x20E4);
    CrcAt(s, 6, 0x20E4, 0x86D6);
    CrcAt(s, 7, 0x86D6, 0x9015);
    CrcAt(s, 8, 0x9015, 0x31C3);
    assert s[..9] == s;
  }

  lemma NoBytes()
    ensures Crc([]) == 0
  {
  }
}
