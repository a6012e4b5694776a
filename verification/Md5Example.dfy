/** An example of RFC 1321, appendix A.5: the digest of "abc". */
module Md5Example {
  import opened Bytes
  import opened Streaming
  import opened Md5

  /** The words the operations of section 3.4 take, round by round. */
  const TAKEN: seq<seq<nat>> := [
    [0, 1, 2, 3, 4, 5, 6, 7, 8, 9, 10, 11, 12, 13, 14, 15], [1, 6, 11, 0, 5, 10, 15, 4, 9, 14, 3, 8, 13, 2, 7, 12],
    [5, 8, 11, 14, 1, 4, 7, 10, 13, 0, 3, 6, 9, 12, 15, 2], [0, 7, 14, 5, 12, 3, 10, 1, 8, 15, 6, 13, 4, 11, 2, 9]]

  lemma SecondRound(j: nat)
    requires j < 16
    ensures WordFor(16 + j) == TAKEN[1][j]
  {
  }

  lemma ThirdRound(j: nat)
    requires j < 16
    ensures WordFor(32 + j) == TAKEN[2][j]
  {
  }

  lemma FourthRound(j: nat)
    requires j < 16
    ensures WordFor(48 + j) == TAKEN[3][j]
  {
  }

  lemma WordsTaken(i: nat)
    requires i < 64
    ensures WordFor(i) == TAKEN[i / 16][i % 16]
  {
    if i >= 16 {
      hide WordFor;
      if i < 32 {
        SecondRound(i - 16);
      } else if i < 48 {
        ThirdRound(i - 32);
      } else {
        FourthRound(i - 48);
      }
    }
  }

  /** The second register after each operation, and before it the four registers at the start. */
  const TRACE: seq<seq<bv32>> := [
    [0x67452301, 0x10325476, 0x98badcfe, 0xefcdab89], [0xd6d117b4, 0x344a8432, 0x2f6fbd72, 0x7ad956f2],
    [0xc73741ef, 0x8bac3051, 0x207dc67b, 0x928d99f6], [0x854b3712, 0x74e2f284, 0x3020401c, 0x5ed49596],
    [0xdda9b9a6, 0xa1051895, 0xe396856b, 0x72aff2e0], [0x3e9e9126, 0x4a1d804e, 0xe25e1652, 0xb5b204e4],
    [0x59a8ffda, 0x6d002f1e, 0xabfc7920, 0x47092c07], [0xb7f268cf, 0x09388eff, 0xfe1623b1, 0x786acb8f],
    [0x790a77fb, 0x9f47e4f8, 0xa62884aa, 0x726342d3], [0xb3707ebf, 0x60127b2e, 0x8d212ff5, 0x3b0875c7],
    [0x21b117b9, 0x6e7429d5, 0x3575227e, 0x5a2f5ea5], [0x11de1779, 0xfadcaa38, 0x31c465ca, 0x4c6124f4],
    [0x7f2e507b, 0x99d9679d, 0x8fae6399, 0x7beb9700], [0x7b201df8, 0xf4e8e96e, 0xb298cefd, 0x8bf025c4],
    [0x06cc5e8a, 0x5b0d97aa, 0x7d632dd0, 0x3bfa2c27], [0x7f81cc35, 0x094454ab, 0x4f9dbe3f, 0x7327d604],
    [0x310ade8f, 0x624d8cb2, 0xe484b9d8, 0xc08226b3]]

  function Traced(i: nat): bv32
    requires i < 68
  {
    TRACE[i / 4][i % 4]
  }

  /** "abc" padded: its words are two, and zeros between. */
  function AbcBlock(): (b: seq<u8>)
    ensures |b| == BLOCK
  {
    [0x61, 0x62, 0x63, 0x80] + Zeros(52) + [24, 0, 0, 0, 0, 0, 0, 0]
  }

  lemma AbcWords(k: nat)
    requires k < 16
    ensures Word(AbcBlock(), k) == if k == 0 then 0x80636261 else if k == 14 then 24 else 0
  {
    var b := AbcBlock();
    assert Le32(b, 4 * k) == if k == 0 then 0x80636261 else if k == 14 then 24 else 0;
  }

  predicate TraceOk(i: nat)
    requires i < 64
  {
    Traced(i + 4) == Turned(AbcBlock(), i, Traced(i), Traced(i + 3), Traced(i + 2), Traced(i + 1))
  }

  lemma TurnedOn(i: nat, a: bv32, b: bv32, c: bv32, d: bv32, w: bv32)
    requires i < 64 && w == Word(AbcBlock(), WordFor(i))
    ensures Turned(AbcBlock(), i, a, b, c, d) == Operated(i, a, b, c, d, w)
  {
    hide Operated, Word, WordFor, AbcBlock;
  }

  lemma OperatedAs(i: nat, a: bv32, b: bv32, c: bv32, d: bv32, w: bv32, r: bv32)
    requires i < 64 && r == b + Rotl(a + Mix(i / 16, b, c, d) + SINES[i / 16][i % 16] + w, RotationFor(i))
    ensures r == Operated(i, a, b, c, d, w)
  {
    hide Mix, Rotl, SINES, RotationFor;
  }

  /** One operation on a word, told by its numbers. */
  lemma Operation(i: nat, a: bv32, d: bv32, c: bv32, b: bv32, w: bv32, r: bv32)
    requires i < 64 && w == if WordFor(i) == 0 then 0x80636261 else if WordFor(i) == 14 then 24 else 0
    requires r == b + Rotl(a + Mix(i / 16, b, c, d) + SINES[i / 16][i % 16] + w, RotationFor(i))
    ensures Turned(AbcBlock(), i, a, b, c, d) == r
  {
    hide AbcBlock, Word, WordFor, Mix, Rotl, SINES, RotationFor, Turned, Operated;
    AbcWords(WordFor(i));
    OperatedAs(i, a, b, c, d, w, r);
    TurnedOn(i, a, b, c, d, w);
  }

  lemma Trace0()
    ensures TraceOk(0) && TraceOk(1) && TraceOk(2) && TraceOk(3)
  {
    hide AbcBlock, Turned;
    Operation(0, 0x67452301, 0x10325476, 0x98badcfe, 0xefcdab89, 0x80636261, 0xd6d117b4);
    Operation(1, 0x10325476, 0x98badcfe, 0xefcdab89, 0xd6d117b4, 0x0, 0x344a8432);
    Operation(2, 0x98badcfe, 0xefcdab89, 0xd6d117b4, 0x344a8432, 0x0, 0x2f6fbd72);
    Operation(3, 0xefcdab89, 0xd6d117b4, 0x344a8432, 0x2f6fbd72, 0x0, 0x7ad956f2);
  }

  lemma Trace4()
    ensures TraceOk(4) && TraceOk(5) && TraceOk(6) && TraceOk(7)
  {
    hide AbcBlock, Turned;
    Operation(4, 0xd6d117b4, 0x344a8432, 0x2f6fbd72, 0x7ad956f2, 0x0, 0xc73741ef);
    Operation(5, 0x344a8432, 0x2f6fbd72, 0x7ad956f2, 0xc73741ef, 0x0, 0x8bac3051);
    Operation(6, 0x2f6fbd72, 0x7ad956f2, 0xc73741ef, 0x8bac3051, 0x0, 0x207dc67b);
    Operation(7, 0x7ad956f2, 0xc73741ef, 0x8bac3051, 0x207dc67b, 0x0, 0x928d99f6);
  }

  lemma Trace8()
    ensures TraceOk(8) && TraceOk(9) && TraceOk(10) && TraceOk(11)
  {
    hide AbcBlock, Turned;
    Operation(8, 0xc73741ef, 0x8bac3051, 0x207dc67b, 0x928d99f6, 0x0, 0x854b3712);
    Operation(9, 0x8bac3051, 0x207dc67b, 0x928d99f6, 0x854b3712, 0x0, 0x74e2f284);
    Operation(10, 0x207dc67b, 0x928d99f6, 0x854b3712, 0x74e2f284, 0x0, 0x3020401c);
    Operation(11, 0x928d99f6, 0x854b3712, 0x74e2f284, 0x3020401c, 0x0, 0x5ed49596);
  }

  lemma Trace12()
    ensures TraceOk(12) && TraceOk(13) && TraceOk(14) && TraceOk(15)
  {
    hide AbcBlock, Turned;
    Operation(12, 0x854b3712, 0x74e2f284, 0x3020401c, 0x5ed49596, 0x0, 0xdda9b9a6);
    Operation(13, 0x74e2f284, 0x3020401c, 0x5ed49596, 0xdda9b9a6, 0x0, 0xa1051895);
    Operation(14, 0x3020401c, 0x5ed49596, 0xdda9b9a6, 0xa1051895, 0x18, 0xe396856b);
    Operation(15, 0x5ed49596, 0xdda9b9a6, 0xa1051895, 0xe396856b, 0x0, 0x72aff2e0);
  }

  lemma Trace16()
    ensures TraceOk(16) && TraceOk(17) && TraceOk(18) && TraceOk(19)
  {
    hide AbcBlock, Turned;
    Operation(16, 0xdda9b9a6, 0xa1051895, 0xe396856b, 0x72aff2e0, 0x0, 0x3e9e9126);
    Operation(17, 0xa1051895, 0xe396856b, 0x72aff2e0, 0x3e9e9126, 0x0, 0x4a1d804e);
    Operation(18, 0xe396856b, 0x72aff2e0, 0x3e9e9126, 0x4a1d804e, 0x0, 0xe25e1652);
    Operation(19, 0x72aff2e0, 0x3e9e9126, 0x4a1d804e, 0xe25e1652, 0x80636261, 0xb5b204e4);
  }

  lemma Trace20()
    ensures TraceOk(20) && TraceOk(21) && TraceOk(22) && TraceOk(23)
  {
    hide AbcBlock, Turned;
    Operation(20, 0x3e9e9126, 0x4a1d804e, 0xe25e1652, 0xb5b204e4, 0x0, 0x59a8ffda);
    Operation(21, 0x4a1d804e, 0xe25e1652, 0xb5b204e4, 0x59a8ffda, 0x0, 0x6d002f1e);
    Operation(22, 0xe25e1652, 0xb5b204e4, 0x59a8ffda, 0x6d002f1e, 0x0, 0xabfc7920);
    Operation(23, 0xb5b204e4, 0x59a8ffda, 0x6d002f1e, 0xabfc7920, 0x0, 0x47092c07);
  }

  lemma Trace24()
    ensures TraceOk(24) && TraceOk(25) && TraceOk(26) && TraceOk(27)
  {
    hide AbcBlock, Turned;
    Operation(24, 0x59a8ffda, 0x6d002f1e, 0xabfc7920, 0x47092c07, 0x0, 0xb7f268cf);
    Operation(25, 0x6d002f1e, 0xabfc7920, 0x47092c07, 0xb7f268cf, 0x18, 0x09388eff);
    Operation(26, 0xabfc7920, 0x47092c07, 0xb7f268cf, 0x09388eff, 0x0, 0xfe1623b1);
    Operation(27, 0x47092c07, 0xb7f268cf, 0x09388eff, 0xfe1623b1, 0x0, 0x786acb8f);
  }

  lemma Trace28()
    ensures TraceOk(28) && TraceOk(29) && TraceOk(30) && TraceOk(31)
  {
    hide AbcBlock, Turned;
    Operation(28, 0xb7f268cf, 0x09388eff, 0xfe1623b1, 0x786acb8f, 0x0, 0x790a77fb);
    Operation(29, 0x09388eff, 0xfe1623b1, 0x786acb8f, 0x790a77fb, 0x0, 0x9f47e4f8);
    Operation(30, 0xfe1623b1, 0x786acb8f, 0x790a77fb, 0x9f47e4f8, 0x0, 0xa62884aa);
    Operation(31, 0x786acb8f, 0x790a77fb, 0x9f47e4f8, 0xa62884aa, 0x0, 0x726342d3);
  }

  lemma Trace32()
    ensures TraceOk(32) && TraceOk(33) && TraceOk(34) && TraceOk(35)
  {
    hide AbcBlock, Turned;
    Operation(32, 0x790a77fb, 0x9f47e4f8, 0xa62884aa, 0x726342d3, 0x0, 0xb3707ebf);
    Operation(33, 0x9f47e4f8, 0xa62884aa, 0x726342d3, 0xb3707ebf, 0x0, 0x60127b2e);
    Operation(34, 0xa62884aa, 0x726342d3, 0xb3707ebf, 0x60127b2e, 0x0, 0x8d212ff5);
    Operation(35, 0x726342d3, 0xb3707ebf, 0x60127b2e, 0x8d212ff5, 0x18, 0x3b0875c7);
  }

  lemma Trace36()
    ensures TraceOk(36) && TraceOk(37) && TraceOk(38) && TraceOk(39)
  {
    hide AbcBlock, Turned;
    Operation(36, 0xb3707ebf, 0x60127b2e, 0x8d212ff5, 0x3b0875c7, 0x0, 0x21b117b9);
    Operation(37, 0x60127b2e, 0x8d212ff5, 0x3b0875c7, 0x21b117b9, 0x0, 0x6e7429d5);
    Operation(38, 0x8d212ff5, 0x3b0875c7, 0x21b117b9, 0x6e7429d5, 0x0, 0x3575227e);
    Operation(39, 0x3b0875c7, 0x21b117b9, 0x6e7429d5, 0x3575227e, 0x0, 0x5a2f5ea5);
  }

  lemma Trace40()
    ensures TraceOk(40) && TraceOk(41) && TraceOk(42) && TraceOk(43)
  {
    hide AbcBlock, Turned;
    Operation(40, 0x21b117b9, 0x6e7429d5, 0x3575227e, 0x5a2f5ea5, 0x0, 0x11de1779);
    Operation(41, 0x6e7429d5, 0x3575227e, 0x5a2f5ea5, 0x11de1779, 0x80636261, 0xfadcaa38);
    Operation(42, 0x3575227e, 0x5a2f5ea5, 0x11de1779, 0xfadcaa38, 0x0, 0x31c465ca);
    Operation(43, 0x5a2f5ea5, 0x11de1779, 0xfadcaa38, 0x31c465ca, 0x0, 0x4c6124f4);
  }

  lemma Trace44()
    ensures TraceOk(44) && TraceOk(45) && TraceOk(46) && TraceOk(47)
  {
    hide AbcBlock, Turned;
    Operation(44, 0x11de1779, 0xfadcaa38, 0x31c465ca, 0x4c6124f4, 0x0, 0x7f2e507b);
    Operation(45, 0xfadcaa38, 0x31c465ca, 0x4c6124f4, 0x7f2e507b, 0x0, 0x99d9679d);
    Operation(46, 0x31c465ca, 0x4c6124f4, 0x7f2e507b, 0x99d9679d, 0x0, 0x8fae6399);
    Operation(47, 0x4c6124f4, 0x7f2e507b, 0x99d9679d, 0x8fae6399, 0x0, 0x7beb9700);
  }

  lemma Trace48()
    ensures TraceOk(48) && TraceOk(49) && TraceOk(50) && TraceOk(51)
  {
    hide AbcBlock, Turned;
    Operation(48, 0x7f2e507b, 0x99d9679d, 0x8fae6399, 0x7beb9700, 0x80636261, 0x7b201df8);
    Operation(49, 0x99d9679d, 0x8fae6399, 0x7beb9700, 0x7b201df8, 0x0, 0xf4e8e96e);
    Operation(50, 0x8fae6399, 0x7beb9700, 0x7b201df8, 0xf4e8e96e, 0x18, 0xb298cefd);
    Operation(51, 0x7beb9700, 0x7b201df8, 0xf4e8e96e, 0xb298cefd, 0x0, 0x8bf025c4);
  }

  lemma Trace52()
    ensures TraceOk(52) && TraceOk(53) && TraceOk(54) && TraceOk(55)
  {
    hide AbcBlock, Turned;
    Operation(52, 0x7b201df8, 0xf4e8e96e, 0xb298cefd, 0x8bf025c4, 0x0, 0x06cc5e8a);
    Operation(53, 0xf4e8e96e, 0xb298cefd, 0x8bf025c4, 0x06cc5e8a, 0x0, 0x5b0d97aa);
    Operation(54, 0xb298cefd, 0x8bf025c4, 0x06cc5e8a, 0x5b0d97aa, 0x0, 0x7d632dd0);
    Operation(55, 0x8bf025c4, 0x06cc5e8a, 0x5b0d97aa, 0x7d632dd0, 0x0, 0x3bfa2c27);
  }

  lemma Trace56()
    ensures TraceOk(56) && TraceOk(57) && TraceOk(58) && TraceOk(59)
  {
    hide AbcBlock, Turned;
    Operation(56, 0x06cc5e8a, 0x5b0d97aa, 0x7d632dd0, 0x3bfa2c27, 0x0, 0x7f81cc35);
    Operation(57, 0x5b0d97aa, 0x7d632dd0, 0x3bfa2c27, 0x7f81cc35, 0x0, 0x094454ab);
    Operation(58, 0x7d632dd0, 0x3bfa2c27, 0x7f81cc35, 0x094454ab, 0x0, 0x4f9dbe3f);
    Operation(59, 0x3bfa2c27, 0x7f81cc35, 0x094454ab, 0x4f9dbe3f, 0x0, 0x7327d604);
  }

  lemma Trace60()
    ensures TraceOk(60) && TraceOk(61) && TraceOk(62) && TraceOk(63)
  {
    hide AbcBlock, Turned;
    Operation(60, 0x7f81cc35, 0x094454ab, 0x4f9dbe3f, 0x7327d604, 0x0, 0x310ade8f);
    Operation(61, 0x094454ab, 0x4f9dbe3f, 0x7327d604, 0x310ade8f, 0x0, 0x624d8cb2);
    Operation(62, 0x4f9dbe3f, 0x7327d604, 0x310ade8f, 0x624d8cb2, 0x0, 0xe484b9d8);
    Operation(63, 0x7327d604, 0x310ade8f, 0x624d8cb2, 0xe484b9d8, 0x0, 0xc08226b3);
  }

  lemma AllTraced(i: nat)
    requires i < 64
    ensures TraceOk(i)
  {
    hide TraceOk;
    Trace0();
    Trace4();
    Trace8();
    Trace12();
    Trace16();
    Trace20();
    Trace24();
    Trace28();
    Trace32();
    Trace36();
    Trace40();
    Trace44();
    Trace48();
    Trace52();
    Trace56();
    Trace60();
    var g := i / 4;
    assert g == 0 || g == 1 || g == 2 || g == 3 || g == 4 || g == 5 || g == 6 || g == 7
      || g == 8 || g == 9 || g == 10 || g == 11 || g == 12 || g == 13 || g == 14 || g == 15;
    assert i == 4 * g || i == 4 * g + 1 || i == 4 * g + 2 || i == 4 * g + 3;
  }

  /** The registers after `n` operations. */
  lemma {:induction false} MovedTraced(n: nat)
    requires n <= 64
    ensures Moved(AbcBlock(), INITIAL, n) == State(Traced(n), Traced(n + 3), Traced(n + 2), Traced(n + 1))
  {
    hide AbcBlock, Turned, TRACE;
    if n == 0 {
      Starts();
    } else {
      MovedTraced(n - 1);
      AllTraced(n - 1);
    }
  }

  lemma Starts()
    ensures INITIAL == State(Traced(0), Traced(3), Traced(2), Traced(1))
  {
  }

  lemma AbcPadded()
    ensures Padded([0x61, 0x62, 0x63], Md5.Le64Bytes(Bits(3))) == AbcBlock()
  {
    assert Bits(3) == 24;
    assert Md5.Le64Bytes(24) == [24, 0, 0, 0, 0, 0, 0, 0];
  }

  lemma AbcState()
    ensures Fold(OnBlock, INITIAL, AbcBlock()) == State(0x98500190, 0xb04fd23c, 0x7d3f96d6, 0x727fe128)
  {
    hide AbcBlock, Moved, InPlace;
    MovedTraced(64);
    MovedIsBlock(INITIAL, AbcBlock());
    assert AbcBlock()[..BLOCK] == AbcBlock() && AbcBlock()[BLOCK..] == [];
  }

  lemma FourBytes(v: nat)
    requires v < 0x1_0000_0000
    ensures var b := Le32Bytes(v);
      v == b[0] as int + 0x100 * b[1] as int + 0x1_0000 * b[2] as int + 0x100_0000 * b[3] as int
  {
  }

  /** The length a digest ends with is the message's bits, modulo 2^64, the low byte first. */
  lemma LengthIs(n: nat)
    ensures var s := Md5.Le64Bytes(Bits(n));
      var low := s[0] as int + 0x100 * s[1] as int + 0x1_0000 * s[2] as int + 0x100_0000 * s[3] as int;
      var high := s[4] as int + 0x100 * s[5] as int + 0x1_0000 * s[6] as int + 0x100_0000 * s[7] as int;
      8 * n % 0x1_0000_0000_0000_0000 == low + 0x1_0000_0000 * high
  {
    hide Le32Bytes, Be32Bytes;
    var v := Bits(n);
    Halves(v);
    FourBytes(v % 0x1_0000_0000);
    FourBytes(v / 0x1_0000_0000);
    var first, second := Le32Bytes(v % 0x1_0000_0000), Le32Bytes(v / 0x1_0000_0000 % 0x1_0000_0000);
    assert Md5.Le64Bytes(v) == first + second;
  }

  lemma Halves(v: nat)
    requires v < 0x1_0000_0000_0000_0000
    ensures v / 0x1_0000_0000 < 0x1_0000_0000 && v / 0x1_0000_0000 % 0x1_0000_0000 == v / 0x1_0000_0000
    ensures v == v % 0x1_0000_0000 + 0x1_0000_0000 * (v / 0x1_0000_0000)
  {
  }

  /** The digest of "abc" is the one the standard gives. */
  lemma AbcDigest()
    ensures Digest([0x61, 0x62, 0x63])
         == [0x90, 0x01, 0x50, 0x98, 0x3c, 0xd2, 0x4f, 0xb0, 0xd6, 0x96, 0x3f, 0x7d, 0x28, 0xe1, 0x7f, 0x72]
  {
    hide AbcBlock, Fold;
    AbcPadded();
    AbcState();
  }
}
