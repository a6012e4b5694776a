/** The digest of "abc", which FIPS 180-4 is exemplified with, and where the constants come from. */
module Sha1Example {
  import opened Bytes
  import opened Division
  import opened Streaming
  import opened Sha1

  /** The constants are the square roots of 2, 3, 5 and 10, cut to thirty bits after the point. */
  lemma ConstantsAreRoots(t: nat)
    requires t < 80
    ensures var k, n := Constant(t) as nat, if t < 20 then 2 else if t < 40 then 3 else if t < 60 then 5 else 10;
      k * k <= n * 0x1000_0000_0000_0000 < (k + 1) * (k + 1)
  {
  }

  /** The first register after each step, and before it the five registers at the start, the last three turned. */
  const TRACE: seq<seq<bv32>> := [
    [0x0f4b87c3, 0x40c951d8, 0x62eb73fa, 0xefcdab89, 0x67452301],
    [0x0116fc33, 0x8990536d, 0xa1390f08, 0xcdd8e11b, 0xcfd499de],
    [0x3fc7ca40, 0x993e30c1, 0x9e8c07d4, 0x4b6ae328, 0x8351f929],
    [0xfbda9e89, 0x63188fe4, 0x4607b664, 0x9128f695, 0x196bee77],
    [0x20bdd62f, 0x4e925823, 0x82aa6728, 0xdc64901d, 0xfd9e1d7d],
    [0x1a37b0ca, 0x33a23bfc, 0x21283486, 0xd541f12d, 0xc7567dc6],
    [0x48413ba4, 0xbe35fbd5, 0x4aa84d97, 0x8370b52e, 0xc5fbaf5d],
    [0x1267b407, 0x3b845d33, 0x046faa0a, 0x2c0ebc11, 0x21796ad4],
    [0xdcbbb0cb, 0x0f511fd8, 0xdc63973f, 0x4c986405, 0x32de1cba],
    [0xfc87dedf, 0x970a0d5c, 0x7f193dc5, 0xee1b1aaf, 0x40f28e09],
    [0x1c51e1f2, 0xa01b846c, 0xbead02ca, 0xbaf39337, 0x120731c5],
    [0x641db2ce, 0x3847ad66, 0xe490436d, 0x27e9f1d8, 0x7b71f76d],
    [0x5e6456af, 0xc846093f, 0xd262ff50, 0x09d785fd, 0x3f52de5a],
    [0xd756c147, 0x548c9cb2, 0xb66c020b, 0x6b61c9e1, 0x19dfa7ac],
    [0x101655f9, 0x0c3df2b4, 0x78dd4d2b, 0x497093c0, 0x3f2588c2],
    [0xc199f8c7, 0x39859de7, 0xedb42de4, 0x11793f6f, 0x5ee76897],
    [0x63f7dab7, 0xa079b7d9, 0x860d21cc, 0x5738d5e1, 0x42541b35]]

  function Traced(i: nat): bv32
    requires i < 85
  {
    TRACE[i / 5][i % 5]
  }

  const WORDS: seq<seq<bv32>> := [
    [0x61626380, 0x00000000, 0x00000000, 0x00000000, 0x00000000, 0x00000000, 0x00000000, 0x00000000],
    [0x00000000, 0x00000000, 0x00000000, 0x00000000, 0x00000000, 0x00000000, 0x00000000, 0x00000018],
    [0xc2c4c700, 0x00000000, 0x00000030, 0x85898e01, 0x00000000, 0x00000060, 0x0b131c03, 0x00000030],
    [0x85898ec1, 0x16263806, 0x00000000, 0x00000180, 0x2c4c700c, 0x000000f0, 0x93afb507, 0x5898e048],
    [0x8e9a9202, 0x00000600, 0xb131c0f0, 0x16263bc6, 0x4ebed41e, 0x626380a1, 0x16263806, 0x000018c0],
    [0xd2e138c4, 0x00000f00, 0x3afb5079, 0x898e04e5, 0xe2ba3c2b, 0x000060c0, 0x053a37cd, 0x74458547],
    [0xda9415ed, 0x26380a16, 0x626383a1, 0x4ebf54de, 0x3835b44b, 0x0000f600, 0x1e84c7a3, 0x98e04d98],
    [0x651d16a0, 0x62658ca1, 0x458544d6, 0x44584cb7, 0x7ba06619, 0x6380aea2, 0x0ae55269, 0x627b49a1],
    [0x7cd45c9d, 0x000f0000, 0xfb50753a, 0xec6765e8, 0xba3c2be2, 0x0060c000, 0x3a37cd05, 0x458546f4],
    [0xb8599dd6, 0x380a1a26, 0x01e02203, 0xe7cc3456, 0xe6e60b69, 0x00f60a00, 0x5795ef4f, 0x822e0879]]

  function Scheduled(t: nat): bv32
    requires t < 80
  {
    WORDS[t / 8][t % 8]
  }

  /** "abc" padded. */
  function AbcBlock(): (b: seq<u8>)
    ensures |b| == BLOCK
  {
    [0x61, 0x62, 0x63, 0x80] + Zeros(52) + [0, 0, 0, 0, 0, 0, 0, 24]
  }

  lemma AbcBytes(t: nat)
    requires t < 16
    ensures Be32(AbcBlock(), 4 * t) == if t == 0 then 0x61626380 else if t == 15 then 24 else 0
  {
  }

  lemma AbcWords(t: nat)
    requires t < 16
    ensures Schedule(AbcBlock(), t) == if t == 0 then 0x61626380 else if t == 15 then 24 else 0
  {
    hide AbcBlock, Be32, Woven;
    AbcBytes(t);
  }

  /* ---- The schedule ---------------------------------------------------------------------------- */

  predicate WordOk(t: nat)
    requires 16 <= t < 80
  {
    Scheduled(t) == Woven(Scheduled(t - 3), Scheduled(t - 8), Scheduled(t - 14), Scheduled(t - 16))
  }

  /** One word, told by its numbers. */
  lemma WordBy(t: nat, a: bv32, b: bv32, c: bv32, d: bv32, r: bv32)
    requires 16 <= t < 80 && a == Scheduled(t - 3) && b == Scheduled(t - 8) && c == Scheduled(t - 14)
    requires d == Scheduled(t - 16) && r == Scheduled(t) && r == Woven(a, b, c, d)
    ensures WordOk(t)
  {
    hide Scheduled, Woven;
  }

  lemma Words16()
    ensures WordOk(16) && WordOk(17) && WordOk(18) && WordOk(19)
  {
    hide WordOk;
    WordBy(16, 0x00000000, 0x00000000, 0x00000000, 0x61626380, 0xc2c4c700);
    WordBy(17, 0x00000000, 0x00000000, 0x00000000, 0x00000000, 0x00000000);
    WordBy(18, 0x00000018, 0x00000000, 0x00000000, 0x00000000, 0x00000030);
    WordBy(19, 0xc2c4c700, 0x00000000, 0x00000000, 0x00000000, 0x85898e01);
  }

  lemma Words20()
    ensures WordOk(20) && WordOk(21) && WordOk(22) && WordOk(23)
  {
    hide WordOk;
    WordBy(20, 0x00000000, 0x00000000, 0x00000000, 0x00000000, 0x00000000);
    WordBy(21, 0x00000030, 0x00000000, 0x00000000, 0x00000000, 0x00000060);
    WordBy(22, 0x85898e01, 0x00000000, 0x00000000, 0x00000000, 0x0b131c03);
    WordBy(23, 0x00000000, 0x00000018, 0x00000000, 0x00000000, 0x00000030);
  }

  lemma Words24()
    ensures WordOk(24) && WordOk(25) && WordOk(26) && WordOk(27)
  {
    hide WordOk;
    WordBy(24, 0x00000060, 0xc2c4c700, 0x00000000, 0x00000000, 0x85898ec1);
    WordBy(25, 0x0b131c03, 0x00000000, 0x00000000, 0x00000000, 0x16263806);
    WordBy(26, 0x00000030, 0x00000030, 0x00000000, 0x00000000, 0x00000000);
    WordBy(27, 0x85898ec1, 0x85898e01, 0x00000000, 0x00000000, 0x00000180);
  }

  lemma Words28()
    ensures WordOk(28) && WordOk(29) && WordOk(30) && WordOk(31)
  {
    hide WordOk;
    WordBy(28, 0x16263806, 0x00000000, 0x00000000, 0x00000000, 0x2c4c700c);
    WordBy(29, 0x00000000, 0x00000060, 0x00000018, 0x00000000, 0x000000f0);
    WordBy(30, 0x00000180, 0x0b131c03, 0xc2c4c700, 0x00000000, 0x93afb507);
    WordBy(31, 0x2c4c700c, 0x00000030, 0x00000000, 0x00000018, 0x5898e048);
  }

  lemma Words32()
    ensures WordOk(32) && WordOk(33) && WordOk(34) && WordOk(35)
  {
    hide WordOk;
    WordBy(32, 0x000000f0, 0x85898ec1, 0x00000030, 0xc2c4c700, 0x8e9a9202);
    WordBy(33, 0x93afb507, 0x16263806, 0x85898e01, 0x00000000, 0x00000600);
    WordBy(34, 0x5898e048, 0x00000000, 0x00000000, 0x00000030, 0xb131c0f0);
    WordBy(35, 0x8e9a9202, 0x00000180, 0x00000060, 0x85898e01, 0x16263bc6);
  }

  lemma Words36()
    ensures WordOk(36) && WordOk(37) && WordOk(38) && WordOk(39)
  {
    hide WordOk;
    WordBy(36, 0x00000600, 0x2c4c700c, 0x0b131c03, 0x00000000, 0x4ebed41e);
    WordBy(37, 0xb131c0f0, 0x000000f0, 0x00000030, 0x00000060, 0x626380a1);
    WordBy(38, 0x16263bc6, 0x93afb507, 0x85898ec1, 0x0b131c03, 0x16263806);
    WordBy(39, 0x4ebed41e, 0x5898e048, 0x16263806, 0x00000030, 0x000018c0);
  }

  lemma Words40()
    ensures WordOk(40) && WordOk(41) && WordOk(42) && WordOk(43)
  {
    hide WordOk;
    WordBy(40, 0x626380a1, 0x8e9a9202, 0x00000000, 0x85898ec1, 0xd2e138c4);
    WordBy(41, 0x16263806, 0x00000600, 0x00000180, 0x16263806, 0x00000f00);
    WordBy(42, 0x000018c0, 0xb131c0f0, 0x2c4c700c, 0x00000000, 0x3afb5079);
    WordBy(43, 0xd2e138c4, 0x16263bc6, 0x000000f0, 0x00000180, 0x898e04e5);
  }

  lemma Words44()
    ensures WordOk(44) && WordOk(45) && WordOk(46) && WordOk(47)
  {
    hide WordOk;
    WordBy(44, 0x00000f00, 0x4ebed41e, 0x93afb507, 0x2c4c700c, 0xe2ba3c2b);
    WordBy(45, 0x3afb5079, 0x626380a1, 0x5898e048, 0x000000f0, 0x000060c0);
    WordBy(46, 0x898e04e5, 0x16263806, 0x8e9a9202, 0x93afb507, 0x053a37cd);
    WordBy(47, 0xe2ba3c2b, 0x000018c0, 0x00000600, 0x5898e048, 0x74458547);
  }

  lemma Words48()
    ensures WordOk(48) && WordOk(49) && WordOk(50) && WordOk(51)
  {
    hide WordOk;
    WordBy(48, 0x000060c0, 0xd2e138c4, 0xb131c0f0, 0x8e9a9202, 0xda9415ed);
    WordBy(49, 0x053a37cd, 0x00000f00, 0x16263bc6, 0x00000600, 0x26380a16);
    WordBy(50, 0x74458547, 0x3afb5079, 0x4ebed41e, 0xb131c0f0, 0x626383a1);
    WordBy(51, 0xda9415ed, 0x898e04e5, 0x626380a1, 0x16263bc6, 0x4ebf54de);
  }

  lemma Words52()
    ensures WordOk(52) && WordOk(53) && WordOk(54) && WordOk(55)
  {
    hide WordOk;
    WordBy(52, 0x26380a16, 0xe2ba3c2b, 0x16263806, 0x4ebed41e, 0x3835b44b);
    WordBy(53, 0x626383a1, 0x000060c0, 0x000018c0, 0x626380a1, 0x0000f600);
    WordBy(54, 0x4ebf54de, 0x053a37cd, 0xd2e138c4, 0x16263806, 0x1e84c7a3);
    WordBy(55, 0x3835b44b, 0x74458547, 0x00000f00, 0x000018c0, 0x98e04d98);
  }

  lemma Words56()
    ensures WordOk(56) && WordOk(57) && WordOk(58) && WordOk(59)
  {
    hide WordOk;
    WordBy(56, 0x0000f600, 0xda9415ed, 0x3afb5079, 0xd2e138c4, 0x651d16a0);
    WordBy(57, 0x1e84c7a3, 0x26380a16, 0x898e04e5, 0x00000f00, 0x62658ca1);
    WordBy(58, 0x98e04d98, 0x626383a1, 0xe2ba3c2b, 0x3afb5079, 0x458544d6);
    WordBy(59, 0x651d16a0, 0x4ebf54de, 0x000060c0, 0x898e04e5, 0x44584cb7);
  }

  lemma Words60()
    ensures WordOk(60) && WordOk(61) && WordOk(62) && WordOk(63)
  {
    hide WordOk;
    WordBy(60, 0x62658ca1, 0x3835b44b, 0x053a37cd, 0xe2ba3c2b, 0x7ba06619);
    WordBy(61, 0x458544d6, 0x0000f600, 0x74458547, 0x000060c0, 0x6380aea2);
    WordBy(62, 0x44584cb7, 0x1e84c7a3, 0xda9415ed, 0x053a37cd, 0x0ae55269);
    WordBy(63, 0x7ba06619, 0x98e04d98, 0x26380a16, 0x74458547, 0x627b49a1);
  }

  lemma Words64()
    ensures WordOk(64) && WordOk(65) && WordOk(66) && WordOk(67)
  {
    hide WordOk;
    WordBy(64, 0x6380aea2, 0x651d16a0, 0x626383a1, 0xda9415ed, 0x7cd45c9d);
    WordBy(65, 0x0ae55269, 0x62658ca1, 0x4ebf54de, 0x26380a16, 0x000f0000);
    WordBy(66, 0x627b49a1, 0x458544d6, 0x3835b44b, 0x626383a1, 0xfb50753a);
    WordBy(67, 0x7cd45c9d, 0x44584cb7, 0x0000f600, 0x4ebf54de, 0xec6765e8);
  }

  lemma Words68()
    ensures WordOk(68) && WordOk(69) && WordOk(70) && WordOk(71)
  {
    hide WordOk;
    WordBy(68, 0x000f0000, 0x7ba06619, 0x1e84c7a3, 0x3835b44b, 0xba3c2be2);
    WordBy(69, 0xfb50753a, 0x6380aea2, 0x98e04d98, 0x0000f600, 0x0060c000);
    WordBy(70, 0xec6765e8, 0x0ae55269, 0x651d16a0, 0x1e84c7a3, 0x3a37cd05);
    WordBy(71, 0xba3c2be2, 0x627b49a1, 0x62658ca1, 0x98e04d98, 0x458546f4);
  }

  lemma Words72()
    ensures WordOk(72) && WordOk(73) && WordOk(74) && WordOk(75)
  {
    hide WordOk;
    WordBy(72, 0x0060c000, 0x7cd45c9d, 0x458544d6, 0x651d16a0, 0xb8599dd6);
    WordBy(73, 0x3a37cd05, 0x000f0000, 0x44584cb7, 0x62658ca1, 0x380a1a26);
    WordBy(74, 0x458546f4, 0xfb50753a, 0x7ba06619, 0x458544d6, 0x01e02203);
    WordBy(75, 0xb8599dd6, 0xec6765e8, 0x6380aea2, 0x44584cb7, 0xe7cc3456);
  }

  lemma Words76()
    ensures WordOk(76) && WordOk(77) && WordOk(78) && WordOk(79)
  {
    hide WordOk;
    WordBy(76, 0x380a1a26, 0xba3c2be2, 0x0ae55269, 0x7ba06619, 0xe6e60b69);
    WordBy(77, 0x01e02203, 0x0060c000, 0x627b49a1, 0x6380aea2, 0x00f60a00);
    WordBy(78, 0xe7cc3456, 0x3a37cd05, 0x7cd45c9d, 0x0ae55269, 0x5795ef4f);
    WordBy(79, 0xe6e60b69, 0x458546f4, 0x000f0000, 0x627b49a1, 0x822e0879);
  }

  lemma AllWords(t: nat)
    requires 16 <= t < 80
    ensures WordOk(t)
  {
    hide WordOk;
    if t < 20 {
      Words16();
      assert t == 16 || t == 17 || t == 18 || t == 19;
    } else if t < 24 {
      Words20();
      assert t == 20 || t == 21 || t == 22 || t == 23;
    } else if t < 28 {
      Words24();
      assert t == 24 || t == 25 || t == 26 || t == 27;
    } else if t < 32 {
      Words28();
      assert t == 28 || t == 29 || t == 30 || t == 31;
    } else if t < 36 {
      Words32();
      assert t == 32 || t == 33 || t == 34 || t == 35;
    } else if t < 40 {
      Words36();
      assert t == 36 || t == 37 || t == 38 || t == 39;
    } else if t < 44 {
      Words40();
      assert t == 40 || t == 41 || t == 42 || t == 43;
    } else if t < 48 {
      Words44();
      assert t == 44 || t == 45 || t == 46 || t == 47;
    } else if t < 52 {
      Words48();
      assert t == 48 || t == 49 || t == 50 || t == 51;
    } else if t < 56 {
      Words52();
      assert t == 52 || t == 53 || t == 54 || t == 55;
    } else if t < 60 {
      Words56();
      assert t == 56 || t == 57 || t == 58 || t == 59;
    } else if t < 64 {
      Words60();
      assert t == 60 || t == 61 || t == 62 || t == 63;
    } else if t < 68 {
      Words64();
      assert t == 64 || t == 65 || t == 66 || t == 67;
    } else if t < 72 {
      Words68();
      assert t == 68 || t == 69 || t == 70 || t == 71;
    } else if t < 76 {
      Words72();
      assert t == 72 || t == 73 || t == 74 || t == 75;
    } else if t < 80 {
      Words76();
      assert t == 76 || t == 77 || t == 78 || t == 79;
    }
  }

  lemma FirstWords()
    ensures Scheduled(0) == 0x61626380 && Scheduled(15) == 24
    ensures forall t: nat {:trigger Scheduled(t)} :: 0 < t < 15 ==> Scheduled(t) == 0
  {
  }

  lemma {:induction false} ScheduleIs(t: nat)
    requires t < 80
    ensures Schedule(AbcBlock(), t) == Scheduled(t)
  {
    hide AbcBlock, Scheduled, Woven;
    if t < 16 {
      AbcWords(t);
      FirstWords();
    } else {
      ScheduleIs(t - 3);
      ScheduleIs(t - 8);
      ScheduleIs(t - 14);
      ScheduleIs(t - 16);
      AllWords(t);
    }
  }

  /* ---- The steps -------------------------------------------------------------------------------- */

  function StateAt(t: nat): State
    requires t <= 80
  {
    State(Traced(t + 4), Traced(t + 3), Rotl(Traced(t + 2), 30), Rotl(Traced(t + 1), 30), Rotl(Traced(t), 30))
  }

  predicate StepOk(t: nat)
    requires t < 80
  {
    StateAt(t + 1) == Step(StateAt(t), t, Scheduled(t))
  }

  lemma SteppingAs(t: nat, a: bv32, b: bv32, c: bv32, d: bv32, e: bv32, w: bv32, r: bv32)
    requires r == Rotl(a, 5) + Mix(t, b, c, d) + e + Constant(t) + w
    ensures r == Stepping(t, a, b, c, d, e, w)
  {
    hide Rotl, Mix, Constant;
  }

  /** One step, told by its numbers. */
  lemma StepBy(t: nat, a: bv32, b: bv32, c: bv32, d: bv32, e: bv32, w: bv32, r: bv32)
    requires t < 80 && a == Traced(t + 4) && b == Traced(t + 3) && c == Rotl(Traced(t + 2), 30)
    requires d == Rotl(Traced(t + 1), 30) && e == Rotl(Traced(t), 30) && w == Scheduled(t) && r == Traced(t + 5)
    requires r == Rotl(a, 5) + Mix(t, b, c, d) + e + Constant(t) + w
    ensures StepOk(t)
  {
    hide Traced, Scheduled, Rotl, Mix, Constant, Stepping;
    SteppingAs(t, a, b, c, d, e, w, r);
  }

  lemma Steps0()
    ensures StepOk(0) && StepOk(1) && StepOk(2) && StepOk(3)
  {
    hide StepOk;
    StepBy(0, 0x67452301, 0xefcdab89, 0x98badcfe, 0x10325476, 0xc3d2e1f0,
      0x61626380, 0x0116fc33);
    StepBy(1, 0x0116fc33, 0x67452301, 0x7bf36ae2, 0x98badcfe, 0x10325476,
      0x00000000, 0x8990536d);
    StepBy(2, 0x8990536d, 0x0116fc33, 0x59d148c0, 0x7bf36ae2, 0x98badcfe,
      0x00000000, 0xa1390f08);
    StepBy(3, 0xa1390f08, 0x8990536d, 0xc045bf0c, 0x59d148c0, 0x7bf36ae2,
      0x00000000, 0xcdd8e11b);
  }

  lemma Steps4()
    ensures StepOk(4) && StepOk(5) && StepOk(6) && StepOk(7)
  {
    hide StepOk;
    StepBy(4, 0xcdd8e11b, 0xa1390f08, 0x626414db, 0xc045bf0c, 0x59d148c0,
      0x00000000, 0xcfd499de);
    StepBy(5, 0xcfd499de, 0xcdd8e11b, 0x284e43c2, 0x626414db, 0xc045bf0c,
      0x00000000, 0x3fc7ca40);
    StepBy(6, 0x3fc7ca40, 0xcfd499de, 0xf3763846, 0x284e43c2, 0x626414db,
      0x00000000, 0x993e30c1);
    StepBy(7, 0x993e30c1, 0x3fc7ca40, 0xb3f52677, 0xf3763846, 0x284e43c2,
      0x00000000, 0x9e8c07d4);
  }

  lemma Steps8()
    ensures StepOk(8) && StepOk(9) && StepOk(10) && StepOk(11)
  {
    hide StepOk;
    StepBy(8, 0x9e8c07d4, 0x993e30c1, 0x0ff1f290, 0xb3f52677, 0xf3763846,
      0x00000000, 0x4b6ae328);
    StepBy(9, 0x4b6ae328, 0x9e8c07d4, 0x664f8c30, 0x0ff1f290, 0xb3f52677,
      0x00000000, 0x8351f929);
    StepBy(10, 0x8351f929, 0x4b6ae328, 0x27a301f5, 0x664f8c30, 0x0ff1f290,
      0x00000000, 0xfbda9e89);
    StepBy(11, 0xfbda9e89, 0x8351f929, 0x12dab8ca, 0x27a301f5, 0x664f8c30,
      0x00000000, 0x63188fe4);
  }

  lemma Steps12()
    ensures StepOk(12) && StepOk(13) && StepOk(14) && StepOk(15)
  {
    hide StepOk;
    StepBy(12, 0x63188fe4, 0xfbda9e89, 0x60d47e4a, 0x12dab8ca, 0x27a301f5,
      0x00000000, 0x4607b664);
    StepBy(13, 0x4607b664, 0x63188fe4, 0x7ef6a7a2, 0x60d47e4a, 0x12dab8ca,
      0x00000000, 0x9128f695);
    StepBy(14, 0x9128f695, 0x4607b664, 0x18c623f9, 0x7ef6a7a2, 0x60d47e4a,
      0x00000000, 0x196bee77);
    StepBy(15, 0x196bee77, 0x9128f695, 0x1181ed99, 0x18c623f9, 0x7ef6a7a2,
      0x00000018, 0x20bdd62f);
  }

  lemma Steps16()
    ensures StepOk(16) && StepOk(17) && StepOk(18) && StepOk(19)
  {
    hide StepOk;
    StepBy(16, 0x20bdd62f, 0x196bee77, 0x644a3da5, 0x1181ed99, 0x18c623f9,
      0xc2c4c700, 0x4e925823);
    StepBy(17, 0x4e925823, 0x20bdd62f, 0xc65afb9d, 0x644a3da5, 0x1181ed99,
      0x00000000, 0x82aa6728);
    StepBy(18, 0x82aa6728, 0x4e925823, 0xc82f758b, 0xc65afb9d, 0x644a3da5,
      0x00000030, 0xdc64901d);
    StepBy(19, 0xdc64901d, 0x82aa6728, 0xd3a49608, 0xc82f758b, 0xc65afb9d,
      0x85898e01, 0xfd9e1d7d);
  }

  lemma Steps20()
    ensures StepOk(20) && StepOk(21) && StepOk(22) && StepOk(23)
  {
    hide StepOk;
    StepBy(20, 0xfd9e1d7d, 0xdc64901d, 0x20aa99ca, 0xd3a49608, 0xc82f758b,
      0x00000000, 0x1a37b0ca);
    StepBy(21, 0x1a37b0ca, 0xfd9e1d7d, 0x77192407, 0x20aa99ca, 0xd3a49608,
      0x00000060, 0x33a23bfc);
    StepBy(22, 0x33a23bfc, 0x1a37b0ca, 0x7f67875f, 0x77192407, 0x20aa99ca,
      0x0b131c03, 0x21283486);
    StepBy(23, 0x21283486, 0x33a23bfc, 0x868dec32, 0x7f67875f, 0x77192407,
      0x00000030, 0xd541f12d);
  }

  lemma Steps24()
    ensures StepOk(24) && StepOk(25) && StepOk(26) && StepOk(27)
  {
    hide StepOk;
    StepBy(24, 0xd541f12d, 0x21283486, 0x0ce88eff, 0x868dec32, 0x7f67875f,
      0x85898ec1, 0xc7567dc6);
    StepBy(25, 0xc7567dc6, 0xd541f12d, 0x884a0d21, 0x0ce88eff, 0x868dec32,
      0x16263806, 0x48413ba4);
    StepBy(26, 0x48413ba4, 0xc7567dc6, 0x75507c4b, 0x884a0d21, 0x0ce88eff,
      0x00000000, 0xbe35fbd5);
    StepBy(27, 0xbe35fbd5, 0x48413ba4, 0xb1d59f71, 0x75507c4b, 0x884a0d21,
      0x00000180, 0x4aa84d97);
  }

  lemma Steps28()
    ensures StepOk(28) && StepOk(29) && StepOk(30) && StepOk(31)
  {
    hide StepOk;
    StepBy(28, 0x4aa84d97, 0xbe35fbd5, 0x12104ee9, 0xb1d59f71, 0x75507c4b,
      0x2c4c700c, 0x8370b52e);
    StepBy(29, 0x8370b52e, 0x4aa84d97, 0x6f8d7ef5, 0x12104ee9, 0xb1d59f71,
      0x000000f0, 0xc5fbaf5d);
    StepBy(30, 0xc5fbaf5d, 0x8370b52e, 0xd2aa1365, 0x6f8d7ef5, 0x12104ee9,
      0x93afb507, 0x1267b407);
    StepBy(31, 0x1267b407, 0xc5fbaf5d, 0xa0dc2d4b, 0xd2aa1365, 0x6f8d7ef5,
      0x5898e048, 0x3b845d33);
  }

  lemma Steps32()
    ensures StepOk(32) && StepOk(33) && StepOk(34) && StepOk(35)
  {
    hide StepOk;
    StepBy(32, 0x3b845d33, 0x1267b407, 0x717eebd7, 0xa0dc2d4b, 0xd2aa1365,
      0x8e9a9202, 0x046faa0a);
    StepBy(33, 0x046faa0a, 0x3b845d33, 0xc499ed01, 0x717eebd7, 0xa0dc2d4b,
      0x00000600, 0x2c0ebc11);
    StepBy(34, 0x2c0ebc11, 0x046faa0a, 0xcee1174c, 0xc499ed01, 0x717eebd7,
      0xb131c0f0, 0x21796ad4);
    StepBy(35, 0x21796ad4, 0x2c0ebc11, 0x811bea82, 0xcee1174c, 0xc499ed01,
      0x16263bc6, 0xdcbbb0cb);
  }

  lemma Steps36()
    ensures StepOk(36) && StepOk(37) && StepOk(38) && StepOk(39)
  {
    hide StepOk;
    StepBy(36, 0xdcbbb0cb, 0x21796ad4, 0x4b03af04, 0x811bea82, 0xcee1174c,
      0x4ebed41e, 0x0f511fd8);
    StepBy(37, 0x0f511fd8, 0xdcbbb0cb, 0x085e5ab5, 0x4b03af04, 0x811bea82,
      0x626380a1, 0xdc63973f);
    StepBy(38, 0xdc63973f, 0x0f511fd8, 0xf72eec32, 0x085e5ab5, 0x4b03af04,
      0x16263806, 0x4c986405);
    StepBy(39, 0x4c986405, 0xdc63973f, 0x03d447f6, 0xf72eec32, 0x085e5ab5,
      0x000018c0, 0x32de1cba);
  }

  lemma Steps40()
    ensures StepOk(40) && StepOk(41) && StepOk(42) && StepOk(43)
  {
    hide StepOk;
    StepBy(40, 0x32de1cba, 0x4c986405, 0xf718e5cf, 0x03d447f6, 0xf72eec32,
      0xd2e138c4, 0xfc87dedf);
    StepBy(41, 0xfc87dedf, 0x32de1cba, 0x53261901, 0xf718e5cf, 0x03d447f6,
      0x00000f00, 0x970a0d5c);
    StepBy(42, 0x970a0d5c, 0xfc87dedf, 0x8cb7872e, 0x53261901, 0xf718e5cf,
      0x3afb5079, 0x7f193dc5);
    StepBy(43, 0x7f193dc5, 0x970a0d5c, 0xff21f7b7, 0x8cb7872e, 0x53261901,
      0x898e04e5, 0xee1b1aaf);
  }

  lemma Steps44()
    ensures StepOk(44) && StepOk(45) && StepOk(46) && StepOk(47)
  {
    hide StepOk;
    StepBy(44, 0xee1b1aaf, 0x7f193dc5, 0x25c28357, 0xff21f7b7, 0x8cb7872e,
      0xe2ba3c2b, 0x40f28e09);
    StepBy(45, 0x40f28e09, 0xee1b1aaf, 0x5fc64f71, 0x25c28357, 0xff21f7b7,
      0x000060c0, 0x1c51e1f2);
    StepBy(46, 0x1c51e1f2, 0x40f28e09, 0xfb86c6ab, 0x5fc64f71, 0x25c28357,
      0x053a37cd, 0xa01b846c);
    StepBy(47, 0xa01b846c, 0x1c51e1f2, 0x503ca382, 0xfb86c6ab, 0x5fc64f71,
      0x74458547, 0xbead02ca);
  }

  lemma Steps48()
    ensures StepOk(48) && StepOk(49) && StepOk(50) && StepOk(51)
  {
    hide StepOk;
    StepBy(48, 0xbead02ca, 0xa01b846c, 0x8714787c, 0x503ca382, 0xfb86c6ab,
      0xda9415ed, 0xbaf39337);
    StepBy(49, 0xbaf39337, 0xbead02ca, 0x2806e11b, 0x8714787c, 0x503ca382,
      0x26380a16, 0x120731c5);
    StepBy(50, 0x120731c5, 0xbaf39337, 0xafab40b2, 0x2806e11b, 0x8714787c,
      0x626383a1, 0x641db2ce);
    StepBy(51, 0x641db2ce, 0x120731c5, 0xeebce4cd, 0xafab40b2, 0x2806e11b,
      0x4ebf54de, 0x3847ad66);
  }

  lemma Steps52()
    ensures StepOk(52) && StepOk(53) && StepOk(54) && StepOk(55)
  {
    hide StepOk;
    StepBy(52, 0x3847ad66, 0x641db2ce, 0x4481cc71, 0xeebce4cd, 0xafab40b2,
      0x3835b44b, 0xe490436d);
    StepBy(53, 0xe490436d, 0x3847ad66, 0x99076cb3, 0x4481cc71, 0xeebce4cd,
      0x0000f600, 0x27e9f1d8);
    StepBy(54, 0x27e9f1d8, 0xe490436d, 0x8e11eb59, 0x99076cb3, 0x4481cc71,
      0x1e84c7a3, 0x7b71f76d);
    StepBy(55, 0x7b71f76d, 0x27e9f1d8, 0x792410db, 0x8e11eb59, 0x99076cb3,
      0x98e04d98, 0x5e6456af);
  }

  lemma Steps56()
    ensures StepOk(56) && StepOk(57) && StepOk(58) && StepOk(59)
  {
    hide StepOk;
    StepBy(56, 0x5e6456af, 0x7b71f76d, 0x09fa7c76, 0x792410db, 0x8e11eb59,
      0x651d16a0, 0xc846093f);
    StepBy(57, 0xc846093f, 0x5e6456af, 0x5edc7ddb, 0x09fa7c76, 0x792410db,
      0x62658ca1, 0xd262ff50);
    StepBy(58, 0xd262ff50, 0xc846093f, 0xd79915ab, 0x5edc7ddb, 0x09fa7c76,
      0x458544d6, 0x09d785fd);
    StepBy(59, 0x09d785fd, 0xd262ff50, 0xf211824f, 0xd79915ab, 0x5edc7ddb,
      0x44584cb7, 0x3f52de5a);
  }

  lemma Steps60()
    ensures StepOk(60) && StepOk(61) && StepOk(62) && StepOk(63)
  {
    hide StepOk;
    StepBy(60, 0x3f52de5a, 0x09d785fd, 0x3498bfd4, 0xf211824f, 0xd79915ab,
      0x7ba06619, 0xd756c147);
    StepBy(61, 0xd756c147, 0x3f52de5a, 0x4275e17f, 0x3498bfd4, 0xf211824f,
      0x6380aea2, 0x548c9cb2);
    StepBy(62, 0x548c9cb2, 0xd756c147, 0x8fd4b796, 0x4275e17f, 0x3498bfd4,
      0x0ae55269, 0xb66c020b);
    StepBy(63, 0xb66c020b, 0x548c9cb2, 0xf5d5b051, 0x8fd4b796, 0x4275e17f,
      0x627b49a1, 0x6b61c9e1);
  }

  lemma Steps64()
    ensures StepOk(64) && StepOk(65) && StepOk(66) && StepOk(67)
  {
    hide StepOk;
    StepBy(64, 0x6b61c9e1, 0xb66c020b, 0x9523272c, 0xf5d5b051, 0x8fd4b796,
      0x7cd45c9d, 0x19dfa7ac);
    StepBy(65, 0x19dfa7ac, 0x6b61c9e1, 0xed9b0082, 0x9523272c, 0xf5d5b051,
      0x000f0000, 0x101655f9);
    StepBy(66, 0x101655f9, 0x19dfa7ac, 0x5ad87278, 0xed9b0082, 0x9523272c,
      0xfb50753a, 0x0c3df2b4);
    StepBy(67, 0x0c3df2b4, 0x101655f9, 0x0677e9eb, 0x5ad87278, 0xed9b0082,
      0xec6765e8, 0x78dd4d2b);
  }

  lemma Steps68()
    ensures StepOk(68) && StepOk(69) && StepOk(70) && StepOk(71)
  {
    hide StepOk;
    StepBy(68, 0x78dd4d2b, 0x0c3df2b4, 0x4405957e, 0x0677e9eb, 0x5ad87278,
      0xba3c2be2, 0x497093c0);
    StepBy(69, 0x497093c0, 0x78dd4d2b, 0x030f7cad, 0x4405957e, 0x0677e9eb,
      0x0060c000, 0x3f2588c2);
    StepBy(70, 0x3f2588c2, 0x497093c0, 0xde37534a, 0x030f7cad, 0x4405957e,
      0x3a37cd05, 0xc199f8c7);
    StepBy(71, 0xc199f8c7, 0x3f2588c2, 0x125c24f0, 0xde37534a, 0x030f7cad,
      0x458546f4, 0x39859de7);
  }

  lemma Steps72()
    ensures StepOk(72) && StepOk(73) && StepOk(74) && StepOk(75)
  {
    hide StepOk;
    StepBy(72, 0x39859de7, 0xc199f8c7, 0x8fc96230, 0x125c24f0, 0xde37534a,
      0xb8599dd6, 0xedb42de4);
    StepBy(73, 0xedb42de4, 0x39859de7, 0xf0667e31, 0x8fc96230, 0x125c24f0,
      0x380a1a26, 0x11793f6f);
    StepBy(74, 0x11793f6f, 0xedb42de4, 0xce616779, 0xf0667e31, 0x8fc96230,
      0x01e02203, 0x5ee76897);
    StepBy(75, 0x5ee76897, 0x11793f6f, 0x3b6d0b79, 0xce616779, 0xf0667e31,
      0xe7cc3456, 0x63f7dab7);
  }

  lemma Steps76()
    ensures StepOk(76) && StepOk(77) && StepOk(78) && StepOk(79)
  {
    hide StepOk;
    StepBy(76, 0x63f7dab7, 0x5ee76897, 0xc45e4fdb, 0x3b6d0b79, 0xce616779,
      0xe6e60b69, 0xa079b7d9);
    StepBy(77, 0xa079b7d9, 0x63f7dab7, 0xd7b9da25, 0xc45e4fdb, 0x3b6d0b79,
      0x00f60a00, 0x860d21cc);
    StepBy(78, 0x860d21cc, 0xa079b7d9, 0xd8fdf6ad, 0xd7b9da25, 0xc45e4fdb,
      0x5795ef4f, 0x5738d5e1);
    StepBy(79, 0x5738d5e1, 0x860d21cc, 0x681e6df6, 0xd8fdf6ad, 0xd7b9da25,
      0x822e0879, 0x42541b35);
  }

  lemma AllSteps(t: nat)
    requires t < 80
    ensures StepOk(t)
  {
    hide StepOk;
    if t < 4 {
      Steps0();
      assert t == 0 || t == 1 || t == 2 || t == 3;
    } else if t < 8 {
      Steps4();
      assert t == 4 || t == 5 || t == 6 || t == 7;
    } else if t < 12 {
      Steps8();
      assert t == 8 || t == 9 || t == 10 || t == 11;
    } else if t < 16 {
      Steps12();
      assert t == 12 || t == 13 || t == 14 || t == 15;
    } else if t < 20 {
      Steps16();
      assert t == 16 || t == 17 || t == 18 || t == 19;
    } else if t < 24 {
      Steps20();
      assert t == 20 || t == 21 || t == 22 || t == 23;
    } else if t < 28 {
      Steps24();
      assert t == 24 || t == 25 || t == 26 || t == 27;
    } else if t < 32 {
      Steps28();
      assert t == 28 || t == 29 || t == 30 || t == 31;
    } else if t < 36 {
      Steps32();
      assert t == 32 || t == 33 || t == 34 || t == 35;
    } else if t < 40 {
      Steps36();
      assert t == 36 || t == 37 || t == 38 || t == 39;
    } else if t < 44 {
      Steps40();
      assert t == 40 || t == 41 || t == 42 || t == 43;
    } else if t < 48 {
      Steps44();
      assert t == 44 || t == 45 || t == 46 || t == 47;
    } else if t < 52 {
      Steps48();
      assert t == 48 || t == 49 || t == 50 || t == 51;
    } else if t < 56 {
      Steps52();
      assert t == 52 || t == 53 || t == 54 || t == 55;
    } else if t < 60 {
      Steps56();
      assert t == 56 || t == 57 || t == 58 || t == 59;
    } else if t < 64 {
      Steps60();
      assert t == 60 || t == 61 || t == 62 || t == 63;
    } else if t < 68 {
      Steps64();
      assert t == 64 || t == 65 || t == 66 || t == 67;
    } else if t < 72 {
      Steps68();
      assert t == 68 || t == 69 || t == 70 || t == 71;
    } else if t < 76 {
      Steps72();
      assert t == 72 || t == 73 || t == 74 || t == 75;
    } else if t < 80 {
      Steps76();
      assert t == 76 || t == 77 || t == 78 || t == 79;
    }
  }

  lemma Starts()
    ensures INITIAL == StateAt(0)
  {
  }

  /** The registers after `n` steps. */
  lemma {:induction false} SteppedTraced(n: nat)
    requires n <= 80
    ensures Stepped(AbcBlock(), INITIAL, n) == StateAt(n)
  {
    hide AbcBlock, Step, StateAt, Schedule, Scheduled;
    if n == 0 {
      Starts();
    } else {
      SteppedTraced(n - 1);
      ScheduleIs(n - 1);
      AllSteps(n - 1);
    }
  }

  lemma AbcPadded()
    ensures Padded([0x61, 0x62, 0x63], Be64Bytes(Bits(3))) == AbcBlock()
  {
    assert Bits(3) == 24;
    assert Be64Bytes(24) == [0, 0, 0, 0, 0, 0, 0, 24];
  }

  lemma AbcState()
    ensures Fold(OnBlock, INITIAL, AbcBlock())
         == State(0xa9993e36, 0x4706816a, 0xba3e2571, 0x7850c26c, 0x9cd0d89d)
  {
    hide AbcBlock, Stepped;
    SteppedTraced(80);
    Ends();
    assert AbcBlock()[..BLOCK] == AbcBlock() && AbcBlock()[BLOCK..] == [];
  }

  lemma Ends()
    ensures Sum(INITIAL, StateAt(80)) == State(0xa9993e36, 0x4706816a, 0xba3e2571, 0x7850c26c, 0x9cd0d89d)
  {
  }

  lemma FourBytes(v: nat)
    requires v < 0x1_0000_0000
    ensures var b := Be32Bytes(v);
      v == b[3] as int + 0x100 * b[2] as int + 0x1_0000 * b[1] as int + 0x100_0000 * b[0] as int
  {
  }

  /** The length a digest ends with is the message's bits, modulo 2^64, the high byte first. */
  lemma LengthIs(n: nat)
    ensures var s := Be64Bytes(Bits(n));
      var low := s[7] as int + 0x100 * s[6] as int + 0x1_0000 * s[5] as int + 0x100_0000 * s[4] as int;
      var high := s[3] as int + 0x100 * s[2] as int + 0x1_0000 * s[1] as int + 0x100_0000 * s[0] as int;
      8 * n % 0x1_0000_0000_0000_0000 == low + 0x1_0000_0000 * high
  {
    hide Le32Bytes, Be32Bytes;
    var v := Bits(n);
    Halves(v);
    FourBytes(v % 0x1_0000_0000);
    FourBytes(v / 0x1_0000_0000);
    var first, second := Be32Bytes(v / 0x1_0000_0000 % 0x1_0000_0000), Be32Bytes(v % 0x1_0000_0000);
    assert Be64Bytes(v) == first + second;
  }

  lemma Halves(v: nat)
    requires v < 0x1_0000_0000_0000_0000
    ensures v / 0x1_0000_0000 < 0x1_0000_0000 && v / 0x1_0000_0000 % 0x1_0000_0000 == v / 0x1_0000_0000
    ensures v == v % 0x1_0000_0000 + 0x1_0000_0000 * (v / 0x1_0000_0000)
  {
  }

  lemma AbcOutput()
    ensures Output(State(0xa9993e36, 0x4706816a, 0xba3e2571, 0x7850c26c, 0x9cd0d89d))
         == [0xa9, 0x99, 0x3e, 0x36, 0x47, 0x06, 0x81, 0x6a, 0xba, 0x3e,
             0x25, 0x71, 0x78, 0x50, 0xc2, 0x6c, 0x9c, 0xd0, 0xd8, 0x9d]
  {
    FourOut(0xa9993e36, 0xa9, 0x99, 0x3e, 0x36);
    FourOut(0x4706816a, 0x47, 0x06, 0x81, 0x6a);
    FourOut(0xba3e2571, 0xba, 0x3e, 0x25, 0x71);
    FourOut(0x7850c26c, 0x78, 0x50, 0xc2, 0x6c);
    FourOut(0x9cd0d89d, 0x9c, 0xd0, 0xd8, 0x9d);
  }

  lemma FourOut(v: nat, a: u8, b: u8, c: u8, d: u8)
    requires v == 0x100_0000 * a as int + 0x1_0000 * b as int + 0x100 * c as int + d as int
    ensures Be32Bytes(v) == [a, b, c, d]
  {
    hide Be32Bytes;
    FourBytes(v);
    var s := Be32Bytes(v);
    OneDivision(s[0], 0x1_0000 * s[1] as int + 0x100 * s[2] as int + s[3] as int, a,
                0x1_0000 * b as int + 0x100 * c as int + d as int, 0x100_0000);
    OneDivision(s[1], 0x100 * s[2] as int + s[3] as int, b, 0x100 * c as int + d as int, 0x1_0000);
    OneDivision(s[2], s[3], c, d, 0x100);
  }

  /** The digest of "abc" is the one the standard's example gives. */
  lemma AbcDigest()
    ensures Digest([0x61, 0x62, 0x63])
         == [0xa9, 0x99, 0x3e, 0x36, 0x47, 0x06, 0x81, 0x6a, 0xba, 0x3e,
             0x25, 0x71, 0x78, 0x50, 0xc2, 0x6c, 0x9c, 0xd0, 0xd8, 0x9d]
  {
    hide AbcBlock, Fold, Output;
    AbcPadded();
    AbcState();
    AbcOutput();
  }
}
