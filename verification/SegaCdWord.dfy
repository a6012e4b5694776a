/** The eight-symbol code words of the Sega CD block code: c6 and c7 are parity
    chosen so that the symbols sum to 0, plainly and weighted by the powers of
    alpha. Any two code words differ in three symbols or more, so one bad symbol is
    found and put right. */
module SegaCdWord {
  import opened SegaCdField
  import opened Status

  type Word = c: seq<bv8> | |c| == 8 witness [0, 0, 0, 0, 0, 0, 0, 0]

  ghost predicate Symbols(f: Field, c: Word) {
    forall i :: 0 <= i < 8 ==> Symbol(f, c[i])
  }

  function Sum(c: Word, n: nat): bv8
    requires n <= 8
  {
    if n == 0 then 0 else Xor(Sum(c, n - 1), c[n - 1])
  }

  function Weighted(d: Doubling, c: Word, n: nat): bv8
    requires n <= 8
  {
    if n == 0 then 0 else Xor(Weighted(d, c, n - 1), Scaled(d, c[n - 1], 8 - n))
  }

  /** A code word: both syndromes are 0. */
  predicate Valid(f: Field, c: Word) {
    Sum(c, |c|) == 0 && Weighted(Double(f), c, |c|) == 0
  }

  /** `w` is `c` but for one symbol at most. */
  ghost predicate OneOff(c: Word, w: Word) {
    exists i: nat {:trigger SameBut(c, w, i)} :: i < 8 && SameBut(c, w, i)
  }

  ghost predicate SameBut(c: Word, w: Word, i: nat) {
    forall j :: 0 <= j < 8 && j != i ==> c[j] == w[j]
  }

  method Syndromes(f: Field, c: array<bv8>, n: nat) returns (s0: bv8, s1: bv8)
    requires c.Length == 8 && n <= 8
    requires forall i :: 0 <= i < n ==> Symbol(f, c[i])
    ensures s0 == Sum(c[..], n) && s1 == Weighted(Double(f), c[..], n)
  {
    s0, s1 := 0, 0;
    for i := 0 to n
      invariant s0 == Sum(c[..], i) && s1 == Weighted(Double(f), c[..], i)
    {
      s0 := Xor(s0, c[i]);
      var t := GfMul(f, c[i], AlphaPow(f, 8 - 1 - i));
      TimesPow(f, c[i], 7 - i);
      s1 := Xor(s1, t);
    }
  }

  /* ---- Encoding ----------------------------------------------------------------------- */

  lemma {:induction false} SumsAgree(d: Doubling, c: Word, w: Word, n: nat)
    requires n <= 8 && forall i :: 0 <= i < n ==> c[i] == w[i]
    ensures Sum(c, n) == Sum(w, n) && Weighted(d, c, n) == Weighted(d, w, n)
  {
    if n > 0 {
      SumsAgree(d, c, w, n - 1);
    }
  }

  lemma {:induction false} SumsSymbol(f: Field, c: Word, n: nat)
    requires n <= 8 && forall i :: 0 <= i < n ==> Symbol(f, c[i])
    ensures Symbol(f, Sum(c, n)) && Symbol(f, Weighted(Double(f), c, n))
  {
    if n > 0 {
      SumsSymbol(f, c, n - 1);
      ScaledSymbol(f, c[n - 1], 8 - n);
      XorSymbol(f, Sum(c, n - 1), c[n - 1]);
      XorSymbol(f, Weighted(Double(f), c, n - 1), Scaled(Double(f), c[n - 1], 8 - n));
    }
  }

  lemma XorSymbol(f: Field, a: bv8, b: bv8)
    requires Symbol(f, a) && Symbol(f, b)
    ensures Symbol(f, Xor(a, b))
  {
  }

  /** Parity `p` with `p` times alpha + 1 equal to the two sums together, and then the
      symbol that makes the plain sum 0, complete a code word. */
  lemma ParityCompletes(f: Field, c: Word)
    requires Xor(Double(f)(c[6]), c[6]) == Xor(Sum(c, 6), Weighted(Double(f), c, 6))
    requires c[7] == Xor(Sum(c, 6), c[6])
    ensures Valid(f, c)
  {
    var d := Double(f);
    var a, b := Sum(c, 6), Weighted(d, c, 6);
    assert Sum(c, 7) == Xor(a, c[6]);
    XorZeroIff(Xor(a, c[6]), Xor(a, c[6]));
    assert Scaled(d, c[6], 1) == d(Scaled(d, c[6], 0));
    assert Weighted(d, c, 7) == Xor(b, d(c[6]));
    assert Weighted(d, c, 8) == Xor(Xor(b, d(c[6])), Xor(a, c[6]));
    SwapPairs(b, d(c[6]), a, c[6]);
    XorComm(a, b);
    XorZeroIff(Xor(a, b), Xor(a, b));
  }

  method RsEncode(f: Field, c: array<bv8>)
    requires c.Length == 8 && forall i :: 0 <= i < 6 ==> Symbol(f, c[i])
    modifies c
    ensures c[..6] == old(c[..6]) && Symbols(f, c[..]) && Valid(f, c[..])
  {
    ghost var was: Word := c[..];
    var a, b := Syndromes(f, c, 6);
    SumsSymbol(f, was, 6);
    XorSymbol(f, a, b);
    var p := GfMul(f, Xor(a, b), InvAlphaPlus1(f));
    ParityInverse(f, Xor(a, b));
    c[6] := p;
    c[7] := Xor(a, c[6]);
    XorSymbol(f, a, p);
    SumsAgree(Double(f), was, c[..], 6);
    ParityCompletes(f, c[..]);
  }

  /* ---- Distance ------------------------------------------------------------------------ */

  lemma ShiftIn(a: bv8, b: bv8, e: bv8)
    ensures Xor(Xor(a, e), b) == Xor(Xor(a, b), e) && Xor(a, Xor(b, e)) == Xor(Xor(a, b), e)
  {
    Regroup(a, e, b);
    Regroup(a, b, e);
    XorComm(e, b);
  }

  /** An error `e` in symbol `i` shows as `e` in one syndrome and as `e` scaled by the
      symbol's power of alpha in the other. */
  lemma {:induction false} ErrorShows(f: Field, c: Word, i: nat, e: bv8, n: nat)
    requires i < n <= 8
    ensures var r: Word := c[i := Xor(c[i], e)];
      && Sum(r, n) == Xor(Sum(c, n), e)
      && Weighted(Double(f), r, n) == Xor(Weighted(Double(f), c, n), Scaled(Double(f), e, 7 - i))
  {
    var d := Double(f);
    var r: Word := c[i := Xor(c[i], e)];
    if n == i + 1 {
      SumsAgree(d, c, r, i);
      ShiftIn(Sum(c, i), c[i], e);
      DoubleLinear(f);
      ScaledLinear(d, c[i], e, 8 - n);
      ShiftIn(Weighted(d, c, i), Scaled(d, c[i], 8 - n), Scaled(d, e, 8 - n));
    } else {
      ErrorShows(f, c, i, e, n - 1);
      ShiftIn(Sum(c, n - 1), c[n - 1], e);
      ShiftIn(Weighted(d, c, n - 1), Scaled(d, c[n - 1], 8 - n), Scaled(d, e, 7 - i));
    }
  }

  /** Code words that agree but for two symbols are equal. */
  lemma Distance(f: Field, c: Word, w: Word, i: nat, j: nat)
    requires Valid(f, c) && Valid(f, w) && Symbols(f, c) && Symbols(f, w) && i < j < 8
    requires forall k :: 0 <= k < 8 && k != i && k != j ==> c[k] == w[k]
    ensures c == w
  {
    var d := Double(f);
    var e, g := Xor(c[i], w[i]), Xor(c[j], w[j]);
    XorZeroIff(w[i], c[i]);
    XorZeroIff(w[j], c[j]);
    XorComm(c[i], w[i]);
    XorComm(c[j], w[j]);
    FlipBack(c[i], w[i]);
    FlipBack(c[j], w[j]);
    XorSymbol(f, c[i], w[i]);
    var m: Word := c[i := Xor(c[i], e)];
    var r: Word := m[j := Xor(m[j], g)];
    assert r == w;
    ErrorShows(f, c, i, e, 8);
    ErrorShows(f, m, j, g, 8);
    ZeroXor(e);
    ZeroXor(Scaled(d, e, 7 - i));
    XorZeroIff(e, g);
    XorZeroIff(Scaled(d, e, 7 - i), Scaled(d, g, 7 - j));
    if e != 0 {
      PowersApart(f, e, 7 - j, 7 - i);
      assert false;
    }
  }

  lemma FlipBack(a: bv8, b: bv8)
    ensures Xor(a, Xor(a, b)) == b
  {
  }

  /** The data symbols determine the code word. */
  lemma ParityIsUnique(f: Field, c: Word, w: Word)
    requires Valid(f, c) && Valid(f, w) && Symbols(f, c) && Symbols(f, w) && c[..6] == w[..6]
    ensures c == w
  {
    forall k | 0 <= k < 6 ensures c[k] == w[k] {
      assert c[..6][k] == w[..6][k];
    }
    Distance(f, c, w, 6, 7);
  }

  /* ---- Correction ---------------------------------------------------------------------- */

  /** The first power of alpha from `k` on that takes `s0` to `s1`, or 8. */
  function Locate(d: Doubling, s0: bv8, s1: bv8, k: nat): (m: nat)
    requires k <= 8
    ensures k <= m <= 8
    ensures m < 8 ==> Scaled(d, s0, m) == s1
    ensures forall j :: k <= j < m ==> Scaled(d, s0, j) != s1
    decreases 8 - k
  {
    if k == 8 || Scaled(d, s0, k) == s1 then k else Locate(d, s0, s1, k + 1)
  }

  /** What correction makes of a received word: nothing when it cannot. */
  function Corrected(f: Field, c: Word): Option<Word> {
    var s0, s1 := Sum(c, |c|), Weighted(Double(f), c, |c|);
    if s0 == 0 && s1 == 0 then Some(c)
    else if s0 == 0 || s1 == 0 then None
    else
      var k := Locate(Double(f), s0, s1, 0);
      if k == 8 then None else Some(c[7 - k := Xor(c[7 - k], s0)])
  }

  /** The search of the correction loop, from the `k` it has reached. */
  method FindPower(f: Field, s0: bv8, s1: bv8) returns (k: nat)
    requires Symbol(f, s0)
    ensures k == Locate(Double(f), s0, s1, 0)
  {
    ghost var d := Double(f);
    k := 0;
    while k < 8
      invariant k <= 8 && Locate(d, s0, s1, 0) == Locate(d, s0, s1, k)
    {
      var t := GfMul(f, s0, AlphaPow(f, k));
      TimesPow(f, s0, k);
      if t == s1 {
        return;
      }
      k := k + 1;
    }
  }

  method RsCorrect(f: Field, c: array<bv8>) returns (ok: bool)
    requires c.Length == 8 && Symbols(f, c[..])
    modifies c
    ensures ok == Corrected(f, old(c[..])).Some?
    ensures c[..] == if ok then Corrected(f, old(c[..])).value else old(c[..])
  {
    ghost var was: Word := c[..];
    var s0, s1 := Syndromes(f, c, 8);
    SumsSymbol(f, was, 8);
    if s0 == 0 && s1 == 0 {
      return true;
    }
    if s0 == 0 || s1 == 0 {
      return false;
    }
    var k := FindPower(f, s0, s1);
    if k == 8 {
      return false;
    }
    c[8 - 1 - k] := Xor(c[8 - 1 - k], s0);
    assert c[..] == was[7 - k := Xor(was[7 - k], s0)];
    return true;
  }

  lemma CorrectedIsNear(f: Field, c: Word)
    requires Symbols(f, c) && Corrected(f, c).Some?
    ensures var w := Corrected(f, c).value; Symbols(f, w) && Valid(f, w) && OneOff(c, w)
  {
    var d := Double(f);
    var s0, s1 := Sum(c, 8), Weighted(d, c, 8);
    var w := Corrected(f, c).value;
    if s0 == 0 && s1 == 0 {
      assert SameBut(c, w, 0);
    } else {
      var k := Locate(d, s0, s1, 0);
      SumsSymbol(f, c, 8);
      XorSymbol(f, c[7 - k], s0);
      assert SameBut(c, w, 7 - k);
      ErrorShows(f, c, 7 - k, s0, 8);
      XorZeroIff(s0, s0);
      XorZeroIff(s1, s1);
    }
  }

  lemma SyndromesCorrect(f: Field, c: Word, e: bv8, k: nat)
    requires Symbol(f, e) && k < 8
    requires Sum(c, 8) == e && Weighted(Double(f), c, 8) == Scaled(Double(f), e, k)
    ensures Corrected(f, c) == Some(if e == 0 then c else c[7 - k := Xor(c[7 - k], e)])
  {
    SyndromesLocate(f, e, k);
  }

  lemma ErrorIsUndone(f: Field, w: Word, i: nat, e: bv8)
    requires Symbols(f, w) && Valid(f, w) && i < 8 && Symbol(f, e)
    ensures Corrected(f, w[i := Xor(w[i], e)]) == Some(w)
  {
    var c: Word := w[i := Xor(w[i], e)];
    ErrorShows(f, w, i, e, 8);
    ZeroXor(e);
    ZeroXor(Scaled(Double(f), e, 7 - i));
    SyndromesCorrect(f, c, e, 7 - i);
    XorZeroIff(w[i], e);
    ZeroXor(w[i]);
    assert c[i := Xor(c[i], e)] == w;
    assert e == 0 ==> c == w;
  }

  /** A word one symbol away from a code word is corrected to it. */
  lemma NearIsCorrected(f: Field, c: Word, w: Word, i: nat)
    requires Symbols(f, c) && Symbols(f, w) && Valid(f, w) && i < 8 && SameBut(c, w, i)
    ensures Corrected(f, c) == Some(w)
  {
    var e := Xor(w[i], c[i]);
    XorSymbol(f, w[i], c[i]);
    FlipBack(w[i], c[i]);
    assert c == w[i := Xor(w[i], e)];
    ErrorIsUndone(f, w, i, e);
  }

  lemma {:induction false} ScaledZero(d: Doubling, k: nat)
    requires Linear(d)
    ensures Scaled(d, 0, k) == 0
  {
    if k > 0 {
      ScaledZero(d, k - 1);
      LinearZero(d);
    }
  }

  lemma SyndromesLocate(f: Field, e: bv8, k: nat)
    requires Symbol(f, e) && k < 8
    ensures e == 0 ==> Scaled(Double(f), e, k) == 0
    ensures e != 0 ==> Scaled(Double(f), e, k) != 0 && Locate(Double(f), e, Scaled(Double(f), e, k), 0) == k
  {
    if e == 0 {
      DoubleLinear(f);
      ScaledZero(Double(f), k);
    } else {
      ScaledNonzero(f, e, k);
      OnlyPower(f, e, k);
    }
  }

  lemma OnlyPower(f: Field, e: bv8, k: nat)
    requires Symbol(f, e) && e != 0 && k < 8
    ensures Locate(Double(f), e, Scaled(Double(f), e, k), 0) == k
  {
    var m := Locate(Double(f), e, Scaled(Double(f), e, k), 0);
    if m < k {
      PowersApart(f, e, m, k);
    }
    assert m <= k;
  }

  /** Correction succeeds exactly on words one symbol or less from a code word, and gives
      that code word, of which there is only one. */
  lemma CorrectsOneSymbol(f: Field, c: Word, w: Word)
    requires Symbols(f, c) && Symbols(f, w)
    ensures Corrected(f, c) == Some(w) <==> Valid(f, w) && OneOff(c, w)
  {
    if Corrected(f, c) == Some(w) {
      CorrectedIsNear(f, c);
    }
    if Valid(f, w) && OneOff(c, w) {
      var i: nat :| i < 8 && SameBut(c, w, i);
      NearIsCorrected(f, c, w, i);
    }
  }
}
