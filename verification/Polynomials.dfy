/** Polynomials over the field of two elements, as the sets of the exponents they have: what a
    checksum and a multiplication in a field of bits amount to. */
module Polynomials {

  type Poly = set<nat>

  predicate Odd(n: nat) {
    n % 2 == 1
  }

  /** The sum: what one of the two has. */
  function Plus(a: Poly, b: Poly): Poly {
    (a - b) + (b - a)
  }

  /** `a` times x to the `n`. */
  function Shift(a: Poly, n: nat): Poly {
    set e <- a :: e + n
  }

  /** The terms of `a` that meet one of `b` at exponent `k`. */
  function Ways(a: Poly, b: Poly, k: nat): set<nat> {
    set i <- a | i <= k && k - i in b
  }

  /** The product: an exponent stays when it comes up an odd number of times. */
  ghost predicate IsProduct(p: Poly, a: Poly, b: Poly) {
    forall k: nat {:trigger k in p} :: k in p <==> Odd(|Ways(a, b, k)|)
  }

  ghost predicate Divides(g: Poly, p: Poly) {
    exists q: Poly {:trigger IsProduct(p, q, g)} :: IsProduct(p, q, g)
  }

  /** The same remainder modulo `g`. */
  ghost predicate Same(g: Poly, a: Poly, b: Poly) {
    Divides(g, Plus(a, b))
  }

  /* ---- Sums of products --------------------------------------------------------------------- */

  lemma OddUnion(s: set<nat>, t: set<nat>)
    ensures Odd(|Plus(s, t)|) <==> Odd(|s|) != Odd(|t|)
  {
    var both := s * t;
    assert s == (s - t) + both && t == (t - s) + both;
    assert |s| == |s - t| + |both| && |t| == |t - s| + |both|;
    assert |Plus(s, t)| == |s - t| + |t - s|;
  }

  lemma ShiftHas(a: Poly, n: nat, k: nat)
    ensures k in Shift(a, n) <==> k >= n && k - n in a
  {
    if k >= n && k - n in a {
      assert (k - n) + n == k;
    }
  }

  lemma {:induction false} ShiftSize(a: set<nat>, n: nat)
    ensures |Shift(a, n)| == |a|
    decreases |a|
  {
    if a != {} {
      var e :| e in a;
      ShiftSize(a - {e}, n);
      forall k: nat ensures k in Shift(a, n) <==> k in Shift(a - {e}, n) + {e + n} {
        ShiftHas(a, n, k);
        ShiftHas(a - {e}, n, k);
      }
      assert Shift(a, n) == Shift(a - {e}, n) + {e + n};
      ShiftHas(a - {e}, n, e + n);
    }
  }

  lemma ShiftTwice(a: Poly, m: nat, n: nat)
    ensures Shift(Shift(a, m), n) == Shift(a, m + n)
  {
    forall e: nat ensures e in Shift(Shift(a, m), n) <==> e in Shift(a, m + n) {
      ShiftHas(Shift(a, m), n, e);
      ShiftHas(a, m + n, e);
      if e >= n {
        ShiftHas(a, m, e - n);
      }
    }
  }

  lemma SumProduct(p: Poly, r: Poly, a: Poly, b: Poly, g: Poly)
    requires IsProduct(p, a, g) && IsProduct(r, b, g)
    ensures IsProduct(Plus(p, r), Plus(a, b), g)
  {
    forall k: nat ensures k in Plus(p, r) <==> Odd(|Ways(Plus(a, b), g, k)|) {
      assert Ways(Plus(a, b), g, k) == Plus(Ways(a, g, k), Ways(b, g, k));
      OddUnion(Ways(a, g, k), Ways(b, g, k));
    }
  }

  lemma ShiftProduct(p: Poly, a: Poly, g: Poly, n: nat)
    requires IsProduct(p, a, g)
    ensures IsProduct(Shift(p, n), Shift(a, n), g)
  {
    forall k: nat ensures k in Shift(p, n) <==> Odd(|Ways(Shift(a, n), g, k)|) {
      ShiftHas(p, n, k);
      forall i: nat ensures i in Ways(Shift(a, n), g, k) <==> k >= n && i in Shift(Ways(a, g, k - n), n) {
        ShiftHas(a, n, i);
        if k >= n {
          ShiftHas(Ways(a, g, k - n), n, i);
        }
      }
      if k >= n {
        assert Ways(Shift(a, n), g, k) == Shift(Ways(a, g, k - n), n);
        ShiftSize(Ways(a, g, k - n), n);
      } else {
        assert Ways(Shift(a, n), g, k) == {};
      }
    }
  }

  lemma OneProduct(g: Poly)
    ensures IsProduct(g, {0}, g) && IsProduct({}, {}, g)
  {
    forall k: nat ensures k in g <==> Odd(|Ways({0}, g, k)|) {
      assert Ways({0}, g, k) == if k in g then {0} else {};
    }
    forall k: nat ensures !Odd(|Ways({}, g, k)|) {
      assert Ways({}, g, k) == {};
    }
  }

  /* ---- Remainders --------------------------------------------------------------------------- */

  lemma Cancels(a: Poly, b: Poly, c: Poly)
    ensures Plus(Plus(a, c), Plus(a, b)) == Plus(b, c)
    ensures Plus(a, {}) == a
  {
  }

  lemma DividesOnce(g: Poly)
    ensures Divides(g, g) && Divides(g, {})
  {
    OneProduct(g);
  }

  lemma DividesSum(g: Poly, a: Poly, b: Poly)
    requires Divides(g, a) && Divides(g, b)
    ensures Divides(g, Plus(a, b))
  {
    var p: Poly :| IsProduct(a, p, g);
    var q: Poly :| IsProduct(b, q, g);
    SumProduct(a, b, p, q, g);
  }

  lemma DividesShift(g: Poly, a: Poly, n: nat)
    requires Divides(g, a)
    ensures Divides(g, Shift(a, n))
  {
    var p: Poly :| IsProduct(a, p, g);
    ShiftProduct(a, p, g, n);
  }

  lemma SameItself(g: Poly, a: Poly)
    ensures Same(g, a, a)
  {
    OneProduct(g);
    assert Plus(a, a) == {};
  }

  lemma SameBoth(g: Poly, a: Poly, b: Poly)
    requires Same(g, a, b)
    ensures Same(g, b, a)
  {
    assert Plus(a, b) == Plus(b, a);
  }

  lemma SameOn(g: Poly, a: Poly, b: Poly, c: Poly)
    requires Same(g, a, b) && Same(g, b, c)
    ensures Same(g, a, c)
  {
    DividesSum(g, Plus(a, b), Plus(b, c));
    assert Plus(Plus(a, b), Plus(b, c)) == Plus(a, c);
  }

  lemma SameSum(g: Poly, a: Poly, b: Poly, c: Poly, d: Poly)
    requires Same(g, a, b) && Same(g, c, d)
    ensures Same(g, Plus(a, c), Plus(b, d))
  {
    DividesSum(g, Plus(a, b), Plus(c, d));
    assert Plus(Plus(a, b), Plus(c, d)) == Plus(Plus(a, c), Plus(b, d));
  }

  lemma ShiftSum(a: Poly, b: Poly, n: nat)
    ensures Shift(Plus(a, b), n) == Plus(Shift(a, n), Shift(b, n))
  {
    forall k: nat ensures k in Shift(Plus(a, b), n) <==> k in Plus(Shift(a, n), Shift(b, n)) {
      ShiftHas(Plus(a, b), n, k);
      ShiftHas(a, n, k);
      ShiftHas(b, n, k);
    }
  }

  lemma SameShift(g: Poly, a: Poly, b: Poly, n: nat)
    requires Same(g, a, b)
    ensures Same(g, Shift(a, n), Shift(b, n))
  {
    DividesShift(g, Plus(a, b), n);
    ShiftSum(a, b, n);
  }

  lemma {:induction false} Highest(a: Poly) returns (m: nat)
    requires a != {}
    ensures m in a && forall e {:trigger e in a} :: e in a ==> e <= m
    decreases |a|
  {
    var e :| e in a;
    m := e;
    if a - {e} != {} {
      var n := Highest(a - {e});
      assert forall f {:trigger f in a} :: f in a ==> f == e || f in a - {e};
      m := if e < n then n else e;
    } else {
      assert a == (a - {e}) + {e};
    }
  }

  ghost predicate Below(a: Poly, n: nat) {
    forall e {:trigger e in a} :: e in a ==> e < n
  }

  /** The highest terms of two polynomials make the highest of their product. */
  lemma TopStays(p: Poly, q: Poly, g: Poly, m: nat, n: nat)
    requires IsProduct(p, q, g) && m in q && n in g && Below(q, m + 1) && Below(g, n + 1)
    ensures m + n in p
  {
    assert Ways(q, g, m + n) == {m} by {
      forall i: nat {:trigger i in q} | i in Ways(q, g, m + n) ensures i == m {
        assert m + n - i in g;
      }
      assert m + n - m == n;
    }
  }

  lemma NoTerms(p: Poly, g: Poly)
    requires IsProduct(p, {}, g)
    ensures p == {}
  {
    forall k: nat ensures k !in p {
      assert Ways({}, g, k) == {};
    }
  }

  /** A remainder below the highest term of `g` is the only one. */
  lemma SameOnce(g: Poly, n: nat, a: Poly, b: Poly)
    requires n in g && Below(g, n + 1) && Below(a, n) && Below(b, n) && Same(g, a, b)
    ensures a == b
  {
    var q: Poly :| IsProduct(Plus(a, b), q, g);
    if q != {} {
      var m := Highest(q);
      TopStays(Plus(a, b), q, g, m, n);
    } else {
      NoTerms(Plus(a, b), g);
    }
    forall e: nat ensures e in a <==> e in b {
      assert e in Plus(a, b) <==> (e in a) != (e in b);
    }
  }

  /* ---- Products either way round --------------------------------------------------------------- */

  lemma Bounded(a: Poly) returns (n: nat)
    ensures Below(a, n)
  {
    n := 0;
    if a != {} {
      n := Highest(a);
      n := n + 1;
    }
  }

  /** Every two polynomials have a product. */
  lemma HasProduct(a: Poly, b: Poly) returns (p: Poly)
    ensures IsProduct(p, a, b)
  {
    var m := Bounded(a);
    var n := Bounded(b);
    p := set k: nat | k < m + n && Odd(|Ways(a, b, k)|);
    forall k: nat ensures k in p <==> Odd(|Ways(a, b, k)|) {
      if k >= m + n {
        assert Ways(a, b, k) == {};
      }
    }
  }

  /** The exponents of `s`, counted down from `k`. */
  function Mirror(s: set<nat>, k: nat): set<nat> {
    set e <- s | e <= k :: k - e
  }

  lemma MirrorHas(s: set<nat>, k: nat, i: nat)
    ensures i in Mirror(s, k) <==> i <= k && k - i in s
  {
    if i <= k && k - i in s {
      assert k - (k - i) == i;
    }
  }

  lemma {:induction false} MirrorSize(s: set<nat>, k: nat)
    requires Below(s, k + 1)
    ensures |Mirror(s, k)| == |s|
    decreases |s|
  {
    if s != {} {
      var e :| e in s;
      MirrorSize(s - {e}, k);
      forall i: nat ensures i in Mirror(s, k) <==> i in Mirror(s - {e}, k) + {k - e} {
        MirrorHas(s, k, i);
        MirrorHas(s - {e}, k, i);
      }
      assert Mirror(s, k) == Mirror(s - {e}, k) + {k - e};
      MirrorHas(s - {e}, k, k - e);
    }
  }

  lemma ProductSwaps(p: Poly, a: Poly, b: Poly)
    requires IsProduct(p, a, b)
    ensures IsProduct(p, b, a)
  {
    forall k: nat ensures k in p <==> Odd(|Ways(b, a, k)|) {
      var s := Ways(a, b, k);
      forall i: nat ensures i in Ways(b, a, k) <==> i in Mirror(s, k) {
        MirrorHas(s, k, i);
      }
      assert Ways(b, a, k) == Mirror(s, k);
      MirrorSize(s, k);
    }
  }

  /** A factor x may stand with either of the two. */
  lemma ShiftAcross(p: Poly, a: Poly, b: Poly)
    requires IsProduct(p, Shift(a, 1), b)
    ensures IsProduct(p, a, Shift(b, 1))
  {
    forall k: nat ensures k in p <==> Odd(|Ways(a, Shift(b, 1), k)|) {
      var s := Ways(a, Shift(b, 1), k);
      forall i: nat ensures i in Ways(Shift(a, 1), b, k) <==> i in Shift(s, 1) {
        ShiftHas(a, 1, i);
        ShiftHas(s, 1, i);
        if 1 <= i <= k + 1 {
          ShiftHas(b, 1, k + 1 - i);
        }
      }
      assert Ways(Shift(a, 1), b, k) == Shift(s, 1);
      ShiftSize(s, 1);
    }
  }
}
