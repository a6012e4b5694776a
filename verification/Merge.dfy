/** Merging entries in the order of their ranks: numbers compared from the first one on. */
module Merge {

  /** Compares from the `i`th number on: -1, 0 or 1. */
  function Order(a: seq<nat>, b: seq<nat>, i: nat): (o: int)
    ensures -1 <= o <= 1
    decreases |a| - i
  {
    if i >= |a| || i >= |b| then 0 else if a[i] != b[i] then (if a[i] < b[i] then -1 else 1) else Order(a, b, i + 1)
  }

  lemma {:induction false} OrderFlips(a: seq<nat>, b: seq<nat>, i: nat)
    ensures Order(b, a, i) == -Order(a, b, i)
    decreases |a| - i
  {
    if i < |a| && i < |b| && a[i] == b[i] {
      OrderFlips(a, b, i + 1);
    }
  }

  lemma {:induction false} OrderChains(a: seq<nat>, b: seq<nat>, c: seq<nat>, i: nat)
    requires |a| == |b| == |c| && Order(a, b, i) < 0 && Order(b, c, i) <= 0
    ensures Order(a, c, i) < 0
    decreases |a| - i
  {
    if a[i] == b[i] && b[i] == c[i] {
      OrderChains(a, b, c, i + 1);
    }
  }

  /** Every rank has as many numbers. */
  ghost predicate Ranks<T(!new)>(rank: T -> seq<nat>, n: nat) {
    forall x {:trigger rank(x)} :: |rank(x)| == n
  }

  function Compare<T>(rank: T -> seq<nat>, a: T, b: T): (o: int)
    ensures -1 <= o <= 1
  {
    Order(rank(a), rank(b), 0)
  }

  predicate Before<T>(rank: T -> seq<nat>, a: T, b: T) {
    Compare(rank, a, b) < 0
  }

  predicate Ascending<T>(rank: T -> seq<nat>, es: seq<T>) {
    forall i, j {:trigger es[i], es[j]} :: 0 <= i < j < |es| ==> Before(rank, es[i], es[j])
  }

  /** No new rank is one of the old. */
  predicate Fresh<T>(rank: T -> seq<nat>, news: seq<T>, olds: seq<T>) {
    forall i, j {:trigger news[i], olds[j]} :: 0 <= i < |news| && 0 <= j < |olds| ==>
      Compare(rank, news[i], olds[j]) != 0
  }

  /* ---- The merge ----------------------------------------------------------------------------------------- */

  /** How many of the new entries, from the `k`th, come before `e`. */
  function Passed<T>(rank: T -> seq<nat>, news: seq<T>, k: nat, e: T): (m: nat)
    requires k <= |news|
    ensures k <= m <= |news|
    decreases |news| - k
  {
    if k < |news| && Before(rank, news[k], e) then Passed(rank, news, k + 1, e) else k
  }

  lemma {:induction false} PassedIs<T>(rank: T -> seq<nat>, news: seq<T>, k: nat, e: T)
    requires k <= |news|
    ensures var m := Passed(rank, news, k, e);
            && (forall i {:trigger news[i]} :: k <= i < m ==> Before(rank, news[i], e))
            && (m < |news| ==> !Before(rank, news[m], e))
    decreases |news| - k
  {
    if k < |news| && Before(rank, news[k], e) {
      PassedIs(rank, news, k + 1, e);
    }
  }

  /** How many of the new are placed once the first `n` old are. */
  function Used<T>(rank: T -> seq<nat>, olds: seq<T>, n: nat, news: seq<T>): (k: nat)
    requires n <= |olds|
    ensures k <= |news|
  {
    if n == 0 then 0 else Passed(rank, news, Used(rank, olds, n - 1, news), olds[n - 1])
  }

  /** The first `n` old entries, each after the new ones that come before it. */
  function Woven<T>(rank: T -> seq<nat>, olds: seq<T>, n: nat, news: seq<T>): (es: seq<T>)
    requires n <= |olds|
    ensures |es| == n + Used(rank, olds, n, news)
  {
    if n == 0 then []
    else Woven(rank, olds, n - 1, news) + news[Used(rank, olds, n - 1, news)..Used(rank, olds, n, news)] + [olds[n - 1]]
  }

  function Merged<T>(rank: T -> seq<nat>, olds: seq<T>, news: seq<T>): (es: seq<T>)
    ensures |es| == |olds| + |news|
  {
    Woven(rank, olds, |olds|, news) + news[Used(rank, olds, |olds|, news)..]
  }

  lemma SumParts<T>(w: seq<T>, mid: seq<T>, x: T, olds: seq<T>, n: nat, news: seq<T>, a: nat, b: nat)
    requires 0 < n <= |olds| && x == olds[n - 1] && a <= b <= |news| && mid == news[a..b]
    requires multiset(w) == multiset(olds[..n - 1]) + multiset(news[..a])
    ensures multiset(w + mid + [x]) == multiset(olds[..n]) + multiset(news[..b])
  {
    assert olds[..n] == olds[..n - 1] + [x] && news[..b] == news[..a] + mid;
  }

  /** Nothing is lost and nothing comes twice. */
  lemma {:induction false} WovenHolds<T>(rank: T -> seq<nat>, olds: seq<T>, n: nat, news: seq<T>)
    requires n <= |olds|
    ensures multiset(Woven(rank, olds, n, news)) == multiset(olds[..n]) + multiset(news[..Used(rank, olds, n, news)])
  {
    if n == 0 {
      assert olds[..0] == [] && news[..0] == [];
    } else {
      WovenHolds(rank, olds, n - 1, news);
      var a, b := Used(rank, olds, n - 1, news), Used(rank, olds, n, news);
      SumParts(Woven(rank, olds, n - 1, news), news[a..b], olds[n - 1], olds, n, news, a, b);
    }
  }

  lemma MergedHolds<T>(rank: T -> seq<nat>, olds: seq<T>, news: seq<T>)
    ensures multiset(Merged(rank, olds, news)) == multiset(olds) + multiset(news)
  {
    WovenHolds(rank, olds, |olds|, news);
    var k := Used(rank, olds, |olds|, news);
    assert news == news[..k] + news[k..] && olds == olds[..|olds|];
  }

  lemma BeforeChains<T(!new)>(rank: T -> seq<nat>, n: nat, a: T, b: T, c: T)
    requires Ranks(rank, n) && Before(rank, a, b) && (Before(rank, b, c) || b == c)
    ensures Before(rank, a, c)
  {
    if b != c {
      OrderChains(rank(a), rank(b), rank(c), 0);
    }
  }

  /** New entries not placed yet come after every old one placed. */
  lemma LeftAfter<T(!new)>(rank: T -> seq<nat>, r: nat, olds: seq<T>, n: nat, news: seq<T>, k: nat)
    requires Ranks(rank, r) && Ascending(rank, news) && Fresh(rank, news, olds) && 0 < n <= |olds|
    requires Used(rank, olds, n, news) <= k < |news|
    ensures Before(rank, olds[n - 1], news[k])
  {
    var last, m := olds[n - 1], Used(rank, olds, n, news);
    OrderFlips(rank(last), rank(news[m]), 0);
    PassedIs(rank, news, Used(rank, olds, n - 1, news), last);
    assert !Before(rank, news[m], last) && Compare(rank, news[m], last) != 0;
    if m < k {
      BeforeChains(rank, r, last, news[m], news[k]);
    }
  }

  predicate AtMost<T(==)>(rank: T -> seq<nat>, e: T, last: T) {
    e == last || Before(rank, e, last)
  }

  predicate AllAtMost<T(==)>(rank: T -> seq<nat>, es: seq<T>, last: T) {
    forall i {:trigger es[i]} :: 0 <= i < |es| ==> AtMost(rank, es[i], last)
  }

  /** Every entry of `a` comes before every one of `b`. */
  predicate Apart<T>(rank: T -> seq<nat>, a: seq<T>, b: seq<T>) {
    forall i, j {:trigger a[i], b[j]} :: 0 <= i < |a| && 0 <= j < |b| ==> Before(rank, a[i], b[j])
  }

  lemma AscendingJoin<T>(rank: T -> seq<nat>, a: seq<T>, b: seq<T>)
    requires Ascending(rank, a) && Ascending(rank, b) && Apart(rank, a, b)
    ensures Ascending(rank, a + b)
  {
  }

  lemma ApartAfter<T(!new)>(rank: T -> seq<nat>, r: nat, w: seq<T>, last: T, b: seq<T>)
    requires Ranks(rank, r) && AllAtMost(rank, w, last)
    requires forall j {:trigger b[j]} :: 0 <= j < |b| ==> Before(rank, last, b[j])
    ensures Apart(rank, w, b)
  {
    forall i, j | 0 <= i < |w| && 0 <= j < |b| ensures Before(rank, w[i], b[j]) {
      if w[i] != last {
        BeforeChains(rank, r, w[i], last, b[j]);
      }
    }
  }

  /** What is placed comes before the new entries left and the old ones to come. */
  lemma WovenApart<T(!new)>(rank: T -> seq<nat>, r: nat, olds: seq<T>, n: nat, news: seq<T>, w: seq<T>, hi: nat)
    requires Ranks(rank, r) && Ascending(rank, olds) && Ascending(rank, news) && Fresh(rank, news, olds)
    requires 0 < n <= |olds| && Used(rank, olds, n, news) <= hi <= |news| && AllAtMost(rank, w, olds[n - 1])
    ensures Apart(rank, w, news[Used(rank, olds, n, news)..hi])
    ensures n < |olds| ==> Apart(rank, w, [olds[n]])
  {
    var left := news[Used(rank, olds, n, news)..hi];
    forall j | 0 <= j < |left| ensures Before(rank, olds[n - 1], left[j]) {
      LeftAfter(rank, r, olds, n, news, Used(rank, olds, n, news) + j);
    }
    ApartAfter(rank, r, w, olds[n - 1], left);
    if n < |olds| {
      ApartAfter(rank, r, w, olds[n - 1], [olds[n]]);
    }
  }

  lemma WeaveNext<T>(rank: T -> seq<nat>, w: seq<T>, mid: seq<T>, last: T)
    requires Ascending(rank, w) && Ascending(rank, mid) && Apart(rank, w, mid)
    requires Apart(rank, w, [last]) && forall i {:trigger mid[i]} :: 0 <= i < |mid| ==> Before(rank, mid[i], last)
    ensures Ascending(rank, w + mid + [last])
    ensures forall i {:trigger (w + mid + [last])[i]} :: 0 <= i < |w| + |mid| ==>
      Before(rank, (w + mid + [last])[i], last)
  {
    var one := [last];
    assert forall i {:trigger w[i]} :: 0 <= i < |w| ==> Before(rank, w[i], one[0]);
    AscendingJoin(rank, w, mid);
    AscendingJoin(rank, w + mid, one);
  }

  /** What is placed so far ascends, up to the last old entry placed. */
  lemma {:induction false} WovenAscends<T(!new)>(rank: T -> seq<nat>, r: nat, olds: seq<T>, n: nat, news: seq<T>)
    requires Ranks(rank, r) && Ascending(rank, olds) && Ascending(rank, news) && Fresh(rank, news, olds) && n <= |olds|
    ensures Ascending(rank, Woven(rank, olds, n, news))
    ensures n > 0 ==> AllAtMost(rank, Woven(rank, olds, n, news), olds[n - 1])
  {
    if n > 0 {
      WovenAscends(rank, r, olds, n - 1, news);
      var w, last := Woven(rank, olds, n - 1, news), olds[n - 1];
      var mid := news[Used(rank, olds, n - 1, news)..Used(rank, olds, n, news)];
      if n > 1 {
        WovenApart(rank, r, olds, n - 1, news, w, Used(rank, olds, n, news));
      }
      PassedIs(rank, news, Used(rank, olds, n - 1, news), last);
      WeaveNext(rank, w, mid, last);
    }
  }

  /** The merge of ascending entries ascends. */
  lemma MergedAscends<T(!new)>(rank: T -> seq<nat>, r: nat, olds: seq<T>, news: seq<T>)
    requires Ranks(rank, r) && Ascending(rank, olds) && Ascending(rank, news) && Fresh(rank, news, olds)
    ensures Ascending(rank, Merged(rank, olds, news))
  {
    WovenAscends(rank, r, olds, |olds|, news);
    var w, left := Woven(rank, olds, |olds|, news), news[Used(rank, olds, |olds|, news)..];
    if olds != [] {
      WovenApart(rank, r, olds, |olds|, news, w, |news|);
    }
    AscendingJoin(rank, w, left);
  }

  /** Old entries to come do not matter to the ones placed. */
  lemma {:induction false} WovenPrefix<T>(rank: T -> seq<nat>, olds: seq<T>, more: seq<T>, n: nat, news: seq<T>)
    requires n <= |olds|
    ensures Used(rank, olds + more, n, news) == Used(rank, olds, n, news)
    ensures Woven(rank, olds + more, n, news) == Woven(rank, olds, n, news)
  {
    if n > 0 {
      WovenPrefix(rank, olds, more, n - 1, news);
      assert (olds + more)[n - 1] == olds[n - 1];
    }
  }

  /** One more old entry is placed after the new ones that come before it. */
  lemma WovenNext<T>(rank: T -> seq<nat>, olds: seq<T>, e: T, news: seq<T>)
    ensures var from, next := Used(rank, olds, |olds|, news), Passed(rank, news, Used(rank, olds, |olds|, news), e);
            && Used(rank, olds + [e], |olds| + 1, news) == next
            && Woven(rank, olds + [e], |olds| + 1, news) == Woven(rank, olds, |olds|, news) + news[from..next] + [e]
  {
    WovenPrefix(rank, olds, [e], |olds|, news);
  }

  lemma FreshNext<T>(rank: T -> seq<nat>, olds: seq<T>, e: T, news: seq<T>)
    requires Fresh(rank, news, olds)
      && !exists i {:trigger news[i]} :: 0 <= i < |news| && Compare(rank, news[i], e) == 0
    ensures Fresh(rank, news, olds + [e])
  {
  }
}
