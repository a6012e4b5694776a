/** An archive of records one after another, whatever a record is: reading it from a cursor, and
    writing it again with more records merged in. */
module Records {
  import opened Bytes
  import opened Status
  import opened Merge

  /** How records are read at a place, how many bytes each takes, and how they are written. */
  datatype Codec<!E> = Codec(read: (seq<u8>, nat) -> Option<E>, size: E -> nat, encode: E -> seq<u8>,
      rank: E -> seq<nat>, whole: E -> bool)

  /** What is read lies inside the bytes, and what is written reads back wherever it is. */
  ghost predicate Sound<E(!new)>(c: Codec<E>) {
    && (forall s, at: nat {:trigger c.read(s, at)} :: c.read(s, at).Some? ==>
        c.size(c.read(s, at).value) >= 1 && at + c.size(c.read(s, at).value) <= |s|)
    && (forall pre, e, tail {:trigger c.read(pre + c.encode(e) + tail, |pre|)} ::
          c.whole(e) ==> c.read(pre + c.encode(e) + tail, |pre|) == Some(e))
    && (forall e {:trigger c.encode(e)} :: |c.encode(e)| == c.size(e))
    && Ranks(c.rank, 7)
  }

  /* ---- Reading --------------------------------------------------------------------------------------------- */

  /** The `n` records from `at` on, if there are as many. */
  function Listed<E>(c: Codec<E>, s: seq<u8>, at: nat, n: nat): (es: Option<seq<E>>)
    ensures es.Some? ==> |es.value| == n
    decreases n
  {
    if n == 0 then Some([])
    else match c.read(s, at)
      case None => None
      case Some(e) =>
        match Listed(c, s, at + c.size(e), n - 1)
        case None => None
        case Some(rest) => Some([e] + rest)
  }

  /** The first records, of `have` from `from`, are `olds`; the rest are read from `at`. */
  ghost predicate Reading<E>(c: Codec<E>, s: seq<u8>, from: nat, have: nat, at: nat, olds: seq<E>) {
    && |olds| <= have
    && var all, rest := Listed(c, s, from, have), Listed(c, s, at, have - |olds|);
       if rest.Some? then all == Some(olds + rest.value) else all.None?
  }

  lemma ReadingStarts<E>(c: Codec<E>, s: seq<u8>, from: nat, have: nat)
    ensures Reading(c, s, from, have, from, [])
  {
    var all := Listed(c, s, from, have);
    assert all.Some? ==> [] + all.value == all.value;
  }

  lemma ReadingNext<E>(c: Codec<E>, s: seq<u8>, from: nat, have: nat, at: nat, olds: seq<E>)
    requires Reading(c, s, from, have, at, olds) && |olds| < have
    ensures c.read(s, at).None? ==> Listed(c, s, from, have).None?
    ensures c.read(s, at).Some? ==> var e := c.read(s, at).value;
              && Reading(c, s, from, have, at + c.size(e), olds + [e])
              && (Listed(c, s, from, have).Some? ==> Listed(c, s, from, have).value[|olds|] == e)
  {
    if c.read(s, at).Some? {
      var e := c.read(s, at).value;
      var rest := Listed(c, s, at + c.size(e), have - |olds| - 1);
      if rest.Some? {
        assert olds + ([e] + rest.value) == (olds + [e]) + rest.value;
      }
    }
  }

  lemma ReadingEnds<E>(c: Codec<E>, s: seq<u8>, from: nat, have: nat, at: nat, olds: seq<E>)
    requires Reading(c, s, from, have, at, olds) && |olds| == have
    ensures Listed(c, s, from, have) == Some(olds)
  {
    assert olds + [] == olds;
  }

  /** Records from `at` on for as long as they read. */
  ghost function Whole<E(!new)>(c: Codec<E>, s: seq<u8>, at: nat): (es: seq<E>)
    requires Sound(c)
    decreases if at <= |s| then |s| - at else 0
  {
    match c.read(s, at)
    case None => []
    case Some(e) => [e] + Whole(c, s, at + c.size(e))
  }

  /** Any number of records an archive lists are among them. */
  lemma {:induction false} ListedWhole<E(!new)>(c: Codec<E>, s: seq<u8>, at: nat, n: nat)
    requires Sound(c)
    ensures Listed(c, s, at, n).Some? ==> n <= |Whole(c, s, at)| && Listed(c, s, at, n).value == Whole(c, s, at)[..n]
    decreases n
  {
    if n > 0 && c.read(s, at).Some? {
      ListedWhole(c, s, at + c.size(c.read(s, at).value), n - 1);
    }
  }

  /* ---- Writing ---------------------------------------------------------------------------------------------- */

  /** What `f` makes of each, one after another. */
  function Concat<E>(es: seq<E>, f: E -> seq<u8>): seq<u8> {
    if es == [] then [] else Concat(es[..|es| - 1], f) + f(es[|es| - 1])
  }

  lemma Joined<T>(a: seq<T>, b: seq<T>, c: seq<T>)
    ensures a + (b + c) == a + b + c
  {
  }

  lemma ConcatOne<E>(a: seq<E>, e: E, f: E -> seq<u8>)
    ensures Concat(a + [e], f) == Concat(a, f) + f(e)
  {
    assert (a + [e])[..|a|] == a;
  }

  lemma {:induction false} ConcatFirst<E>(es: seq<E>, f: E -> seq<u8>)
    requires es != []
    ensures Concat(es, f) == f(es[0]) + Concat(es[1..], f)
  {
    if |es| > 1 {
      var front, last := es[..|es| - 1], es[|es| - 1];
      ConcatFirst(front, f);
      assert front[1..] == es[1..][..|es| - 2] && es[1..][|es| - 2] == last;
      Joined(f(es[0]), Concat(front[1..], f), f(last));
    } else {
      assert es[..0] == [] && es[1..] == [];
    }
  }

  predicate AllWhole<E>(c: Codec<E>, es: seq<E>) {
    forall i {:trigger es[i]} :: 0 <= i < |es| ==> c.whole(es[i])
  }

  /** Records written one after another are listed back. */
  lemma {:induction false} ListedReads<E(!new)>(c: Codec<E>, pre: seq<u8>, es: seq<E>)
    requires Sound(c) && AllWhole(c, es)
    ensures Listed(c, pre + Concat(es, c.encode), |pre|, |es|) == Some(es)
    decreases |es|
  {
    if es != [] {
      var b, rest := c.encode(es[0]), Concat(es[1..], c.encode);
      ConcatFirst(es, c.encode);
      Joined(pre, b, rest);
      assert c.read(pre + b + rest, |pre|) == Some(es[0]);
      ListedReads(c, pre + b, es[1..]);
      assert es == [es[0]] + es[1..];
    }
  }

  /* ---- Writing with more records merged in -------------------------------------------------------------------- */

  /** Puts the new records that come before `e`, then `e`. */
  method Place<E>(c: Codec<E>, head: seq<u8>, news: seq<E>, out: seq<u8>, from: nat, e: E, ghost placed: seq<E>)
    returns (r: seq<u8>, next: nat)
    requires from <= |news| && out == head + Concat(placed, c.encode)
    ensures next == Passed(c.rank, news, from, e)
    ensures r == head + Concat(placed + news[from..next] + [e], c.encode)
  {
    r, next := out, from;
    ghost var now := placed;
    assert news[from..from] == [] && placed + [] == placed;
    while next < |news| && Before(c.rank, news[next], e)
      invariant from <= next <= |news| && Passed(c.rank, news, next, e) == Passed(c.rank, news, from, e)
      invariant now == placed + news[from..next] && r == head + Concat(now, c.encode)
    {
      ConcatOne(now, news[next], c.encode);
      Joined(head, Concat(now, c.encode), c.encode(news[next]));
      r := r + c.encode(news[next]);
      assert news[from..next + 1] == news[from..next] + [news[next]];
      now := now + [news[next]];
      next := next + 1;
    }
    ConcatOne(now, e, c.encode);
    Joined(head, Concat(now, c.encode), c.encode(e));
    r := r + c.encode(e);
  }

  /** Puts what is left of the new records at the end. */
  method PlaceRest<E>(c: Codec<E>, head: seq<u8>, news: seq<E>, out: seq<u8>, from: nat, ghost placed: seq<E>)
    returns (r: seq<u8>)
    requires from <= |news| && out == head + Concat(placed, c.encode)
    ensures r == head + Concat(placed + news[from..], c.encode)
  {
    r := out;
    ghost var now := placed;
    assert news[from..from] == [] && placed + [] == placed;
    for next := from to |news|
      invariant now == placed + news[from..next] && r == head + Concat(now, c.encode)
    {
      ConcatOne(now, news[next], c.encode);
      Joined(head, Concat(now, c.encode), c.encode(news[next]));
      r := r + c.encode(news[next]);
      assert news[from..next + 1] == news[from..next] + [news[next]];
      now := now + [news[next]];
    }
    assert news[from..|news|] == news[from..];
  }

  /** Whether one of the new records ranks as `e` does. */
  method Taken<E>(c: Codec<E>, news: seq<E>, e: E) returns (taken: bool)
    ensures taken <==> exists i {:trigger news[i]} :: 0 <= i < |news| && Compare(c.rank, news[i], e) == 0
  {
    for i := 0 to |news|
      invariant forall j {:trigger news[j]} :: 0 <= j < i ==> Compare(c.rank, news[j], e) != 0
    {
      if Compare(c.rank, news[i], e) == 0 {
        return true;
      }
    }
    return false;
  }

  /** The archive's `have` records from `from` on are `olds`, all whole, and no new one ranks as one
      of them. */
  ghost predicate Mergeable<E>(c: Codec<E>, s: seq<u8>, from: nat, have: nat, news: seq<E>, olds: seq<E>) {
    Listed(c, s, from, have) == Some(olds) && AllWhole(c, olds) && Fresh(c.rank, news, olds)
  }

  ghost predicate NeverMergeable<E(!new)>(c: Codec<E>, s: seq<u8>, from: nat, have: nat, news: seq<E>) {
    forall olds {:trigger Mergeable(c, s, from, have, news, olds)} :: !Mergeable(c, s, from, have, news, olds)
  }

  lemma BadRecord<E(!new)>(c: Codec<E>, s: seq<u8>, from: nat, have: nat, at: nat, news: seq<E>, olds: seq<E>)
    requires Reading(c, s, from, have, at, olds) && |olds| < have
    requires match c.read(s, at)
             case None => true
             case Some(e) =>
               !c.whole(e) || exists i {:trigger news[i]} :: 0 <= i < |news| && Compare(c.rank, news[i], e) == 0
    ensures NeverMergeable(c, s, from, have, news)
  {
    ReadingNext(c, s, from, have, at, olds);
    forall all ensures !Mergeable(c, s, from, have, news, all) {
      if Listed(c, s, from, have) == Some(all) {
        assert all[|olds|] == c.read(s, at).value;
      }
    }
  }

  /** Where the merge has come to once `olds` are placed. */
  ghost predicate Weaving<E>(c: Codec<E>, news: seq<E>, next: nat, bytes: seq<u8>, head: seq<u8>, olds: seq<E>) {
    && AllWhole(c, olds) && Fresh(c.rank, news, olds)
    && next == Used(c.rank, olds, |olds|, news) && bytes == head + Concat(Woven(c.rank, olds, |olds|, news), c.encode)
  }

  lemma WeavingNext<E>(c: Codec<E>, news: seq<E>, next: nat, bytes: seq<u8>, head: seq<u8>, olds: seq<E>, e: E,
                       next': nat, bytes': seq<u8>)
    requires Weaving(c, news, next, bytes, head, olds) && c.whole(e)
    requires !exists i {:trigger news[i]} :: 0 <= i < |news| && Compare(c.rank, news[i], e) == 0
    requires next' == Passed(c.rank, news, next, e)
    requires bytes' == head + Concat(Woven(c.rank, olds, |olds|, news) + news[next..next'] + [e], c.encode)
    ensures Weaving(c, news, next', bytes', head, olds + [e])
  {
    WovenNext(c.rank, olds, e, news);
    FreshNext(c.rank, olds, e, news);
  }

  /** Reads the next record and places it; not when it does not read or is not whole, or a new one
      ranks as it does. */
  method PlaceNext<E(!new)>(c: Codec<E>, s: seq<u8>, from: nat, have: nat, at: nat, head: seq<u8>, bytes: seq<u8>,
                     news: seq<E>, next: nat,
                            ghost olds: seq<E>)
    returns (e: Option<E>, r: seq<u8>, next': nat)
    requires |olds| < have && next <= |news| && Reading(c, s, from, have, at, olds)
      && Weaving(c, news, next, bytes, head, olds)
    ensures e.None? ==> NeverMergeable(c, s, from, have, news)
    ensures e.Some? ==> next' <= |news| && Reading(c, s, from, have, at + c.size(e.value), olds + [e.value])
    ensures e.Some? ==> Weaving(c, news, next', r, head, olds + [e.value])
  {
    r, next' := bytes, next;
    e := c.read(s, at);
    if e.None? || !c.whole(e.value) {
      BadRecord(c, s, from, have, at, news, olds);
      return None, r, next';
    }
    var taken := Taken(c, news, e.value);
    if taken {
      BadRecord(c, s, from, have, at, news, olds);
      return None, r, next';
    }
    ReadingNext(c, s, from, have, at, olds);
    r, next' := Place(c, head, news, bytes, next, e.value, Woven(c.rank, olds, |olds|, news));
    WeavingNext(c, news, next, bytes, head, olds, e.value, next', r);
  }

  /** The `have` records from `from` on written after `head` with the new ones merged in; nothing when
      one does not read or is not whole, or a new one ranks as it does. */
  method Rewrite<E(!new)>(c: Codec<E>, s: seq<u8>, from: nat, have: nat, head: seq<u8>, news: seq<E>)
    returns (out: Option<seq<u8>>, ghost olds: seq<E>)
    ensures out.None? ==> NeverMergeable(c, s, from, have, news)
    ensures out.Some? ==>
      Mergeable(c, s, from, have, news, olds) && out.value == head + Concat(Merged(c.rank, olds, news), c.encode)
  {
    var bytes, at: nat, next: nat := head, from, 0;
    olds := [];
    assert Concat<E>([], c.encode) == [] && head + [] == head;
    ReadingStarts(c, s, from, have);
    for i := 0 to have
      invariant |olds| == i && next <= |news| && Reading(c, s, from, have, at, olds)
        && Weaving(c, news, next, bytes, head, olds)
    {
      var e;
      e, bytes, next := PlaceNext(c, s, from, have, at, head, bytes, news, next, olds);
      if e.None? {
        return None, olds;
      }
      olds := olds + [e.value];
      at := at + c.size(e.value);
    }
    ReadingEnds(c, s, from, have, at, olds);
    bytes := PlaceRest(c, head, news, bytes, next, Woven(c.rank, olds, have, news));
    return Some(bytes), olds;
  }

  /* ---- The highest number -------------------------------------------------------------------------------------- */

  /** No number of the first `n` records is past `top`. */
  ghost predicate UpTo<E>(es: seq<E>, n: nat, id: E -> Option<nat>, top: nat) {
    n <= |es| && forall i {:trigger es[i]} :: 0 <= i < n && id(es[i]).Some? ==> id(es[i]).value <= top
  }

  lemma WholeNext<E(!new)>(c: Codec<E>, s: seq<u8>, at: nat, all: seq<E>, seen: nat)
    requires Sound(c) && seen <= |all| && Whole(c, s, at) == all[seen..] && c.read(s, at).Some?
    ensures var e := c.read(s, at).value;
      seen < |all| && all[seen] == e && Whole(c, s, at + c.size(e)) == all[seen + 1..]
  {
    assert all[seen] == all[seen..][0] && all[seen..][1..] == all[seen + 1..];
  }

  /** One of the first `n` records has the number. */
  ghost predicate Numbers<E(!new)>(all: seq<E>, n: nat, id: E -> Option<nat>, top: nat)
    requires n <= |all|
  {
    exists i {:trigger all[i]} :: 0 <= i < n && id(all[i]) == Some(top)
  }

  ghost predicate HasNumber<E(!new)>(all: seq<E>, id: E -> Option<nat>, top: nat) {
    Numbers(all, |all|, id, top)
  }

  /** The highest of `start` and the records' numbers. */
  method Highest<E(!new)>(c: Codec<E>, s: seq<u8>, from: nat, id: E -> Option<nat>, start: nat) returns (top: nat)
    requires Sound(c)
    ensures top >= start && UpTo(Whole(c, s, from), |Whole(c, s, from)|, id, top)
    ensures top == start || HasNumber(Whole(c, s, from), id, top)
  {
    top := start;
    var at := from;
    ghost var all, seen := Whole(c, s, from), 0;
    while c.read(s, at).Some?
      invariant 0 <= seen <= |all| && Whole(c, s, at) == all[seen..]
      invariant top >= start && UpTo(all, seen, id, top) && (top == start || Numbers(all, seen, id, top))
      decreases if at <= |s| then |s| - at else 0
    {
      WholeNext(c, s, at, all, seen);
      var e := c.read(s, at).value;
      if id(e).Some? && id(e).value > top {
        top := id(e).value;
      }
      at := at + c.size(e);
      seen := seen + 1;
    }
    assert all[seen..] == [];
  }
}
