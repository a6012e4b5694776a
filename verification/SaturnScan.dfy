/** Walking a Saturn volume: the cursor that reads a save's stream while the list of
    blocks it reads from is still growing, and the scan that gives every block its owner. */
module SaturnScan {
  import opened Bytes
  import opened SaturnVolume
  import Chains

  /* ---- The cursor -------------------------------------------------------------------------- */

  lemma Parts<T>(a: seq<T>, b: seq<T>)
    ensures (a + b)[..|a|] == a && (a + b)[|a|..] == b
  {
  }

  lemma Join3<T>(a: seq<T>, b: seq<T>, c: seq<T>)
    ensures a + (b + c) == (a + b) + c
  {
  }

  class Cursor {
    const v: seq<seq<u8>>
    const bs: nat
    const archive: nat
    var list: seq<nat>
    var link: nat
    var off: nat

    ghost predicate Valid()
      reads this
    {
      && Shaped(v, bs) && archive < |v| && Inside(list, |v|)
      && link <= |list| && HEADER <= off <= bs
    }

    function Block(): (b: nat)
      requires Valid()
      reads this
      ensures b < |v|
    {
      if link == 0 then archive else list[link - 1]
    }

    /** What is still to be read: the rest of this block, then the listed blocks after it. */
    ghost function Rest(): seq<u8>
      requires Valid()
      reads this
    {
      v[Block()][off..] + Tail(v, bs, list, link)
    }

    constructor (v: seq<seq<u8>>, bs: nat, archive: nat, list: seq<nat>)
      requires Shaped(v, bs) && archive < |v| && Inside(list, |v|)
      ensures Valid() && this.v == v && this.bs == bs && this.archive == archive && this.list == list
      ensures Rest() == Stream(v, bs, archive, list)
    {
      this.v, this.bs, this.archive, this.list := v, bs, archive, list;
      link, off := 0, LIST_AT;
    }

    /** Another block listed: its payload joins the end of what is to be read. */
    method Add(block: nat)
      requires Valid() && block < |v|
      modifies this
      ensures Valid() && list == old(list) + [block] && Rest() == old(Rest()) + v[block][HEADER..]
    {
      TailSnoc(v, bs, list, block, link);
      list := list + [block];
    }

    /** Goes on to the next listed block at the end of one. */
    method NextBlock()
      requires Valid() && off == bs && link < |list|
      modifies this`link, this`off
      ensures Valid() && link == old(link) + 1 && off == HEADER && Rest() == old(Rest())
    {
      assert v[Block()][off..] == [];
      link := link + 1;
      off := HEADER;
    }

    /** Reads up to the end of the block. */
    method Part(take: nat) returns (part: seq<u8>)
      requires Valid() && off + take <= bs
      modifies this`off
      ensures Valid() && off == old(off) + take
      ensures |part| == take && old(Rest()) == part + Rest()
    {
      part := v[Block()][off..off + take];
      assert v[Block()][off..] == part + v[Block()][off + take..];
      Join3(part, v[Block()][off + take..], Tail(v, bs, list, link));
      off := off + take;
    }

    /** Reads `n` bytes, going on into the next listed block as each one ends. */
    method Read(n: nat) returns (ok: bool, bytes: seq<u8>)
      requires Valid()
      modifies this`link, this`off
      ensures Valid() && ok == (n <= |old(Rest())|)
      ensures ok ==> bytes == old(Rest())[..n] && Rest() == old(Rest())[n..]
    {
      bytes := [];
      var left := n;
      ghost var all := Rest();
      while left > 0
        invariant Valid() && left >= 0 && left + |bytes| == n && all == bytes + Rest()
        decreases left, |list| - link
      {
        if off == bs {
          if link >= |list| {
            assert Rest() == [] && |all| == |bytes|;
            ok := false;
            return;
          }
          NextBlock();
        }
        var take := bs - off;
        if take > left {
          take := left;
        }
        var part := Part(take);
        Join3(bytes, part, Rest());
        bytes := bytes + part;
        left := left - take;
      }
      ok := true;
      assert |bytes| == n;
      Parts(bytes, Rest());
    }

    /** How much is still to be read. */
    method Left() returns (n: nat)
      requires Valid()
      ensures n == |Rest()|
    {
      TailLength(v, bs, list, link);
      n := (bs - off) + (|list| - link) * (bs - HEADER);
    }
  }

  /* ---- Parsing one save -------------------------------------------------------------------- */

  ghost predicate AllFree(owner: seq<nat>, list: seq<nat>) {
    forall i {:trigger list[i]} :: 0 <= i < |list| ==> list[i] < |owner| && owner[list[i]] == 0
  }

  /** `w` is `o` with the listed blocks owned by `m`. */
  ghost predicate Marked(o: seq<nat>, w: seq<nat>, list: seq<nat>, m: nat) {
    |w| == |o| && forall b {:trigger w[b]} :: 0 <= b < |o| ==> w[b] == if b in list then m else o[b]
  }

  /** A block list the archive block could have, all of whose blocks are still free. */
  ghost predicate Candidate(v: seq<seq<u8>>, bs: nat, a: nat, owner: seq<nat>, list: seq<nat>)
    requires Shaped(v, bs)
  {
    IsList(v, bs, a, list) && AllFree(owner, list)
  }

  ghost predicate NoCandidate(v: seq<seq<u8>>, bs: nat, a: nat, owner: seq<nat>)
    requires Shaped(v, bs)
  {
    forall list {:trigger Candidate(v, bs, a, owner, list)} :: !Candidate(v, bs, a, owner, list)
  }

  /** The list as far as it has been read: every candidate begins with it. */
  ghost predicate ReadSoFar(v: seq<seq<u8>>, bs: nat, a: nat, owner: seq<nat>, list: seq<nat>)
    requires Shaped(v, bs) && a < |v|
  {
    && Inside(list, |v|) && Chains.Distinct(list) && AllFree(owner, list)
    && (forall i {:trigger list[i]} :: 0 <= i < |list| ==> Listable(v, bs, list[i]))
    && (forall i {:trigger list[i]} :: 0 <= i < |list| ==>
          2 * i + 2 <= |Stream(v, bs, a, list)| && Be16(Stream(v, bs, a, list), 2 * i) == list[i] && list[i] != 0)
    && (forall l {:trigger Candidate(v, bs, a, owner, l)} :: Candidate(v, bs, a, owner, l) ==>
        |list| <= |l| && l[..|list|] == list)
  }

  /** The next entry of the stream is the next block of every candidate, or ends it. */
  lemma NextEntry(v: seq<seq<u8>>, bs: nat, a: nat, owner: seq<nat>, list: seq<nat>, block: nat, l: seq<nat>)
    requires Shaped(v, bs) && a < |v| && ReadSoFar(v, bs, a, owner, list) && Candidate(v, bs, a, owner, l)
    requires |Stream(v, bs, a, list)| >= 2 * |list| + 2 && block == Be16(Stream(v, bs, a, list), 2 * |list|)
    ensures block == 0 ==> l == list
    ensures block != 0 ==> |l| > |list| && l[|list|] == block
  {
    EntryEarly(v, bs, a, l, |list|);
    assert |list| < |l| ==> l[|list|] != 0;
    if block == 0 {
      assert |l| == |list|;
    }
  }

  lemma ReadOneMore(v: seq<seq<u8>>, bs: nat, a: nat, owner: seq<nat>, list: seq<nat>, block: nat)
    requires Shaped(v, bs) && a < |v| && ReadSoFar(v, bs, a, owner, list)
    requires |Stream(v, bs, a, list)| >= 2 * |list| + 2 && block == Be16(Stream(v, bs, a, list), 2 * |list|)
    requires Listable(v, bs, block) && block < |owner| && owner[block] == 0 && block !in list
    ensures ReadSoFar(v, bs, a, owner, list + [block])
  {
    var u := list + [block];
    StreamSnoc(v, bs, a, list, block);
    forall i | 0 <= i < |u|
      ensures 2 * i + 2 <= |Stream(v, bs, a, u)| && Be16(Stream(v, bs, a, u), 2 * i) == u[i] && u[i] != 0
    {
      if i < |list| {
        assert list[i] == u[i];
      }
    }
    forall l | Candidate(v, bs, a, owner, l) ensures |u| <= |l| && l[..|u|] == u {
      NextEntry(v, bs, a, owner, list, block, l);
      assert l[..|u|] == l[..|list|] + [l[|list|]];
    }
  }

  /** An entry the walk refuses is one no candidate can hold. */
  lemma Refused(v: seq<seq<u8>>, bs: nat, a: nat, owner: seq<nat>, list: seq<nat>, block: nat)
    requires Shaped(v, bs) && a < |v| && ReadSoFar(v, bs, a, owner, list)
    requires |Stream(v, bs, a, list)| >= 2 * |list| + 2 && block == Be16(Stream(v, bs, a, list), 2 * |list|)
      && block != 0
    requires !(Listable(v, bs, block) && block < |owner| && owner[block] == 0 && block !in list)
    ensures NoCandidate(v, bs, a, owner)
  {
    forall l ensures !Candidate(v, bs, a, owner, l) {
      if Candidate(v, bs, a, owner, l) {
        NextEntry(v, bs, a, owner, list, block, l);
      }
    }
  }

  lemma TooShort(v: seq<seq<u8>>, bs: nat, a: nat, owner: seq<nat>, list: seq<nat>)
    requires Shaped(v, bs) && a < |v| && ReadSoFar(v, bs, a, owner, list)
    requires |Stream(v, bs, a, list)| >= 2 * |list| + 2 && Be16(Stream(v, bs, a, list), 2 * |list|) == 0
    requires |Stream(v, bs, a, list)| < 2 * |list| + 2 + Size(v, bs, a)
    ensures NoCandidate(v, bs, a, owner)
  {
    forall l ensures !Candidate(v, bs, a, owner, l) {
      if Candidate(v, bs, a, owner, l) {
        NextEntry(v, bs, a, owner, list, 0, l);
      }
    }
  }

  lemma MarkedMore(o: seq<nat>, w: seq<nat>, list: seq<nat>, block: nat, m: nat)
    requires Marked(o, w, list, m) && block < |o|
    ensures Marked(o, w[block := m], list + [block], m)
  {
  }

  /** The cursor stands at entry `k` of the list it is reading. */
  ghost predicate AtEntry(c: Cursor, k: nat)
    reads c
  {
    c.Valid() && |c.list| == k && 2 * k + 2 <= |Stream(c.v, c.bs, c.archive, c.list)|
    && c.Rest() == Stream(c.v, c.bs, c.archive, c.list)[2 * k..]
  }

  /** Reads entry `k`. */
  method ReadEntry(c: Cursor, ghost k: nat) returns (block: nat)
    requires AtEntry(c, k)
    modifies c`link, c`off
    ensures c.Valid() && block == Be16(Stream(c.v, c.bs, c.archive, c.list), 2 * k) && block < 0x1_0000
    ensures c.Rest() == Stream(c.v, c.bs, c.archive, c.list)[2 * k + 2..]
  {
    ghost var s := Stream(c.v, c.bs, c.archive, c.list);
    var got, raw := c.Read(2);
    assert s[2 * k..][..2] == s[2 * k..2 * k + 2] && s[2 * k..][2..] == s[2 * k + 2..];
    block := Be16(raw, 0);
  }

  /** Lists the block just read, and so reaches the next entry. */
  method Claim(c: Cursor, block: nat, ghost k: nat)
    requires c.Valid() && |c.list| == k && block < |c.v| && 2 * k + 2 <= |Stream(c.v, c.bs, c.archive, c.list)|
    requires c.Rest() == Stream(c.v, c.bs, c.archive, c.list)[2 * k + 2..]
    modifies c
    ensures c.list == old(c.list) + [block] && AtEntry(c, k + 1)
  {
    ghost var s := Stream(c.v, c.bs, c.archive, c.list);
    StreamSnoc(c.v, c.bs, c.archive, c.list, block);
    c.Add(block);
    StreamLength(c.v, c.bs, c.archive, c.list);
    assert (s + c.v[block][HEADER..])[2 * k + 2..] == s[2 * k + 2..] + c.v[block][HEADER..];
  }

  /** The list has been read to its end, and `rest` is what follows it. */
  ghost predicate Terminated(v: seq<seq<u8>>, bs: nat, a: nat, list: seq<nat>, rest: seq<u8>)
    requires Shaped(v, bs) && a < |v| && Inside(list, |v|)
  {
    var s := Stream(v, bs, a, list);
    |s| >= 2 * |list| + 2 && rest == s[2 * |list| + 2..] && Be16(s, 2 * |list|) == 0
  }

  /** Takes the next entry of the list: its end, a block that is claimed and listed, or one that is refused. */
  method ListNext(c: Cursor, owner: array<nat>, list: seq<nat>, ghost o: seq<nat>)
    returns (ok: bool, more: bool, next: seq<nat>)
    requires AtEntry(c, |list|) && c.list == list && owner.Length == |c.v| && Mark(c.v[c.archive]) != 0
    requires ReadSoFar(c.v, c.bs, c.archive, o, list) && Marked(o, owner[..], list, c.archive + 1)
    modifies c, owner
    ensures c.Valid() && c.list == next && ReadSoFar(c.v, c.bs, c.archive, o, next)
      && Marked(o, owner[..], next, c.archive + 1)
    ensures if more then ok && |list| < |next| <= |c.v| && AtEntry(c, |next|) else next == list
    ensures !more && ok ==> Terminated(c.v, c.bs, c.archive, list, c.Rest())
    ensures !ok ==> NoCandidate(c.v, c.bs, c.archive, o)
  {
    hide Stream, Tail, NoCandidate, Candidate, IsList;
    ghost var w := owner[..];
    ok, more, next := true, false, list;
    var block := ReadEntry(c, |list|);
    if block == 0 {
      return;
    }
    if block < RESERVED || block >= |c.v| || owner[block] != 0 || Mark(c.v[block]) != 0 {
      Refused(c.v, c.bs, c.archive, o, list, block);
      ok := false;
      return;
    }
    ReadOneMore(c.v, c.bs, c.archive, o, list, block);
    Chains.DistinctBound(list + [block], |c.v|);
    MarkedMore(o, w, list, block, c.archive + 1);
    owner[block] := c.archive + 1;
    Claim(c, block, |list|);
    more, next := true, list + [block];
  }

  /** Reads the block list of the archive block `a`, claiming each block as it is read. */
  method ReadList(v: seq<seq<u8>>, bs: nat, owner: array<nat>, a: nat) returns (ok: bool, list: seq<nat>, left: nat)
    requires Shaped(v, bs) && owner.Length == |v| && a < |v| && Mark(v[a]) != 0
    modifies owner
    ensures ReadSoFar(v, bs, a, old(owner[..]), list) && Marked(old(owner[..]), owner[..], list, a + 1)
    ensures ok ==> |Stream(v, bs, a, list)| == 2 * |list| + 2 + left && Be16(Stream(v, bs, a, list), 2 * |list|) == 0
    ensures !ok ==> NoCandidate(v, bs, a, old(owner[..]))
  {
    ghost var o := owner[..];
    list := [];
    var c := new Cursor(v, bs, a, list);
    StreamLength(v, bs, a, list);
    ok := true;
    var more := true;
    while more
      invariant c.Valid() && c.v == v && c.bs == bs && c.archive == a && fresh(c) && c.list == list
      invariant ReadSoFar(v, bs, a, o, list) && Marked(o, owner[..], list, a + 1)
      invariant more ==> ok && AtEntry(c, |list|)
      invariant !more && ok ==> Terminated(v, bs, a, list, c.Rest())
      invariant !ok ==> NoCandidate(v, bs, a, o)
      decreases more, |v| - |list|
    {
      ok, more, list := ListNext(c, owner, list, o);
    }
    left := c.Left();
  }

  /** Parses the save whose archive block is `a`: its list and size, each block claimed, or
      nothing, when no list it could have is free. */
  method ParseEntry(v: seq<seq<u8>>, bs: nat, owner: array<nat>, a: nat) returns (ok: bool, list: seq<nat>, size: nat)
    requires Shaped(v, bs) && owner.Length == |v| && a < |v| && Mark(v[a]) != 0
    modifies owner
    ensures ok ==>
      && Candidate(v, bs, a, old(owner[..])[a := a + 1], list) && size == Size(v, bs, a)
      && Marked(old(owner[..])[a := a + 1], owner[..], list, a + 1)
    ensures !ok ==> NoCandidate(v, bs, a, old(owner[..])[a := a + 1]) && owner[..] == old(owner[..])[a := a + 1]
  {
    owner[a] := a + 1;
    ghost var o := owner[..];
    var left: nat;
    ok, list, left := ReadList(v, bs, owner, a);
    size := Be32(v[a], SIZE_AT);
    if ok && left < size {
      TooShort(v, bs, a, o, list);
      ok := false;
    }
    if !ok {
      Release(owner, o, list, a + 1);
    }
  }

  /** Gives the claimed blocks back. */
  method Release(owner: array<nat>, ghost o: seq<nat>, list: seq<nat>, ghost m: nat)
    requires Marked(o, owner[..], list, m) && AllFree(o, list) && Chains.Distinct(list)
    modifies owner
    ensures owner[..] == o
  {
    for i := 0 to |list|
      invariant |o| == owner.Length
      invariant forall b {:trigger owner[b]} :: 0 <= b < |o| ==> owner[b] == if b in list[i..] then m else o[b]
    {
      assert list[i..] == [list[i]] + list[i + 1..];
      assert o[list[i]] == 0 && list[i] !in list[i + 1..];
      owner[list[i]] := 0;
    }
  }

  /* ---- The scan ---------------------------------------------------------------------------- */

  datatype Live = Live(archive: nat, list: seq<nat>, size: nat)

  /** The owner of every block once the blocks before `b` have been scanned, and the saves
      found live, whatever state the volume is in. */
  ghost predicate Scanned(v: seq<seq<u8>>, bs: nat, b: nat, owner: seq<nat>, live: seq<Live>)
    requires Shaped(v, bs) && RESERVED <= b <= |v|
    decreases b
  {
    if b == RESERVED then |owner| == |v| && (forall x {:trigger owner[x]} :: 0 <= x < |v| ==> owner[x] == 0)
      && live == []
    else if Mark(v[b - 1]) != MARK then Scanned(v, bs, b - 1, owner, live)
    else exists was, before {:trigger Scanned(v, bs, b - 1, was, before)} ::
      Scanned(v, bs, b - 1, was, before) && |was| == |v| && ScanStep(v, bs, b - 1, was, before, owner, live)
  }

  ghost predicate ScanStep(v: seq<seq<u8>>, bs: nat, a: nat, was: seq<nat>, before: seq<Live>, owner: seq<nat>,
                           live: seq<Live>)
    requires Shaped(v, bs) && a < |v| == |was|
  {
    var o := was[a := a + 1];
    || (NoCandidate(v, bs, a, o) && owner == o && live == before)
    || (|live| > 0 && live[..|live| - 1] == before && live[|live| - 1].archive == a
        && live[|live| - 1].size == Size(v, bs, a)
        && Candidate(v, bs, a, o, live[|live| - 1].list) && Marked(o, owner, live[|live| - 1].list, a + 1))
  }

  method Scan(v: seq<seq<u8>>, bs: nat) returns (owner: array<nat>, live: seq<Live>)
    requires Shaped(v, bs)
    ensures fresh(owner) && owner.Length == |v| && Scanned(v, bs, |v|, owner[..], live)
  {
    owner := new nat[|v|](_ => 0);
    live := [];
    for b := RESERVED to |v|
      invariant Scanned(v, bs, b, owner[..], live)
    {
      if Mark(v[b]) == MARK {
        ghost var was, before := owner[..], live;
        var ok, list, size := ParseEntry(v, bs, owner, b);
        if ok {
          live := live + [Live(b, list, size)];
        }
        assert ScanStep(v, bs, b, was, before, owner[..], live);
      }
    }
  }

  /** The scan has one outcome. */
  lemma {:induction false} ScanOnce(v: seq<seq<u8>>, bs: nat, b: nat, o: seq<nat>, l: seq<Live>, p: seq<nat>,
                                    m: seq<Live>)
    requires Shaped(v, bs) && RESERVED <= b <= |v| && Scanned(v, bs, b, o, l) && Scanned(v, bs, b, p, m)
    ensures o == p && l == m
    decreases b
  {
    if b == RESERVED {
      assert o == p;
    } else if Mark(v[b - 1]) != MARK {
      ScanOnce(v, bs, b - 1, o, l, p, m);
    } else {
      var o1, l1 :| Scanned(v, bs, b - 1, o1, l1) && |o1| == |v| && ScanStep(v, bs, b - 1, o1, l1, o, l);
      var p1, m1 :| Scanned(v, bs, b - 1, p1, m1) && |p1| == |v| && ScanStep(v, bs, b - 1, p1, m1, p, m);
      ScanOnce(v, bs, b - 1, o1, l1, p1, m1);
      StepOnce(v, bs, b - 1, o1, l1, o, l, p, m);
    }
  }

  lemma StepOnce(v: seq<seq<u8>>, bs: nat, a: nat, was: seq<nat>, before: seq<Live>, o: seq<nat>, l: seq<Live>,
                 p: seq<nat>, m: seq<Live>)
    requires Shaped(v, bs) && a < |v| == |was| && ScanStep(v, bs, a, was, before, o, l)
      && ScanStep(v, bs, a, was, before, p, m)
    ensures o == p && l == m
  {
    var w := was[a := a + 1];
    if !NoCandidate(v, bs, a, w) {
      assert l != before && m != before;
      var x, y := l[|l| - 1].list, m[|m| - 1].list;
      ListUnique(v, bs, a, x, y, 0);
      assert l == before + [l[|l| - 1]] && m == before + [m[|m| - 1]];
      assert o == p;
    }
  }
}
