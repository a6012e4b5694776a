/** Adding, removing and copying out Saturn saves, on a volume in any state. */
module SaturnCard {
  import opened Bytes
  import opened Status
  import opened SaturnVolume
  import opened SaturnScan
  import Chains

  const FIELDS_LEN := 30
  const NAME_LEN := 11
  const BUP_HEADER := 64
  const BUP_MAGIC: seq<u8> := [0x56, 0x6D, 0x65, 0x6D]

  datatype Save = Save(name: seq<u8>, language: u8, comment: seq<u8>, date: seq<u8>, data: seq<u8>)

  /* ---- Sizes ------------------------------------------------------------------------------ */

  /** Blocks a save of `size` bytes takes: the fields, one list slot a block and the data. */
  function Needed(bs: nat, size: nat): nat
    requires bs >= 64
  {
    (FIELDS_LEN + size + (bs - HEADER - 2) - 1) / (bs - HEADER - 2)
  }

  /** That many blocks hold the fields, their own list and the data, and no fewer do. */
  lemma NeededIsLeast(bs: nat, size: nat, n: nat)
    requires bs >= 64
    ensures n * (bs - HEADER) >= FIELDS_LEN + 2 * n + size <==> n >= Needed(bs, size)
    ensures Needed(bs, size) >= 1
  {
    var w := bs - HEADER - 2;
    var total := FIELDS_LEN + size;
    assert n * (bs - HEADER) == n * w + 2 * n;
    CeilDiv(total, w, n);
    CeilDiv(total, w, 0);
  }

  lemma CeilDiv(total: nat, w: nat, n: nat)
    requires w >= 1
    ensures n * w >= total <==> n >= (total + w - 1) / w
  {
    var q, r := (total + w - 1) / w, (total + w - 1) % w;
    assert total + w - 1 == q * w + r && 0 <= r < w;
    if n >= q {
      Multiples(q, n, w);
    } else {
      Multiples(n, q - 1, w);
      assert (q - 1) * w == q * w - w;
    }
  }

  lemma Multiples(a: nat, b: nat, w: nat)
    requires a <= b
    ensures a * w <= b * w
  {
  }

  /* ---- The .BUP ------------------------------------------------------------------------------ */

  predicate SaveShaped(s: Save) {
    |s.name| == NAME_LEN && |s.comment| == 10 && |s.date| == 4 && |s.data| < 0x1_0000_0000
  }

  /** The save a .BUP holds, when it is exactly one. */
  function BupSave(bup: seq<u8>): (r: Option<Save>)
    ensures r.Some? ==> SaveShaped(r.value) && r.value.name[0] != 0
  {
    if |bup| < BUP_HEADER || bup[..4] != BUP_MAGIC || bup[0x10] == 0 || |bup| - BUP_HEADER != Be32(bup, 0x2C) then None
    else Some(Save(bup[0x10..0x1B], bup[0x27], bup[0x1C..0x26], bup[0x28..0x2C], bup[BUP_HEADER..]))
  }

  /** The .BUP extraction makes of a save that takes `blocks` blocks. */
  function BupOf(s: Save, blocks: nat): (bup: seq<u8>)
    requires SaveShaped(s)
  {
    BUP_MAGIC + Zeros(12) + s.name + [0] + s.comment + [0, s.language] + s.date + Be32Bytes(|s.data|)
    + Be16Bytes(blocks) + [0, 0] + s.date + Zeros(8) + s.data
  }

  /** A named save comes back from its .BUP, whatever block count it carries. */
  lemma BupKeepsSave(s: Save, blocks: nat)
    requires SaveShaped(s) && s.name[0] != 0
    ensures BupSave(BupOf(s, blocks)) == Some(s)
  {
    var b := BupOf(s, blocks);
    var size := Be32Bytes(|s.data|);
    assert b[..4] == BUP_MAGIC && b[0x10..0x1B] == s.name && b[0x1C..0x26] == s.comment && b[0x28..0x2C] == s.date;
    assert b[0x10] == s.name[0] && b[0x27] == s.language && b[BUP_HEADER..] == s.data && |b| == BUP_HEADER + |s.data|;
    assert b[0x2C] == size[0] && b[0x2D] == size[1] && b[0x2E] == size[2] && b[0x2F] == size[3];
  }

  /** The bytes of a save on a volume: its fields, its block list ended by zero, its data. */
  function StreamOf(s: Save, list: seq<nat>): seq<u8>
    requires SaveShaped(s)
  {
    Fields(s) + (Entries(list) + [0, 0] + s.data)
  }

  function Fields(s: Save): (f: seq<u8>)
    requires SaveShaped(s)
    ensures |f| == FIELDS_LEN
  {
    s.name + [s.language] + s.comment + s.date + Be32Bytes(|s.data|)
  }

  function Entries(list: seq<nat>): (r: seq<u8>)
    ensures |r| == 2 * |list|
  {
    if list == [] then [] else Entries(list[..|list| - 1]) + Be16Bytes(list[|list| - 1])
  }

  lemma {:induction false} EntryOf(list: seq<nat>, i: nat)
    requires i < |list| && list[i] < 0x1_0000
    ensures Be16(Entries(list), 2 * i) == list[i]
  {
    var last := |list| - 1;
    if i < last {
      EntryOf(list[..last], i);
    } else {
      var b := Be16Bytes(list[last]);
      assert Entries(list)[2 * last] == b[0] && Entries(list)[2 * last + 1] == b[1];
    }
  }

  /* ---- Free blocks ----------------------------------------------------------------------------- */

  /** The free blocks before `b`, lowest first. */
  function FreeBelow(owner: seq<nat>, b: nat): (free: seq<nat>)
    requires RESERVED <= b <= |owner|
    ensures |free| <= b - RESERVED
    ensures forall i {:trigger free[i]} :: 0 <= i < |free| ==> RESERVED <= free[i] < b && owner[free[i]] == 0
    decreases b
  {
    if b == RESERVED then [] else FreeBelow(owner, b - 1) + (if owner[b - 1] == 0 then [b - 1] else [])
  }

  lemma {:induction false} FreeBelowGrows(owner: seq<nat>, b: nat, c: nat)
    requires RESERVED <= b <= c <= |owner|
    ensures FreeBelow(owner, b) <= FreeBelow(owner, c)
    decreases c
  {
    if b < c {
      FreeBelowGrows(owner, b, c - 1);
    }
  }

  lemma {:induction false} FreeBelowDistinct(owner: seq<nat>, b: nat)
    requires RESERVED <= b <= |owner|
    ensures Chains.Distinct(FreeBelow(owner, b))
    decreases b
  {
    if b > RESERVED {
      FreeBelowDistinct(owner, b - 1);
    }
  }

  lemma {:induction false} FreeBelowAscends(owner: seq<nat>, b: nat, i: nat, j: nat)
    requires RESERVED <= b <= |owner| && i < j < |FreeBelow(owner, b)|
    ensures FreeBelow(owner, b)[i] < FreeBelow(owner, b)[j]
    decreases b
  {
    if j < |FreeBelow(owner, b - 1)| {
      FreeBelowAscends(owner, b - 1, i, j);
    }
  }

  lemma {:induction false} FreeBelowHas(owner: seq<nat>, b: nat, x: nat)
    requires RESERVED <= b <= |owner| && RESERVED <= x < b && owner[x] == 0
    ensures x in FreeBelow(owner, b)
    decreases b
  {
    if x < b - 1 {
      FreeBelowHas(owner, b - 1, x);
    }
  }

  /** The `need` lowest free blocks, or all of them when they are fewer. */
  method Choose(owner: array<nat>, need: nat) returns (chosen: seq<nat>)
    requires owner.Length >= RESERVED
    ensures var free := FreeBelow(owner[..], owner.Length); chosen == if |free| < need then free else free[..need]
  {
    chosen := [];
    var b := RESERVED;
    while b < owner.Length && |chosen| < need
      invariant RESERVED <= b <= owner.Length && chosen == FreeBelow(owner[..], b) && |chosen| <= need
    {
      if owner[b] == 0 {
        chosen := chosen + [b];
      }
      b := b + 1;
    }
    FreeBelowGrows(owner[..], b, owner.Length);
  }

  /* ---- Writing a save ---------------------------------------------------------------------------- */

  /** What is left of a stream after one payload of `w` bytes. */
  function After(s: seq<u8>, w: nat): seq<u8> {
    if |s| <= w then [] else s[w..]
  }

  /** What is left after `i` of them. */
  function Rest(stream: seq<u8>, w: nat, i: nat): seq<u8> {
    if i == 0 then stream else After(Rest(stream, w, i - 1), w)
  }

  /** The block that holds the next payload, padded with zeros. */
  function BlockOf(mark: nat, rest: seq<u8>, bs: nat): (block: seq<u8>)
    requires bs >= HEADER
    ensures |block| == bs
  {
    var w := bs - HEADER;
    Be32Bytes(mark) + if |rest| <= w then rest + Zeros(w - |rest|) else rest[..w]
  }

  function MarkOf(i: nat): nat {
    if i == 0 then MARK else 0
  }

  ghost predicate LaidAt(w: seq<seq<u8>>, bs: nat, chosen: seq<nat>, stream: seq<u8>, i: nat)
    requires bs >= 64 && i < |chosen| && chosen[i] < |w|
  {
    w[chosen[i]] == BlockOf(MarkOf(i), Rest(stream, bs - HEADER, i), bs)
  }

  /** The first `n` chosen blocks hold the stream, and no other block changed. */
  ghost predicate LaidUpTo(v: seq<seq<u8>>, w: seq<seq<u8>>, bs: nat, chosen: seq<nat>, stream: seq<u8>, n: nat)
    requires bs >= 64 && n <= |chosen|
  {
    && |w| == |v| && Inside(chosen, |v|)
    && (forall i: nat {:trigger LaidAt(w, bs, chosen, stream, i)} :: i < n ==> LaidAt(w, bs, chosen, stream, i))
    && (forall b {:trigger w[b]} :: 0 <= b < |v| && b !in chosen[..n] ==> w[b] == v[b])
  }

  /** `w` is `v` with the stream laid over the chosen blocks. */
  ghost predicate Laid(v: seq<seq<u8>>, w: seq<seq<u8>>, bs: nat, chosen: seq<nat>, stream: seq<u8>)
    requires bs >= 64
  {
    LaidUpTo(v, w, bs, chosen, stream, |chosen|)
  }

  lemma LaidNext(v: seq<seq<u8>>, w: seq<seq<u8>>, bs: nat, chosen: seq<nat>, stream: seq<u8>, n: nat, block: seq<u8>)
    requires bs >= 64 && n < |chosen| && Chains.Distinct(chosen) && LaidUpTo(v, w, bs, chosen, stream, n)
    requires block == BlockOf(MarkOf(n), Rest(stream, bs - HEADER, n), bs)
    ensures LaidUpTo(v, w[chosen[n] := block], bs, chosen, stream, n + 1)
  {
    var w1 := w[chosen[n] := block];
    assert chosen[..n + 1] == chosen[..n] + [chosen[n]];
    forall i: nat | i < n + 1 ensures LaidAt(w1, bs, chosen, stream, i) {
      if i < n {
        assert LaidAt(w, bs, chosen, stream, i) && chosen[i] != chosen[n];
      }
    }
  }

  /** One block: zeroed, marked, and filled with what of the stream it takes. */
  method FillBlock(mark: nat, bs: nat, stream: seq<u8>, at: nat) returns (block: seq<u8>, next: nat)
    requires bs >= 64 && at <= |stream|
    ensures block == BlockOf(mark, stream[at..], bs) && at <= next <= |stream|
    ensures stream[next..] == After(stream[at..], bs - HEADER)
  {
    var take := bs - HEADER;
    if take > |stream| - at {
      take := |stream| - at;
    }
    block := Be32Bytes(mark) + (stream[at..at + take] + Zeros(bs - HEADER - take));
    assert stream[at..][..take] == stream[at..at + take];
    assert block == BlockOf(mark, stream[at..], bs);
    next := at + take;
  }

  method WriteEntry(vol: array<seq<u8>>, bs: nat, chosen: seq<nat>, stream: seq<u8>)
    requires bs >= 64 && Inside(chosen, vol.Length) && Chains.Distinct(chosen)
    modifies vol
    ensures Laid(old(vol[..]), vol[..], bs, chosen, stream)
  {
    ghost var v := vol[..];
    ghost var w := v;
    var at := 0;
    assert stream[0..] == stream;
    for i := 0 to |chosen|
      invariant at <= |stream| && stream[at..] == Rest(stream, bs - HEADER, i)
      invariant vol[..] == w && LaidUpTo(v, w, bs, chosen, stream, i)
    {
      var block, next := FillBlock(if i == 0 then MARK else 0, bs, stream, at);
      LaidNext(v, w, bs, chosen, stream, i, block);
      vol[chosen[i]] := block;
      w := w[chosen[i] := block];
      at := next;
    }
  }

  /* ---- The operations -------------------------------------------------------------------------------- */

  /** The save an archive block and its list hold. */
  ghost function SaveIn(v: seq<seq<u8>>, bs: nat, a: nat, list: seq<nat>): (s: Save)
    requires Shaped(v, bs) && IsList(v, bs, a, list)
    ensures SaveShaped(s)
  {
    var b, at := v[a], 2 * |list| + 2;
    Save(b[4..15], b[15], b[16..26], b[26..30], Stream(v, bs, a, list)[at..at + Size(v, bs, a)])
  }

  ghost predicate LiveNamed(v: seq<seq<u8>>, bs: nat, live: seq<Live>, name: seq<u8>)
    requires Shaped(v, bs)
  {
    exists i {:trigger live[i]} :: 0 <= i < |live| && live[i].archive < |v| && v[live[i].archive][4..15] == name
  }

  /** What adding a .BUP answers and leaves, on a volume in any state. */
  ghost predicate InjectResult(v: seq<seq<u8>>, bs: nat, bup: seq<u8>, st: Status, w: seq<seq<u8>>)
    requires Shaped(v, bs)
  {
    match BupSave(bup)
    case None => st == Unsupported && w == v
    case Some(s) =>
      exists owner: seq<nat>, live: seq<Live> {:trigger Scanned(v, bs, |v|, owner, live)} ::
        && Scanned(v, bs, |v|, owner, live) && |owner| == |v|
        && (var free, need := FreeBelow(owner, |v|), Needed(bs, |s.data|);
            if LiveNamed(v, bs, live, s.name) then st == Exists && w == v
            else if |free| < need then st == NoSpace && w == v
            else need >= 1 && st == Status.Ok && Laid(v, w, bs, free[..need], StreamOf(s, free[1..need])))
  }

  method NameFound(v: seq<seq<u8>>, bs: nat, live: seq<Live>, name: seq<u8>) returns (found: bool)
    requires Shaped(v, bs)
    ensures found <==> LiveNamed(v, bs, live, name)
  {
    for i := 0 to |live|
      invariant forall k {:trigger live[k]} :: 0 <= k < i ==>
        !(live[k].archive < |v| && v[live[k].archive][4..15] == name)
    {
      if live[i].archive < |v| && v[live[i].archive][4..15] == name {
        return true;
      }
    }
    return false;
  }

  method Inject(vol: array<seq<u8>>, bs: nat, bup: seq<u8>) returns (st: Status)
    requires Shaped(vol[..], bs)
    modifies vol
    ensures InjectResult(old(vol[..]), bs, bup, st, vol[..])
  {
    var parsed := BupSave(bup);
    if parsed.None? {
      return Unsupported;
    }
    var s := parsed.value;
    var need := Needed(bs, |s.data|);
    ghost var v := vol[..];
    var owner, live := Scan(vol[..], bs);
    ghost var o := owner[..];
    assert Scanned(v, bs, |v|, o, live);
    var found := NameFound(vol[..], bs, live, s.name);
    if found {
      return Exists;
    }
    var chosen := Choose(owner, need);
    if |chosen| < need {
      return NoSpace;
    }
    NeededIsLeast(bs, |s.data|, 0);
    ghost var free := FreeBelow(o, |v|);
    FreeBelowDistinct(o, |v|);
    assert chosen == free[..need] && chosen[1..] == free[1..need];
    WriteEntry(vol, bs, chosen, StreamOf(s, chosen[1..]));
    st := Status.Ok;
  }

  ghost predicate NoneLive(live: seq<Live>, first: nat) {
    forall e {:trigger e in live} :: e in live ==> e.archive != first
  }

  method FindLive(live: seq<Live>, first: nat) returns (found: bool, k: nat)
    ensures found ==> k < |live| && live[k].archive == first
    ensures found <==> !NoneLive(live, first)
  {
    k := 0;
    while k < |live|
      invariant k <= |live| && forall i {:trigger live[i]} :: 0 <= i < k ==> live[i].archive != first
    {
      if live[k].archive == first {
        assert live[k] in live;
        return true, k;
      }
      k := k + 1;
    }
    found := false;
  }

  /** `w` is `v` with the listed blocks zeroed. */
  ghost predicate Wiped(v: seq<seq<u8>>, w: seq<seq<u8>>, bs: nat, list: seq<nat>) {
    && |w| == |v| && forall b {:trigger w[b]} :: 0 <= b < |v| ==> w[b] == if b in list then Zeros(bs) else v[b]
  }

  /** What removing the save at `first` answers and leaves, on a volume in any state. */
  ghost predicate DeleteResult(v: seq<seq<u8>>, bs: nat, first: nat, st: Status, w: seq<seq<u8>>)
    requires Shaped(v, bs)
  {
    exists owner: seq<nat>, live: seq<Live> {:trigger Scanned(v, bs, |v|, owner, live)} ::
      && Scanned(v, bs, |v|, owner, live)
      && (if NoneLive(live, first) then st == InvalidArg && w == v
          else st == Status.Ok && exists e {:trigger e in live} ::
            e in live && e.archive == first && Wiped(v, w, bs, [first] + e.list))
  }

  method Delete(vol: array<seq<u8>>, bs: nat, first: nat) returns (st: Status)
    requires Shaped(vol[..], bs)
    modifies vol
    ensures DeleteResult(old(vol[..]), bs, first, st, vol[..])
  {
    ghost var v := vol[..];
    var owner, live := Scan(vol[..], bs);
    ghost var o := owner[..];
    assert Scanned(v, bs, |v|, o, live);
    var found, k := FindLive(live, first);
    if !found {
      return InvalidArg;
    }
    ScannedInside(v, bs, |v|, o, live);
    assert live[k] in live;
    Wipe(vol, bs, [first] + live[k].list);
    st := Status.Ok;
  }

  method Wipe(vol: array<seq<u8>>, bs: nat, list: seq<nat>)
    requires Inside(list, vol.Length)
    modifies vol
    ensures Wiped(old(vol[..]), vol[..], bs, list)
  {
    ghost var v := vol[..];
    for i := 0 to |list|
      invariant forall b {:trigger vol[b]} :: 0 <= b < |v| ==> vol[b] == if b in list[..i] then Zeros(bs) else v[b]
    {
      assert list[..i + 1] == list[..i] + [list[i]];
      vol[list[i]] := Zeros(bs);
    }
    assert list[..|list|] == list;
  }

  lemma {:induction false} ScannedInside(v: seq<seq<u8>>, bs: nat, b: nat, owner: seq<nat>, live: seq<Live>)
    requires Shaped(v, bs) && RESERVED <= b <= |v| && Scanned(v, bs, b, owner, live)
    ensures |owner| == |v|
    ensures forall i {:trigger live[i]} :: 0 <= i < |live| ==>
      live[i].archive < |v| && IsList(v, bs, live[i].archive, live[i].list)
        && live[i].size == Size(v, bs, live[i].archive)
    decreases b
  {
    if b > RESERVED {
      if Mark(v[b - 1]) != MARK {
        ScannedInside(v, bs, b - 1, owner, live);
      } else {
        var was, before :| Scanned(v, bs, b - 1, was, before) && |was| == |v|
          && ScanStep(v, bs, b - 1, was, before, owner, live);
        ScannedInside(v, bs, b - 1, was, before);
      }
    }
  }

  /** The .BUP of a live save. */
  ghost predicate BupFor(v: seq<seq<u8>>, bs: nat, e: Live, bup: seq<u8>)
    requires Shaped(v, bs)
  {
    IsList(v, bs, e.archive, e.list) && bup == BupOf(SaveIn(v, bs, e.archive, e.list), |e.list| + 1)
  }

  /** What extraction answers and gives, on a volume in any state. */
  ghost predicate ExtractResult(v: seq<seq<u8>>, bs: nat, first: nat, st: Status, bup: seq<u8>)
    requires Shaped(v, bs)
  {
    exists owner: seq<nat>, live: seq<Live> {:trigger Scanned(v, bs, |v|, owner, live)} ::
      && Scanned(v, bs, |v|, owner, live)
      && (if NoneLive(live, first) then st == InvalidArg
          else st == Status.Ok && exists e {:trigger e in live} ::
            e in live && e.archive == first && BupFor(v, bs, e, bup))
  }

  /** The data of a save: what its stream holds past the list. */
  method ReadData(v: seq<seq<u8>>, bs: nat, a: nat, list: seq<nat>, size: nat) returns (ok: bool, data: seq<u8>)
    requires Shaped(v, bs) && IsList(v, bs, a, list) && size == Size(v, bs, a)
    ensures ok && data == SaveIn(v, bs, a, list).data
  {
    ghost var s := Stream(v, bs, a, list);
    var at := 2 * |list| + 2;
    var c := new Cursor(v, bs, a, list);
    var skipped: seq<u8>;
    ok, skipped := c.Read((|list| + 1) * 2);
    assert s[at..][..size] == s[at..at + size];
    if ok {
      ok, data := c.Read(size);
    }
  }

  method Extract(v: seq<seq<u8>>, bs: nat, first: nat) returns (st: Status, bup: seq<u8>)
    requires Shaped(v, bs)
    ensures ExtractResult(v, bs, first, st, bup)
  {
    bup := [];
    var owner, live := Scan(v, bs);
    ghost var o := owner[..];
    assert Scanned(v, bs, |v|, o, live);
    var found, k := FindLive(live, first);
    if !found {
      return InvalidArg, bup;
    }
    ScannedInside(v, bs, |v|, o, live);
    var e := live[k];
    var ok, data := ReadData(v, bs, first, e.list, e.size);
    var b := v[first];
    assert e in live;
    bup := BupOf(Save(b[4..15], b[15], b[16..26], b[26..30], data), |e.list| + 1);
    st := Status.Ok;
  }
}
