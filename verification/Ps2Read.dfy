/** Reading a PS2 card: the bytes of a chain, the entries of a directory, and a save folder
    with its files. */
module Ps2Read {
  import opened Bytes
  import opened Status
  import opened Chains
  import opened Division
  import opened Ps2Fat
  import opened Ps2Cells

  /* ---- Bytes over clusters ----------------------------------------------------------------------- */

  ghost predicate AllSized(cl: seq<seq<u8>>, cs: nat) {
    forall k {:trigger cl[k]} :: 0 <= k < |cl| ==> |cl[k]| == cs
  }

  /** The first `len` bytes that clusters `cl`, `cs` bytes each, hold in order. */
  function Join(cl: seq<seq<u8>>, cs: nat, len: nat): (r: seq<u8>)
    requires cs >= 1 && AllSized(cl, cs) && Ceil(len, cs) <= |cl|
    ensures |r| == len
    decreases len
  {
    if len == 0 then []
    else if len <= cs then cl[0][..len]
    else cl[0] + Join(cl[1..], cs, len - cs)
  }

  /** `bytes` cut into clusters, the last one filled up with `pad`. */
  function Chunks(bytes: seq<u8>, cs: nat, pad: u8): (cl: seq<seq<u8>>)
    requires cs >= 1
    ensures |cl| == Ceil(|bytes|, cs) && AllSized(cl, cs)
    decreases |bytes|
  {
    if bytes == [] then []
    else if |bytes| <= cs then [bytes + Filled(cs - |bytes|, pad)]
    else [bytes[..cs]] + Chunks(bytes[cs..], cs, pad)
  }

  /** Cutting and joining undo each other. */
  lemma {:induction false} JoinChunks(bytes: seq<u8>, cs: nat, pad: u8)
    requires cs >= 1
    ensures Join(Chunks(bytes, cs, pad), cs, |bytes|) == bytes
    decreases |bytes|
  {
    if |bytes| > cs {
      JoinChunks(bytes[cs..], cs, pad);
      assert Chunks(bytes, cs, pad)[1..] == Chunks(bytes[cs..], cs, pad);
    }
  }

  /** `count` clusters hold `len` bytes when their sizes add up to as many. */
  lemma {:induction false} CoverIff(count: nat, cs: nat, len: nat)
    requires cs >= 1
    ensures count * cs >= len <==> Ceil(len, cs) <= count
    decreases len
  {
    if len > cs && count > 0 {
      CoverIff(count - 1, cs, len - cs);
      assert count * cs == (count - 1) * cs + cs;
    } else if count > 0 {
      assert count * cs == (count - 1) * cs + cs;
    }
  }

  /** The clusters a chain names. */
  ghost function ClustersOf(data: seq<seq<u8>>, chain: seq<nat>): (cl: seq<seq<u8>>)
    requires forall k {:trigger chain[k]} :: 0 <= k < |chain| ==> chain[k] < |data|
    ensures |cl| == |chain| && forall k {:trigger cl[k]} :: 0 <= k < |cl| ==> cl[k] == data[chain[k]]
  {
    seq(|chain|, k requires 0 <= k < |chain| => data[chain[k]])
  }

  /** The chain from `first` is intact and holds `len` bytes. */
  ghost predicate Reads(v: View, g: Geometry, first: nat, len: nat)
    requires Sized(v, g)
  {
    Intact(v.fat, first) && Ceil(len, g.cs) <= |ChainOf(v.fat, first)|
  }

  /** Its first `len` bytes. */
  ghost function BytesOf(v: View, g: Geometry, first: nat, len: nat): (bytes: seq<u8>)
    requires Sized(v, g) && Reads(v, g, first, len)
    ensures |bytes| == len
  {
    Join(ClustersOf(v.data, ChainOf(v.fat, first)), g.cs, len)
  }

  lemma JoinNone(cl: seq<seq<u8>>, cs: nat, len: nat)
    requires cs >= 1 && AllSized(cl, cs) && Ceil(len, cs) <= |cl| && (cl == [] || len == 0)
    ensures len == 0 && Join(cl, cs, len) == []
  {
  }

  /** The bytes from cluster `i` on: its own, then those from the next. */
  lemma JoinStep(cl: seq<seq<u8>>, cs: nat, i: nat, left: nat, take: nat)
    requires cs >= 1 && AllSized(cl, cs) && i < |cl| && 0 < left && Ceil(left, cs) <= |cl[i..]|
      && take == (if left < cs then left else cs)
    ensures Ceil(left - take, cs) <= |cl[i + 1..]|
    ensures Join(cl[i..], cs, left) == cl[i][..take] + Join(cl[i + 1..], cs, left - take)
  {
    assert cl[i..][0] == cl[i] && cl[i..][1..] == cl[i + 1..];
  }

  /** Appends clusters until there are `len` bytes. */
  method JoinClusters(vol: array<seq<u8>>, offset: nat, order: seq<nat>, cs: nat, len: nat, ghost cl: seq<seq<u8>>)
    returns (bytes: seq<u8>)
    requires cs >= 1 && AllSized(cl, cs) && Ceil(len, cs) <= |cl| == |order|
    requires forall k {:trigger cl[k]} :: 0 <= k < |order| ==>
      offset + order[k] < vol.Length && vol[offset + order[k]] == cl[k]
    ensures bytes == Join(cl, cs, len)
  {
    hide Join, Ceil;
    assert cl[0..] == cl;
    bytes := [];
    var i := 0;
    while i < |order| && |bytes| < len
      invariant 0 <= i <= |order| && |bytes| <= len
      invariant Ceil(len - |bytes|, cs) <= |cl[i..]|
      invariant Join(cl, cs, len) == bytes + Join(cl[i..], cs, len - |bytes|)
    {
      ghost var was := bytes;
      var left := len - |bytes|;
      var take := if left < cs then left else cs;
      JoinStep(cl, cs, i, left, take);
      assert cl[i] == vol[offset + order[i]];
      bytes := bytes + vol[offset + order[i]][..take];
      assert was + (cl[i][..take] + Join(cl[i + 1..], cs, left - take)) == bytes + Join(cl[i + 1..], cs, left - take);
      i := i + 1;
    }
    JoinNone(cl[i..], cs, len - |bytes|);
  }

  /** Reads `len` bytes of the chain from `first`, or nothing when it does not hold as many. */
  method ReadChain(vol: array<seq<u8>>, g: Geometry, first: nat, len: nat, ghost v: View) returns (out: Option<seq<u8>>)
    requires ReadsAs(vol[..], g, v)
    ensures Sized(v, g)
    ensures out.Some? <==> Reads(v, g, first, len)
    ensures out.Some? ==> out.value == BytesOf(v, g, first, len)
  {
    ReadsSized(vol[..], g, v);
    var order := WalkChain(vol, g, first, v);
    CoverIff(|order|, g.cs, len);
    if order == [] || |order| * g.cs < len {
      return None;
    }
    ghost var cl := ClustersOf(v.data, order);
    forall k | 0 <= k < |order| ensures g.offset + order[k] < vol.Length && vol[g.offset + order[k]] == cl[k] {
      assert DataOf(vol[..], g)[order[k]] == vol[..][g.offset + order[k]];
    }
    var bytes := JoinClusters(vol, g.offset, order, g.cs, len, cl);
    return Some(bytes);
  }

  /* ---- Directories -------------------------------------------------------------------------------- */

  /** Entries a cluster holds. */
  function Per(g: Geometry): (n: nat)
    requires Sane(g)
    ensures g.cs == ENTRY_SIZE * n && 1 <= n <= 16
  {
    g.cs / ENTRY_SIZE
  }

  /** Entry `i` of the directory whose chain is `chain`. */
  ghost function EntryAt(data: seq<seq<u8>>, g: Geometry, chain: seq<nat>, i: nat): (e: seq<u8>)
    requires Sane(g) && Div(i, Per(g)) < |chain| && chain[Div(i, Per(g))] < |data|
      && |data[chain[Div(i, Per(g))]]| == g.cs
    ensures |e| == ENTRY_SIZE
  {
    data[chain[Div(i, Per(g))]][ENTRY_SIZE * Mod(i, Per(g))..ENTRY_SIZE * Mod(i, Per(g)) + ENTRY_SIZE]
  }

  lemma {:induction false} CeilScale(n: nat, p: nat)
    requires p >= 1
    ensures Ceil(ENTRY_SIZE * n, ENTRY_SIZE * p) == Ceil(n, p)
    decreases n
  {
    if n > p {
      CeilScale(n - p, p);
    }
  }

  /** Index `i` of `count` lies in one of the clusters that hold `count`. */
  lemma {:induction false} DivBelowCeil(i: nat, count: nat, p: nat)
    requires p >= 1
    ensures i < count ==> Div(i, p) < Ceil(count, p)
    decreases count
  {
    if i < count && i >= p {
      DivBelowCeil(i - p, count - p, p);
    }
  }

  /** Byte `k` of a chain's bytes, by its cluster and its place there. */
  lemma {:induction false} JoinAt(cl: seq<seq<u8>>, cs: nat, len: nat, k: nat)
    requires cs >= 1 && AllSized(cl, cs) && Ceil(len, cs) <= |cl| && k < len
    ensures Div(k, cs) < |cl| && Mod(k, cs) < cs && Join(cl, cs, len)[k] == cl[Div(k, cs)][Mod(k, cs)]
    decreases len
  {
    if k >= cs {
      JoinAt(cl[1..], cs, len - cs, k - cs);
    }
  }

  lemma {:induction false} DivScale(i: nat, j: nat, p: nat, cs: nat)
    requires p >= 1 && cs == ENTRY_SIZE * p && j < ENTRY_SIZE
    ensures Div(ENTRY_SIZE * i + j, cs) == Div(i, p) && Mod(ENTRY_SIZE * i + j, cs) == ENTRY_SIZE * Mod(i, p) + j
    decreases i
  {
    if i >= p {
      DivScale(i - p, j, p, cs);
      assert ENTRY_SIZE * i + j - cs == ENTRY_SIZE * (i - p) + j;
    }
  }

  ghost predicate SameAt<T>(s: seq<T>, a: nat, t: seq<T>, b: nat, j: nat) {
    a + j < |s| && b + j < |t| && s[a + j] == t[b + j]
  }

  lemma SameSlice<T>(s: seq<T>, a: nat, t: seq<T>, b: nat, n: nat)
    requires n > 0 && forall j: nat {:trigger SameAt(s, a, t, b, j)} :: j < n ==> SameAt(s, a, t, b, j)
    ensures a + n <= |s| && b + n <= |t| && s[a..a + n] == t[b..b + n]
  {
    assert SameAt(s, a, t, b, n - 1);
    var x, y := s[a..a + n], t[b..b + n];
    forall j: nat | j < n ensures x[j] == y[j] {
      assert SameAt(s, a, t, b, j);
    }
  }

  /** The bytes of a directory, cut every 512, are its entries. */
  lemma JoinEntry(cl: seq<seq<u8>>, p: nat, cs: nat, count: nat, i: nat)
    requires p >= 1 && cs == ENTRY_SIZE * p && AllSized(cl, cs) && Ceil(ENTRY_SIZE * count, cs) <= |cl| && i < count
    ensures Div(i, p) < |cl| && ENTRY_SIZE * Mod(i, p) + ENTRY_SIZE <= |cl[Div(i, p)]|
    ensures Join(cl, cs, ENTRY_SIZE * count)[ENTRY_SIZE * i..ENTRY_SIZE * i + ENTRY_SIZE]
         == cl[Div(i, p)][ENTRY_SIZE * Mod(i, p)..ENTRY_SIZE * Mod(i, p) + ENTRY_SIZE]
  {
    hide Join, Div, Mod, Ceil;
    var all, a, m := Join(cl, cs, ENTRY_SIZE * count), ENTRY_SIZE * i, ENTRY_SIZE * Mod(i, p);
    JoinAt(cl, cs, ENTRY_SIZE * count, a);
    DivScale(i, 0, p, cs);
    forall j: nat | j < ENTRY_SIZE ensures SameAt(all, a, cl[Div(i, p)], m, j) {
      JoinAt(cl, cs, ENTRY_SIZE * count, a + j);
      DivScale(i, j, p, cs);
    }
    assert SameAt(all, a, cl[Div(i, p)], m, 0);
    SameSlice(all, a, cl[Div(i, p)], m, ENTRY_SIZE);
  }

  /** The directory from `first` holds `count` entries. */
  ghost predicate DirReads(v: View, g: Geometry, first: nat, count: nat)
    requires Sized(v, g)
  {
    count > 0 && Intact(v.fat, first) && Ceil(count, Per(g)) <= |ChainOf(v.fat, first)|
  }

  /** Its entries. */
  ghost function Entries(v: View, g: Geometry, first: nat, count: nat): (es: seq<seq<u8>>)
    requires Sized(v, g) && DirReads(v, g, first, count)
    ensures |es| == count && forall i {:trigger es[i]} :: 0 <= i < count ==> |es[i]| == ENTRY_SIZE
  {
    var chain := ChainOf(v.fat, first);
    seq(count, i requires 0 <= i < count => DivBelowCeil(i, count, Per(g)); EntryAt(v.data, g, chain, i))
  }

  lemma EntriesAt(v: View, g: Geometry, first: nat, count: nat, i: nat)
    requires Sized(v, g) && DirReads(v, g, first, count) && i < count
    ensures Div(i, Per(g)) < |ChainOf(v.fat, first)|
    ensures Entries(v, g, first, count)[i] == EntryAt(v.data, g, ChainOf(v.fat, first), i)
  {
    DivBelowCeil(i, count, Per(g));
  }

  /** Reads the directory of `count` entries from `first`. */
  method ReadDir(vol: array<seq<u8>>, g: Geometry, first: nat, count: nat, ghost v: View)
    returns (es: Option<seq<seq<u8>>>)
    requires ReadsAs(vol[..], g, v)
    ensures Sized(v, g)
    ensures es.Some? <==> DirReads(v, g, first, count)
    ensures es.Some? ==> es.value == Entries(v, g, first, count)
  {
    ReadsSized(vol[..], g, v);
    ghost var chain := ChainOf(v.fat, first);
    CeilScale(count, Per(g));
    if count == 0 || count > g.end * Per(g) {
      if DirReads(v, g, first, count) {
        ChainBound(v.fat, chain);
        CoverIff(g.end, Per(g), count);
      }
      return None;
    }
    var bytes := ReadChain(vol, g, first, ENTRY_SIZE * count, v);
    if bytes.None? {
      return None;
    }
    var b := bytes.value;
    var out := seq(count, i requires 0 <= i < count => b[ENTRY_SIZE * i..ENTRY_SIZE * i + ENTRY_SIZE]);
    forall i | 0 <= i < count ensures out[i] == Entries(v, g, first, count)[i] {
      JoinEntry(ClustersOf(v.data, chain), Per(g), g.cs, count, i);
      EntriesAt(v, g, first, count, i);
    }
    assert out == Entries(v, g, first, count);
    return Some(out);
  }
}
