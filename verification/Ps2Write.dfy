/** The writes of a PS2 inject: one more cluster on a chain, one directory entry, and a whole
    file. */
module Ps2Write {
  import opened Bytes
  import opened Status
  import opened Chains
  import opened Division
  import opened Ps2Fat
  import opened Ps2Cells
  import opened Ps2Alloc
  import opened Ps2Read
  import opened Ps2Save
  import opened Ps2Grow

  /* ---- One more cluster ------------------------------------------------------------------------------ */

  /** Chain `i` grown by one cluster that holds `bytes`. */
  ghost predicate Appended(s: Progress, t: Progress, i: nat, n: nat, bytes: seq<u8>) {
    && i < |s.chains| && n < |s.at.data|
    && t.from == s.from && t.root == s.root && t.pool == s.pool && t.taken == s.taken + 1
    && t.chains == s.chains[i := s.chains[i] + [n]] && n !in s.chains[i]
    && t.at.data == s.at.data[n := bytes] && SameBut(s.at, t.at, s.chains, i)
  }

  lemma AppendStep(s: Progress, g: Geometry, next: nat, i: nat, next': nat, bytes: seq<u8>)
    requires Growing(s, g, next) && i < |s.chains| && s.taken < |s.pool| && |bytes| == g.cs
    requires s.pool[s.taken] < |s.at.fat| && s.at.fat[s.pool[s.taken]] == Free
    requires Member(s.at.fat, s.chains, i)
    requires Drawn(Linked(s.at.fat, s.chains[i], s.pool[s.taken]), s.pool, s.taken + 1, next')
    ensures Growing(Written(Grown(s, i), s.pool[s.taken], bytes), g, next')
    ensures Appended(s, Written(Grown(s, i), s.pool[s.taken], bytes), i, s.pool[s.taken], bytes)
  {
    var n := s.pool[s.taken];
    var t := Grown(s, i);
    LinkedChain(s.at.fat, s.chains[i], n);
    GrowStep(s, g, next, i, next');
    assert t.chains[i][|s.chains[i]|] == n;
    GrowingCell(t, g, next', i, |s.chains[i]|);
    WriteStep(t, g, next', n, bytes);
    WriteKeepsOthers(t.at, g, t.chains, i, |s.chains[i]|, bytes);
    forall j | 0 <= j < |s.chains| && j != i ensures SameAlong(s.at, Written(t, n, bytes).at, s.chains[j]) {
      assert t.chains[j] == s.chains[j];
    }
  }

  /** Allocates a cluster at the end of `chain` and fills it with `bytes`. */
  method Append(a: Allocator, vol: array<seq<u8>>, g: Geometry, chain: seq<nat>, bytes: seq<u8>, ghost s: Progress,
                ghost i: nat)
    returns (ok: bool, n: nat, ghost t: Progress)
    requires Holds(vol[..], g, s.at) && Growing(s, g, a.next)
    requires i < |s.chains| && s.chains[i] == chain && |bytes| == g.cs
    modifies a, vol
    ensures Holds(vol[..], g, t.at) && Growing(t, g, a.next)
    ensures ok == (s.taken < |s.pool|)
    ensures if ok then Appended(s, t, i, n, bytes) && n == s.pool[s.taken] else t == s
  {
    t := s;
    assert Member(s.at.fat, s.chains, i);
    ghost var next := a.next;
    ok, n := a.Allocate(vol, g, chain, s.at, s.pool, s.taken);
    if ok {
      AppendStep(s, g, next, i, a.next, bytes);
      SetCluster(vol, g, n, bytes, s.at.(fat := Linked(s.at.fat, chain, n)));
      t := Written(Grown(s, i), n, bytes);
    }
  }

  /* ---- One entry -------------------------------------------------------------------------------------- */

  /** Cluster `was` with entry `i` of its directory overwritten by `e`. */
  function EntrySplice(g: Geometry, was: seq<u8>, i: nat, e: Entry): (bytes: seq<u8>)
    requires Sane(g) && |was| == g.cs
    ensures |bytes| == g.cs
  {
    Splice(was, ENTRY_SIZE * Mod(i, Per(g)), e)
  }

  ghost predicate SameEntry(v: View, w: View, g: Geometry, chain: seq<nat>, j: nat) {
    && Sized(v, g) && Sized(w, g) && Div(j, Per(g)) < |chain| && chain[Div(j, Per(g))] < g.end
    && EntryAt(w.data, g, chain, j) == EntryAt(v.data, g, chain, j)
  }

  /** Of the directory along `chain`, entry `i` now is `e` and every other one is as it was. */
  ghost predicate EntryPut(v: View, w: View, g: Geometry, chain: seq<nat>, i: nat, e: Entry) {
    && Sized(w, g) && Div(i, Per(g)) < |chain| && chain[Div(i, Per(g))] < g.end
    && EntryAt(w.data, g, chain, i) == e
    && forall j: nat {:trigger SameEntry(v, w, g, chain, j)} ::
         j != i && Div(j, Per(g)) < |chain| ==> SameEntry(v, w, g, chain, j)
  }

  lemma EntryPuts(v: View, g: Geometry, chain: seq<nat>, i: nat, e: Entry)
    requires Sized(v, g) && IsChain(v.fat, chain) && Div(i, Per(g)) < |chain|
    ensures chain[Div(i, Per(g))] < g.end
    ensures var n := chain[Div(i, Per(g))];
            EntryPut(v, v.(data := v.data[n := EntrySplice(g, v.data[n], i, e)]), g, chain, i, e)
  {
    var n := chain[Div(i, Per(g))];
    var w := v.(data := v.data[n := EntrySplice(g, v.data[n], i, e)]);
    ChainDistinct(v.fat, chain);
    forall j: nat | j != i && Div(j, Per(g)) < |chain| ensures SameEntry(v, w, g, chain, j) {
      if Div(j, Per(g)) == Div(i, Per(g)) {
        if Mod(j, Per(g)) == Mod(i, Per(g)) {
          SameParts(i, j, Per(g));
        }
        SpliceFrame(v.data[n], ENTRY_SIZE * Mod(i, Per(g)), e, ENTRY_SIZE * Mod(j, Per(g)),
            ENTRY_SIZE * Mod(j, Per(g)) + ENTRY_SIZE);
      }
    }
  }

  /** Chain `c` with its entry `i` overwritten by `e`, and nothing else changed. */
  ghost predicate Entered(s: Progress, t: Progress, g: Geometry, c: nat, i: nat, e: Entry) {
    && c < |s.chains| && t == s.(at := s.at.(data := t.at.data))
    && EntryPut(s.at, t.at, g, s.chains[c], i, e) && SameBut(s.at, t.at, s.chains, c)
  }

  /** Overwrites entry `i` of the directory along `chain`. */
  method WriteEntry(vol: array<seq<u8>>, g: Geometry, chain: seq<nat>, i: nat, e: Entry, ghost s: Progress,
                    ghost next: nat, ghost c: nat)
    returns (ghost t: Progress)
    requires Holds(vol[..], g, s.at) && Growing(s, g, next)
    requires c < |s.chains| && s.chains[c] == chain && Div(i, Per(g)) < |chain|
    modifies vol
    ensures Holds(vol[..], g, t.at) && Growing(t, g, next)
    ensures Entered(s, t, g, c, i, e)
  {
    var q := Div(i, Per(g));
    GrowingCell(s, g, next, c, q);
    assert Member(s.at.fat, s.chains, c);
    EntryPuts(s.at, g, chain, i, e);
    var n := chain[q];
    ghost var d := vol[..];
    assert DataOf(d, g)[n] == d[g.offset + n];
    var bytes := EntrySplice(g, vol[g.offset + n], i, e);
    WriteStep(s, g, next, n, bytes);
    WriteKeepsOthers(s.at, g, s.chains, c, q, bytes);
    SetCluster(vol, g, n, bytes, s.at);
    t := Written(s, n, bytes);
  }

  /* ---- One file ----------------------------------------------------------------------------------------- */

  /** Clusters `chain` hold the first clusters of `cl`. */
  ghost predicate Filling(data: seq<seq<u8>>, chain: seq<nat>, cl: seq<seq<u8>>) {
    |chain| <= |cl| && forall k {:trigger chain[k]} :: 0 <= k < |chain| ==> chain[k] < |data| && data[chain[k]] == cl[k]
  }

  /** From `s` to `t`, chain `i` came to hold `cl`, and the others are as they were. */
  ghost predicate FilePut(s: Progress, t: Progress, i: nat, cl: seq<seq<u8>>) {
    && i < |s.chains| == |t.chains|
    && t.from == s.from && t.root == s.root && t.pool == s.pool && t.taken == s.taken + |t.chains[i]|
    && t.chains == s.chains[i := t.chains[i]] && SameBut(s.at, t.at, s.chains, i)
    && Filling(t.at.data, t.chains[i], cl)
  }

  lemma FilePutNext(s: Progress, t: Progress, u: Progress, i: nat, cl: seq<seq<u8>>, n: nat)
    requires FilePut(s, t, i, cl) && |t.chains[i]| < |cl| && Appended(t, u, i, n, cl[|t.chains[i]|])
    ensures FilePut(s, u, i, cl)
  {
    forall j | 0 <= j < |s.chains| && j != i ensures SameAlong(s.at, u.at, s.chains[j]) {
      assert t.chains[j] == s.chains[j];
      assert SameAlong(s.at, t.at, s.chains[j]) && SameAlong(t.at, u.at, t.chains[j]);
    }
  }

  /** The first cluster of `bytes[at..]`, filled up. */
  function Chunk(bytes: seq<u8>, at: nat, cs: nat): (chunk: seq<u8>)
    requires at <= |bytes|
    ensures |chunk| == cs
  {
    if |bytes| - at < cs then bytes[at..] + Filled(cs - (|bytes| - at), PAD) else bytes[at..at + cs]
  }

  lemma ChunkNext(bytes: seq<u8>, at: nat, cs: nat, cl: seq<seq<u8>>, k: nat)
    requires cs >= 1 && at < |bytes| && k <= |cl| && cl[k..] == Chunks(bytes[at..], cs, PAD)
    ensures k < |cl| && cl[k] == Chunk(bytes, at, cs)
    ensures cl[k + 1..] == Chunks(bytes[if |bytes| - at < cs then |bytes| else at + cs..], cs, PAD)
  {
    var rest := bytes[at..];
    assert cl[k] == cl[k..][0] && cl[k..][1..] == cl[k + 1..];
    if |rest| > cs {
      assert rest[..cs] == bytes[at..at + cs] && rest[cs..] == bytes[at + cs..];
    } else if |rest| == cs {
      assert rest == bytes[at..at + cs];
    }
  }

  /** The chunks of `bytes` from `at` on are the ones after the first `k`. */
  ghost predicate ChunksLeft(bytes: seq<u8>, at: nat, cs: nat, k: nat) {
    && cs >= 1 && at <= |bytes| && k <= Ceil(|bytes|, cs)
    && Chunks(bytes, cs, PAD)[k..] == Chunks(bytes[at..], cs, PAD)
  }

  /** Writes the file's next cluster. */
  method PutNext(a: Allocator, vol: array<seq<u8>>, g: Geometry, bytes: seq<u8>, at: nat, chain: seq<nat>,
                 ghost s: Progress, ghost was: Progress, ghost i: nat)
    returns (ok: bool, n: nat, ghost t: Progress)
    requires Holds(vol[..], g, was.at) && Growing(was, g, a.next)
    requires FilePut(s, was, i, Chunks(bytes, g.cs, PAD)) && was.chains[i] == chain
    requires at < |bytes| && ChunksLeft(bytes, at, g.cs, |chain|)
    modifies a, vol
    ensures Holds(vol[..], g, t.at) && Growing(t, g, a.next)
    ensures ok == (was.taken < |was.pool|) == (|chain| + s.taken < |s.pool|)
    ensures if ok then FilePut(s, t, i, Chunks(bytes, g.cs, PAD)) && t.chains[i] == chain + [n] else t == was
    ensures |chain| < Ceil(|bytes|, g.cs)
    ensures ChunksLeft(bytes, if |bytes| - at < g.cs then |bytes| else at + g.cs, g.cs, |chain| + 1)
  {
    ChunkNext(bytes, at, g.cs, Chunks(bytes, g.cs, PAD), |chain|);
    ok, n, t := Append(a, vol, g, chain, Chunk(bytes, at, g.cs), was, i);
    if ok {
      FilePutNext(s, was, t, i, Chunks(bytes, g.cs, PAD), n);
    }
  }

  lemma NoChunksLeft(bytes: seq<u8>, cs: nat, k: nat)
    requires ChunksLeft(bytes, |bytes|, cs, k)
    ensures k == Ceil(|bytes|, cs)
  {
  }

  /** Writes a file's bytes along a new chain, the last cluster filled up. It takes one cluster
      for every `g.cs` bytes begun, and fails only when there are not as many left. */
  method PutFile(a: Allocator, vol: array<seq<u8>>, g: Geometry, bytes: seq<u8>, ghost s: Progress, ghost i: nat)
    returns (ok: bool, first: nat, ghost t: Progress)
    requires Holds(vol[..], g, s.at) && Growing(s, g, a.next)
    requires i < |s.chains| && s.chains[i] == []
    modifies a, vol
    ensures Holds(vol[..], g, t.at) && Growing(t, g, a.next)
    ensures ok == (s.taken + Ceil(|bytes|, g.cs) <= |s.pool|)
    ensures ok ==> FilePut(s, t, i, Chunks(bytes, g.cs, PAD)) && |t.chains[i]| == Ceil(|bytes|, g.cs)
    ensures ok ==> first == if bytes == [] then 0 else t.chains[i][0]
  {
    t := s;
    first := 0;
    var chain: seq<nat> := [];
    var at := 0;
    while at < |bytes|
      invariant 0 <= at <= |bytes| && Holds(vol[..], g, t.at) && Growing(t, g, a.next)
      invariant FilePut(s, t, i, Chunks(bytes, g.cs, PAD)) && t.chains[i] == chain
      invariant ChunksLeft(bytes, at, g.cs, |chain|)
      invariant first == if chain == [] then 0 else chain[0]
      invariant at > 0 ==> chain != []
    {
      var n;
      ok, n, t := PutNext(a, vol, g, bytes, at, chain, s, t, i);
      if !ok {
        return;
      }
      if chain == [] {
        first := n;
      }
      chain := chain + [n];
      at := if |bytes| - at < g.cs then |bytes| else at + g.cs;
    }
    NoChunksLeft(bytes, g.cs, |chain|);
    ok := true;
  }
}
