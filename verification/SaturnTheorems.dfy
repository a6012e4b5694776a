/** Saturn backup RAM as a map from archive block to save: what every run of adding and
    removing keeps, when every archive block of the volume parses. */
module SaturnTheorems {
  import opened Bytes
  import opened Status
  import opened SaturnVolume
  import opened SaturnScan
  import opened SaturnCard
  import Chains

  type Lists = map<nat, seq<nat>>

  /* ---- Whole volumes ------------------------------------------------------------------------ */

  ghost predicate Owns(m: Lists, a: nat, x: nat) {
    a in m && (x == a || x in m[a])
  }

  ghost predicate Taken(m: Lists, x: nat) {
    exists a: nat {:trigger Owns(m, a, x)} :: Owns(m, a, x)
  }

  ghost predicate Apart(m: Lists, a: nat, b: nat)
    requires a in m && b in m
  {
    forall x {:trigger x in m[a]} {:trigger x in m[b]} :: !(x in m[a] && x in m[b])
  }

  /** Every archive block begins a list, and no two lists share a block. */
  ghost predicate Whole(v: seq<seq<u8>>, bs: nat, m: Lists) {
    && Shaped(v, bs)
    && (forall a: nat {:trigger a in m} :: a in m <==> IsArchive(v, bs, a))
    && (forall a: nat {:trigger m[a]} :: a in m ==> IsList(v, bs, a, m[a]))
    && (forall a: nat, b: nat {:trigger Apart(m, a, b)} :: a in m && b in m && a != b ==> Apart(m, a, b))
  }

  /** The block lists of a whole volume are determined by its bytes. */
  lemma WholeOnce(v: seq<seq<u8>>, bs: nat, m: Lists, n: Lists)
    requires Whole(v, bs, m) && Whole(v, bs, n)
    ensures m == n
  {
    forall a: nat | a in m ensures a in n && m[a] == n[a] {
      assert a in n;
      ListUnique(v, bs, a, m[a], n[a], 0);
    }
    forall a: nat | a in n ensures a in m {
    }
  }

  /** A block one save owns is not an archive block of another, nor in its list. */
  lemma OwnersApart(v: seq<seq<u8>>, bs: nat, m: Lists, a: nat, b: nat, x: nat)
    requires Whole(v, bs, m) && Owns(m, a, x) && Owns(m, b, x)
    ensures a == b && x < |v|
  {
    assert IsArchive(v, bs, a) && IsArchive(v, bs, b);
    assert a != b ==> Apart(m, a, b);
    ListedUnmarked(v, bs, m, a, x);
    ListedUnmarked(v, bs, m, b, x);
  }

  lemma ListedUnmarked(v: seq<seq<u8>>, bs: nat, m: Lists, a: nat, x: nat)
    requires Whole(v, bs, m) && a in m
    ensures x in m[a] ==> Listable(v, bs, x)
  {
    if x in m[a] {
      var i :| 0 <= i < |m[a]| && m[a][i] == x;
    }
  }

  lemma NotOwnedBelow(v: seq<seq<u8>>, bs: nat, m: Lists, a: nat, x: nat)
    requires Whole(v, bs, m) && Owns(m, a, x)
    ensures !OwnedBelow(m, a, x)
  {
    forall c: nat | c < a ensures !Owns(m, c, x) {
      if Owns(m, c, x) {
        OwnersApart(v, bs, m, a, c, x);
      }
    }
  }

  /* ---- The scan of a whole volume ---------------------------------------------------------------- */

  /** What the scan has found once the archive blocks before `b` are done. */
  ghost predicate ScanFound(v: seq<seq<u8>>, bs: nat, m: Lists, b: nat, owner: seq<nat>, live: seq<Live>)
    requires Whole(v, bs, m)
  {
    |owner| == |v| && OwnersAre(m, b, owner) && LivesAre(v, bs, m, b, live)
  }

  ghost predicate OwnersAre(m: Lists, b: nat, owner: seq<nat>) {
    forall x: nat {:trigger owner[x]} :: x < |owner| ==> (owner[x] != 0 <==> OwnedBelow(m, b, x))
  }

  ghost predicate LivesAre(v: seq<seq<u8>>, bs: nat, m: Lists, b: nat, live: seq<Live>)
    requires Whole(v, bs, m)
  {
    && (forall e: Live {:trigger e in live} :: e in live ==>
        e.archive < b && e.archive in m && e == LiveOf(v, bs, m, e.archive))
    && (forall a: nat {:trigger a in m} :: a in m && a < b ==> LiveOf(v, bs, m, a) in live)
  }

  ghost predicate OwnedBelow(m: Lists, b: nat, x: nat) {
    exists a: nat {:trigger Owns(m, a, x)} :: a < b && Owns(m, a, x)
  }

  ghost function LiveOf(v: seq<seq<u8>>, bs: nat, m: Lists, a: nat): Live
    requires Shaped(v, bs) && a in m && a < |v|
  {
    Live(a, m[a], Size(v, bs, a))
  }

  /** The archive block's own list is still free when the scan reaches it. */
  lemma OwnListFree(v: seq<seq<u8>>, bs: nat, m: Lists, a: nat, owner: seq<nat>, live: seq<Live>)
    requires Whole(v, bs, m) && a in m && ScanFound(v, bs, m, a, owner, live)
    ensures a < |owner| && Candidate(v, bs, a, owner[a := a + 1], m[a])
  {
    assert IsArchive(v, bs, a);
    var l := m[a];
    forall i | 0 <= i < |l| ensures l[i] < |owner| && owner[a := a + 1][l[i]] == 0 {
      assert Listable(v, bs, l[i]);
      assert Owns(m, a, l[i]);
      NotOwnedBelow(v, bs, m, a, l[i]);
    }
  }

  lemma FoundList(v: seq<seq<u8>>, bs: nat, m: Lists, a: nat, was: seq<nat>, before: seq<Live>, owner: seq<nat>,
                  live: seq<Live>)
    requires Whole(v, bs, m) && a in m && ScanFound(v, bs, m, a, was, before)
      && ScanStep(v, bs, a, was, before, owner, live)
    ensures live == before + [LiveOf(v, bs, m, a)] && Marked(was[a := a + 1], owner, m[a], a + 1)
  {
    hide Stream, Size, Spells, Taken, Owns, OwnedBelow;
    OwnListFree(v, bs, m, a, was, before);
    assert !NoCandidate(v, bs, a, was[a := a + 1]);
    var l := live[|live| - 1].list;
    ListUnique(v, bs, a, l, m[a], 0);
    assert live == before + [live[|live| - 1]];
  }

  lemma OwnedNext(m: Lists, a: nat, x: nat)
    ensures OwnedBelow(m, a + 1, x) <==> OwnedBelow(m, a, x) || Owns(m, a, x)
  {
    if Owns(m, a, x) {
      assert OwnedBelow(m, a + 1, x);
    } else if OwnedBelow(m, a, x) {
      var c: nat :| c < a && Owns(m, c, x);
      assert OwnedBelow(m, a + 1, x);
    }
  }

  lemma OwnersFound(m: Lists, a: nat, was: seq<nat>, owner: seq<nat>)
    requires a in m && a < |was| && Marked(was[a := a + 1], owner, m[a], a + 1) && OwnersAre(m, a, was)
    ensures OwnersAre(m, a + 1, owner)
  {
    hide OwnedBelow;
    forall x: nat | x < |was| ensures owner[x] != 0 <==> OwnedBelow(m, a + 1, x) {
      OwnedNext(m, a, x);
      assert was[a := a + 1][x] == if x == a then a + 1 else was[x];
    }
  }

  lemma InMore<T>(s: seq<T>, x: T, y: T)
    ensures y in s + [x] <==> y in s || y == x
  {
    assert (s + [x])[|s|] == x;
  }

  lemma LivesFound(v: seq<seq<u8>>, bs: nat, m: Lists, a: nat, before: seq<Live>, live: seq<Live>)
    requires Whole(v, bs, m) && a in m && LivesAre(v, bs, m, a, before) && live == before + [LiveOf(v, bs, m, a)]
    ensures LivesAre(v, bs, m, a + 1, live)
  {
    LiveAt(v, bs, m, a);
    hide IsList, LiveOf, Apart, IsArchive;
    forall e: Live | e in live ensures e.archive < a + 1 && e.archive in m && e == LiveOf(v, bs, m, e.archive) {
      InMore(before, LiveOf(v, bs, m, a), e);
    }
    forall c: nat | c in m && c < a + 1 ensures LiveOf(v, bs, m, c) in live {
      InMore(before, LiveOf(v, bs, m, a), LiveOf(v, bs, m, c));
    }
  }

  lemma ScanArchive(v: seq<seq<u8>>, bs: nat, m: Lists, a: nat, was: seq<nat>, before: seq<Live>, owner: seq<nat>,
                    live: seq<Live>)
    requires Whole(v, bs, m) && a in m && ScanFound(v, bs, m, a, was, before)
      && ScanStep(v, bs, a, was, before, owner, live)
    ensures ScanFound(v, bs, m, a + 1, owner, live)
  {
    FoundList(v, bs, m, a, was, before, owner, live);
    hide ScanStep, Whole, OwnersAre, LivesAre, LiveOf;
    OwnersFound(m, a, was, owner);
    LivesFound(v, bs, m, a, before, live);
  }

  lemma LiveAt(v: seq<seq<u8>>, bs: nat, m: Lists, a: nat)
    requires Shaped(v, bs) && a in m && a < |v|
    ensures LiveOf(v, bs, m, a).archive == a
  {
  }

  /** The scan of a whole volume finds exactly its saves, and owns exactly their blocks. */
  lemma {:induction false} ScanWhole(v: seq<seq<u8>>, bs: nat, m: Lists, b: nat, owner: seq<nat>, live: seq<Live>)
    requires Whole(v, bs, m) && RESERVED <= b <= |v| && Scanned(v, bs, b, owner, live)
    ensures ScanFound(v, bs, m, b, owner, live)
    decreases b
  {
    if b == RESERVED {
      NothingBelow(v, bs, m);
    } else if Mark(v[b - 1]) != MARK {
      ScanWhole(v, bs, m, b - 1, owner, live);
      assert b - 1 !in m;
      forall x: nat | x < |v| ensures OwnedBelow(m, b, x) <==> OwnedBelow(m, b - 1, x) {
      }
    } else {
      var was, before :| Scanned(v, bs, b - 1, was, before) && |was| == |v|
        && ScanStep(v, bs, b - 1, was, before, owner, live);
      ScanWhole(v, bs, m, b - 1, was, before);
      assert IsArchive(v, bs, b - 1);
      ScanArchive(v, bs, m, b - 1, was, before, owner, live);
    }
  }

  lemma NothingBelow(v: seq<seq<u8>>, bs: nat, m: Lists)
    requires Whole(v, bs, m)
    ensures forall x: nat {:trigger OwnedBelow(m, RESERVED, x)} :: !OwnedBelow(m, RESERVED, x)
    ensures forall a: nat {:trigger a in m} :: a in m ==> RESERVED <= a < |v|
  {
    forall a: nat | a in m ensures RESERVED <= a < |v| {
      assert IsArchive(v, bs, a);
    }
  }

  /** In a whole volume a block is free exactly when no save owns it. */
  lemma FreeIsUntaken(v: seq<seq<u8>>, bs: nat, m: Lists, owner: seq<nat>, live: seq<Live>, x: nat)
    requires Whole(v, bs, m) && Scanned(v, bs, |v|, owner, live) && x < |v|
    ensures |owner| == |v| && (owner[x] == 0 <==> !Taken(m, x))
  {
    ScanWhole(v, bs, m, |v|, owner, live);
    NothingBelow(v, bs, m);
    if Taken(m, x) {
      var a: nat :| Owns(m, a, x);
      assert a in m;
      assert OwnedBelow(m, |v|, x);
    }
  }

  /* ---- What a written save parses as ------------------------------------------------------------------- */

  lemma FilledParts(mark: nat, rest: seq<u8>, bs: nat)
    requires bs >= 64 && mark < 0x1_0000_0000
    ensures Mark(BlockOf(mark, rest, bs)) == mark
    ensures BlockOf(mark, rest, bs)[HEADER..] == if |rest| <= bs - HEADER
      then rest + Zeros(bs - HEADER - |rest|) else rest[..bs - HEADER]
  {
    var b, f := Be32Bytes(mark), BlockOf(mark, rest, bs);
    assert f[0] == b[0] && f[1] == b[1] && f[2] == b[2] && f[3] == b[3];
  }

  lemma {:induction false} RestShrinks(stream: seq<u8>, w: nat, i: nat)
    ensures |Rest(stream, w, i)| == 0 || |Rest(stream, w, i)| + i * w == |stream|
  {
    if i > 0 {
      RestShrinks(stream, w, i - 1);
      NextMultiple(i - 1, w);
    }
  }

  lemma RestDone(stream: seq<u8>, w: nat, n: nat)
    requires n * w >= |stream|
    ensures Rest(stream, w, n) == []
  {
    RestShrinks(stream, w, n);
  }

  /** The payloads of the chosen blocks, end to end, are the stream and then zeros. */
  lemma {:induction false} TailLaid(v: seq<seq<u8>>, w: seq<seq<u8>>, bs: nat, chosen: seq<nat>, stream: seq<u8>,
                                    i: nat) returns (z: nat)
    requires Shaped(w, bs) && i <= |chosen| && Laid(v, w, bs, chosen, stream)
      && Rest(stream, bs - HEADER, |chosen|) == []
    ensures Tail(w, bs, chosen, i) == Rest(stream, bs - HEADER, i) + Zeros(z)
    decreases |chosen| - i
  {
    if i == |chosen| {
      z := 0;
    } else {
      z := TailLaid(v, w, bs, chosen, stream, i + 1);
      var r, p := Rest(stream, bs - HEADER, i), bs - HEADER;
      assert Rest(stream, p, i + 1) == After(r, p);
      assert LaidAt(w, bs, chosen, stream, i);
      hide Rest, BlockOf, Zeros, Laid, LaidUpTo, MarkOf, Mark, Shaped;
      FilledParts(MarkOf(i), r, bs);
      JoinPayload(r, p, z);
      z := if |r| <= p then p - |r| + z else z;
    }
  }

  lemma JoinPayload(r: seq<u8>, p: nat, z: nat)
    ensures |r| <= p ==> (r + Zeros(p - |r|)) + ([] + Zeros(z)) == r + Zeros(p - |r| + z)
    ensures |r| > p ==> r[..p] + (r[p..] + Zeros(z)) == r + Zeros(z)
  {
  }

  lemma {:induction false} TailShift(w: seq<seq<u8>>, bs: nat, chosen: seq<nat>, i: nat)
    requires Shaped(w, bs) && Inside(chosen, |w|) && 1 <= i <= |chosen|
    ensures Inside(chosen[1..], |w|) && Tail(w, bs, chosen, i) == Tail(w, bs, chosen[1..], i - 1)
    decreases |chosen| - i
  {
    assert Inside(chosen[1..], |w|);
    if i < |chosen| {
      TailShift(w, bs, chosen, i + 1);
    }
  }

  lemma LaidShaped(v: seq<seq<u8>>, w: seq<seq<u8>>, bs: nat, chosen: seq<nat>, stream: seq<u8>)
    requires Shaped(v, bs) && Laid(v, w, bs, chosen, stream)
    ensures Shaped(w, bs)
    ensures forall i: nat :: i < |chosen| ==> Mark(w[chosen[i]]) == MarkOf(i)
  {
    forall b | 0 <= b < |w| ensures |w[b]| == bs {
      if b in chosen {
        var i: nat :| i < |chosen| && chosen[i] == b;
        assert LaidAt(w, bs, chosen, stream, i);
      } else {
        assert |v[b]| == bs;
      }
    }
    forall i: nat | i < |chosen| ensures Mark(w[chosen[i]]) == MarkOf(i) {
      assert LaidAt(w, bs, chosen, stream, i);
      FilledParts(MarkOf(i), Rest(stream, bs - HEADER, i), bs);
    }
  }

  /** A stream laid over enough blocks: the archive block begins with the fields, and the
      stream over the other blocks goes on with the rest. */
  lemma LaidStream(v: seq<seq<u8>>, w: seq<seq<u8>>, bs: nat, chosen: seq<nat>, fields: seq<u8>, rest: seq<u8>)
    returns (z: nat)
    requires Shaped(v, bs) && |fields| == FIELDS_LEN && |chosen| >= 1 && Laid(v, w, bs, chosen, fields + rest)
    requires |chosen| * (bs - HEADER) >= |fields + rest| && chosen[0] < |v|
    ensures Shaped(w, bs) && Inside(chosen[1..], |w|) && chosen[0] < |w|
    ensures w[chosen[0]][HEADER..LIST_AT] == fields && Stream(w, bs, chosen[0], chosen[1..]) == rest + Zeros(z)
  {
    LaidShaped(v, w, bs, chosen, fields + rest);
    RestDone(fields + rest, bs - HEADER, |chosen|);
    z := TailLaid(v, w, bs, chosen, fields + rest, 0);
    TailShift(w, bs, chosen, 1);
    var a, t := w[chosen[0]], Tail(w, bs, chosen, 1);
    assert a[HEADER..] + t == (fields + rest) + Zeros(z);
    assert (a[HEADER..] + t)[..FIELDS_LEN] == a[HEADER..LIST_AT] && (a[HEADER..] + t)[FIELDS_LEN..] == a[LIST_AT..] + t;
    assert ((fields + rest) + Zeros(z))[..FIELDS_LEN] == fields
      && ((fields + rest) + Zeros(z))[FIELDS_LEN..] == rest + Zeros(z);
  }

  lemma FieldsParts(s: Save)
    requires SaveShaped(s)
    ensures var f := Fields(s);
      && f[0..11] == s.name && f[11] == s.language && f[12..22] == s.comment && f[22..26] == s.date
         && f[26..30] == Be32Bytes(|s.data|)
  {
    hide Be32Bytes;
  }

  lemma SubSlice<T>(b: seq<T>, lo: nat, hi: nat, i: nat, j: nat)
    requires lo <= hi <= |b| && i <= j <= hi - lo
    ensures b[lo..hi][i..j] == b[lo + i..lo + j]
  {
    var u, t := b[lo..hi][i..j], b[lo + i..lo + j];
    forall k | 0 <= k < j - i ensures u[k] == t[k] {
      assert u[k] == b[lo..hi][i + k] && t[k] == b[lo + i + k];
    }
  }

  lemma Be32Slice(b: seq<u8>, at: nat, v: nat)
    requires at + 4 <= |b| && v < 0x1_0000_0000 && b[at..at + 4] == Be32Bytes(v)
    ensures Be32(b, at) == v
  {
    var s := b[at..at + 4];
    assert b[at] == s[0] && b[at + 1] == s[1] && b[at + 2] == s[2] && b[at + 3] == s[3];
  }

  lemma FieldsRead(b: seq<u8>, s: Save)
    requires SaveShaped(s) && |b| >= LIST_AT && b[HEADER..LIST_AT] == Fields(s)
    ensures b[4..15] == s.name && b[15] == s.language && b[16..26] == s.comment && b[26..30] == s.date
    ensures Be32(b, SIZE_AT) == |s.data|
  {
    FieldsParts(s);
    hide Fields, Be32Bytes, Be32;
    SubSlice(b, HEADER, LIST_AT, 0, 11);
    SubSlice(b, HEADER, LIST_AT, 12, 22);
    SubSlice(b, HEADER, LIST_AT, 22, 26);
    SubSlice(b, HEADER, LIST_AT, 26, 30);
    assert b[15] == b[HEADER..LIST_AT][11];
    Be32Slice(b, SIZE_AT, |s.data|);
  }

  lemma ListSpelled(list: seq<nat>, data: seq<u8>, z: nat)
    requires forall i {:trigger list[i]} :: 0 <= i < |list| ==> 0 < list[i] < 0x1_0000
    ensures Spells((Entries(list) + [0, 0] + data) + Zeros(z), list)
    ensures var s, at := (Entries(list) + [0, 0] + data) + Zeros(z), 2 * |list| + 2;
      |s| >= at + |data| && s[at..at + |data|] == data
  {
    var e := Entries(list);
    var s := (e + [0, 0] + data) + Zeros(z);
    forall i | 0 <= i < |list| ensures 2 * i + 2 <= |s| && Be16(s, 2 * i) == list[i] && list[i] != 0 {
      EntryOf(list, i);
      assert s[2 * i] == e[2 * i] && s[2 * i + 1] == e[2 * i + 1];
    }
    assert s[2 * |list|] == 0 && s[2 * |list| + 1] == 0;
  }

  /** A save written over enough free blocks parses back to exactly those blocks, and to the
      save, even where its list runs into blocks it names itself. */
  lemma WrittenParses(v: seq<seq<u8>>, w: seq<seq<u8>>, bs: nat, chosen: seq<nat>, s: Save)
    requires Shaped(v, bs) && SaveShaped(s) && |chosen| == Needed(bs, |s.data|) >= 1 && Chains.Distinct(chosen)
    requires forall i {:trigger chosen[i]} :: 0 <= i < |chosen| ==> RESERVED <= chosen[i] < |v|
    requires Laid(v, w, bs, chosen, StreamOf(s, chosen[1..]))
    ensures Shaped(w, bs) && IsArchive(w, bs, chosen[0]) && IsList(w, bs, chosen[0], chosen[1..])
    ensures SaveIn(w, bs, chosen[0], chosen[1..]) == s
  {
    var a, l := chosen[0], chosen[1..];
    var rest := Entries(l) + [0, 0] + s.data;
    NeededIsLeast(bs, |s.data|, |chosen|);
    var z := LaidStream(v, w, bs, chosen, Fields(s), rest);
    LaidShaped(v, w, bs, chosen, StreamOf(s, l));
    FieldsRead(w[a], s);
    ListSpelled(l, s.data, z);
    assert Mark(w[chosen[0]]) == MarkOf(0);
    forall i | 0 <= i < |l| ensures Listable(w, bs, l[i]) {
      assert l[i] == chosen[i + 1] && Mark(w[chosen[i + 1]]) == MarkOf(i + 1);
    }
  }

  /* ---- Adding and removing -------------------------------------------------------------------------------- */

  ghost function FreeSet(n: nat, m: Lists): set<nat> {
    set x: nat | RESERVED <= x < n && !Taken(m, x)
  }

  /** The save at archive block `a` reads the same on both volumes. */
  ghost predicate SameSave(v: seq<seq<u8>>, w: seq<seq<u8>>, bs: nat, a: nat, list: seq<nat>) {
    && Shaped(v, bs) && Shaped(w, bs) && IsList(v, bs, a, list) && IsList(w, bs, a, list)
    && SaveIn(w, bs, a, list) == SaveIn(v, bs, a, list)
  }

  ghost predicate Untaken(m: Lists, list: seq<nat>) {
    forall i {:trigger list[i]} :: 0 <= i < |list| ==> !Taken(m, list[i])
  }

  /** Blocks no save owns may be written without touching any save. */
  lemma OthersKept(v: seq<seq<u8>>, w: seq<seq<u8>>, bs: nat, m: Lists, changed: seq<nat>, b: nat)
    requires Whole(v, bs, m) && Shaped(w, bs) && |w| == |v| && Untaken(m, changed) && b in m
    requires forall x {:trigger w[x]} :: 0 <= x < |v| && x !in changed ==> w[x] == v[x]
    ensures IsArchive(w, bs, b) && SameSave(v, w, bs, b, m[b])
  {
    assert IsArchive(v, bs, b) && Owns(m, b, b);
    assert b !in changed;
    forall i | 0 <= i < |m[b]| ensures v[m[b][i]] == w[m[b][i]] {
      assert Owns(m, b, m[b][i]);
      assert m[b][i] !in changed;
    }
    ListFrame(v, w, bs, b, m[b]);
  }

  /** A save written over free blocks joins the map, and no other save changes. */
  lemma WriteKeepsWhole(v: seq<seq<u8>>, w: seq<seq<u8>>, bs: nat, m: Lists, chosen: seq<nat>, s: Save)
    requires Whole(v, bs, m) && SaveShaped(s) && |chosen| == Needed(bs, |s.data|) >= 1 && Chains.Distinct(chosen)
      && Untaken(m, chosen)
    requires forall i {:trigger chosen[i]} :: 0 <= i < |chosen| ==> RESERVED <= chosen[i] < |v|
    requires Laid(v, w, bs, chosen, StreamOf(s, chosen[1..]))
    ensures var n := m[chosen[0] := chosen[1..]];
      && Whole(w, bs, n) && chosen[0] !in m
      && IsList(w, bs, chosen[0], chosen[1..]) && SaveIn(w, bs, chosen[0], chosen[1..]) == s
      && forall b: nat {:trigger m[b]} :: b in m ==> SameSave(v, w, bs, b, m[b])
  {
    var a, l := chosen[0], chosen[1..];
    var n := m[a := l];
    WrittenParses(v, w, bs, chosen, s);
    LaidShaped(v, w, bs, chosen, StreamOf(s, l));
    assert !Taken(m, chosen[0]) && !Owns(m, a, a);
    assert chosen[..|chosen|] == chosen;
    hide IsList, SaveIn, SameSave, Owns, StreamOf, SaveShaped;
    forall b: nat | b in m ensures IsArchive(w, bs, b) && SameSave(v, w, bs, b, m[b]) && IsList(w, bs, b, m[b]) {
      OthersKept(v, w, bs, m, chosen, b);
    }
    NoOtherArchive(v, w, bs, m, chosen, StreamOf(s, l));
    forall b: nat, c: nat | b in n && c in n && b != c ensures Apart(n, b, c) {
      NewListApart(m, chosen, b, c);
    }
  }

  lemma NoOtherArchive(v: seq<seq<u8>>, w: seq<seq<u8>>, bs: nat, m: Lists, chosen: seq<nat>, stream: seq<u8>)
    requires Whole(v, bs, m) && Shaped(w, bs) && |chosen| >= 1 && Laid(v, w, bs, chosen, stream)
    requires forall i: nat {:trigger chosen[i]} :: i < |chosen| ==> Mark(w[chosen[i]]) == MarkOf(i)
    ensures forall b: nat {:trigger IsArchive(w, bs, b)} :: IsArchive(w, bs, b) ==> b in m || b == chosen[0]
  {
    hide IsList, BlockOf;
    assert chosen[..|chosen|] == chosen;
    forall b: nat | IsArchive(w, bs, b) ensures b in m || b == chosen[0] {
      if b in chosen {
        var i: nat :| i < |chosen| && chosen[i] == b;
        assert Mark(w[chosen[i]]) == MarkOf(i);
      } else {
        assert IsArchive(v, bs, b);
      }
    }
  }

  lemma NewListApart(m: Lists, chosen: seq<nat>, b: nat, c: nat)
    requires |chosen| >= 1 && Untaken(m, chosen) && b != c
    requires b in m || b == chosen[0]
    requires c in m || c == chosen[0]
    requires chosen[0] !in m && (b in m && c in m ==> Apart(m, b, c))
    ensures Apart(m[chosen[0] := chosen[1..]], b, c)
  {
    var a, l := chosen[0], chosen[1..];
    forall x, d: nat | x in l && d in m ensures x !in m[d] {
      var i :| 0 <= i < |l| && l[i] == x;
      assert !Taken(m, chosen[i + 1]);
      assert !Owns(m, d, x);
    }
  }

  /** Removing a save takes it from the map, and no other save changes. */
  lemma WipeKeepsWhole(v: seq<seq<u8>>, w: seq<seq<u8>>, bs: nat, m: Lists, a: nat)
    requires Whole(v, bs, m) && a in m && Wiped(v, w, bs, [a] + m[a])
    ensures Whole(w, bs, m - {a})
    ensures forall b: nat {:trigger m[b]} :: b in m && b != a ==> SameSave(v, w, bs, b, m[b])
  {
    var n, gone := m - {a}, [a] + m[a];
    WipedShaped(v, w, bs, gone);
    forall b: nat | b in n ensures IsArchive(w, bs, b) && SameSave(v, w, bs, b, m[b]) {
      WipeKeepsOne(v, w, bs, m, a, b);
    }
    forall b: nat | IsArchive(w, bs, b) ensures b in n {
      assert b !in gone;
      assert IsArchive(v, bs, b);
    }
    forall b: nat, c: nat | b in n && c in n && b != c ensures Apart(n, b, c) {
      assert Apart(m, b, c);
    }
  }

  lemma WipedShaped(v: seq<seq<u8>>, w: seq<seq<u8>>, bs: nat, gone: seq<nat>)
    requires Shaped(v, bs) && Wiped(v, w, bs, gone)
    ensures Shaped(w, bs)
    ensures forall b: nat :: b < |w| && b in gone ==> Mark(w[b]) == 0
  {
    forall b | 0 <= b < |w| ensures |w[b]| == bs {
      assert |v[b]| == bs;
    }
  }

  lemma WipeKeepsOne(v: seq<seq<u8>>, w: seq<seq<u8>>, bs: nat, m: Lists, a: nat, b: nat)
    requires Whole(v, bs, m) && a in m && b in m && b != a && Wiped(v, w, bs, [a] + m[a]) && Shaped(w, bs)
    ensures IsArchive(w, bs, b) && SameSave(v, w, bs, b, m[b])
  {
    var gone := [a] + m[a];
    assert IsArchive(v, bs, b);
    ForeignKept(v, bs, m, a, b, b);
    forall i | 0 <= i < |m[b]| ensures v[m[b][i]] == w[m[b][i]] {
      ForeignKept(v, bs, m, a, b, m[b][i]);
    }
    ListFrame(v, w, bs, b, m[b]);
  }

  lemma ForeignKept(v: seq<seq<u8>>, bs: nat, m: Lists, a: nat, b: nat, x: nat)
    requires Whole(v, bs, m) && a in m && Owns(m, b, x) && a != b
    ensures x !in [a] + m[a]
  {
    if x in [a] + m[a] {
      assert Owns(m, a, x);
      OwnersApart(v, bs, m, a, b, x);
    }
  }
}
