/** Saturn backup RAM. There is no directory: a save's archive block begins a list of the
    blocks it takes, and the list goes on into those very blocks. */
module SaturnVolume {
  import opened Bytes
  import Chains

  const HEADER := 4
  const LIST_AT := 34
  const RESERVED := 2
  const SIZE_AT := 0x1E
  const MARK := 0x8000_0000

  ghost predicate Inside(list: seq<nat>, n: nat) {
    forall i {:trigger list[i]} :: 0 <= i < |list| ==> list[i] < n
  }

  /** A volume as its blocks, all of `bs` bytes. */
  ghost predicate Shaped(v: seq<seq<u8>>, bs: nat) {
    64 <= bs && RESERVED <= |v| <= 0x1_0000 && forall b {:trigger v[b]} :: 0 <= b < |v| ==> |v[b]| == bs
  }

  /** The block sizes and block counts of internal memory and of carts. */
  predicate Geometry(bs: nat, blocks: nat) {
    || (bs == 64 && (blocks == 512 || blocks == 0x1_0000))
    || (bs == 512 && (blocks == 1024 || blocks == 2048 || blocks == 4096))
    || (bs == 1024 && blocks == 4096)
  }

  function Mark(block: seq<u8>): nat
    requires |block| >= 4
  {
    Be32(block, 0)
  }

  ghost predicate IsArchive(v: seq<seq<u8>>, bs: nat, b: nat)
    requires Shaped(v, bs)
  {
    RESERVED <= b < |v| && Mark(v[b]) == MARK
  }

  /* ---- The stream of a save -------------------------------------------------------------- */

  /** The payloads of the listed blocks from place `i` of the list on. */
  ghost function Tail(v: seq<seq<u8>>, bs: nat, list: seq<nat>, i: nat): seq<u8>
    requires Shaped(v, bs) && i <= |list| && Inside(list, |v|)
    decreases |list| - i
  {
    if i == |list| then [] else v[list[i]][HEADER..] + Tail(v, bs, list, i + 1)
  }

  /** What follows the fields of a save: its block list, and then its data. */
  ghost function Stream(v: seq<seq<u8>>, bs: nat, a: nat, list: seq<nat>): (s: seq<u8>)
    requires Shaped(v, bs) && a < |v| && Inside(list, |v|)
    ensures |s| >= 30
  {
    v[a][LIST_AT..] + Tail(v, bs, list, 0)
  }

  ghost function Size(v: seq<seq<u8>>, bs: nat, a: nat): nat
    requires Shaped(v, bs) && a < |v|
  {
    Be32(v[a], SIZE_AT)
  }

  /** A block a list may name: inside the volume, past the reserved ones, its mark clear. */
  ghost predicate Listable(v: seq<seq<u8>>, bs: nat, b: nat)
    requires Shaped(v, bs)
  {
    RESERVED <= b < |v| && Mark(v[b]) == 0
  }

  /** `list` is the block list the archive block `a` begins: the stream over the blocks it
      names spells it, ends it with a zero, and leaves room for the data. */
  ghost predicate IsList(v: seq<seq<u8>>, bs: nat, a: nat, list: seq<nat>)
    requires Shaped(v, bs)
  {
    && a < |v| && Chains.Distinct(list) && Inside(list, |v|)
       && (forall i {:trigger list[i]} :: 0 <= i < |list| ==> Listable(v, bs, list[i]))
    && Spells(Stream(v, bs, a, list), list)
    && |Stream(v, bs, a, list)| >= 2 * |list| + 2 + Size(v, bs, a)
  }

  /** `s` begins with the two-byte entries of `list` and a zero entry. */
  ghost predicate Spells(s: seq<u8>, list: seq<nat>) {
    && |s| >= 2 * |list| + 2
    && (forall i {:trigger list[i]} :: 0 <= i < |list| ==>
        2 * i + 2 <= |s| && Be16(s, 2 * i) == list[i] && list[i] != 0)
    && Be16(s, 2 * |list|) == 0
  }

  /* ---- Facts about streams ------------------------------------------------------------------- */

  lemma {:induction false} TailSnoc(v: seq<seq<u8>>, bs: nat, list: seq<nat>, b: nat, i: nat)
    requires Shaped(v, bs) && i <= |list| && b < |v| && Inside(list, |v|)
    ensures Tail(v, bs, list + [b], i) == Tail(v, bs, list, i) + v[b][HEADER..]
    decreases |list| - i
  {
    var u := list + [b];
    if i == |list| {
      assert u[i] == b && Tail(v, bs, u, i + 1) == [];
    } else {
      assert u[i] == list[i];
      TailSnoc(v, bs, list, b, i + 1);
    }
  }

  lemma StreamSnoc(v: seq<seq<u8>>, bs: nat, a: nat, list: seq<nat>, b: nat)
    requires Shaped(v, bs) && a < |v| && b < |v| && Inside(list, |v|)
    ensures Stream(v, bs, a, list + [b]) == Stream(v, bs, a, list) + v[b][HEADER..]
  {
    TailSnoc(v, bs, list, b, 0);
  }

  ghost predicate SameBlocks(v: seq<seq<u8>>, w: seq<seq<u8>>, list: seq<nat>)
    requires |v| == |w| && Inside(list, |v|)
  {
    forall i {:trigger list[i]} :: 0 <= i < |list| ==> v[list[i]] == w[list[i]]
  }

  /** A save's stream depends only on its own blocks. */
  lemma {:induction false} TailFrame(v: seq<seq<u8>>, w: seq<seq<u8>>, bs: nat, list: seq<nat>, i: nat)
    requires Shaped(v, bs) && Shaped(w, bs) && |v| == |w| && i <= |list|
    requires Inside(list, |v|) && SameBlocks(v, w, list)
    ensures Tail(v, bs, list, i) == Tail(w, bs, list, i)
    decreases |list| - i
  {
    if i < |list| {
      TailFrame(v, w, bs, list, i + 1);
    }
  }

  lemma ListFrame(v: seq<seq<u8>>, w: seq<seq<u8>>, bs: nat, a: nat, list: seq<nat>)
    requires Shaped(v, bs) && Shaped(w, bs) && |v| == |w| && IsList(v, bs, a, list) && v[a] == w[a]
    requires SameBlocks(v, w, list)
    ensures IsList(w, bs, a, list) && Stream(w, bs, a, list) == Stream(v, bs, a, list)
  {
    TailFrame(v, w, bs, list, 0);
  }

  /** The stream over a shorter list is a prefix. */
  lemma {:induction false} StreamGrows(v: seq<seq<u8>>, bs: nat, a: nat, list: seq<nat>, k: nat)
    requires Shaped(v, bs) && a < |v| && k <= |list| && Inside(list, |v|)
    ensures |Stream(v, bs, a, list[..k])| <= |Stream(v, bs, a, list)|
    ensures Stream(v, bs, a, list)[..|Stream(v, bs, a, list[..k])|] == Stream(v, bs, a, list[..k])
    decreases |list| - k
  {
    if k < |list| {
      assert list[..k + 1] == list[..k] + [list[k]];
      StreamSnoc(v, bs, a, list[..k], list[k]);
      StreamGrows(v, bs, a, list, k + 1);
    } else {
      assert list[..k] == list;
    }
  }

  lemma NextMultiple(n: nat, w: nat)
    ensures (n + 1) * w == n * w + w
  {
  }

  lemma AtLeast(n: nat, w: nat, u: nat)
    requires u <= w
    ensures n * u <= n * w
  {
  }

  lemma {:induction false} TailLength(v: seq<seq<u8>>, bs: nat, list: seq<nat>, i: nat)
    requires Shaped(v, bs) && i <= |list| && Inside(list, |v|)
    ensures |Tail(v, bs, list, i)| == (|list| - i) * (bs - HEADER)
    decreases |list| - i
  {
    if i < |list| {
      TailLength(v, bs, list, i + 1);
      NextMultiple(|list| - i - 1, bs - HEADER);
    }
  }

  lemma StreamLength(v: seq<seq<u8>>, bs: nat, a: nat, list: seq<nat>)
    requires Shaped(v, bs) && a < |v| && Inside(list, |v|)
    ensures |Stream(v, bs, a, list)| == bs - LIST_AT + |list| * (bs - HEADER)
    ensures |Stream(v, bs, a, list)| >= 2 * |list| + 2
  {
    TailLength(v, bs, list, 0);
    AtLeast(|list|, bs - HEADER, 2);
  }

  /** Each entry lies inside the stream of the blocks before it. */
  lemma EntryEarly(v: seq<seq<u8>>, bs: nat, a: nat, list: seq<nat>, k: nat)
    requires Shaped(v, bs) && a < |v| && k <= |list| && Inside(list, |v|)
    ensures |Stream(v, bs, a, list[..k])| >= 2 * k + 2 && |Stream(v, bs, a, list)| >= 2 * k + 2
    ensures Be16(Stream(v, bs, a, list), 2 * k) == Be16(Stream(v, bs, a, list[..k]), 2 * k)
  {
    StreamLength(v, bs, a, list[..k]);
    StreamGrows(v, bs, a, list, k);
    var s, t := Stream(v, bs, a, list), Stream(v, bs, a, list[..k]);
    assert s[2 * k] == s[..|t|][2 * k] && s[2 * k + 1] == s[..|t|][2 * k + 1];
  }

  /** An archive block begins one list at most. */
  lemma {:induction false} ListUnique(v: seq<seq<u8>>, bs: nat, a: nat, l: seq<nat>, m: seq<nat>, k: nat)
    requires Shaped(v, bs) && IsList(v, bs, a, l) && IsList(v, bs, a, m)
    requires k <= |l| && k <= |m| && l[..k] == m[..k]
    ensures l == m
    decreases |l| - k
  {
    EntryEarly(v, bs, a, l, k);
    EntryEarly(v, bs, a, m, k);
    assert (k < |l| ==> l[k] != 0) && (k < |m| ==> m[k] != 0);
    if k < |l| && k < |m| {
      assert l[k] == m[k];
      assert l[..k + 1] == l[..k] + [l[k]] && m[..k + 1] == m[..k] + [m[k]];
      ListUnique(v, bs, a, l, m, k + 1);
    } else {
      assert k == |l| && k == |m|;
      assert l[..k] == l && m[..k] == m;
    }
  }
}
