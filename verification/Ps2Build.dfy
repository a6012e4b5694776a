/** A new save folder on a PS2 card as an inject builds it: its directory grows one entry at a
    time, the clusters of each file in between. */
module Ps2Build {
  import opened Bytes
  import opened Status
  import opened Chains
  import opened Division
  import opened Ps2Fat
  import opened Ps2Cells
  import opened Ps2Alloc
  import opened Ps2Read
  import opened Ps2Save
  import opened Ps2Grow
  import opened Ps2Write

  /* ---- The entries written ----------------------------------------------------------------------------- */

  function WithLe32(e: Entry, at: nat, v: nat): (r: Entry)
    requires at + 4 <= ENTRY_SIZE
  {
    Splice(e, at, Le32Bytes(v))
  }

  lemma Overwrite(e: Entry, at: nat, v: nat, w: nat)
    requires at + 4 <= ENTRY_SIZE
    ensures WithLe32(WithLe32(e, at, v), at, w) == WithLe32(e, at, w)
  {
  }

  lemma Reorder(e: Entry, at: nat, v: nat, p: nat, w: nat)
    requires at + 4 <= p && p + 4 <= ENTRY_SIZE
    ensures WithLe32(WithLe32(e, at, v), p, w) == WithLe32(WithLe32(e, p, w), at, v)
  {
  }

  /** The root's entry for the folder that starts at `first`. */
  function RootEntry(save: Save, first: nat): Entry {
    WithLe32(WithLe32(WithLe32(save.entry, LENGTH, |save.files| + 2), CLUSTER, first), PARENT_INDEX, 0)
  }

  function SelfEntry(save: Save, slot: nat): Entry {
    WithLe32(save.self, PARENT_INDEX, slot)
  }

  function FileEntry(f: File, first: nat): Entry {
    WithLe32(f.entry, CLUSTER, first)
  }

  function FirstOf(chain: seq<nat>): nat {
    if chain == [] then 0 else chain[0]
  }

  /** Entry `e` of the new folder, whose file chains are `fs` from the third on. */
  ghost function DirEntry(save: Save, slot: nat, fs: seq<seq<nat>>, e: nat): Entry
    requires e < |save.files| + 2 && e < |fs|
  {
    if e == 0 then SelfEntry(save, slot)
    else if e == 1 then save.parent
    else FileEntry(save.files[e - 2], FirstOf(fs[e]))
  }

  /* ---- How far a folder is built ------------------------------------------------------------------------ */

  ghost predicate DirEntryIs(s: Progress, g: Geometry, save: Save, slot: nat, e: nat) {
    && Sized(s.at, g) && e < |save.files| + 2 && 2 <= |s.chains| && e < |s.chains|
    && Div(e, Per(g)) < |s.chains[1]| && s.chains[1][Div(e, Per(g))] < g.end
    && EntryAt(s.at.data, g, s.chains[1], e) == DirEntry(save, slot, s.chains, e)
  }

  ghost predicate FileIs(s: Progress, g: Geometry, save: Save, e: nat) {
    && g.cs >= 1 && 2 <= e < |save.files| + 2 && e < |s.chains|
    && Filling(s.at.data, s.chains[e], Chunks(save.files[e - 2].data, g.cs, PAD))
    && |s.chains[e]| == Ceil(|save.files[e - 2].data|, g.cs)
  }

  /** The folder with its first `done` files. */
  ghost predicate Built(s: Progress, g: Geometry, save: Save, slot: nat, done: nat) {
    && Sane(g) && done <= |save.files| && |s.chains| == done + 2 && |s.chains[1]| == Ceil(done + 2, Per(g))
    && (forall e: nat {:trigger DirEntryIs(s, g, save, slot, e)} :: e < done + 2 ==> DirEntryIs(s, g, save, slot, e))
    && (forall e: nat {:trigger FileIs(s, g, save, e)} :: 2 <= e < done + 2 ==> FileIs(s, g, save, e))
  }

  /** From `s` to `t` the first `n` entries of the folder, their files, and the root directory's
      clusters read the same. */
  ghost predicate Kept(s: Progress, t: Progress, g: Geometry, n: nat) {
    && Sized(s.at, g) && Sized(t.at, g) && 2 <= n <= |s.chains| <= |t.chains|
    && t.chains[0] == s.chains[0] && SameAlong(s.at, t.at, s.chains[0])
    && s.chains[1] <= t.chains[1]
    && (forall e: nat {:trigger FileKept(s, t, e)} :: 2 <= e < n ==> FileKept(s, t, e))
    && (forall e: nat {:trigger EntryKept(s, t, g, e)} :: e < n ==> EntryKept(s, t, g, e))
  }

  ghost predicate FileKept(s: Progress, t: Progress, e: nat) {
    e < |s.chains| && e < |t.chains| && t.chains[e] == s.chains[e] && SameAlong(s.at, t.at, s.chains[e])
  }

  ghost predicate EntryKept(s: Progress, t: Progress, g: Geometry, e: nat) {
    && Sized(s.at, g) && Sized(t.at, g) && 2 <= |s.chains| && 2 <= |t.chains| && s.chains[1] <= t.chains[1]
    && (Div(e, Per(g)) < |s.chains[1]| && s.chains[1][Div(e, Per(g))] < g.end ==>
          EntryAt(t.at.data, g, t.chains[1], e) == EntryAt(s.at.data, g, s.chains[1], e))
  }

  lemma KeptTrans(s: Progress, t: Progress, u: Progress, g: Geometry, n: nat)
    requires Kept(s, t, g, n) && Kept(t, u, g, n)
    ensures Kept(s, u, g, n)
  {
    forall e: nat | 2 <= e < n ensures FileKept(s, u, e) {
      assert FileKept(s, t, e) && FileKept(t, u, e);
    }
    forall e: nat | e < n ensures EntryKept(s, u, g, e) {
      assert EntryKept(s, t, g, e) && EntryKept(t, u, g, e);
    }
  }

  lemma KeptEntryIs(s: Progress, t: Progress, g: Geometry, save: Save, slot: nat, n: nat, e: nat)
    requires Kept(s, t, g, n) && e < n && DirEntryIs(s, g, save, slot, e)
    ensures DirEntryIs(t, g, save, slot, e)
  {
    assert EntryKept(s, t, g, e);
    if e >= 2 {
      assert FileKept(s, t, e);
    }
  }

  lemma KeptFileIs(s: Progress, t: Progress, g: Geometry, save: Save, n: nat, e: nat)
    requires Kept(s, t, g, n) && e < n && FileIs(s, g, save, e)
    ensures FileIs(t, g, save, e)
  {
    assert FileKept(s, t, e);
  }

  /** One more cluster on the folder's directory keeps the folder. */
  lemma AppendKeeps(s: Progress, t: Progress, g: Geometry, n: nat, bytes: seq<u8>, k: nat)
    requires Sized(s.at, g) && Sized(t.at, g) && 2 <= k <= |s.chains| && Appended(s, t, 1, n, bytes)
    ensures Kept(s, t, g, k)
  {
    forall e: nat | 2 <= e < k ensures FileKept(s, t, e) {
      assert SameAlong(s.at, t.at, s.chains[e]);
    }
  }

  /** So does an empty chain for the next file. */
  lemma StartKeeps(s: Progress, g: Geometry, k: nat)
    requires Sized(s.at, g) && 2 <= k <= |s.chains| && Own(s.from, s.root, s.chains) && |s.from.fat| == |s.at.data|
    ensures Kept(s, s.(chains := s.chains + [[]]), g, k)
  {
    var t := s.(chains := s.chains + [[]]);
    forall e: nat | e < k ensures SameAlong(s.at, t.at, s.chains[e]) {
      assert OwnCells(s.from, s.root, s.chains[e]);
    }
    forall e: nat | 2 <= e < k ensures FileKept(s, t, e) {
    }
  }

  lemma FileKeeps(s: Progress, t: Progress, g: Geometry, i: nat, cl: seq<seq<u8>>, k: nat)
    requires Sized(s.at, g) && Sized(t.at, g) && 2 <= k <= i && FilePut(s, t, i, cl)
    ensures Kept(s, t, g, k)
  {
    assert SameAlong(s.at, t.at, s.chains[0]) && SameAlong(s.at, t.at, s.chains[1]);
    forall e: nat | 2 <= e < k ensures FileKept(s, t, e) {
      assert SameAlong(s.at, t.at, s.chains[e]);
    }
  }

  /** An entry past the first `k` keeps them. */
  lemma EntryKeeps(s: Progress, t: Progress, g: Geometry, i: nat, e: Entry, k: nat)
    requires Sized(s.at, g) && 2 <= k <= |s.chains| && k <= i && Entered(s, t, g, 1, i, e)
    ensures Kept(s, t, g, k)
  {
    assert SameAlong(s.at, t.at, s.chains[0]);
    forall j: nat | 2 <= j < k ensures FileKept(s, t, j) {
      assert SameAlong(s.at, t.at, s.chains[j]);
    }
    forall j: nat | j < k ensures EntryKept(s, t, g, j) {
      if Div(j, Per(g)) < |s.chains[1]| {
        assert SameEntry(s.at, t.at, g, s.chains[1], j);
      }
    }
  }
}
