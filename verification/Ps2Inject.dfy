/** Adding a save folder to a PS2 card. */
module Ps2Inject {
  import opened Bytes
  import opened Status
  import opened Chains
  import opened Division
  import opened Ps2Fat
  import opened Ps2Cells
  import opened Ps2Alloc
  import opened Ps2Read
  import opened Ps2Save
  import opened Ps2Grow
  import opened Ps2Write
  import opened Ps2Build

  /* ---- What a folder costs ------------------------------------------------------------------------------- */

  /** Clusters the first `n` files take. */
  function DataNeeded(g: Geometry, files: seq<File>, n: nat): nat
    requires Sane(g) && n <= |files|
  {
    if n == 0 then 0 else DataNeeded(g, files, n - 1) + Ceil(|files[n - 1].data|, g.cs)
  }

  lemma {:induction false} DataNeededGrows(g: Geometry, files: seq<File>, n: nat, m: nat)
    requires Sane(g) && n <= m <= |files|
    ensures DataNeeded(g, files, n) <= DataNeeded(g, files, m)
  {
    if n < m {
      DataNeededGrows(g, files, n, m - 1);
    }
  }

  /** Clusters the whole folder takes, and its root entry when it opens a new cluster. */
  function Needed(g: Geometry, save: Save, slot: nat, count: nat): nat
    requires Sane(g)
  {
    (if slot == count && Mod(count, Per(g)) == 0 then 1 else 0)
    + Ceil(|save.files| + 2, Per(g)) + DataNeeded(g, save.files, |save.files|)
  }

  /** One more entry opens a cluster exactly when its index is a multiple of what one holds. */
  lemma {:induction false} CeilNext(n: nat, p: nat)
    requires p >= 1
    ensures Ceil(n + 1, p) == Ceil(n, p) + if Mod(n, p) == 0 then 1 else 0
    ensures Mod(n, p) == 0 ==> Div(n, p) == Ceil(n, p)
    ensures Mod(n, p) != 0 ==> Div(n, p) + 1 == Ceil(n, p)
    decreases n
  {
    if n >= p {
      CeilNext(n - p, p);
    }
  }

  lemma {:induction false} CeilGrows(n: nat, m: nat, p: nat)
    requires p >= 1 && n <= m
    ensures Ceil(n, p) <= Ceil(m, p)
    decreases m - n
  {
    if n < m {
      CeilGrows(n, m - 1, p);
      CeilNext(m - 1, p);
    }
  }

  /** A save as the containers hand it over: a file's entry records how many bytes it has. */
  predicate Proper(save: Save) {
    |save.files| + 2 < 0x1_0000_0000 && forall i {:trigger save.files[i]} :: 0 <= i < |save.files| ==>
      |save.files[i].data| == Length(save.files[i].entry)
  }

  /* ---- Growing a directory -------------------------------------------------------------------------------- */

  /** Entry `index` is the first of a cluster the directory does not have yet. */
  predicate Opens(g: Geometry, chain: seq<nat>, index: nat)
    requires Sane(g)
  {
    Mod(index, Per(g)) == 0 && |chain| <= Div(index, Per(g))
  }

  method ReserveEntry(a: Allocator, vol: array<seq<u8>>, g: Geometry, chain: seq<nat>, index: nat, ghost s: Progress,
                      ghost i: nat)
    returns (ok: bool, grown: seq<nat>, ghost t: Progress)
    requires Holds(vol[..], g, s.at) && Growing(s, g, a.next)
    requires i < |s.chains| && s.chains[i] == chain && Ceil(index, Per(g)) <= |chain|
    modifies a, vol
    ensures Holds(vol[..], g, t.at) && Growing(t, g, a.next)
    ensures ok == (Opens(g, chain, index) ==> s.taken < |s.pool|)
    ensures ok ==> i < |t.chains| && t.chains[i] == grown && Div(index, Per(g)) < |grown|
    ensures if ok && Opens(g, chain, index)
            then grown == chain + [s.pool[s.taken]] && Appended(s, t, i, grown[|chain|], Filled(g.cs, PAD))
            else t == s && grown == chain
  {
    t, grown := s, chain;
    CeilNext(index, Per(g));
    if !Opens(g, chain, index) {
      return true, chain, s;
    }
    var n;
    ok, n, t := Append(a, vol, g, chain, Filled(g.cs, PAD), s, i);
    if ok {
      grown := chain + [n];
    }
  }

  /* ---- One file ---------------------------------------------------------------------------------------------- */

  lemma ReserveKeeps(s: Progress, t: Progress, g: Geometry, next: nat, save: Save, slot: nat, done: nat,
                     grown: seq<nat>)
    requires Built(s, g, save, slot, done) && Sized(s.at, g) && Sized(t.at, g) && Own(s.from, s.root, s.chains)
      && |s.from.fat| == |s.at.data|
    requires if Opens(g, s.chains[1], done + 2)
             then |grown| == |s.chains[1]| + 1 && Appended(s, t, 1, grown[|s.chains[1]|], Filled(g.cs, PAD))
             else t == s
    ensures Kept(s, t, g, done + 2) && |t.chains| == done + 2
    ensures |t.chains[1]| == Ceil(done + 3, Per(g)) && t.taken == s.taken + |t.chains[1]| - |s.chains[1]|
    ensures t.from == s.from && t.root == s.root && t.pool == s.pool
  {
    CeilNext(done + 2, Per(g));
    if Opens(g, s.chains[1], done + 2) {
      AppendKeeps(s, t, g, grown[|s.chains[1]|], Filled(g.cs, PAD), done + 2);
    } else {
      assert OwnCells(s.from, s.root, s.chains[0]);
      forall e: nat | 2 <= e < done + 2 ensures FileKept(s, s, e) {
        assert OwnCells(s.from, s.root, s.chains[e]);
      }
    }
  }

  /** The folder with one more file, once its bytes and its entry are written. */
  lemma FileBuilt(s: Progress, t: Progress, u: Progress, g: Geometry, save: Save, slot: nat, done: nat)
    requires Built(s, g, save, slot, done) && done < |save.files| && Kept(s, t, g, done + 2)
    requires |t.chains| == done + 3 && |t.chains[1]| == Ceil(done + 3, Per(g))
    requires FileIs(t, g, save, done + 2)
    requires Div(done + 2, Per(g)) < |t.chains[1]| && t.chains[1][Div(done + 2, Per(g))] < g.end && Sized(t.at, g)
      && Sized(u.at, g)
    requires Entered(t, u, g, 1, done + 2, FileEntry(save.files[done], FirstOf(t.chains[done + 2])))
    ensures Built(u, g, save, slot, done + 1) && Kept(s, u, g, done + 2)
  {
    EntryKeeps(t, u, g, done + 2, FileEntry(save.files[done], FirstOf(t.chains[done + 2])), done + 2);
    KeptTrans(s, t, u, g, done + 2);
    forall e: nat | e < done + 3 ensures DirEntryIs(u, g, save, slot, e) {
      if e < done + 2 {
        assert DirEntryIs(s, g, save, slot, e);
        KeptEntryIs(s, u, g, save, slot, done + 2, e);
      }
    }
    forall e: nat | 2 <= e < done + 3 ensures FileIs(u, g, save, e) {
      if e < done + 2 {
        assert FileIs(s, g, save, e);
        KeptFileIs(s, u, g, save, done + 2, e);
      } else {
        assert SameAlong(t.at, u.at, t.chains[e]);
      }
    }
  }

  /** The first part of a file's step: room for its entry, and an empty chain for its bytes. */
  lemma FileStarts(s: Progress, r: Progress, g: Geometry, next: nat, save: Save, slot: nat, done: nat)
    requires Growing(r, g, next) && Kept(s, r, g, done + 2) && |r.chains| == done + 2
    ensures Growing(r.(chains := r.chains + [[]]), g, next) && Kept(s, r.(chains := r.chains + [[]]), g, done + 2)
  {
    StartStep(r, g, next);
    StartKeeps(r, g, done + 2);
    KeptTrans(s, r, r.(chains := r.chains + [[]]), g, done + 2);
  }

  lemma FileFills(s: Progress, r: Progress, t: Progress, g: Geometry, save: Save, done: nat)
    requires Kept(s, r, g, done + 2) && |r.chains| == done + 3 && done < |save.files| && Sized(t.at, g)
    requires FilePut(r, t, done + 2, Chunks(save.files[done].data, g.cs, PAD))
    requires |t.chains[done + 2]| == Ceil(|save.files[done].data|, g.cs)
    ensures Kept(s, t, g, done + 2) && FileIs(t, g, save, done + 2) && t.chains[1] == r.chains[1]
  {
    FileKeeps(r, t, g, done + 2, Chunks(save.files[done].data, g.cs, PAD), done + 2);
    KeptTrans(s, r, t, g, done + 2);
  }

  function FileCost(g: Geometry, save: Save, done: nat): nat
    requires Sane(g) && done < |save.files|
  {
    (if Mod(done + 2, Per(g)) == 0 then 1 else 0) + Ceil(|save.files[done].data|, g.cs)
  }

  /** Writes the bytes of the folder's next file, then its entry. */
  method FillFile(a: Allocator, vol: array<seq<u8>>, g: Geometry, save: Save, slot: nat, done: nat, dir: seq<nat>,
                  ghost s: Progress, ghost r: Progress)
    returns (ok: bool, ghost t: Progress)
    requires Holds(vol[..], g, r.at) && Growing(r, g, a.next)
    requires Built(s, g, save, slot, done) && done < |save.files| && Kept(s, r, g, done + 2)
    requires |r.chains| == done + 3 && r.chains[done + 2] == [] && r.chains[1] == dir && |dir| == Ceil(done + 3, Per(g))
    modifies a, vol
    ensures Holds(vol[..], g, t.at) && Growing(t, g, a.next)
    ensures ok == (r.taken + Ceil(|save.files[done].data|, g.cs) <= |r.pool|)
    ensures ok ==> Built(t, g, save, slot, done + 1) && Kept(s, t, g, done + 2) && t.chains[1] == dir
    ensures ok ==> t.from == r.from && t.root == r.root && t.pool == r.pool
    ensures ok ==> t.taken == r.taken + Ceil(|save.files[done].data|, g.cs)
  {
    var f := save.files[done];
    var first;
    ok, first, t := PutFile(a, vol, g, f.data, r, done + 2);
    if !ok {
      return;
    }
    FileFills(s, r, t, g, save, done);
    ghost var u := t;
    DivBelowCeil(done + 2, done + 3, Per(g));
    GrowingCell(u, g, a.next, 1, Div(done + 2, Per(g)));
    t := WriteEntry(vol, g, dir, done + 2, FileEntry(f, first), u, a.next, 1);
    FileBuilt(s, u, t, g, save, slot, done);
  }

  /** Adds the folder's next file: room for its entry, its bytes, then its entry. */
  method AddFile(a: Allocator, vol: array<seq<u8>>, g: Geometry, save: Save, slot: nat, done: nat, dir: seq<nat>,
                 ghost s: Progress)
    returns (ok: bool, grown: seq<nat>, ghost t: Progress)
    requires Holds(vol[..], g, s.at) && Growing(s, g, a.next)
    requires Built(s, g, save, slot, done) && done < |save.files| && s.chains[1] == dir
    modifies a, vol
    ensures Holds(vol[..], g, t.at) && Growing(t, g, a.next)
    ensures ok == (s.taken + FileCost(g, save, done) <= |s.pool|)
    ensures ok ==> Built(t, g, save, slot, done + 1) && Kept(s, t, g, done + 2) && t.chains[1] == grown
    ensures ok ==> t.from == s.from && t.root == s.root && t.pool == s.pool
    ensures ok ==> t.taken == s.taken + FileCost(g, save, done)
  {
    CeilNext(done + 2, Per(g));
    ghost var next := a.next;
    ok, grown, t := ReserveEntry(a, vol, g, dir, done + 2, s, 1);
    if !ok {
      return;
    }
    ReserveKeeps(s, t, g, next, save, slot, done, grown);
    FileStarts(s, t, g, a.next, save, slot, done);
    ok, t := FillFile(a, vol, g, save, slot, done, grown, s, t.(chains := t.chains + [[]]));
  }
}
