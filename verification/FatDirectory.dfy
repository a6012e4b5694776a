/** A card with an allocation table as a directory: which save each name has and in which blocks,
    how many slots are vacant, and which blocks are free. Writing and erasing act on it. */
module FatDirectory {
  import opened Bytes
  import opened Status
  import opened Chains
  import opened FatVolume

  /** A save with the blocks it is in, in order. */
  datatype Held = Held(save: Save, chain: seq<nat>)

  datatype Dir = Dir(files: map<seq<u8>, Held>, vacant: nat, free: set<nat>)

  function VacantBelow(dir: seq<Slot>, n: nat): nat
    requires n <= |dir|
  {
    if n == 0 then 0 else VacantBelow(dir, n - 1) + if dir[n - 1] == Vacant then 1 else 0
  }

  ghost predicate HeldAs(v: Volume, s: nat, files: map<seq<u8>, Held>) {
    && |v.blocks| == |v.fat| && Whole(v, s) && v.dir[s].id in files
    && files[v.dir[s].id] == Held(SaveAt(v, s), ChainAt(v, s))
  }

  ghost predicate Named(v: Volume, id: seq<u8>) {
    exists s: nat {:trigger Live(v, s)} :: Live(v, s) && v.dir[s].id == id
  }

  /** The card is sound and holds what the directory says. */
  ghost predicate Shows(v: Volume, d: Dir) {
    && Sound(v)
    && (forall s: nat {:trigger HeldAs(v, s, d.files)} :: Live(v, s) ==> HeldAs(v, s, d.files))
    && (forall id {:trigger id in d.files} :: id in d.files ==> Named(v, id))
    && d.vacant == VacantBelow(v.dir, |v.dir|) && d.free == FreeCells(v.fat)
  }

  /** The save of a name is the one its slot holds. */
  lemma HeldSlot(v: Volume, d: Dir, id: seq<u8>) returns (s: nat)
    requires Shows(v, d) && id in d.files
    ensures Live(v, s) && v.dir[s].id == id && HeldAs(v, s, d.files)
  {
    assert Named(v, id);
    s :| Live(v, s) && v.dir[s].id == id;
    assert HeldAs(v, s, d.files);
  }

  /** A sound card always shows a directory: its saves with their chains. */
  lemma SoundShows(v: Volume) returns (d: Dir)
    requires Sound(v)
    ensures Shows(v, d) && forall id {:trigger id in d.files} :: id in d.files <==> id in Saves(v)
  {
    var files: map<seq<u8>, Held> := map[];
    for n := 0 to |v.dir|
      invariant forall s: nat {:trigger HeldAs(v, s, files)} :: s < n && Live(v, s) ==> HeldAs(v, s, files)
      invariant forall id {:trigger id in files} :: id in files ==> Named(v, id)
    {
      if Live(v, n) {
        assert Whole(v, n);
        var was := files;
        files := files[v.dir[n].id := Held(SaveAt(v, n), ChainAt(v, n))];
        forall s: nat | s < n && Live(v, s) ensures HeldAs(v, s, files) {
          assert HeldAs(v, s, was) && Apart(v, s, n);
        }
      }
    }
    d := Dir(files, VacantBelow(v.dir, |v.dir|), FreeCells(v.fat));
    forall id ensures id in files <==> id in Saves(v) {
      if id in files {
        var s: nat :| Live(v, s) && v.dir[s].id == id;
        SavesHas(v, s);
      }
      if id in Saves(v) {
        var s := SavesFrom(v, id);
        assert HeldAs(v, s, files);
      }
    }
  }

  lemma {:induction false} VacantSet(dir: seq<Slot>, slot: nat, to: Slot, n: nat)
    requires slot < |dir| && n <= |dir|
    ensures VacantBelow(dir[slot := to], n)
         == VacantBelow(dir, n)
           + (if slot < n && to == Vacant then 1 else 0) - (if slot < n && dir[slot] == Vacant then 1 else 0)
  {
    if n > 0 {
      VacantSet(dir, slot, to, n - 1);
    }
  }

  lemma {:induction false} VacantSome(dir: seq<Slot>, n: nat)
    requires n <= |dir|
    ensures VacantBelow(dir, n) > 0 <==> exists s {:trigger dir[s]} :: 0 <= s < n && dir[s] == Vacant
  {
    if n > 0 {
      VacantSome(dir, n - 1);
    }
  }

  lemma VacantIff(v: Volume, d: Dir)
    requires Shows(v, d)
    ensures d.vacant > 0 <==> FirstVacant(v.dir).Some?
  {
    VacantSome(v.dir, |v.dir|);
  }

  /* ---- Names and starts ------------------------------------------------------------------------------------ */

  ghost predicate StartsIn(d: Dir, id: seq<u8>, first: nat) {
    id in d.files && d.files[id].chain != [] && d.files[id].chain[0] == first
  }

  lemma NameIff(v: Volume, d: Dir, id: seq<u8>)
    requires Shows(v, d)
    ensures id in d.files <==> !NewName(v, id)
  {
    if id in d.files {
      var s := HeldSlot(v, d, id);
    }
    if !NewName(v, id) {
      var s: nat :| Live(v, s) && v.dir[s].id == id;
      assert HeldAs(v, s, d.files);
    }
  }

  /** An entry starts at a block exactly when the save of its name does, and one at most. */
  lemma StartIs(v: Volume, d: Dir, s: nat, id: seq<u8>)
    requires Shows(v, d) && Live(v, s)
    ensures HeldAs(v, s, d.files) && StartsIn(d, v.dir[s].id, v.dir[s].first)
    ensures StartsIn(d, id, v.dir[s].first) ==> id == v.dir[s].id
  {
    assert HeldAs(v, s, d.files) && Whole(v, s);
    if StartsIn(d, id, v.dir[s].first) {
      var t := HeldSlot(v, d, id);
      assert ChainAt(v, s)[0] == ChainAt(v, t)[0];
      assert s != t ==> Apart(v, s, t);
    }
  }

  lemma StartSlot(v: Volume, d: Dir, id: seq<u8>, first: nat) returns (s: nat)
    requires Shows(v, d) && StartsIn(d, id, first)
    ensures Live(v, s) && Whole(v, s) && v.dir[s].id == id && v.dir[s].first == first
  {
    s := HeldSlot(v, d, id);
  }

  /* ---- Writing and erasing ------------------------------------------------------------------------------------ */

  function WithSave(d: Dir, id: seq<u8>, save: Save, cells: seq<nat>): Dir {
    Dir(d.files[id := Held(save, cells)], if d.vacant == 0 then 0 else d.vacant - 1, d.free - (set c | c in cells))
  }

  function WithoutSave(d: Dir, id: seq<u8>): Dir
    requires id in d.files
  {
    Dir(d.files - {id}, d.vacant + 1, d.free + (set c | c in d.files[id].chain))
  }

  lemma WrittenFree(fat: Fat, cells: seq<nat>, after: Fat)
    requires LinkedInto(fat, cells, after)
    ensures FreeCells(after) == FreeCells(fat) - (set c | c in cells)
  {
    ChainLinks(after, cells);
  }

  lemma FreedFree(fat: Fat, cells: seq<nat>, after: Fat)
    requires FreedFrom(fat, cells, after)
    ensures FreeCells(after) == FreeCells(fat) + (set c | c in cells)
  {
  }

  /** Writing a save adds it to the directory, in a slot that was vacant and blocks that were free. */
  lemma WrittenShows(v: Volume, slot: nat, id: seq<u8>, save: Save, cells: seq<nat>, w: Volume, d: Dir)
    requires Written(v, slot, id, save, cells, w) && Shows(v, d)
    ensures Shows(w, WithSave(d, id, save, cells)) && d.vacant > 0
  {
    var n := WithSave(d, id, save, cells);
    WrittenSound(v, slot, id, save, cells, w);
    WrittenNew(v, slot, id, save, cells, w);
    WrittenFree(v.fat, cells, w.fat);
    VacantSome(v.dir, |v.dir|);
    VacantSet(v.dir, slot, w.dir[slot], |v.dir|);
    forall s: nat | Live(w, s) ensures HeldAs(w, s, n.files) {
      if s != slot {
        assert Live(v, s) && HeldAs(v, s, d.files);
        WrittenKeeps(v, slot, id, save, cells, w, s);
      }
    }
    forall k | k in n.files ensures Named(w, k) {
      if k == id {
        assert Live(w, slot);
      } else {
        var s := HeldSlot(v, d, k);
        WrittenKeeps(v, slot, id, save, cells, w, s);
      }
    }
  }

  /** Erasing a save takes it out, and its slot and blocks with it. */
  lemma ErasedShows(v: Volume, slot: nat, w: Volume, d: Dir)
    requires Erased(v, slot, w) && Shows(v, d)
    ensures v.dir[slot].id in d.files && Shows(w, WithoutSave(d, v.dir[slot].id))
  {
    assert HeldAs(v, slot, d.files);
    var n := WithoutSave(d, v.dir[slot].id);
    ErasedSound(v, slot, w);
    FreedFree(v.fat, ChainAt(v, slot), w.fat);
    VacantSet(v.dir, slot, Vacant, |v.dir|);
    forall s: nat | Live(w, s) ensures HeldAs(w, s, n.files) {
      assert s != slot && Live(v, s) && HeldAs(v, s, d.files) && Apart(v, s, slot);
      ErasedKeeps(v, slot, w, s);
    }
    forall k | k in n.files ensures Named(w, k) {
      var s := HeldSlot(v, d, k);
      ErasedKeeps(v, slot, w, s);
    }
  }
}
