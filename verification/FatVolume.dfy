/** A card with a flat directory and an allocation table, as the Dreamcast and
    GameCube formats both are: directory slots name chains of blocks. This
    module says when such a card is sound, which finite map of saves it then
    holds, and how writing and erasing one save change that map. */
module FatVolume {
  import opened Bytes
  import opened Status
  import opened Chains

  /** A directory slot: vacant, a file, or marked with neither. `rest` is the
      stored entry with its first-block field cleared, which is what travels
      with the save. */
  datatype Slot = Vacant | Other | File(id: seq<u8>, first: nat, size: nat, rest: seq<u8>)

  datatype Volume = Volume(fat: Fat, blocks: seq<seq<u8>>, dir: seq<Slot>)

  datatype Save = Save(rest: seq<u8>, data: seq<seq<u8>>)

  predicate Live(v: Volume, s: nat) {
    s < |v.dir| && v.dir[s].File?
  }

  ghost function ChainAt(v: Volume, s: nat): seq<nat>
    requires Live(v, s)
  {
    ChainOf(v.fat, v.dir[s].first)
  }

  /** The entry's chain is intact and as long as the entry records. */
  ghost predicate Whole(v: Volume, s: nat) {
    Live(v, s) && v.dir[s].size > 0 && |ChainAt(v, s)| == v.dir[s].size
  }

  ghost predicate Apart(v: Volume, s: nat, t: nat)
    requires Live(v, s) && Live(v, t)
  {
    Disjoint(ChainAt(v, s), ChainAt(v, t)) && v.dir[s].id != v.dir[t].id
  }

  /** Every live entry has an intact chain, chains share no block and names are
      distinct. */
  ghost predicate Sound(v: Volume) {
    && |v.blocks| == |v.fat|
    && (forall s: nat {:trigger Whole(v, s)} :: Live(v, s) ==> Whole(v, s))
    && (forall s: nat, t: nat {:trigger Apart(v, s, t)} :: Live(v, s) && Live(v, t) && s != t ==> Apart(v, s, t))
  }

  /** No block is in use without a save that holds it. */
  ghost predicate Tight(v: Volume) {
    forall b: nat {:trigger Held(v, b)} :: b < |v.fat| && v.fat[b] != Free ==> Held(v, b)
  }

  ghost predicate Held(v: Volume, b: nat) {
    exists s: nat :: Live(v, s) && b in ChainAt(v, s)
  }

  /** The blocks of a chain, in chain order. */
  function Read(blocks: seq<seq<u8>>, c: seq<nat>): (d: seq<seq<u8>>)
    requires forall i :: 0 <= i < |c| ==> c[i] < |blocks|
    ensures |d| == |c| && forall i :: 0 <= i < |c| ==> d[i] == blocks[c[i]]
  {
    if c == [] then [] else Read(blocks, c[..|c| - 1]) + [blocks[c[|c| - 1]]]
  }

  lemma ReadSnoc(blocks: seq<seq<u8>>, c: seq<nat>, n: nat)
    requires n < |c| && forall i :: 0 <= i < |c| ==> c[i] < |blocks|
    ensures Read(blocks, c[..n + 1]) == Read(blocks, c[..n]) + [blocks[c[n]]]
  {
    assert c[..n + 1][..n] == c[..n];
  }

  lemma ReadSame(blocks: seq<seq<u8>>, blocks': seq<seq<u8>>, c: seq<nat>)
    requires |blocks| == |blocks'| && forall i :: 0 <= i < |c| ==> c[i] < |blocks| && blocks'[c[i]] == blocks[c[i]]
    ensures Read(blocks', c) == Read(blocks, c)
  {
  }

  ghost function SaveAt(v: Volume, s: nat): Save
    requires |v.blocks| == |v.fat| && Whole(v, s)
  {
    Save(v.dir[s].rest, Read(v.blocks, ChainAt(v, s)))
  }

  /** The finite map, from identity to entry and bytes, that a sound card holds. */
  ghost function Saves(v: Volume): map<seq<u8>, Save>
    requires Sound(v)
  {
    assert forall s: nat :: Live(v, s) ==> Whole(v, s);
    assert forall s: nat, t: nat :: Live(v, s) && Live(v, t) && s != t ==> Apart(v, s, t);
    map s: nat | 0 <= s < |v.dir| && Live(v, s) :: v.dir[s].id := SaveAt(v, s)
  }

  lemma SavesHas(v: Volume, s: nat)
    requires Sound(v) && Live(v, s)
    ensures Whole(v, s) && v.dir[s].id in Saves(v) && Saves(v)[v.dir[s].id] == SaveAt(v, s)
  {
    assert Whole(v, s);
    assert forall t: nat :: Live(v, t) && t != s ==> Apart(v, s, t);
    var m := Saves(v);
    assert v.dir[s].id in m;
  }

  lemma SavesFrom(v: Volume, id: seq<u8>) returns (s: nat)
    requires Sound(v) && id in Saves(v)
    ensures Live(v, s) && v.dir[s].id == id && Whole(v, s) && Saves(v)[id] == SaveAt(v, s)
  {
    s :| 0 <= s < |v.dir| && Live(v, s) && v.dir[s].id == id;
    SavesHas(v, s);
  }

  /** The blocks of all listed saves, over the first `n` slots. */
  function ListedBelow(v: Volume, n: nat): nat
    requires n <= |v.dir|
  {
    if n == 0 then 0 else ListedBelow(v, n - 1) + if v.dir[n - 1].File? then v.dir[n - 1].size else 0
  }

  function Listed(v: Volume): nat {
    ListedBelow(v, |v.dir|)
  }

  /** The first vacant directory slot from `n` on. */
  function FirstVacantFrom(dir: seq<Slot>, n: nat): (r: Option<nat>)
    requires n <= |dir|
    ensures r.Some? ==> n <= r.value < |dir| && dir[r.value] == Vacant
    ensures r.None? ==> forall s :: n <= s < |dir| ==> dir[s] != Vacant
    decreases |dir| - n
  {
    if n == |dir| then None else if dir[n] == Vacant then Some(n) else FirstVacantFrom(dir, n + 1)
  }

  function FirstVacant(dir: seq<Slot>): (r: Option<nat>)
    ensures r.Some? ==> r.value < |dir| && dir[r.value] == Vacant
    ensures r.None? ==> Vacant !in dir
  {
    FirstVacantFrom(dir, 0)
  }

  /* ---- Writing a save -------------------------------------------------------- */

  /** `after` is `blocks` with `data` stored over the cells, in order. */
  ghost predicate StoredInto(blocks: seq<seq<u8>>, cells: seq<nat>, data: seq<seq<u8>>, after: seq<seq<u8>>) {
    && |after| == |blocks| && |cells| == |data|
    && (forall i :: 0 <= i < |cells| ==> cells[i] < |blocks| && after[cells[i]] == data[i])
    && forall b :: 0 <= b < |blocks| && b !in cells ==> after[b] == blocks[b]
  }

  ghost predicate NewName(v: Volume, id: seq<u8>) {
    forall s: nat :: Live(v, s) ==> v.dir[s].id != id
  }

  /** `w` is the card `v` after `save` is written to free `cells` and entered in
      a vacant `slot`. */
  ghost predicate Writes(v: Volume, slot: nat, id: seq<u8>, save: Save, cells: seq<nat>, w: Volume) {
    && |v.blocks| == |v.fat| && slot < |v.dir| && v.dir[slot] == Vacant
    && |cells| > 0 && (forall i :: 0 <= i < |cells| ==> cells[i] < |v.fat| && v.fat[cells[i]] == Free)
    && LinkedInto(v.fat, cells, w.fat)
    && StoredInto(v.blocks, cells, save.data, w.blocks)
    && w.dir == v.dir[slot := File(id, cells[0], |cells|, save.rest)]
  }

  ghost predicate Written(v: Volume, slot: nat, id: seq<u8>, save: Save, cells: seq<nat>, w: Volume) {
    Sound(v) && NewName(v, id) && Writes(v, slot, id, save, cells, w)
  }

  /** The write under way: the first `n` cells linked and stored, nothing else
      changed and no entry made yet. */
  ghost predicate WritingAt(v: Volume, cells: seq<nat>, data: seq<seq<u8>>, n: nat, w: Volume) {
    && n <= |cells| == |data| && |w.fat| == |v.fat| == |v.blocks| == |w.blocks| && w.dir == v.dir
    && (forall i :: 0 <= i < |cells| ==> cells[i] < |v.fat|)
    && (forall i :: 0 <= i < n ==> w.fat[cells[i]] == LinkAt(cells, i) && w.blocks[cells[i]] == data[i])
    && forall b :: 0 <= b < |v.fat| && b !in cells[..n] ==> w.fat[b] == v.fat[b] && w.blocks[b] == v.blocks[b]
  }

  lemma WritingStep(v: Volume, cells: seq<nat>, data: seq<seq<u8>>, n: nat, w: Volume, w': Volume)
    requires WritingAt(v, cells, data, n, w) && n < |cells| && Distinct(cells)
    requires w' == Volume(w.fat[cells[n] := LinkAt(cells, n)], w.blocks[cells[n] := data[n]], w.dir)
    ensures WritingAt(v, cells, data, n + 1, w')
  {
    assert cells[..n + 1] == cells[..n] + [cells[n]];
  }

  lemma WritingDone(v: Volume, cells: seq<nat>, data: seq<seq<u8>>, w: Volume)
    requires WritingAt(v, cells, data, |cells|, w) && |cells| > 0
    ensures LinkedInto(v.fat, cells, w.fat) && StoredInto(v.blocks, cells, data, w.blocks)
  {
    assert cells[..|cells|] == cells;
    forall i: nat | 0 < i < |cells| ensures Steps(w.fat, cells, i) {
      assert w.fat[cells[i - 1]] == LinkAt(cells, i - 1);
    }
  }

  /** A save already there keeps its chain and its bytes: the write touches free
      cells only, and its chain has none. */
  lemma WrittenKeeps(v: Volume, slot: nat, id: seq<u8>, save: Save, cells: seq<nat>, w: Volume, s: nat)
    requires Written(v, slot, id, save, cells, w) && Live(v, s)
    ensures s != slot && Live(w, s) && w.dir[s] == v.dir[s] && Whole(v, s) && Whole(w, s)
    ensures ChainAt(w, s) == ChainAt(v, s) && SaveAt(w, s) == SaveAt(v, s)
    ensures Disjoint(ChainAt(w, s), cells)
  {
    var c := ChainAt(v, s);
    assert Whole(v, s);
    ChainLinks(v.fat, c);
    assert Disjoint(c, cells);
    ChainFrame(v.fat, w.fat, c);
    ReadSame(v.blocks, w.blocks, c);
  }

  lemma WrittenNew(v: Volume, slot: nat, id: seq<u8>, save: Save, cells: seq<nat>, w: Volume)
    requires Written(v, slot, id, save, cells, w)
    ensures |w.blocks| == |w.fat| && Whole(w, slot) && ChainAt(w, slot) == cells && SaveAt(w, slot) == save
  {
    ChainOfUnique(w.fat, cells);
    assert Read(w.blocks, cells) == save.data;
  }

  lemma WrittenSound(v: Volume, slot: nat, id: seq<u8>, save: Save, cells: seq<nat>, w: Volume)
    requires Written(v, slot, id, save, cells, w)
    ensures Sound(w)
  {
    WrittenNew(v, slot, id, save, cells, w);
    forall s: nat | Live(w, s) && s != slot
      ensures Live(v, s) && Whole(w, s) && Apart(w, s, slot) && Apart(w, slot, s)
    {
      assert w.dir[s] == v.dir[s];
      WrittenKeeps(v, slot, id, save, cells, w, s);
    }
    forall s: nat, t: nat | Live(w, s) && Live(w, t) && s != t && s != slot && t != slot ensures Apart(w, s, t) {
      WrittenKeeps(v, slot, id, save, cells, w, s);
      WrittenKeeps(v, slot, id, save, cells, w, t);
      assert Apart(v, s, t);
    }
  }

  lemma WrittenOldEntry(v: Volume, slot: nat, id: seq<u8>, save: Save, cells: seq<nat>, w: Volume, k: seq<u8>)
    requires Written(v, slot, id, save, cells, w) && Sound(w) && k in Saves(v)
    ensures k != id && k in Saves(w) && Saves(w)[k] == Saves(v)[k]
  {
    var s := SavesFrom(v, k);
    WrittenKeeps(v, slot, id, save, cells, w, s);
    SavesHas(w, s);
  }

  lemma WrittenEntry(v: Volume, slot: nat, id: seq<u8>, save: Save, cells: seq<nat>, w: Volume, k: seq<u8>)
    requires Written(v, slot, id, save, cells, w) && Sound(w) && k in Saves(w)
    ensures k == id || k in Saves(v)
  {
    var s := SavesFrom(w, k);
    if s != slot {
      SavesHas(v, s);
    }
  }

  /** Writing a save adds exactly it to the map and takes exactly its blocks. */
  lemma WrittenAdds(v: Volume, slot: nat, id: seq<u8>, save: Save, cells: seq<nat>, w: Volume)
    requires Written(v, slot, id, save, cells, w)
    ensures Sound(w) && Saves(w) == Saves(v)[id := save] && FreeCount(w.fat) == FreeCount(v.fat) - |cells|
  {
    WrittenSound(v, slot, id, save, cells, w);
    WrittenNew(v, slot, id, save, cells, w);
    FreeCountLinked(v.fat, cells, w.fat);
    SavesHas(w, slot);
    forall k | k in Saves(v) ensures k != id && k in Saves(w) && Saves(w)[k] == Saves(v)[k] {
      WrittenOldEntry(v, slot, id, save, cells, w, k);
    }
    forall k | k in Saves(w) ensures k == id || k in Saves(v) {
      WrittenEntry(v, slot, id, save, cells, w, k);
    }
  }

  lemma WrittenTight(v: Volume, slot: nat, id: seq<u8>, save: Save, cells: seq<nat>, w: Volume)
    requires Written(v, slot, id, save, cells, w) && Tight(v)
    ensures Tight(w)
  {
    WrittenNew(v, slot, id, save, cells, w);
    forall b: nat | b < |w.fat| && w.fat[b] != Free ensures Held(w, b) {
      if b in cells {
        assert Live(w, slot) && b in ChainAt(w, slot);
      } else {
        assert Held(v, b);
        var s: nat :| Live(v, s) && b in ChainAt(v, s);
        WrittenKeeps(v, slot, id, save, cells, w, s);
      }
    }
  }

  /* ---- Erasing a save --------------------------------------------------------- */

  /** `w` is `v` with the save in `slot` gone: its cells free, its slot vacant,
      and no block outside it changed. */
  ghost predicate Erases(v: Volume, slot: nat, w: Volume) {
    && Whole(v, slot) && |w.blocks| == |v.blocks| == |v.fat|
    && FreedFrom(v.fat, ChainAt(v, slot), w.fat)
    && w.dir == v.dir[slot := Vacant]
    && forall b :: 0 <= b < |v.blocks| && b !in ChainAt(v, slot) ==> w.blocks[b] == v.blocks[b]
  }

  ghost predicate Erased(v: Volume, slot: nat, w: Volume) {
    Sound(v) && Erases(v, slot, w)
  }

  lemma ErasedKeeps(v: Volume, slot: nat, w: Volume, s: nat)
    requires Erased(v, slot, w) && Live(v, s) && s != slot
    ensures Live(w, s) && w.dir[s] == v.dir[s] && Whole(v, s) && Whole(w, s)
    ensures ChainAt(w, s) == ChainAt(v, s) && SaveAt(w, s) == SaveAt(v, s)
  {
    assert Apart(v, s, slot) && Whole(v, s);
    var c := ChainAt(v, s);
    assert forall i :: 0 <= i < |c| ==> c[i] !in ChainAt(v, slot);
    ChainFrame(v.fat, w.fat, c);
    ReadSame(v.blocks, w.blocks, c);
  }

  lemma ErasedSound(v: Volume, slot: nat, w: Volume)
    requires Erased(v, slot, w)
    ensures Sound(w)
  {
    forall s: nat | Live(w, s) ensures s != slot && Live(v, s) && Whole(w, s) {
      ErasedKeeps(v, slot, w, s);
    }
    forall s: nat, t: nat | Live(w, s) && Live(w, t) && s != t ensures Apart(w, s, t) {
      ErasedKeeps(v, slot, w, s);
      ErasedKeeps(v, slot, w, t);
      assert Apart(v, s, t);
    }
  }

  lemma ErasedCount(v: Volume, slot: nat, w: Volume)
    requires Erased(v, slot, w)
    ensures FreeCount(w.fat) == FreeCount(v.fat) + v.dir[slot].size && Whole(v, slot)
  {
    FreeCountFreed(v.fat, ChainAt(v, slot), w.fat);
  }

  /** Erasing a save removes exactly it from the map and gives back exactly its blocks. */
  lemma ErasedRemoves(v: Volume, slot: nat, w: Volume)
    requires Erased(v, slot, w)
    ensures Sound(w) && Saves(w) == Saves(v) - {v.dir[slot].id}
    ensures FreeCount(w.fat) == FreeCount(v.fat) + v.dir[slot].size
  {
    hide ChainOf, Whole, Read, FreedFrom;
    ErasedSound(v, slot, w);
    ErasedCount(v, slot, w);
    forall k | k in Saves(w) ensures k in Saves(v) && k != v.dir[slot].id && Saves(w)[k] == Saves(v)[k] {
      var s := SavesFrom(w, k);
      assert Apart(v, s, slot);
      ErasedKeeps(v, slot, w, s);
      SavesHas(v, s);
    }
    forall k | k in Saves(v) && k != v.dir[slot].id ensures k in Saves(w) {
      var s := SavesFrom(v, k);
      ErasedKeeps(v, slot, w, s);
      SavesHas(w, s);
    }
  }

  lemma ErasedHeld(v: Volume, slot: nat, w: Volume, b: nat)
    requires Erased(v, slot, w) && b < |w.fat| && w.fat[b] != Free && Held(v, b)
    ensures Held(w, b)
  {
    assert b !in ChainAt(v, slot);
    var s: nat :| Live(v, s) && b in ChainAt(v, s);
    ErasedKeeps(v, slot, w, s);
  }

  lemma ErasedTight(v: Volume, slot: nat, w: Volume)
    requires Erased(v, slot, w) && Tight(v)
    ensures Tight(w)
  {
    forall b: nat | b < |w.fat| && w.fat[b] != Free ensures Held(w, b) {
      assert v.fat[b] != Free;
      ErasedHeld(v, slot, w, b);
    }
  }

  /* ---- Conservation ------------------------------------------------------------- */

  /** The chains of the first `n` slots, one after another. */
  ghost function ChainsBelow(v: Volume, n: nat): seq<nat>
    requires n <= |v.dir|
  {
    if n == 0 then [] else ChainsBelow(v, n - 1) + if Live(v, n - 1) then ChainAt(v, n - 1) else []
  }

  lemma {:induction false} ChainsBelowHas(v: Volume, n: nat, b: nat)
    requires n <= |v.dir| && b in ChainsBelow(v, n)
    ensures exists s: nat :: s < n && Live(v, s) && b in ChainAt(v, s)
  {
    if b in ChainsBelow(v, n - 1) {
      ChainsBelowHas(v, n - 1, b);
    } else {
      assert Live(v, n - 1) && b in ChainAt(v, n - 1);
    }
  }

  lemma {:induction false} ChainsBelowHolds(v: Volume, n: nat, s: nat, b: nat)
    requires s < n <= |v.dir| && Live(v, s) && b in ChainAt(v, s)
    ensures b in ChainsBelow(v, n)
  {
    if s < n - 1 {
      ChainsBelowHolds(v, n - 1, s, b);
    }
  }

  lemma DistinctJoin(a: seq<nat>, b: seq<nat>)
    requires Distinct(a) && Distinct(b) && forall x: nat :: x in a ==> x !in b
    ensures Distinct(a + b)
  {
    forall i, j | 0 <= i < j < |a + b| ensures (a + b)[i] != (a + b)[j] {
      if i < |a| <= j {
        assert a[i] in a && b[j - |a|] in b;
      }
    }
  }

  lemma {:induction false} ChainsBelowDistinct(v: Volume, n: nat)
    requires Sound(v) && n <= |v.dir|
    ensures Distinct(ChainsBelow(v, n)) && |ChainsBelow(v, n)| == ListedBelow(v, n)
  {
    if n > 0 {
      ChainsBelowDistinct(v, n - 1);
      if Live(v, n - 1) {
        assert Whole(v, n - 1);
        var c := ChainAt(v, n - 1);
        ChainDistinct(v.fat, c);
        forall b: nat | b in ChainsBelow(v, n - 1) ensures b !in c {
          ChainsBelowHas(v, n - 1, b);
          var s: nat :| s < n - 1 && Live(v, s) && b in ChainAt(v, s);
          assert Apart(v, s, n - 1);
        }
        DistinctJoin(ChainsBelow(v, n - 1), c);
      }
    }
  }

  lemma {:induction false} UsedCard(fat: Fat, n: nat)
    requires n <= |fat|
    ensures FreeBelow(fat, n) + |(set b: nat | 0 <= b < n && fat[b] != Free)| == n
  {
    var u := set b: nat | 0 <= b < n && fat[b] != Free;
    if n == 0 {
      assert u == {};
    } else {
      UsedCard(fat, n - 1);
      var t := set b: nat | 0 <= b < n - 1 && fat[b] != Free;
      assert u == if fat[n - 1] == Free then t else t + {n - 1};
    }
  }

  ghost function Used(fat: Fat): set<nat> {
    set b: nat | 0 <= b < |fat| && fat[b] != Free
  }

  lemma HeldIsUsed(v: Volume, b: nat)
    requires Sound(v) && b in ChainsBelow(v, |v.dir|)
    ensures b in Used(v.fat)
  {
    ChainsBelowHas(v, |v.dir|, b);
    var s: nat :| s < |v.dir| && Live(v, s) && b in ChainAt(v, s);
    assert Whole(v, s);
    ChainLinks(v.fat, ChainAt(v, s));
  }

  lemma UsedIsHeld(v: Volume, b: nat)
    requires Tight(v) && b in Used(v.fat)
    ensures b in ChainsBelow(v, |v.dir|)
  {
    assert Held(v, b);
    var s: nat :| Live(v, s) && b in ChainAt(v, s);
    ChainsBelowHolds(v, |v.dir|, s, b);
  }

  /** Free blocks and the blocks of listed saves make up the whole data area. */
  lemma Conservation(v: Volume)
    requires Sound(v) && Tight(v)
    ensures FreeCount(v.fat) + Listed(v) == |v.fat|
  {
    var all := ChainsBelow(v, |v.dir|);
    ChainsBelowDistinct(v, |v.dir|);
    DistinctCard(all);
    UsedCard(v.fat, |v.fat|);
    forall b | b in CellSet(all) ensures b in Used(v.fat) {
      HeldIsUsed(v, b);
    }
    forall b | b in Used(v.fat) ensures b in CellSet(all) {
      UsedIsHeld(v, b);
    }
    assert CellSet(all) == Used(v.fat);
  }

  /* ---- Cards that are not sound ------------------------------------------------ */

  /** A save the listing shows: its chain is intact, as long as recorded, and no
      other entry's such chain reaches a block of it. Other entries may be broken. */
  ghost predicate Listable(v: Volume, s: nat) {
    Whole(v, s) && forall t: nat {:trigger Whole(v, t)} :: t != s && Whole(v, t) ==>
      Disjoint(ChainAt(v, s), ChainAt(v, t))
  }

  lemma SoundIsListable(v: Volume, s: nat)
    requires Sound(v) && Live(v, s)
    ensures Listable(v, s)
  {
    assert Whole(v, s);
    forall t: nat | t != s && Whole(v, t) ensures Disjoint(ChainAt(v, s), ChainAt(v, t)) {
      assert Apart(v, s, t);
    }
  }

  /** A chain that a newly linked run of free cells completes stays clear of
      every chain that was already intact. */
  lemma CompletedChainApart(fat: Fat, cells: seq<nat>, after: Fat, c: seq<nat>, d: seq<nat>)
    requires LinkedInto(fat, cells, after)
    requires forall i :: 0 <= i < |cells| ==> cells[i] < |fat| && fat[cells[i]] == Free
    requires IsChain(fat, c) && IsChain(after, d) && (IsChain(fat, d) ==> Disjoint(c, d))
    ensures Disjoint(c, d)
  {
    ChainLinks(fat, c);
    if k: nat :| k < |d| && d[k] in cells {
      ChainFrame(fat, after, c);
      var m: nat :| m < |cells| && cells[m] == d[k];
      ChainsMerge(after, cells, d, m, k);
      forall i, j | 0 <= i < |c| && 0 <= j < |d| ensures c[i] != d[j] {
        if j >= k {
          assert d[j] == d[k..][j - k] == cells[m..][j - k];
          assert d[j] in cells;
        } else if c[i] == d[j] {
          ChainsMergeAt(after, c, d, i, j, k);
        }
      }
    } else {
      forall i: nat | 0 < i < |d| ensures Steps(fat, d, i) {
        assert Steps(after, d, i) && d[i - 1] !in cells;
      }
      assert IsChain(fat, d);
    }
  }

  /** Linking free cells into a chain, as a repair does, keeps every listed save
      and its bytes, however broken the other entries are. */
  lemma LinkingKeepsListed(v: Volume, cells: seq<nat>, w: Volume, s: nat)
    requires |v.blocks| == |v.fat| && w.blocks == v.blocks && w.dir == v.dir
    requires LinkedInto(v.fat, cells, w.fat)
    requires forall i :: 0 <= i < |cells| ==> cells[i] < |v.fat| && v.fat[cells[i]] == Free
    requires Listable(v, s)
    ensures Listable(w, s) && ChainAt(w, s) == ChainAt(v, s) && SaveAt(w, s) == SaveAt(v, s)
  {
    var c := ChainAt(v, s);
    ChainLinks(v.fat, c);
    ChainFrame(v.fat, w.fat, c);
    forall t: nat | t != s && Whole(w, t) ensures Disjoint(c, ChainAt(w, t)) {
      var d := ChainAt(w, t);
      if IsChain(v.fat, d) {
        ChainOfUnique(v.fat, d);
        assert Whole(v, t);
      }
      CompletedChainApart(v.fat, cells, w.fat, c, d);
    }
  }

  /* ---- Reading back ------------------------------------------------------------- */

  /** On a sound card a first block names one save. */
  lemma FirstNamesOne(v: Volume, s: nat, t: nat)
    requires Sound(v) && Live(v, s) && Live(v, t) && v.dir[s].first == v.dir[t].first
    ensures s == t
  {
    assert Whole(v, s) && Whole(v, t);
    assert ChainAt(v, s)[0] == ChainAt(v, t)[0];
    assert s != t ==> Apart(v, s, t);
  }
}
