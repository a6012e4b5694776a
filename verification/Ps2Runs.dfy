/** PS2 cards as maps from folder names to saves: adding and deleting folders act on the map,
    and every run of them keeps the card well formed. */
module Ps2Runs {
  import opened Bytes
  import opened Status
  import opened Chains
  import opened Division
  import opened Ps2Fat
  import opened Ps2Cells
  import opened Ps2Alloc
  import opened Ps2Read
  import opened Ps2Save
  import opened Ps2Grow
  import opened Ps2Build
  import opened Ps2Inject
  import opened Ps2Card
  import opened Ps2Frame
  import opened Ps2Result
  import opened Ps2Sound
  import opened Ps2Delete

  /* ---- After a delete ------------------------------------------------------------------------------------ */

  lemma DeletedRoot(v: View, w: View, g: Geometry, i: nat)
    requires WellFormed(v, g) && Deleted(v, w, g, i)
    ensures RootReads(w, g) && RootEntries(w, g) == RootEntries(v, g)[i := Cleared(RootEntries(v, g)[i])]
    ensures ChainOf(w.fat, g.root) == ChainOf(v.fat, g.root) && IsChain(w.fat, ChainOf(v.fat, g.root))
  {
    var es := RootEntries(v, g);
    assert SoundAt(v, g, es, i);
    RootSurvives(v, w.fat, g, es[i]);
    RootBound(v, g);
    RootRead(w, g, ChainOf(v.fat, g.root), es[i := Cleared(es[i])]);
  }

  lemma FreeingPlace(v: View, g: Geometry, e: Entry, c: nat) returns (d: nat)
    requires FolderOk(v, g, e) && c < |FreeingOrder(v, SaveAt(v, g, e))|
    ensures d < |FolderChains(v, g, e)| && FreeingOrder(v, SaveAt(v, g, e))[c] == FolderChains(v, g, e)[d]
  {
    d := if c < |SaveAt(v, g, e).files| then c + 1 else 0;
  }

  /** The chains freed are those of the folder, and so cross no other folder's. */
  lemma NotFreed(v: View, g: Geometry, e: Entry, f: Entry, a: nat, k: nat)
    requires FolderOk(v, g, e) && FolderOk(v, g, f) && FoldersApart(v, g, e, f)
    requires a < |FolderChains(v, g, f)| && k < |FolderChains(v, g, f)[a]|
    ensures var gone := FreeingOrder(v, SaveAt(v, g, e)); !InSome(gone, |gone|, FolderChains(v, g, f)[a][k])
  {
    var s, b := SaveAt(v, g, e), FolderChains(v, g, f)[a][k];
    var gone := FreeingOrder(v, s);
    forall c: nat | c < |gone| ensures b !in gone[c] {
      var d := FreeingPlace(v, g, e, c);
      assert !Crossing(v, g, e, f, d, a);
    }
  }

  /** Chain `a` of another folder lost nothing. */
  lemma OtherChainKept(v: View, w: View, g: Geometry, i: nat, f: Entry, a: nat)
    requires Deleted(v, w, g, i) && FolderSound(v, g, f) && FoldersApart(v, g, RootEntries(v, g)[i], f)
    requires a < |FolderChains(v, g, f)|
    ensures ChainKept(v, w, FolderChains(v, g, f)[a])
  {
    var e: Entry := RootEntries(v, g)[i];
    var root, chain := ChainOf(v.fat, g.root), FolderChains(v, g, f)[a];
    var gone, fs := FreeingOrder(v, SaveAt(v, g, e)), [root] + FolderChains(v, g, f);
    FolderChainIntact(v, g, f, a);
    assert fs[a + 1] == chain && Apart(fs, 0, a + 1);
    forall k | 0 <= k < |chain| ensures CellKept(v, w, chain[k]) {
      NotFreed(v, g, e, f, a, k);
      assert EmptiedAt(v.fat, w.fat, gone, |gone|, chain[k]);
      assert w.data[chain[k]] == v.data[chain[k]];
    }
  }

  lemma OtherFolderKept(v: View, w: View, g: Geometry, i: nat, j: nat)
    requires WellFormed(v, g) && Deleted(v, w, g, i) && LiveAt(RootEntries(v, g), j) && i != j
    ensures var f := RootEntries(v, g)[j];
            && FolderSound(v, g, f) && FolderOk(w, g, f)
            && SaveAt(w, g, f) == SaveAt(v, g, f) && FolderChains(w, g, f) == FolderChains(v, g, f)
  {
    var f: Entry := RootEntries(v, g)[j];
    assert SoundAt(v, g, RootEntries(v, g), j) && ApartAt(v, g, RootEntries(v, g), i, j);
    forall a | 0 <= a < |FolderChains(v, g, f)| ensures ChainKept(v, w, FolderChains(v, g, f)[a]) {
      OtherChainKept(v, w, g, i, f, a);
    }
    FolderFrame(v, w, g, f);
  }

  lemma OtherFolderSound(v: View, w: View, g: Geometry, i: nat, j: nat)
    requires WellFormed(v, g) && Deleted(v, w, g, i) && LiveAt(RootEntries(v, g), j) && i != j
    ensures FolderSound(w, g, RootEntries(v, g)[j])
  {
    hide FolderOk, SaveAt, FolderReads, ChainOf;
    var f: Entry := RootEntries(v, g)[j];
    OtherFolderKept(v, w, g, i, j);
    DeletedRoot(v, w, g, i);
    var fs := [ChainOf(v.fat, g.root)] + FolderChains(v, g, f);
    forall a: nat | a < |fs| ensures Member(w.fat, fs, a) {
      if a > 0 {
        assert fs[a] == FolderChains(w, g, f)[a - 1];
        FolderChainIntact(w, g, f, a - 1);
      }
    }
  }

  /** A live entry after a delete was live before, and is another one. */
  lemma LiveBefore(es: seq<Entry>, i: nat, j: nat)
    requires LiveAt(es, i)
    ensures var after := es[i := Cleared(es[i])];
            (LiveAt(after, j) <==> LiveAt(es, j) && j != i) && (LiveAt(after, j) ==> after[j] == es[j])
  {
  }

  lemma OthersApart(v: View, w: View, g: Geometry, i: nat, j: nat, k: nat)
    requires WellFormed(v, g) && Deleted(v, w, g, i) && LiveAt(RootEntries(v, g), j) && LiveAt(RootEntries(v, g), k)
    requires i != j && i != k && j != k
    ensures FoldersApart(w, g, RootEntries(v, g)[j], RootEntries(v, g)[k])
  {
    var es := RootEntries(v, g);
    assert ApartAt(v, g, es, j, k);
    OtherFolderKept(v, w, g, i, j);
    OtherFolderKept(v, w, g, i, k);
    forall a: nat, b: nat ensures !Crossing(w, g, es[j], es[k], a, b) {
      assert !Crossing(v, g, es[j], es[k], a, b);
    }
  }

  /** Deleting a folder keeps the card well formed. */
  lemma DeleteKeepsSound(v: View, w: View, g: Geometry, i: nat)
    requires WellFormed(v, g) && Deleted(v, w, g, i)
    ensures WellFormed(w, g)
  {
    var es := RootEntries(v, g);
    DeletedRoot(v, w, g, i);
    var after := RootEntries(w, g);
    forall j: nat ensures SoundAt(w, g, after, j) {
      LiveBefore(es, i, j);
      if LiveAt(after, j) {
        OtherFolderSound(v, w, g, i, j);
      }
    }
    forall j: nat, k: nat ensures ApartAt(w, g, after, j, k) {
      LiveBefore(es, i, j);
      LiveBefore(es, i, k);
      if LiveAt(after, j) && LiveAt(after, k) && j != k {
        OthersApart(v, w, g, i, j, k);
      }
    }
  }

  /* ---- The card as a map --------------------------------------------------------------------------------- */

  /** A save without the fields that say where on a card it lies. */
  function Plain(s: Save): (r: Save)
    ensures |r.files| == |s.files|
  {
    Save(WithLe32(WithLe32(s.entry, CLUSTER, 0), PARENT_INDEX, 0), WithLe32(s.self, PARENT_INDEX, 0), s.parent,
         seq(|s.files|, i requires 0 <= i < |s.files| => File(WithLe32(s.files[i].entry, CLUSTER, 0), s.files[i].data)))
  }

  /** What a card comes to hold of `save`: its root entry counts its entries. */
  function Incoming(save: Save): Save {
    Plain(save.(entry := WithLe32(save.entry, LENGTH, |save.files| + 2)))
  }

  /** What an inject stores is the save, but for where it lies. */
  lemma StoredIsIncoming(save: Save, slot: nat, fs: seq<seq<nat>>)
    requires |fs| == |save.files| + 2 && fs[1] != []
    ensures Plain(Stored(save, slot, fs)) == Incoming(save)
  {
    var e1, first := WithLe32(save.entry, LENGTH, |save.files| + 2), fs[1][0];
    var e2 := WithLe32(e1, CLUSTER, first);
    Reorder(e2, CLUSTER, 0, PARENT_INDEX, 0);
    Overwrite(e1, CLUSTER, first, 0);
    Overwrite(WithLe32(e1, CLUSTER, 0), PARENT_INDEX, 0, 0);
    Reorder(WithLe32(e1, CLUSTER, first), CLUSTER, 0, PARENT_INDEX, 0);
    Overwrite(save.self, PARENT_INDEX, slot, 0);
    forall i | 0 <= i < |save.files|
      ensures WithLe32(FileEntry(save.files[i], FirstOf(fs[i + 2])), CLUSTER, 0)
        == WithLe32(save.files[i].entry, CLUSTER, 0) {
      Overwrite(save.files[i].entry, CLUSTER, FirstOf(fs[i + 2]), 0);
    }
    assert Plain(Stored(save, slot, fs)).files == Incoming(save).files;
  }

  /** A folder as a card holds it: the save, its root slot, its first cluster, and the clusters all
      its chains take. */
  datatype Folder = Folder(save: Save, slot: nat, first: nat, cells: set<nat>)

  type Folders = map<seq<u8>, Folder>

  ghost function CellsOf(cs: seq<seq<nat>>): set<nat> {
    set a, k | 0 <= a < |cs| && 0 <= k < |cs[a]| :: cs[a][k]
  }

  lemma CellsAre(cs: seq<seq<nat>>, b: nat)
    ensures b in CellsOf(cs) <==> InSome(cs, |cs|, b)
  {
    if InSome(cs, |cs|, b) {
      var a :| 0 <= a < |cs| && b in cs[a];
      var k :| 0 <= k < |cs[a]| && cs[a][k] == b;
    }
  }

  ghost function FolderAs(v: View, g: Geometry, e: Entry, i: nat): Folder
    requires FolderOk(v, g, e)
  {
    Folder(Plain(SaveAt(v, g, e)), i, Cluster(e), CellsOf(FolderChains(v, g, e)))
  }

  ghost predicate HeldAt(v: View, g: Geometry, es: seq<Entry>, i: nat, m: Folders) {
    LiveAt(es, i) ==> FolderOk(v, g, es[i]) && Name(es[i]) in m && m[Name(es[i])] == FolderAs(v, g, es[i], i)
  }

  /** The card is well formed, and its live folders are those of `m` by name. */
  ghost predicate Holding(v: View, g: Geometry, m: Folders) {
    && WellFormed(v, g)
    && (forall i: nat {:trigger HeldAt(v, g, RootEntries(v, g), i, m)} :: HeldAt(v, g, RootEntries(v, g), i, m))
    && forall name {:trigger name in m} :: name in m ==> NameTaken(RootEntries(v, g), name)
  }

  /** On a card that holds `m`, an inject finds a name taken exactly when `m` has it. */
  lemma TakenIff(v: View, g: Geometry, m: Folders, name: seq<u8>)
    requires Holding(v, g, m)
    ensures NameTaken(RootEntries(v, g), name) <==> name in m
  {
    var es := RootEntries(v, g);
    if NameTaken(es, name) {
      var i :| 2 <= i < |es| && Live(es[i]) && Name(es[i]) == name;
      assert HeldAt(v, g, es, i, m);
    }
  }

  /** A folder of the map is the live root entry in its slot. */
  lemma HeldIs(v: View, g: Geometry, m: Folders, name: seq<u8>)
    requires Holding(v, g, m) && name in m
    ensures var es := RootEntries(v, g);
            && LiveAt(es, m[name].slot) && Name(es[m[name].slot]) == name && FolderSound(v, g, es[m[name].slot])
            && m[name] == FolderAs(v, g, es[m[name].slot], m[name].slot)
  {
    var es := RootEntries(v, g);
    var i: nat :| 2 <= i < |es| && Live(es[i]) && Name(es[i]) == name;
    assert HeldAt(v, g, es, i, m) && SoundAt(v, g, es, i);
  }

  /* ---- Clusters ------------------------------------------------------------------------------------------- */

  lemma FreeingHas(v: View, g: Geometry, e: Entry, b: nat)
    requires FolderOk(v, g, e)
    ensures var cs := FreeingOrder(v, SaveAt(v, g, e)); InSome(cs, |cs|, b) <==> b in CellsOf(FolderChains(v, g, e))
  {
    var s, ds := SaveAt(v, g, e), FolderChains(v, g, e);
    var cs := FreeingOrder(v, s);
    CellsAre(ds, b);
    if InSome(cs, |cs|, b) {
      var c: nat :| c < |cs| && b in cs[c];
      var d := FreeingPlace(v, g, e, c);
      assert b in ds[d];
    }
    if InSome(ds, |ds|, b) {
      var d: nat :| d < |ds| && b in ds[d];
      assert b in cs[if d > 0 then d - 1 else |s.files|];
    }
  }

  /** Deleting a folder frees exactly its clusters. */
  lemma DeletedFree(v: View, w: View, g: Geometry, i: nat)
    requires Deleted(v, w, g, i)
    ensures FreeCells(w.fat) == FreeCells(v.fat) + CellsOf(FolderChains(v, g, RootEntries(v, g)[i]))
  {
    var e: Entry := RootEntries(v, g)[i];
    var cs := FreeingOrder(v, SaveAt(v, g, e));
    var cells := CellsOf(FolderChains(v, g, e));
    forall b: nat ensures b in FreeCells(w.fat) <==> b in FreeCells(v.fat) || b in cells {
      FreeingHas(v, g, e, b);
      if b < |v.fat| {
        assert EmptiedAt(v.fat, w.fat, cs, |cs|, b);
      } else if b in cells {
        FolderCellBound(v, g, e, b);
      }
    }
  }

  lemma FolderCellBound(v: View, g: Geometry, e: Entry, b: nat)
    requires FolderOk(v, g, e) && b in CellsOf(FolderChains(v, g, e))
    ensures b < |v.fat|
  {
    var a, k :| 0 <= a < |FolderChains(v, g, e)| && 0 <= k < |FolderChains(v, g, e)[a]|
      && FolderChains(v, g, e)[a][k] == b;
    FolderChainIntact(v, g, e, a);
  }

  /** A cell taken of the pool is on one of the folder's chains unless it is on the root's. */
  lemma DrawnOn(s: Progress, opens: nat, j: nat)
    requires FirstDrawn(s, opens) && AllDrawn(s) && s.pool == FreeFrom(s.from.fat, 0) && opens <= j < s.taken
    requires IsChain(s.from.fat, s.root)
    ensures s.pool[j] in CellsOf(s.chains[1..])
  {
    var b := s.pool[j];
    FreeFromDistinct(s.from.fat, 0);
    ChainAvoidsFree(s.from.fat, s.root, b);
    assert InSome(s.chains, |s.chains|, b);
    var a :| 0 <= a < |s.chains| && b in s.chains[a];
    assert a != 0;
    assert s.chains[1..][a - 1] == s.chains[a];
    CellsAre(s.chains[1..], b);
  }

  /** A cell of the folder's chains was free, is so no longer, and is not on the root's chain. */
  lemma FolderCell(s: Progress, b: nat)
    requires |s.chains| >= 2 && s.root <= s.chains[0] && Family(s.at.fat, s.chains) && Own(s.from, s.root, s.chains)
    requires b in CellsOf(s.chains[1..])
    ensures b in FreeCells(s.from.fat) && b !in FreeCells(s.at.fat) && b !in s.chains[0]
  {
    CellsAre(s.chains[1..], b);
    var c :| 0 <= c < |s.chains[1..]| && b in s.chains[1..][c];
    var a: nat := c + 1;
    assert s.chains[a] == s.chains[1..][c];
    assert Apart(s.chains, a, 0) && Member(s.at.fat, s.chains, a) && OwnCells(s.from, s.root, s.chains[a]);
    var k :| 0 <= k < |s.chains[a]| && s.chains[a][k] == b;
    assert Writable(s.from, s.root, s.chains[a][k]);
    OffDisjoint(s.chains[a], s.chains[0], b);
    NotFree(s.at.fat, s.chains[a], b);
  }

  lemma OffDisjoint(c: seq<nat>, d: seq<nat>, b: nat)
    requires Disjoint(c, d) && b in c
    ensures b !in d
  {
  }

  lemma PartOf(pool: seq<nat>, lo: nat, hi: nat, b: nat)
    requires lo <= hi <= |pool| && b in pool[..hi] && b !in pool[..lo]
    ensures b in pool[lo..hi]
  {
    assert pool[..hi] == pool[..lo] + pool[lo..hi];
  }

  /** It was taken of the pool, after the root's. */
  lemma OnDrawn(s: Progress, opens: nat, b: nat)
    requires FirstDrawn(s, opens) && AllDrawn(s)
    requires Family(s.at.fat, s.chains) && Own(s.from, s.root, s.chains)
    requires b in CellsOf(s.chains[1..])
    ensures b in s.pool[opens..s.taken]
  {
    hide Family, Own, CellsOf, FreeCells, AllOn;
    FolderCell(s, b);
    assert b in CellSet(s.pool[..s.taken]);
    PartOf(s.pool, opens, s.taken, b);
  }

  lemma NotFree(fat: Fat, chain: seq<nat>, b: nat)
    requires IsChain(fat, chain) && b in chain
    ensures b !in FreeCells(fat)
  {
    if b in FreeCells(fat) {
      ChainAvoidsFree(fat, chain, b);
    }
  }

  /** The new folder's clusters are what was taken of the pool, after the root's. */
  lemma NewCells(s: Progress, opens: nat)
    requires FirstDrawn(s, opens) && AllDrawn(s) && s.pool == FreeFrom(s.from.fat, 0)
    requires IsChain(s.from.fat, s.root) && Family(s.at.fat, s.chains) && Own(s.from, s.root, s.chains)
    ensures CellsOf(s.chains[1..]) == CellSet(s.pool[opens..s.taken])
  {
    hide FirstDrawn, AllDrawn, Family, Own, CellsOf, FreeFrom;
    DrawnWithin(s, opens);
    var cells := s.pool[opens..s.taken];
    forall b ensures b in CellsOf(s.chains[1..]) <==> b in CellSet(cells) {
      if b in CellsOf(s.chains[1..]) {
        OnDrawn(s, opens, b);
      }
      if b in CellSet(cells) {
        var j :| 0 <= j < |cells| && cells[j] == b;
        DrawnOn(s, opens, opens + j);
      }
    }
  }

  lemma DrawnWithin(s: Progress, opens: nat)
    requires FirstDrawn(s, opens)
    ensures opens < s.taken <= |s.pool| && |s.chains| >= 2
  {
  }

  /** Clusters a folder for `save` takes. */
  function Cost(g: Geometry, save: Save): nat
    requires Sane(g)
  {
    Ceil(|save.files| + 2, Per(g)) + DataNeeded(g, save.files, |save.files|)
  }

  /* ---- Adding a folder -------------------------------------------------------------------------------------- */

  /** The folder an inject adds: it starts in the first cluster after the root's, and takes the rest. */
  ghost function NewFolder(s: Progress, g: Geometry, save: Save, slot: nat, count: nat): Folder
    requires Sane(g) && FirstDrawn(s, RootOpens(g, s.root, slot, count))
  {
    var opens := RootOpens(g, s.root, slot, count);
    Folder(Incoming(save), slot, s.pool[opens], CellSet(s.pool[opens..s.taken]))
  }

  lemma NewHeld(s: Progress, g: Geometry, save: Save, slot: nat, es: seq<Entry>, v: View)
    requires Injected(s, g, save, slot, es, v) && s.root != [] && IsChain(v.fat, s.root) && Loadable(save)
    ensures var e := RootEntry(save, s.chains[1][0]);
            && FolderOk(s.at, g, e) && Name(e) == Name(save.entry)
            && FolderAs(s.at, g, e, slot) == NewFolder(s, g, save, slot, |es|)
  {
    InjectedFolder(s, g, save, slot, es, v);
    InjectedFolderChains(s, g, save, slot, es, v);
    StoredIsIncoming(save, slot, s.chains);
    NewCells(s, RootOpens(g, s.root, slot, |es|));
  }

  lemma OldHeld(v: View, w: View, g: Geometry, m: Folders, i: nat)
    requires Holding(v, g, m) && LiveAt(RootEntries(v, g), i) && Sized(w, g) && Untouched(v, w, ChainOf(v.fat, g.root))
    ensures var e := RootEntries(v, g)[i];
            FolderOk(w, g, e) && Name(e) in m && m[Name(e)] == FolderAs(w, g, e, i)
  {
    var es := RootEntries(v, g);
    assert SoundAt(v, g, es, i) && HeldAt(v, g, es, i, m);
    OldFolder(v, w, g, es[i]);
  }

  lemma NamesAfter(es: seq<Entry>, save: Save, slot: nat, first: nat, name: seq<u8>)
    requires SlotFor(es, slot) && Live(save.entry) && |save.files| + 2 < 0x1_0000_0000 && first < 0x1_0000_0000
    requires name == Name(save.entry) || NameTaken(es, name)
    ensures NameTaken(RootAfter(es, save, slot, first), name)
  {
    var after := RootAfter(es, save, slot, first);
    LiveAfter(es, save, slot, first, slot);
    RootEntryFields(save, first);
    if name != Name(save.entry) {
      var i: nat :| 2 <= i < |es| && Live(es[i]) && Name(es[i]) == name;
      LiveAfter(es, save, slot, first, i);
      assert LiveAt(es, i) && Live(after[i]) && Name(after[i]) == name;
    } else {
      assert Live(after[slot]) && Name(after[slot]) == name;
    }
  }

  /** What an inject needs of a card that holds `m`. */
  ghost predicate Adds(s: Progress, g: Geometry, save: Save, slot: nat, v: View, m: Folders) {
    && Holding(v, g, m) && Injected(s, g, save, slot, RootEntries(v, g), v) && Loadable(save)
    && SlotFor(RootEntries(v, g), slot) && !NameTaken(RootEntries(v, g), Name(save.entry))
  }

  lemma AddedRoot(s: Progress, g: Geometry, save: Save, slot: nat, v: View, m: Folders)
    requires Adds(s, g, save, slot, v, m)
    ensures WellFormed(s.at, g) && s.chains[1] != [] && s.chains[1][0] < 0x1_0000_0000
    ensures RootEntries(s.at, g) == RootAfter(RootEntries(v, g), save, slot, s.chains[1][0])
    ensures ChainOf(s.at.fat, g.root) == s.chains[0] && s.root != [] && IsChain(v.fat, s.root)
  {
    InjectedSound(s, g, save, slot, v);
    InjectedRoot(s, g, save, slot, v);
    InjectedChains(s, g, save, slot, RootEntries(v, g), v);
  }

  /** `n` is `m` with folder `f` under `name`. */
  ghost predicate Plus(m: Folders, name: seq<u8>, f: Folder, n: Folders) {
    && name in n && n[name] == f
    && forall k {:trigger k in m} {:trigger k in n} :: k in m && k != name ==> k in n && n[k] == m[k]
  }

  lemma HeldAfter(s: Progress, g: Geometry, save: Save, slot: nat, v: View, m: Folders, f: Folder, i: nat, n: Folders)
    requires Adds(s, g, save, slot, v, m) && s.root != [] && IsChain(v.fat, s.root)
    requires s.chains[1] != [] && s.chains[1][0] < 0x1_0000_0000
    requires f == NewFolder(s, g, save, slot, |RootEntries(v, g)|) && Plus(m, Name(save.entry), f, n)
    ensures HeldAt(s.at, g, RootAfter(RootEntries(v, g), save, slot, s.chains[1][0]), i, n)
  {
    var es, first := RootEntries(v, g), s.chains[1][0];
    var after := RootAfter(es, save, slot, first);
    LiveAfter(es, save, slot, first, i);
    hide Incoming, RootEntry, FolderOk, SaveAt, RootAfter, Cost, Name, FolderAs;
    if LiveAt(after, i) {
      if i == slot {
        NewHeld(s, g, save, slot, es, v);
      } else {
        OldHeld(v, s.at, g, m, i);
        assert Name(es[i]) != Name(save.entry);
      }
    }
  }

  /** Adding a folder adds the save under its name, in its slot and in the lowest free clusters, and changes
      no other. */
  lemma InjectRefines(s: Progress, g: Geometry, save: Save, slot: nat, v: View, m: Folders)
    requires Adds(s, g, save, slot, v, m)
    ensures Holding(s.at, g, m[Name(save.entry) := NewFolder(s, g, save, slot, |RootEntries(v, g)|)])
  {
    hide Incoming, RootEntry, FolderOk, SaveAt, RootSelf, Cost, HeldAt, RootAfter;
    AddedRoot(s, g, save, slot, v, m);
    var f := NewFolder(s, g, save, slot, |RootEntries(v, g)|);
    var n := m[Name(save.entry) := f];
    forall i: nat ensures HeldAt(s.at, g, RootEntries(s.at, g), i, n) {
      HeldAfter(s, g, save, slot, v, m, f, i, n);
    }
    forall name | name in n ensures NameTaken(RootEntries(s.at, g), name) {
      NamesAfter(RootEntries(v, g), save, slot, s.chains[1][0], name);
    }
  }

  /* ---- Deleting a folder -------------------------------------------------------------------------------------- */

  lemma OtherHeld(v: View, w: View, g: Geometry, at: nat, m: Folders, i: nat)
    requires Holding(v, g, m) && Deleted(v, w, g, at) && LiveAt(RootEntries(v, g), i) && i != at
    ensures var e := RootEntries(v, g)[i];
            && FolderOk(w, g, e) && Name(e) in m && Name(e) != Name(RootEntries(v, g)[at])
            && m[Name(e)] == FolderAs(w, g, e, i)
  {
    var es := RootEntries(v, g);
    assert HeldAt(v, g, es, i, m) && ApartAt(v, g, es, at, i);
    OtherFolderKept(v, w, g, at, i);
  }

  lemma NamesBefore(es: seq<Entry>, at: nat, name: seq<u8>)
    requires LiveAt(es, at) && NameTaken(es, name) && name != Name(es[at])
    ensures NameTaken(es[at := Cleared(es[at])], name)
  {
    var after := es[at := Cleared(es[at])];
    var i: nat :| 2 <= i < |es| && Live(es[i]) && Name(es[i]) == name;
    assert Live(after[i]) && Name(after[i]) == name;
  }

  lemma HeldBefore(v: View, w: View, g: Geometry, at: nat, m: Folders, n: Folders, i: nat)
    requires Holding(v, g, m) && Deleted(v, w, g, at) && n == m - {Name(RootEntries(v, g)[at])}
    ensures HeldAt(w, g, RootEntries(v, g)[at := Cleared(RootEntries(v, g)[at])], i, n)
  {
    LiveBefore(RootEntries(v, g), at, i);
    if LiveAt(RootEntries(v, g), i) && i != at {
      OtherHeld(v, w, g, at, m, i);
    }
  }

  /** Deleting a folder removes its name, frees its clusters and changes no other. */
  lemma DeleteRefines(v: View, w: View, g: Geometry, at: nat, m: Folders)
    requires Holding(v, g, m) && Deleted(v, w, g, at)
    ensures var name := Name(RootEntries(v, g)[at]);
            && name in m && m[name].slot == at && Holding(w, g, m - {name})
            && FreeCells(w.fat) == FreeCells(v.fat) + m[name].cells
  {
    var es := RootEntries(v, g);
    var n := m - {Name(es[at])};
    assert HeldAt(v, g, es, at, m);
    DeletedFree(v, w, g, at);
    DeleteKeepsSound(v, w, g, at);
    DeletedRoot(v, w, g, at);
    forall i: nat ensures HeldAt(w, g, RootEntries(w, g), i, n) {
      HeldBefore(v, w, g, at, m, n, i);
    }
    forall name | name in n ensures NameTaken(RootEntries(w, g), name) {
      NamesBefore(es, at, name);
    }
  }
}
