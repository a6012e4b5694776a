/** Well-formed PS2 cards: every live root entry is a folder that reads, and no two chains of
    the root, the folders and their files share a cell. Adding a folder keeps that. */
module Ps2Sound {
  import opened Bytes
  import opened Status
  import opened Chains
  import opened Division
  import opened Ps2Fat
  import opened Ps2Cells
  import opened Ps2Alloc
  import opened Ps2Read
  import opened Ps2Save
  import opened Ps2Grow
  import opened Ps2Build
  import opened Ps2Card
  import opened Ps2Frame
  import opened Ps2Result

  ghost predicate LiveAt(es: seq<Entry>, i: nat) {
    2 <= i < |es| && Live(es[i])
  }

  /** The folder of root entry `e` reads, and its chains and the root's share no cell. */
  ghost predicate FolderSound(v: View, g: Geometry, e: Entry) {
    FolderOk(v, g, e) && Family(v.fat, [ChainOf(v.fat, g.root)] + FolderChains(v, g, e))
  }

  ghost predicate Crossing(v: View, g: Geometry, e: Entry, f: Entry, a: nat, b: nat) {
    && FolderOk(v, g, e) && FolderOk(v, g, f) && a < |FolderChains(v, g, e)| && b < |FolderChains(v, g, f)|
    && !Disjoint(FolderChains(v, g, e)[a], FolderChains(v, g, f)[b])
  }

  /** No chain of one folder crosses one of the other, and they have different names. */
  ghost predicate FoldersApart(v: View, g: Geometry, e: Entry, f: Entry) {
    Name(e) != Name(f) && forall a: nat, b: nat {:trigger Crossing(v, g, e, f, a, b)} :: !Crossing(v, g, e, f, a, b)
  }

  ghost predicate SoundAt(v: View, g: Geometry, es: seq<Entry>, i: nat) {
    LiveAt(es, i) ==> FolderSound(v, g, es[i])
  }

  ghost predicate ApartAt(v: View, g: Geometry, es: seq<Entry>, i: nat, j: nat) {
    LiveAt(es, i) && LiveAt(es, j) && i != j ==> FoldersApart(v, g, es[i], es[j])
  }

  ghost predicate AllSound(v: View, g: Geometry, es: seq<Entry>) {
    && (forall i: nat {:trigger SoundAt(v, g, es, i)} :: SoundAt(v, g, es, i))
    && (forall i: nat, j: nat {:trigger ApartAt(v, g, es, i, j)} :: ApartAt(v, g, es, i, j))
  }

  ghost predicate WellFormed(v: View, g: Geometry) {
    Sized(v, g) && RootReads(v, g) && RootEntries(v, g) != [] && AllSound(v, g, RootEntries(v, g))
  }

  /* ---- Folders that were there before ---------------------------------------------------------------------- */

  ghost predicate NoneWritable(v: View, root: seq<nat>, chain: seq<nat>) {
    forall k {:trigger chain[k]} :: 0 <= k < |chain| ==> !Writable(v, root, chain[k])
  }

  lemma WritableApart(v: View, root: seq<nat>, c: seq<nat>, d: seq<nat>)
    requires OwnCells(v, root, c) && NoneWritable(v, root, d)
    ensures Disjoint(c, d) && Disjoint(d, c)
  {
  }

  lemma OldChain(v: View, w: View, g: Geometry, e: Entry, a: nat)
    requires FolderSound(v, g, e) && a < |FolderChains(v, g, e)| && Untouched(v, w, ChainOf(v.fat, g.root))
    ensures ChainKept(v, w, FolderChains(v, g, e)[a])
      && NoneWritable(v, ChainOf(v.fat, g.root), FolderChains(v, g, e)[a])
  {
    var root := ChainOf(v.fat, g.root);
    var fs := [root] + FolderChains(v, g, e);
    assert fs[a + 1] == FolderChains(v, g, e)[a];
    assert Apart(fs, 0, a + 1);
    FolderChainIntact(v, g, e, a);
    ChainOffRoot(v, w, root, FolderChains(v, g, e)[a]);
  }

  lemma OldFolder(v: View, w: View, g: Geometry, e: Entry)
    requires FolderSound(v, g, e) && Sized(w, g) && Untouched(v, w, ChainOf(v.fat, g.root))
    ensures FolderOk(w, g, e) && SaveAt(w, g, e) == SaveAt(v, g, e) && FolderChains(w, g, e) == FolderChains(v, g, e)
  {
    forall a | 0 <= a < |FolderChains(v, g, e)| ensures ChainKept(v, w, FolderChains(v, g, e)[a]) {
      OldChain(v, w, g, e, a);
    }
    FolderFrame(v, w, g, e);
  }

  /** A folder off the root's chain stays sound when the root's chain grows into free cells. */
  lemma OldSound(v: View, w: View, g: Geometry, e: Entry)
    requires FolderSound(v, g, e) && Sized(w, g) && Untouched(v, w, ChainOf(v.fat, g.root))
    requires IsChain(w.fat, ChainOf(w.fat, g.root)) && OwnCells(v, ChainOf(v.fat, g.root), ChainOf(w.fat, g.root))
    ensures FolderSound(w, g, e)
  {
    OldFolder(v, w, g, e);
    var cs := FolderChains(v, g, e);
    var fs, gs := [ChainOf(v.fat, g.root)] + cs, [ChainOf(w.fat, g.root)] + cs;
    forall i: nat | i < |gs| ensures Member(w.fat, gs, i) && (i > 0 ==> NoneWritable(v, fs[0], gs[i])) {
      if i > 0 {
        assert gs[i] == cs[i - 1];
        FolderChainIntact(w, g, e, i - 1);
        OldChain(v, w, g, e, i - 1);
      }
    }
    forall i: nat, j: nat | i < |gs| && j < |gs| && i != j ensures Apart(gs, i, j) {
      if i == 0 {
        WritableApart(v, fs[0], gs[0], gs[j]);
      } else if j == 0 {
        WritableApart(v, fs[0], gs[0], gs[i]);
      } else {
        assert Apart(fs, i, j);
        assert gs[i] == fs[i] && gs[j] == fs[j];
      }
    }
  }

  lemma OldApart(v: View, w: View, g: Geometry, e: Entry, f: Entry)
    requires FolderSound(v, g, e) && FolderSound(v, g, f) && FoldersApart(v, g, e, f)
    requires Sized(w, g) && Untouched(v, w, ChainOf(v.fat, g.root))
    ensures FoldersApart(w, g, e, f)
  {
    OldFolder(v, w, g, e);
    OldFolder(v, w, g, f);
    forall a: nat, b: nat ensures !Crossing(w, g, e, f, a, b) {
      assert !Crossing(v, g, e, f, a, b);
    }
  }

  /* ---- The folder that is new ------------------------------------------------------------------------------- */

  lemma InjectedFamily(s: Progress, g: Geometry, save: Save, slot: nat, es: seq<Entry>, v: View)
    requires Injected(s, g, save, slot, es, v)
    ensures Family(s.at.fat, s.chains) && |s.chains| >= 2 && s.chains[1] != [] && s.chains[1][0] < 0x1_0000_0000
    ensures s.root == ChainOf(v.fat, g.root) && Sized(s.at, g) && Untouched(v, s.at, s.root)
  {
    hide Built, DirIs, Untouched, AllDrawn, Own, ChainOf, Apart;
    assert Member(s.at.fat, s.chains, 1);
  }

  lemma NewSound(s: Progress, g: Geometry, save: Save, slot: nat, es: seq<Entry>, v: View)
    requires Injected(s, g, save, slot, es, v) && s.root != [] && IsChain(v.fat, s.root) && Loadable(save)
    requires ChainOf(s.at.fat, g.root) == s.chains[0]
    ensures FolderSound(s.at, g, RootEntry(save, s.chains[1][0]))
  {
    hide Injected, Family, FolderOk, Loadable, RootEntry, ChainOf, FolderChains;
    InjectedFamily(s, g, save, slot, es, v);
    InjectedFolderChains(s, g, save, slot, es, v);
    assert [s.chains[0]] + s.chains[1..] == s.chains;
  }

  lemma NewApart(s: Progress, g: Geometry, save: Save, slot: nat, es: seq<Entry>, v: View, f: Entry)
    requires Injected(s, g, save, slot, es, v) && s.root != [] && IsChain(v.fat, s.root) && Loadable(save)
    requires s.root == ChainOf(v.fat, g.root) && FolderSound(v, g, f) && Name(f) != Name(save.entry)
    ensures var e := RootEntry(save, s.chains[1][0]); FoldersApart(s.at, g, e, f) && FoldersApart(s.at, g, f, e)
  {
    hide RootEntry, FolderOk, SaveAt, Family, Name, ChainOf, Loadable, FolderReads;
    var e := RootEntry(save, s.chains[1][0]);
    InjectedFolder(s, g, save, slot, es, v);
    InjectedFolderChains(s, g, save, slot, es, v);
    OldFolder(v, s.at, g, f);
    forall a: nat, b: nat ensures !Crossing(s.at, g, e, f, a, b) && !Crossing(s.at, g, f, e, b, a) {
      if a < |s.chains| - 1 && b < |FolderChains(v, g, f)| {
        assert s.chains[1..][a] == s.chains[a + 1];
        OldChain(v, s.at, g, f, b);
        WritableApart(v, s.root, s.chains[a + 1], FolderChains(v, g, f)[b]);
      }
    }
  }

  /** A live entry after an inject is the new one, or was live before. */
  lemma LiveAfter(es: seq<Entry>, save: Save, slot: nat, first: nat, i: nat)
    requires SlotFor(es, slot) && Live(save.entry) && |save.files| + 2 < 0x1_0000_0000 && first < 0x1_0000_0000
    ensures var after := RootAfter(es, save, slot, first);
            && (LiveAt(after, i) ==>
                (i == slot && after[i] == RootEntry(save, first)) || (i != slot && LiveAt(es, i) && after[i] == es[i]))
            && (LiveAt(es, i) ==> i != slot && LiveAt(after, i) && after[i] == es[i])
            && LiveAt(after, slot) && after[slot] == RootEntry(save, first)
  {
    RootEntryFields(save, first);
  }

  /** Root entry `i`, its folder, its files and their chains are as they were. */
  ghost predicate FolderStays(v: View, w: View, g: Geometry, i: nat)
    requires WellFormed(v, g) && WellFormed(w, g) && LiveAt(RootEntries(v, g), i)
  {
    var e := RootEntries(v, g)[i];
    && LiveAt(RootEntries(w, g), i) && RootEntries(w, g)[i] == e && FolderOk(v, g, e) && FolderOk(w, g, e)
    && SaveAt(w, g, e) == SaveAt(v, g, e) && FolderChains(w, g, e) == FolderChains(v, g, e)
  }

  lemma InjectKeepsFolder(s: Progress, g: Geometry, save: Save, slot: nat, v: View, i: nat)
    requires WellFormed(v, g) && Injected(s, g, save, slot, RootEntries(v, g), v) && Loadable(save)
    requires SlotFor(RootEntries(v, g), slot) && WellFormed(s.at, g) && LiveAt(RootEntries(v, g), i)
    ensures FolderStays(v, s.at, g, i)
  {
    hide RootEntry, RootAfter, Built, Family, SaveAt, FolderChains, FolderReads, Entries, DirReads, Injected;
    var es := RootEntries(v, g);
    InjectedRoot(s, g, save, slot, v);
    InjectedFamily(s, g, save, slot, es, v);
    LiveAfter(es, save, slot, s.chains[1][0], i);
    assert SoundAt(v, g, es, i);
    OldFolder(v, s.at, g, es[i]);
  }

  /** Adding a folder keeps the card well formed, and every other folder as it was. */
  lemma InjectKeepsSound(s: Progress, g: Geometry, save: Save, slot: nat, v: View)
    requires WellFormed(v, g) && Injected(s, g, save, slot, RootEntries(v, g), v) && Loadable(save)
    requires SlotFor(RootEntries(v, g), slot) && !NameTaken(RootEntries(v, g), Name(save.entry))
    ensures WellFormed(s.at, g)
    ensures forall i: nat {:trigger LiveAt(RootEntries(v, g), i)} :: LiveAt(RootEntries(v, g), i) ==>
      FolderStays(v, s.at, g, i)
  {
    InjectedSound(s, g, save, slot, v);
    forall i: nat | LiveAt(RootEntries(v, g), i) ensures FolderStays(v, s.at, g, i) {
      InjectKeepsFolder(s, g, save, slot, v, i);
    }
  }

  lemma InjectedSound(s: Progress, g: Geometry, save: Save, slot: nat, v: View)
    requires WellFormed(v, g) && Injected(s, g, save, slot, RootEntries(v, g), v) && Loadable(save)
    requires SlotFor(RootEntries(v, g), slot) && !NameTaken(RootEntries(v, g), Name(save.entry))
    ensures WellFormed(s.at, g)
  {
    var es := RootEntries(v, g);
    InjectedRoot(s, g, save, slot, v);
    InjectedChains(s, g, save, slot, es, v);
    var after, first := RootEntries(s.at, g), s.chains[1][0];
    forall i: nat ensures SoundAt(s.at, g, after, i) {
      LiveAfter(es, save, slot, first, i);
      if LiveAt(after, i) {
        if i == slot {
          NewSound(s, g, save, slot, es, v);
        } else {
          assert SoundAt(v, g, es, i);
          OldSound(v, s.at, g, es[i]);
        }
      }
    }
    forall i: nat, j: nat ensures ApartAt(s.at, g, after, i, j) {
      LiveAfter(es, save, slot, first, i);
      LiveAfter(es, save, slot, first, j);
      if LiveAt(after, i) && LiveAt(after, j) && i != j {
        assert SoundAt(v, g, es, i) && SoundAt(v, g, es, j) && ApartAt(v, g, es, i, j);
        if i == slot {
          NewApart(s, g, save, slot, es, v, es[j]);
        } else if j == slot {
          NewApart(s, g, save, slot, es, v, es[i]);
        } else {
          OldApart(v, s.at, g, es[i], es[j]);
        }
      }
    }
  }
}
