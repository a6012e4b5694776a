/** What a PS2 card reads as after an inject: its root directory, and the new folder, which
    extracts to the save that went in. */
module Ps2Result {
  import opened Bytes
  import opened Status
  import opened Chains
  import opened Division
  import opened Ps2Fat
  import opened Ps2Cells
  import opened Ps2Alloc
  import opened Ps2Read
  import opened Ps2Save
  import opened Ps2Grow
  import opened Ps2Write
  import opened Ps2Build
  import opened Ps2Inject
  import opened Ps2Card
  import opened Ps2Frame

  /* ---- Fields of the entries written --------------------------------------------------------------------- */

  lemma FieldWritten(e: Entry, at: nat, v: nat)
    requires at + 4 <= ENTRY_SIZE && v < 0x1_0000_0000
    ensures Le32(WithLe32(e, at, v), at) == v
  {
    Le32Written(e, at, v);
  }

  lemma FieldKept(e: Entry, at: nat, v: nat, p: nat)
    requires at + 4 <= ENTRY_SIZE && p + 4 <= ENTRY_SIZE && (p + 4 <= at || at + 4 <= p)
    ensures Le32(WithLe32(e, at, v), p) == Le32(e, p)
  {
    Le32Frame(e, at, Le32Bytes(v), p);
  }

  /** A write past the mode and before the name leaves both. */
  lemma HeadKept(e: Entry, at: nat, v: nat)
    requires 2 <= at && at + 4 <= NAME
    ensures Mode(WithLe32(e, at, v)) == Mode(e) && Name(WithLe32(e, at, v)) == Name(e)
  {
    SpliceFrame(e, at, Le32Bytes(v), NAME, NAME + NAME_LEN);
    Le16Frame(e, at, Le32Bytes(v), 0);
  }

  lemma RootEntryFields(save: Save, first: nat)
    requires |save.files| + 2 < 0x1_0000_0000 && first < 0x1_0000_0000
    ensures var e := RootEntry(save, first);
            && Length(e) == |save.files| + 2 && Cluster(e) == first
            && Mode(e) == Mode(save.entry) && Name(e) == Name(save.entry)
  {
    var e1 := WithLe32(save.entry, LENGTH, |save.files| + 2);
    var e2 := WithLe32(e1, CLUSTER, first);
    FieldWritten(save.entry, LENGTH, |save.files| + 2);
    FieldKept(e1, CLUSTER, first, LENGTH);
    FieldKept(e2, PARENT_INDEX, 0, LENGTH);
    FieldWritten(e1, CLUSTER, first);
    FieldKept(e2, PARENT_INDEX, 0, CLUSTER);
    HeadKept(save.entry, LENGTH, |save.files| + 2);
    HeadKept(e1, CLUSTER, first);
    HeadKept(e2, PARENT_INDEX, 0);
  }

  lemma FileEntryFields(f: File, first: nat)
    requires first < 0x1_0000_0000
    ensures var e := FileEntry(f, first);
            Length(e) == Length(f.entry) && Cluster(e) == first && Mode(e) == Mode(f.entry) && Name(e) == Name(f.entry)
  {
    FieldWritten(f.entry, CLUSTER, first);
    FieldKept(f.entry, CLUSTER, first, LENGTH);
    HeadKept(f.entry, CLUSTER, first);
  }

  /** The root's own entry counts the new folder. */
  lemma RootSelfLength(e: Entry, save: Save, slot: nat, count: nat)
    requires count + 1 < 0x1_0000_0000 && Length(e) == count
    ensures Length(RootSelf(e, save, slot, count)) == if slot == count then count + 1 else count
  {
    var counted := if slot == count then WithLe32(e, LENGTH, count + 1) else e;
    FieldWritten(e, LENGTH, count + 1);
    Le32Frame(counted, MODIFIED, Tod(save.self, CREATED), LENGTH);
  }

  /* ---- Reading a directory back ------------------------------------------------------------------------------ */

  lemma CeilOfLast(n: nat, p: nat)
    requires n > 0 && p >= 1
    ensures Ceil(n, p) == Div(n - 1, p) + 1
  {
    CeilNext(n - 1, p);
  }

  /** A directory that holds `want` along an intact chain reads as `want`. */
  lemma DirRead(v: View, g: Geometry, chain: seq<nat>, want: seq<Entry>)
    requires Sized(v, g) && IsChain(v.fat, chain) && want != [] && DirIs(v, g, chain, want)
    ensures DirReads(v, g, chain[0], |want|) && Entries(v, g, chain[0], |want|) == want
  {
    ChainOfUnique(v.fat, chain);
    assert EntryIs(v, g, chain, want, |want| - 1);
    CeilOfLast(|want|, Per(g));
    forall e: nat | e < |want| ensures Entries(v, g, chain[0], |want|)[e] == want[e] {
      assert EntryIs(v, g, chain, want, e);
      EntriesAt(v, g, chain[0], |want|, e);
    }
  }

  /** A root that holds `es`, counting them in the first, has them as its entries. */
  lemma RootRead(v: View, g: Geometry, chain: seq<nat>, es: seq<Entry>)
    requires Sized(v, g) && IsChain(v.fat, chain) && chain[0] == g.root && |es| >= 2
    requires DirIs(v, g, chain, es) && Length(es[0]) == |es|
    ensures RootCount(v, g) == |es| && RootReads(v, g) && RootEntries(v, g) == es
  {
    DirRead(v, g, chain, es);
    assert DirIs(v, g, chain, es[..1]) by {
      forall e: nat | e < 1 ensures EntryIs(v, g, chain, es[..1], e) {
        assert EntryIs(v, g, chain, es, e);
      }
    }
    DirRead(v, g, chain, es[..1]);
  }

  /** The root counts no more entries than the card's clusters hold, and its first entry the count. */
  lemma RootBound(v: View, g: Geometry)
    requires Sized(v, g) && RootReads(v, g) && RootEntries(v, g) != []
    ensures |RootEntries(v, g)| < 0x1000_0000 && Length(RootEntries(v, g)[0]) == |RootEntries(v, g)| == RootCount(v, g)
  {
    var count := RootCount(v, g);
    var chain := ChainOf(v.fat, g.root);
    ChainBound(v.fat, chain);
    CoverIff(|chain|, Per(g), count);
    EntriesAt(v, g, g.root, count, 0);
    EntriesAt(v, g, g.root, 1, 0);
    assert |chain| * Per(g) <= 0x10_0000 * 16 by {
      MulBound(|chain|, 0x10_0000, Per(g));
    }
  }

  lemma MulBound(a: nat, b: nat, c: nat)
    requires a <= b && c <= 16
    ensures a * c <= b * 16
  {
    assert a * c <= a * 16;
  }

  /* ---- After an inject ------------------------------------------------------------------------------------------ */

  lemma InjectedChains(s: Progress, g: Geometry, save: Save, slot: nat, es: seq<Entry>, v: View)
    requires Injected(s, g, save, slot, es, v) && s.root != [] && IsChain(v.fat, s.root)
    ensures IsChain(s.at.fat, s.chains[0]) && s.chains[0][0] == g.root
    ensures IsChain(s.at.fat, s.chains[1]) && s.chains[1][0] < g.end
  {
    assert Member(s.at.fat, s.chains, 0) && Member(s.at.fat, s.chains, 1);
    assert s.chains[0][0] == s.root[0];
  }

  /** The root holds the old entries, the new folder's in its slot, and its own brought up to date. */
  lemma InjectedRoot(s: Progress, g: Geometry, save: Save, slot: nat, v: View)
    requires Sized(v, g) && RootReads(v, g) && RootEntries(v, g) != []
      && Injected(s, g, save, slot, RootEntries(v, g), v)
    ensures RootReads(s.at, g) && s.chains[1] != []
    ensures RootEntries(s.at, g) == RootAfter(RootEntries(v, g), save, slot, s.chains[1][0])
    ensures ChainOf(s.at.fat, g.root) == s.chains[0] && IsChain(s.at.fat, s.chains[0])
  {
    var es := RootEntries(v, g);
    InjectedChains(s, g, save, slot, es, v);
    RootBound(v, g);
    RootSelfLength(es[0], save, slot, |es|);
    ChainOfUnique(s.at.fat, s.chains[0]);
    RootRead(s.at, g, s.chains[0], RootAfter(es, save, slot, s.chains[1][0]));
  }

  /* ---- The new folder -------------------------------------------------------------- */

  /** A save whose entries are live: a folder's, and its files'. */
  predicate Loadable(save: Save) {
    && Proper(save) && Live(save.entry) && IsDir(save.entry)
    && forall i {:trigger save.files[i]} :: 0 <= i < |save.files| ==>
       Live(save.files[i].entry) && IsFile(save.files[i].entry)
  }

  /** The save with the fields that say where it lies filled in. */
  ghost function Stored(save: Save, slot: nat, fs: seq<seq<nat>>): (r: Save)
    requires |fs| == |save.files| + 2 && fs[1] != []
    ensures |r.files| == |save.files|
  {
    Save(RootEntry(save, fs[1][0]), SelfEntry(save, slot), save.parent,
         seq(|save.files|, i requires 0 <= i < |save.files| =>
             File(FileEntry(save.files[i], FirstOf(fs[i + 2])), save.files[i].data)))
  }

  /** File `i` of the new folder reads back as it went in. */
  lemma FileReadsBack(s: Progress, g: Geometry, save: Save, i: nat)
    requires Sized(s.at, g) && Family(s.at.fat, s.chains) && Loadable(save) && i < |save.files|
    requires FileIs(s, g, save, i + 2)
    ensures var f := save.files[i];
            var e := FileEntry(f, FirstOf(s.chains[i + 2]));
            && Live(e) && IsFile(e) && FileReads(s.at, g, e) && FileAt(s.at, g, e) == File(e, f.data)
            && FileChain(s.at, File(e, f.data)) == s.chains[i + 2]
  {
    var f, chain := save.files[i], s.chains[i + 2];
    var e := FileEntry(f, FirstOf(chain));
    assert Member(s.at.fat, s.chains, i + 2);
    FileEntryFields(f, FirstOf(chain));
    if f.data != [] {
      ChainOfUnique(s.at.fat, chain);
      assert ClustersOf(s.at.data, chain) == Chunks(f.data, g.cs, PAD);
      JoinChunks(f.data, g.cs, PAD);
    }
  }

  /** Entry `i` + 2 of the directory `want` is a live file that reads as `files[i]`. */
  ghost predicate ReadsAs(v: View, g: Geometry, want: seq<Entry>, files: seq<File>, i: nat) {
    && Sized(v, g) && i < |files| && i + 2 < |want|
    && Live(want[i + 2]) && IsFile(want[i + 2]) && FileReads(v, g, want[i + 2]) && FileAt(v, g, want[i + 2]) == files[i]
  }

  /** A directory all of whose entries are live files has just those files. */
  lemma {:induction false} FilesOfAll(v: View, g: Geometry, want: seq<Entry>, files: seq<File>, n: nat)
    requires Sized(v, g) && |want| == |files| + 2 && n <= |files|
    requires forall i: nat {:trigger ReadsAs(v, g, want, files, i)} :: i < |files| ==> ReadsAs(v, g, want, files, i)
    ensures FilesRead(v, g, want, n + 2) && FilesOf(v, g, want, n + 2) == files[..n]
  {
    if n > 0 {
      FilesOfAll(v, g, want, files, n - 1);
      assert ReadsAs(v, g, want, files, n - 1);
      assert files[..n] == files[..n - 1] + [files[n - 1]];
    }
  }

  /** The entries of the new folder. */
  ghost function Wanted(save: Save, slot: nat, fs: seq<seq<nat>>): (want: seq<Entry>)
    requires |fs| == |save.files| + 2
    ensures |want| == |save.files| + 2
  {
    seq(|save.files| + 2, e requires 0 <= e < |save.files| + 2 => DirEntry(save, slot, fs, e))
  }

  lemma WantedRead(s: Progress, g: Geometry, save: Save, slot: nat)
    requires Sized(s.at, g) && Built(s, g, save, slot, |save.files|) && s.chains[1] != []
      && IsChain(s.at.fat, s.chains[1])
    ensures DirReads(s.at, g, s.chains[1][0], |save.files| + 2)
    ensures Entries(s.at, g, s.chains[1][0], |save.files| + 2) == Wanted(save, slot, s.chains)
  {
    var want := Wanted(save, slot, s.chains);
    forall e: nat | e < |want| ensures EntryIs(s.at, g, s.chains[1], want, e) {
      assert DirEntryIs(s, g, save, slot, e);
    }
    DirRead(s.at, g, s.chains[1], want);
  }

  lemma BuiltFile(s: Progress, g: Geometry, save: Save, slot: nat, i: nat)
    requires Built(s, g, save, slot, |save.files|) && i < |save.files|
    ensures |s.chains| == |save.files| + 2 && FileIs(s, g, save, i + 2)
  {
    hide FileIs;
    assert FileIs(s, g, save, i + 2);
  }

  lemma WantedFile(s: Progress, g: Geometry, save: Save, slot: nat, i: nat)
    requires Sized(s.at, g) && Family(s.at.fat, s.chains) && Loadable(save)
    requires |s.chains| == |save.files| + 2 && s.chains[1] != [] && i < |save.files| && FileIs(s, g, save, i + 2)
    ensures ReadsAs(s.at, g, Wanted(save, slot, s.chains), Stored(save, slot, s.chains).files, i)
  {
    hide FileReads, FileAt, FileIs, FileEntry, IsFile, Live, Family, Loadable, FileChain;
    FileReadsBack(s, g, save, i);
  }

  lemma WantedFiles(s: Progress, g: Geometry, save: Save, slot: nat)
    requires Sized(s.at, g) && Family(s.at.fat, s.chains) && Loadable(save)
    requires Built(s, g, save, slot, |save.files|) && s.chains[1] != []
    ensures FilesRead(s.at, g, Wanted(save, slot, s.chains), |save.files| + 2)
    ensures FilesOf(s.at, g, Wanted(save, slot, s.chains), |save.files| + 2) == Stored(save, slot, s.chains).files
  {
    hide ReadsAs, FilesRead, FilesOf, Family, Loadable;
    assert |s.chains| == |save.files| + 2;
    var want, files := Wanted(save, slot, s.chains), Stored(save, slot, s.chains).files;
    forall i: nat | i < |files| ensures ReadsAs(s.at, g, want, files, i) {
      BuiltFile(s, g, save, slot, i);
      WantedFile(s, g, save, slot, i);
    }
    FilesOfAll(s.at, g, want, files, |files|);
    assert files[..|files|] == files;
  }

  /** A folder whose directory reads as `want`, and `want`'s files with it. */
  lemma FolderFrom(v: View, g: Geometry, e: Entry, want: seq<Entry>)
    requires Sized(v, g) && IsDir(e) && DirReads(v, g, Cluster(e), Length(e))
      && Entries(v, g, Cluster(e), Length(e)) == want
    requires |want| >= 2 && FilesRead(v, g, want, |want|)
    ensures FolderOk(v, g, e) && SaveAt(v, g, e) == Save(e, want[0], want[1], FilesOf(v, g, want, |want|))
  {
    hide DirReads, Entries, FilesRead, FilesOf, IsDir, Cluster, Length;
  }

  lemma StoredIs(save: Save, slot: nat, fs: seq<seq<nat>>)
    requires |fs| == |save.files| + 2 && fs[1] != []
    ensures var r := Stored(save, slot, fs);
            r == Save(RootEntry(save, fs[1][0]), Wanted(save, slot, fs)[0], Wanted(save, slot, fs)[1], r.files)
  {
    hide RootEntry, SelfEntry, FileEntry;
  }

  /** The new folder reads back as the save that went in. */
  lemma InjectedFolder(s: Progress, g: Geometry, save: Save, slot: nat, es: seq<Entry>, v: View)
    requires Injected(s, g, save, slot, es, v) && s.root != [] && IsChain(v.fat, s.root) && Loadable(save)
    ensures var e := RootEntry(save, s.chains[1][0]);
            && FolderOk(s.at, g, e) && Live(e) && Cluster(e) == s.chains[1][0] && Name(e) == Name(save.entry)
            && SaveAt(s.at, g, e) == Stored(save, slot, s.chains)
  {
    InjectedChains(s, g, save, slot, es, v);
    RootEntryFields(save, s.chains[1][0]);
    WantedRead(s, g, save, slot);
    WantedFiles(s, g, save, slot);
    StoredIs(save, slot, s.chains);
    hide RootEntry, Stored, Wanted, FilesRead, FilesOf, Entries, DirReads, FolderOk, SaveAt, Family, Cluster, Length,
      Name, Mode;
    FolderFrom(s.at, g, RootEntry(save, s.chains[1][0]), Wanted(save, slot, s.chains));
  }

  lemma StoredChain(s: Progress, g: Geometry, save: Save, slot: nat, i: nat)
    requires Sized(s.at, g) && Family(s.at.fat, s.chains) && Loadable(save)
    requires Built(s, g, save, slot, |save.files|) && s.chains[1] != [] && i < |save.files|
    ensures |s.chains| == |save.files| + 2 && FileChain(s.at, Stored(save, slot, s.chains).files[i]) == s.chains[i + 2]
  {
    BuiltFile(s, g, save, slot, i);
    hide FileReads, FileAt, FileIs, FileEntry, IsFile, Live, Family, Loadable, FileChain, Built;
    FileReadsBack(s, g, save, i);
  }

  /** Its chains are the ones the inject grew. */
  lemma InjectedFolderChains(s: Progress, g: Geometry, save: Save, slot: nat, es: seq<Entry>, v: View)
    requires Injected(s, g, save, slot, es, v) && s.root != [] && IsChain(v.fat, s.root) && Loadable(save)
    ensures FolderOk(s.at, g, RootEntry(save, s.chains[1][0]))
    ensures FolderChains(s.at, g, RootEntry(save, s.chains[1][0])) == s.chains[1..]
  {
    hide RootEntry, Stored, Entries, DirReads, FolderOk, SaveAt, Family, Cluster, Length, Name, Mode, FileChain,
      Loadable;
    InjectedFolder(s, g, save, slot, es, v);
    InjectedChains(s, g, save, slot, es, v);
    ChainOfUnique(s.at.fat, s.chains[1]);
    forall i: nat | i < |save.files| ensures FileChain(s.at, Stored(save, slot, s.chains).files[i])
      == s.chains[1..][i + 1] {
      StoredChain(s, g, save, slot, i);
    }
  }
}
