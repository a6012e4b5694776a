/** A save folder on a PS2 card depends on its own clusters alone. */
module Ps2Frame {
  import opened Bytes
  import opened Status
  import opened Chains
  import opened Division
  import opened Ps2Fat
  import opened Ps2Cells
  import opened Ps2Read
  import opened Ps2Save
  import opened Ps2Grow

  /* ---- The chains of a folder ---------------------------------------------------------------------------- */

  ghost function FileChain(v: View, f: File): seq<nat> {
    if Length(f.entry) == 0 then [] else ChainOf(v.fat, Cluster(f.entry))
  }

  /** The folder root entry `e` points at reads. */
  ghost predicate FolderOk(v: View, g: Geometry, e: Entry) {
    Sized(v, g) && IsDir(e) && FolderReads(v, g, Cluster(e), Length(e))
  }

  /** The chain of its directory, then of each of its files. */
  ghost function FolderChains(v: View, g: Geometry, e: Entry): (cs: seq<seq<nat>>)
    requires FolderOk(v, g, e)
    ensures |cs| == |SaveAt(v, g, e).files| + 1 && cs[0] == ChainOf(v.fat, Cluster(e))
  {
    var files := SaveAt(v, g, e).files;
    [ChainOf(v.fat, Cluster(e))] + seq(|files|, i requires 0 <= i < |files| => FileChain(v, files[i]))
  }

  /* ---- Framing ---------------------------------------------------------------------------------------------- */

  /** The chain's cells and clusters are as they were. */
  ghost predicate ChainKept(v: View, w: View, chain: seq<nat>) {
    forall k {:trigger chain[k]} :: 0 <= k < |chain| ==> CellKept(v, w, chain[k])
  }

  lemma KeptChain(v: View, w: View, g: Geometry, first: nat)
    requires Sized(v, g) && Sized(w, g) && Intact(v.fat, first) && ChainKept(v, w, ChainOf(v.fat, first))
    ensures Intact(w.fat, first) && ChainOf(w.fat, first) == ChainOf(v.fat, first)
    ensures ClustersOf(w.data, ChainOf(v.fat, first)) == ClustersOf(v.data, ChainOf(v.fat, first))
  {
    var c := ChainOf(v.fat, first);
    forall i | 0 <= i < |c| ensures w.fat[c[i]] == v.fat[c[i]] {
      assert CellKept(v, w, c[i]);
    }
    ChainFrame(v.fat, w.fat, c);
    assert IsChain(w.fat, c) && c[0] == first;
  }

  lemma KeptFile(v: View, w: View, g: Geometry, e: Entry)
    requires Sized(v, g) && Sized(w, g) && FileReads(v, g, e) && ChainKept(v, w, FileChain(v, FileAt(v, g, e)))
    ensures FileReads(w, g, e) && FileAt(w, g, e) == FileAt(v, g, e)
    ensures FileChain(w, FileAt(v, g, e)) == FileChain(v, FileAt(v, g, e))
  {
    if Length(e) != 0 {
      KeptChain(v, w, g, Cluster(e));
    }
  }

  ghost predicate FilesKept(v: View, w: View, fs: seq<File>) {
    forall i {:trigger fs[i]} :: 0 <= i < |fs| ==>
      ChainKept(v, w, FileChain(v, fs[i])) && FileChain(w, fs[i]) == FileChain(v, fs[i])
  }

  lemma {:induction false} KeptFiles(v: View, w: View, g: Geometry, es: seq<Entry>, n: nat)
    requires Sized(v, g) && Sized(w, g) && n <= |es| && FilesRead(v, g, es, n)
    requires forall i {:trigger FilesOf(v, g, es, n)[i]} :: 0 <= i < |FilesOf(v, g, es, n)| ==>
      ChainKept(v, w, FileChain(v, FilesOf(v, g, es, n)[i]))
    ensures FilesRead(w, g, es, n) && FilesOf(w, g, es, n) == FilesOf(v, g, es, n)
    ensures FilesKept(v, w, FilesOf(v, g, es, n))
  {
    if n > 2 {
      var before, all := FilesOf(v, g, es, n - 1), FilesOf(v, g, es, n);
      forall i | 0 <= i < |before| ensures ChainKept(v, w, FileChain(v, before[i])) {
        assert all[i] == before[i];
      }
      KeptFiles(v, w, g, es, n - 1);
      if Live(es[n - 1]) {
        assert all[|before|] == FileAt(v, g, es[n - 1]);
        KeptFile(v, w, g, es[n - 1]);
      }
    }
  }

  lemma KeptEntries(v: View, w: View, g: Geometry, first: nat, count: nat)
    requires Sized(v, g) && Sized(w, g) && DirReads(v, g, first, count) && ChainKept(v, w, ChainOf(v.fat, first))
    ensures DirReads(w, g, first, count) && Entries(w, g, first, count) == Entries(v, g, first, count)
    ensures ChainOf(w.fat, first) == ChainOf(v.fat, first)
  {
    KeptChain(v, w, g, first);
    forall i | 0 <= i < count ensures Entries(w, g, first, count)[i] == Entries(v, g, first, count)[i] {
      EntriesAt(v, g, first, count, i);
      EntriesAt(w, g, first, count, i);
      assert CellKept(v, w, ChainOf(v.fat, first)[Div(i, Per(g))]);
    }
  }

  /** A folder whose own cells and clusters are as they were is as it was. */
  lemma FolderFrame(v: View, w: View, g: Geometry, e: Entry)
    requires FolderOk(v, g, e) && Sized(w, g)
    requires forall a {:trigger FolderChains(v, g, e)[a]} :: 0 <= a < |FolderChains(v, g, e)| ==>
      ChainKept(v, w, FolderChains(v, g, e)[a])
    ensures FolderOk(w, g, e) && SaveAt(w, g, e) == SaveAt(v, g, e) && FolderChains(w, g, e) == FolderChains(v, g, e)
  {
    hide CellKept, ChainOf, DirReads, FilesRead, FileAt, Live, Length, Cluster;
    var cs, first, count := FolderChains(v, g, e), Cluster(e), Length(e);
    assert cs[0] == ChainOf(v.fat, first);
    KeptEntries(v, w, g, first, count);
    var es: seq<Entry> := Entries(v, g, first, count);
    var files := FilesOf(v, g, es, count);
    forall i | 0 <= i < |files| ensures ChainKept(v, w, FileChain(v, files[i])) {
      assert cs[i + 1] == FileChain(v, files[i]);
    }
    KeptFiles(v, w, g, es, count);
  }

  /* ---- Cells of chains ------------------------------------------------------------------------------------------ */

  /** Every chain of a folder is an intact chain or no chain at all. */
  lemma FolderChainIntact(v: View, g: Geometry, e: Entry, a: nat)
    requires FolderOk(v, g, e) && a < |FolderChains(v, g, e)|
    ensures FolderChains(v, g, e)[a] == [] || IsChain(v.fat, FolderChains(v, g, e)[a])
  {
    if a > 0 {
      assert FolderChains(v, g, e)[a] == FileChain(v, SaveAt(v, g, e).files[a - 1]);
    }
  }

  /** A chain off the root directory's own has no cell an inject may write. */
  lemma ChainOffRoot(v: View, w: View, root: seq<nat>, chain: seq<nat>)
    requires chain == [] || IsChain(v.fat, chain)
    requires Disjoint(root, chain) && Untouched(v, w, root)
    ensures ChainKept(v, w, chain)
    ensures forall k {:trigger chain[k]} :: 0 <= k < |chain| ==> !Writable(v, root, chain[k])
  {
    if chain != [] {
      ChainLinks(v.fat, chain);
    }
    forall k | 0 <= k < |chain| ensures !Writable(v, root, chain[k]) && CellKept(v, w, chain[k]) {
    }
  }
}
