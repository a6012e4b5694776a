/** Save folders on a PS2 card: finding one from the root directory, and taking it out. */
module Ps2Save {
  import opened Bytes
  import opened Status
  import opened Chains
  import opened Division
  import opened Ps2Fat
  import opened Ps2Cells
  import opened Ps2Read

  const EXISTS := 0x8000
  const DIR := 0x20
  const FILE := 0x10
  const LENGTH := 0x04
  const CREATED := 0x08
  const CLUSTER := 0x10
  const PARENT_INDEX := 0x14
  const MODIFIED := 0x18
  const NAME := 0x40
  const NAME_LEN := 32
  const TOD_SIZE := 8

  /** A directory entry's 512 bytes. */
  type Entry = e: seq<u8> | |e| == ENTRY_SIZE witness Zeros(ENTRY_SIZE)

  datatype File = File(entry: Entry, data: seq<u8>)

  datatype Save = Save(entry: Entry, self: Entry, parent: Entry, files: seq<File>)

  /* ---- Entry fields ------------------------------------------------------------------------------- */

  function Mode(e: Entry): (m: nat)
    ensures m < 0x1_0000
  {
    Le16(e, 0)
  }

  predicate Live(e: Entry) {
    Mode(e) >= EXISTS
  }

  predicate IsDir(e: Entry) {
    Mode(e) / DIR % 2 == 1
  }

  predicate IsFile(e: Entry) {
    Mode(e) / FILE % 2 == 1
  }

  function Length(e: Entry): (n: nat)
    ensures n < 0x1_0000_0000
  {
    Le32(e, LENGTH)
  }

  function Cluster(e: Entry): (n: nat)
    ensures n < 0x1_0000_0000
  {
    Le32(e, CLUSTER)
  }

  function Name(e: Entry): (n: seq<u8>)
    ensures |n| == NAME_LEN
  {
    e[NAME..NAME + NAME_LEN]
  }

  /* ---- The root directory -------------------------------------------------------------------------- */

  /** The root's entry count, which its own first entry records; 0 when it does not read. */
  ghost function RootCount(v: View, g: Geometry): nat
    requires Sized(v, g)
  {
    if DirReads(v, g, g.root, 1) then Length(Entries(v, g, g.root, 1)[0]) else 0
  }

  method ReadRootCount(vol: array<seq<u8>>, g: Geometry, ghost v: View) returns (count: nat)
    requires ReadsAs(vol[..], g, v)
    ensures Sized(v, g) && count == RootCount(v, g)
  {
    ReadsSized(vol[..], g, v);
    var first := ReadChain(vol, g, g.root, ENTRY_SIZE, v);
    ghost var chain := ChainOf(v.fat, g.root);
    CeilScale(1, Per(g));
    if first.None? {
      return 0;
    }
    JoinEntry(ClustersOf(v.data, chain), Per(g), g.cs, 1, 0);
    EntriesAt(v, g, g.root, 1, 0);
    var bytes := first.value;
    assert bytes[0..ENTRY_SIZE] == bytes;
    return Length(bytes);
  }

  /** An entry of the root for a folder that starts at `first`. */
  predicate PointsAt(e: Entry, first: nat) {
    Live(e) && IsDir(e) && Cluster(e) == first
  }

  /** Root entry `i` is the first, from the third on, to point at `first`; or none does and
      `i` is past the end. */
  ghost predicate FirstFor(es: seq<Entry>, first: nat, i: nat) {
    && 2 <= i && (i < |es| ==> PointsAt(es[i], first)) && (i >= |es| ==> i == |es| || (i == 2 && |es| < 2))
    && forall j {:trigger es[j]} :: 2 <= j < i && j < |es| ==> !PointsAt(es[j], first)
  }

  method FindEntry(es: seq<Entry>, first: nat) returns (i: nat)
    ensures FirstFor(es, first, i)
  {
    i := 2;
    while i < |es| && !PointsAt(es[i], first)
      invariant 2 <= i && (i > 2 ==> i <= |es|)
      invariant forall j {:trigger es[j]} :: 2 <= j < i && j < |es| ==> !PointsAt(es[j], first)
      decreases |es| - i
    {
      i := i + 1;
    }
  }

  /* ---- Taking a folder out --------------------------------------------------------------------------- */

  /** A file's entry with the bytes its chain holds. */
  ghost predicate FileReads(v: View, g: Geometry, e: Entry)
    requires Sized(v, g)
  {
    Length(e) == 0 || Reads(v, g, Cluster(e), Length(e))
  }

  ghost function FileAt(v: View, g: Geometry, e: Entry): (f: File)
    requires Sized(v, g) && FileReads(v, g, e)
    ensures f.entry == e && |f.data| == Length(e)
  {
    File(e, if Length(e) == 0 then [] else BytesOf(v, g, Cluster(e), Length(e)))
  }

  /** Every live one of the first `n` entries, the two for the folder aside, is a file that reads. */
  ghost predicate FilesRead(v: View, g: Geometry, es: seq<Entry>, n: nat)
    requires Sized(v, g)
  {
    forall i {:trigger es[i]} :: 2 <= i < n && i < |es| && Live(es[i]) ==> IsFile(es[i]) && FileReads(v, g, es[i])
  }

  /** The live files among the first `n` entries, in order. */
  ghost function FilesOf(v: View, g: Geometry, es: seq<Entry>, n: nat): (fs: seq<File>)
    requires Sized(v, g) && n <= |es| && FilesRead(v, g, es, n)
  {
    if n <= 2 then []
    else FilesOf(v, g, es, n - 1) + if Live(es[n - 1]) then [FileAt(v, g, es[n - 1])] else []
  }

  method ReadFile(vol: array<seq<u8>>, g: Geometry, e: Entry, ghost v: View) returns (f: Option<File>)
    requires ReadsAs(vol[..], g, v)
    ensures Sized(v, g)
    ensures f.Some? <==> FileReads(v, g, e)
    ensures f.Some? ==> f.value == FileAt(v, g, e)
  {
    ReadsSized(vol[..], g, v);
    if Length(e) == 0 {
      return Some(File(e, []));
    }
    var bytes := ReadChain(vol, g, Cluster(e), Length(e), v);
    if bytes.None? {
      return None;
    }
    return Some(File(e, bytes.value));
  }

  /** The files of a folder with entries `es`, unless a live entry is no file or does not read. */
  method ReadFiles(vol: array<seq<u8>>, g: Geometry, es: seq<Entry>, ghost v: View) returns (out: Option<seq<File>>)
    requires ReadsAs(vol[..], g, v) && |es| >= 2
    ensures Sized(v, g)
    ensures out.Some? <==> FilesRead(v, g, es, |es|)
    ensures out.Some? ==> out.value == FilesOf(v, g, es, |es|)
  {
    ReadsSized(vol[..], g, v);
    var files: seq<File> := [];
    for i := 2 to |es|
      invariant FilesRead(v, g, es, i) && files == FilesOf(v, g, es, i)
    {
      if Live(es[i]) {
        if !IsFile(es[i]) {
          return None;
        }
        var f := ReadFile(vol, g, es[i], v);
        if f.None? {
          return None;
        }
        files := files + [f.value];
      }
    }
    return Some(files);
  }

  /** The root directory reads, and its entry `i` is the first for the folder at `first`. */
  ghost predicate FolderAt(v: View, g: Geometry, first: nat, i: nat)
    requires Sized(v, g)
  {
    && DirReads(v, g, g.root, RootCount(v, g)) && i < RootCount(v, g)
    && FirstFor(Entries(v, g, g.root, RootCount(v, g)), first, i)
  }

  /** The folder at `first`, with `count` entries, reads and holds only files. */
  ghost predicate FolderReads(v: View, g: Geometry, first: nat, count: nat)
    requires Sized(v, g)
  {
    count >= 2 && DirReads(v, g, first, count) && FilesRead(v, g, Entries(v, g, first, count), count)
  }

  ghost predicate Extractable(v: View, g: Geometry, first: nat)
    requires Sized(v, g)
  {
    exists i: nat {:trigger FolderAt(v, g, first, i)} ::
      FolderAt(v, g, first, i) && FolderReads(v, g, first, Length(Entries(v, g, g.root, RootCount(v, g))[i]))
  }

  /** The folder root entry `e` points at. */
  ghost function SaveAt(v: View, g: Geometry, e: Entry): (s: Save)
    requires Sized(v, g) && FolderReads(v, g, Cluster(e), Length(e))
    ensures s.entry == e
  {
    var es := Entries(v, g, Cluster(e), Length(e));
    Save(e, es[0], es[1], FilesOf(v, g, es, |es|))
  }

  /** `s` is what the card holds for the folder at `first`. */
  ghost predicate Extracts(v: View, g: Geometry, first: nat, s: Save)
    requires Sized(v, g)
  {
    exists i: nat {:trigger FolderAt(v, g, first, i)} ::
      && FolderAt(v, g, first, i)
      && var e: Entry := Entries(v, g, g.root, RootCount(v, g))[i];
         Cluster(e) == first && FolderReads(v, g, first, Length(e)) && s == SaveAt(v, g, e)
  }

  /** The entry a folder is extracted through is the only one. */
  lemma FolderOnce(v: View, g: Geometry, first: nat, i: nat, j: nat)
    requires Sized(v, g) && FolderAt(v, g, first, i) && FolderAt(v, g, first, j)
    ensures i == j
  {
    var es: seq<Entry> := Entries(v, g, g.root, RootCount(v, g));
    FirstOnce(es, first, i, j);
  }

  lemma FirstOnce(es: seq<Entry>, first: nat, i: nat, j: nat)
    requires FirstFor(es, first, i) && FirstFor(es, first, j) && i < |es| && j < |es|
    ensures i == j
  {
  }

  method FindFolder(vol: array<seq<u8>>, g: Geometry, first: nat, ghost v: View) returns (found: Option<Entry>, i: nat)
    requires ReadsAs(vol[..], g, v)
    ensures Sized(v, g)
    ensures found.None? ==> forall k: nat {:trigger FolderAt(v, g, first, k)} :: !FolderAt(v, g, first, k)
    ensures found.Some? ==> FolderAt(v, g, first, i) && found.value == Entries(v, g, g.root, RootCount(v, g))[i]
  {
    i := 0;
    var count := ReadRootCount(vol, g, v);
    var read := ReadDir(vol, g, g.root, count, v);
    if read.None? {
      return None, 0;
    }
    var es: seq<Entry> := read.value;
    i := FindEntry(es, first);
    if i >= |es| {
      return None, 0;
    }
    return Some(es[i]), i;
  }

  /** Takes out the folder that starts at `first`. */
  method Extract(vol: array<seq<u8>>, g: Geometry, first: nat, ghost v: View) returns (out: Option<Save>)
    requires ReadsAs(vol[..], g, v)
    ensures Sized(v, g)
    ensures out.None? <==> !Extractable(v, g, first)
    ensures out.Some? ==> Extracts(v, g, first, out.value)
  {
    var found, at := FindFolder(vol, g, first, v);
    if found.None? {
      return None;
    }
    var e := found.value;
    var count := Length(e);
    var read := ReadDir(vol, g, first, count, v);
    if count < 2 || read.None? {
      OnlyFolder(v, g, first, at);
      return None;
    }
    var es: seq<Entry> := read.value;
    var files := ReadFiles(vol, g, es, v);
    if files.None? {
      OnlyFolder(v, g, first, at);
      return None;
    }
    assert FolderAt(v, g, first, at);
    return Some(Save(e, es[0], es[1], files.value));
  }

  lemma OnlyFolder(v: View, g: Geometry, first: nat, at: nat)
    requires Sized(v, g) && FolderAt(v, g, first, at)
    requires !FolderReads(v, g, first, Length(Entries(v, g, g.root, RootCount(v, g))[at]))
    ensures !Extractable(v, g, first)
  {
    forall k: nat | FolderAt(v, g, first, k) ensures k == at {
      FolderOnce(v, g, first, k, at);
    }
  }
}
