/** The files a save comes apart into, as putting it together finds them: by path, by row, and in order. */
module Ps2FolderParts {
  import opened Bytes
  import opened Status
  import opened Ps2Save
  import opened Ps2Index
  import opened Ps2Folder

  /* ---- Files found by path --------------------------------------------------------------------------------- */

  lemma {:induction false} LookupJoin(a: seq<FolderFile>, b: seq<FolderFile>, path: seq<u8>)
    ensures Lookup(a + b, path) == if Lookup(a, path).Some? then Lookup(a, path) else Lookup(b, path)
  {
    if a == [] {
      assert a + b == b;
    } else {
      assert (a + b)[0] == a[0] && (a + b)[1..] == a[1..] + b;
      LookupJoin(a[1..], b, path);
    }
  }

  lemma NoFiles(path: seq<u8>)
    ensures Lookup([], path) == None
  {
  }

  lemma OneFile(f: FolderFile, path: seq<u8>)
    ensures Lookup([f], path) == if f.path == path then Some(f.data) else None
  {
    assert [f][1..] == [];
  }

  /** The paths beside the files are reserved, and apart from each other. */
  lemma PathsApart(a: seq<u8>, b: seq<u8>)
    ensures Reserved(INDEX) && Reserved(META_DIR) && Reserved(MetaPath(a))
    ensures INDEX != META_DIR && INDEX != MetaPath(a) && META_DIR != MetaPath(a)
    ensures MetaPath(a) == MetaPath(b) <==> a == b
  {
    var m := MetaPath(a);
    assert |PREFIX| == 7 && |META| == 11 && |META_PREFIX| == 12;
    assert m[..7] == PREFIX && INDEX[..7] == PREFIX && META_DIR[..7] == PREFIX;
    assert INDEX[7] == 0x69 && META_DIR[7] == 0x6D && m[7] == META_PREFIX[7] == META[7] == 0x6D;
    assert META_DIR[11] == 0x5F && m[11] == META_PREFIX[11] == SLASH;
    assert m[12..] == a && MetaPath(b)[12..] == b;
  }

  lemma PartsOfFile(f: File, path: seq<u8>)
    requires Unpackable(f) && Reserved(path)
    ensures Lookup(FileParts(f), path) == if !Rebuilds(f.entry, FILE_MODE) && path == MetaPath(EntryName(f.entry))
      then Some(f.entry) else None
  {
    hide Rebuilds, EntryName, Lookup, MetaPath, PlainName;
    var name := EntryName(f.entry);
    OneFile(FolderFile(name, f.data), path);
    if Rebuilds(f.entry, FILE_MODE) {
      assert FileParts(f) == [FolderFile(name, f.data)];
    } else {
      OneFile(FolderFile(MetaPath(name), f.entry), path);
      LookupJoin([FolderFile(name, f.data)], [FolderFile(MetaPath(name), f.entry)], path);
    }
  }

  predicate Distinct(files: seq<File>) {
    forall i, j {:trigger files[i], files[j]} :: 0 <= i < j < |files| ==>
      EntryName(files[i].entry) != EntryName(files[j].entry)
  }

  /** Whose meta file the path is, if anyone's. */
  predicate Owns(files: seq<File>, path: seq<u8>, k: nat) {
    k < |files| && path == MetaPath(EntryName(files[k].entry))
  }

  lemma {:induction false} PartsMiss(files: seq<File>, n: nat, path: seq<u8>)
    requires n <= |files| && AllUnpackable(files, |files|) && Reserved(path)
    requires forall k: nat {:trigger Owns(files, path, k)} :: k < n ==> !Owns(files, path, k)
    ensures Lookup(PartsTo(files, n), path) == None
  {
    hide Lookup, FileParts, Unpackable, Reserved, EntryName, MetaPath;
    if n > 0 {
      PartsMiss(files, n - 1, path);
      assert !Owns(files, path, n - 1) && Unpackable(files[n - 1]);
      PartsOfFile(files[n - 1], path);
      LookupJoin(PartsTo(files, n - 1), FileParts(files[n - 1]), path);
    } else {
      NoFiles(path);
    }
  }

  lemma {:induction false} PartsMeta(files: seq<File>, n: nat, k: nat)
    requires k < n <= |files| && AllUnpackable(files, |files|) && Distinct(files)
    ensures Lookup(PartsTo(files, n), MetaPath(EntryName(files[k].entry)))
         == if Rebuilds(files[k].entry, FILE_MODE) then None else Some(files[k].entry)
  {
    hide Lookup, FileParts, Unpackable, Reserved, EntryName, MetaPath, Rebuilds;
    var name := EntryName(files[k].entry);
    var path := MetaPath(name);
    PathsApart(name, EntryName(files[n - 1].entry));
    assert Unpackable(files[n - 1]);
    PartsOfFile(files[n - 1], path);
    LookupJoin(PartsTo(files, n - 1), FileParts(files[n - 1]), path);
    if k < n - 1 {
      PartsMeta(files, n - 1, k);
      assert EntryName(files[k].entry) != EntryName(files[n - 1].entry);
    } else {
      forall j: nat | j < n - 1 ensures !Owns(files, path, j) {
        PathsApart(name, EntryName(files[j].entry));
      }
      PartsMiss(files, n - 1, path);
    }
  }

  lemma DirPartsAt(s: Save, path: seq<u8>)
    ensures Lookup(DirParts(s), path) == if !Rebuilds(s.entry, DIR_MODE) && path == META_DIR
      then Some(s.entry) else None
  {
    hide Lookup, Rebuilds;
    OneFile(FolderFile(META_DIR, s.entry), path);
    NoFiles(path);
  }

  /** What each path of an unpacked save holds. */
  lemma UnpackedAt(s: Save, path: seq<u8>)
    requires AllUnpackable(s.files, |s.files|)
    ensures Lookup(Unpacked(s), path)
         == if Lookup(PartsTo(s.files, |s.files|), path).Some? then Lookup(PartsTo(s.files, |s.files|), path)
            else if !Rebuilds(s.entry, DIR_MODE) && path == META_DIR then Some(s.entry)
            else if path == INDEX then Some(IndexText(s)) else None
  {
    hide Lookup, Rebuilds, PartsTo, DirParts, IndexText;
    DirPartsAt(s, path);
    OneFile(FolderFile(INDEX, IndexText(s)), path);
    LookupJoin(PartsTo(s.files, |s.files|), DirParts(s), path);
    LookupJoin(PartsTo(s.files, |s.files|) + DirParts(s), [FolderFile(INDEX, IndexText(s))], path);
    PathsApart([], []);
  }

  lemma IndexFound(s: Save)
    requires AllUnpackable(s.files, |s.files|)
    ensures Lookup(Unpacked(s), INDEX) == Some(IndexText(s))
    ensures Lookup(Unpacked(s), META_DIR) == if Rebuilds(s.entry, DIR_MODE) then None else Some(s.entry)
  {
    hide Lookup, Rebuilds, Unpacked, PartsTo, IndexText, MetaPath, Reserved, EntryName;
    PathsApart([], []);
    UnpackedAt(s, INDEX);
    UnpackedAt(s, META_DIR);
    forall k: nat | k < |s.files| ensures !Owns(s.files, INDEX, k) && !Owns(s.files, META_DIR, k) {
      PathsApart(EntryName(s.files[k].entry), []);
    }
    PartsMiss(s.files, |s.files|, INDEX);
    PartsMiss(s.files, |s.files|, META_DIR);
  }

  lemma MetaFound(s: Save, k: nat)
    requires AllUnpackable(s.files, |s.files|) && Distinct(s.files) && k < |s.files|
    ensures Lookup(Unpacked(s), MetaPath(EntryName(s.files[k].entry)))
         == if Rebuilds(s.files[k].entry, FILE_MODE) then None else Some(s.files[k].entry)
  {
    hide Lookup, Rebuilds, Unpacked, PartsTo, IndexText, MetaPath, EntryName;
    PartsMeta(s.files, |s.files|, k);
    UnpackedAt(s, MetaPath(EntryName(s.files[k].entry)));
    PathsApart(EntryName(s.files[k].entry), []);
  }

  /* ---- Rows found by name ------------------------------------------------------------------------------------ */

  lemma {:induction false} RowForAt(rows: seq<Row>, k: nat)
    requires k < |rows| && forall j {:trigger rows[j]} :: 0 <= j < k ==> rows[j].name != rows[k].name
    ensures RowFor(rows, rows[k].name) == Some(rows[k])
    decreases |rows|
  {
    if k > 0 {
      assert rows[0].name != rows[k].name && rows[1..][k - 1] == rows[k];
      forall j | 0 <= j < k - 1 ensures rows[1..][j].name != rows[k].name {
        assert rows[1..][j] == rows[j + 1];
      }
      RowForAt(rows[1..], k - 1);
    }
  }

  function RootDates(s: Save): Row {
    RootRow(CreatedOf(s.entry), ModifiedOf(s.entry))
  }

  function RowsOf(s: Save): (rows: seq<Row>)
    ensures |rows| == |s.files| + 1
  {
    [RootDates(s)] + RowsTo(s.files, |s.files|)
  }

  /** The row a file finds: its own, unless its name is the root's key. */
  function RowMet(s: Save, k: nat): Row
    requires k < |s.files|
  {
    if EntryName(s.files[k].entry) == ROOT_KEY then RootDates(s) else RowOf(s.files[k], k)
  }

  lemma RootDatesNamed(s: Save)
    ensures RootDates(s).name == ROOT_KEY && RootDates(s).order == None
    ensures RootDates(s).created == Some(CreatedOf(s.entry)) && RootDates(s).modified == Some(ModifiedOf(s.entry))
  {
    assert |ROOT_KEY| == 5;
  }

  lemma RowFound(s: Save, k: nat)
    requires Distinct(s.files) && k < |s.files|
    ensures RowFor(RowsOf(s), EntryName(s.files[k].entry)) == Some(RowMet(s, k))
  {
    hide EntryName, CreatedOf, ModifiedOf, RootDates, RowFor;
    var rows := RowsOf(s);
    RootDatesNamed(s);
    assert rows[0] == RootDates(s) && rows[k + 1] == RowOf(s.files[k], k);
    if EntryName(s.files[k].entry) == ROOT_KEY {
      RowForAt(rows, 0);
    } else {
      forall j | 0 <= j < k + 1 ensures rows[j].name != rows[k + 1].name {
        if j > 0 {
          assert rows[j] == RowOf(s.files[j - 1], j - 1);
        }
      }
      RowForAt(rows, k + 1);
    }
  }

  lemma RootFound(s: Save)
    ensures RootOf(RowsOf(s)) == Some(RootDates(s))
  {
    hide RootDates, EntryName;
    RootDatesNamed(s);
    assert RowsOf(s)[0] == RootDates(s);
    RowForAt(RowsOf(s), 0);
  }

  /* ---- The files gathered ------------------------------------------------------------------------------------- */

  lemma {:induction false} GatherJoin(a: seq<FolderFile>, b: seq<FolderFile>, rows: seq<Row>, items: Items)
    ensures Gather(a + b, rows, items) == match Gather(a, rows, items) case None => None
      case Some(mid) => Gather(b, rows, mid)
  {
    hide Gathered, RowFor;
    if a == [] {
      assert a + b == b;
    } else {
      assert (a + b)[0] == a[0] && (a + b)[1..] == a[1..] + b;
      match Gathered(items, a[0], RowFor(rows, a[0].path)) {
        case None =>
        case Some(next) => GatherJoin(a[1..], b, rows, next);
      }
    }
  }

  lemma GatherOne(f: FolderFile, rows: seq<Row>, items: Items)
    ensures Gather([f], rows, items) == Gathered(items, f, RowFor(rows, f.path))
  {
    assert [f][1..] == [];
  }

  function HostFile(f: File): FolderFile {
    FolderFile(EntryName(f.entry), f.data)
  }

  lemma GatherFile(f: File, rows: seq<Row>, items: Items)
    requires Unpackable(f)
    ensures Gather(FileParts(f), rows, items) == Gathered(items, HostFile(f), RowFor(rows, EntryName(f.entry)))
  {
    hide Gather, Rebuilds, MetaPath, RowFor, EntryName;
    var name := EntryName(f.entry);
    GatherOne(HostFile(f), rows, items);
    if Rebuilds(f.entry, FILE_MODE) {
      assert FileParts(f) == [HostFile(f)];
    } else {
      var meta := FolderFile(MetaPath(name), f.entry);
      PathsApart(name, name);
      assert FileParts(f) == [HostFile(f)] + [meta];
      GatherJoin([HostFile(f)], [meta], rows, items);
      var mid := Gathered(items, HostFile(f), RowFor(rows, name));
      if mid.Some? {
        GatherOne(meta, rows, mid.value);
      }
    }
  }

  function OrderMet(s: Save, k: nat): int
    requires k < |s.files|
  {
    if EntryName(s.files[k].entry) == ROOT_KEY then -1 else k + 1
  }

  function ItemMet(s: Save, k: nat): Item
    requires k < |s.files|
  {
    Item(HostFile(s.files[k]), OrderMet(s, k))
  }

  function ItemsMet(s: Save, n: nat): (items: seq<Item>)
    requires n <= |s.files|
    ensures |items| == n && forall k {:trigger items[k]} :: 0 <= k < n ==> items[k] == ItemMet(s, k)
  {
    seq(n, k requires 0 <= k < n => ItemMet(s, k))
  }

  ghost predicate Named(s: Save, k: nat) {
    k < |s.files| && EntryName(s.files[k].entry) == ROOT_KEY
  }

  ghost predicate NamedBefore(s: Save, n: nat) {
    exists k: nat {:trigger Named(s, k)} :: k < n && Named(s, k)
  }

  lemma NameShort(e: Entry)
    ensures |EntryName(e)| <= NAME_LEN
  {
  }

  lemma NoGather(rows: seq<Row>, items: Items)
    ensures Gather([], rows, items) == Some(items)
  {
  }

  lemma NamedOnce(s: Save, k: nat)
    requires Distinct(s.files) && k < |s.files|
    ensures NamedBefore(s, k) ==> !Named(s, k)
  {
    hide EntryName;
  }

  /* ---- The order ------------------------------------------------------------------------------------------------ */

  lemma {:induction false} OrderedAlready(items: seq<Item>)
    requires forall i, j {:trigger items[i], items[j]} :: 0 <= i < j < |items| ==> items[i].order <= items[j].order
    ensures Ordered(items) == items
    decreases |items|
  {
    if items != [] {
      var front := items[..|items| - 1];
      OrderedAlready(front);
      assert front != [] ==> front[|front| - 1] == items[|items| - 2];
      assert items == front + [items[|items| - 1]];
    }
  }

  lemma {:induction false} InsertedFirst(items: seq<Item>, x: Item)
    requires forall i {:trigger items[i]} :: 0 <= i < |items| ==> x.order < items[i].order
    ensures Inserted(items, x) == [x] + items
    decreases |items|
  {
    if items != [] {
      InsertedFirst(items[..|items| - 1], x);
      assert [x] + items[..|items| - 1] + [items[|items| - 1]] == [x] + items;
    }
  }
}
