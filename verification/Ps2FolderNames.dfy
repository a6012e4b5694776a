/** Which folders pack, and of which files: the names a folder card keeps for itself, the names a save's file can have,
    and the keys and characters its index is read by. */
module Ps2FolderNames {
  import opened Bytes
  import opened Status
  import opened Text
  import opened Ps2Save
  import opened Ps2Build
  import opened Ps2Index
  import opened Ps2Folder
  import opened Ps2FolderTheorems
  import opened Ps2FolderOrder

  /* ---- In letters --------------------------------------------------------------------- */

  lemma PrefixIs()
    ensures Letters("_pcsx2_") == PREFIX && Letters("index") == INDEX[7..]
    ensures Letters("meta") == META[7..] && Letters("/") == META_PREFIX[11..]
  {
  }

  lemma DirectoryIs()
    ensures Letters("_directory") == META_DIR[11..]
  {
  }

  /** The index, the folder's own meta and those of its files are apart from the save's files by a prefix. */
  lemma NamesAre()
    ensures INDEX == Letters("_pcsx2_") + Letters("index")
    ensures META_PREFIX == Letters("_pcsx2_") + Letters("meta") + Letters("/")
    ensures META_DIR == Letters("_pcsx2_") + Letters("meta") + Letters("_directory")
  {
    hide Letters;
    PrefixIs();
    DirectoryIs();
    assert INDEX == INDEX[..7] + INDEX[7..] && META == META[..7] + META[7..];
  }

  /** The keys of a row's fields, and of the folder's own row. */
  lemma KeysAre()
    ensures ORDER == Letters("order") && TIME_CREATED == Letters("timeCreated")
    ensures TIME_MODIFIED == Letters("timeModified")
    ensures ROOT_KEY == Letters("$ROOT") && OTHER_ROOT_KEY == Letters("%ROOT")
  {
  }

  lemma SignsAre()
    ensures [TAB, NEWLINE, RETURN, SPACE, DOUBLE, HASH] == Letters("\t\n\r \"#")
    ensures [QUOTE, COMMA, MINUS, ZERO, COLON, BACKSLASH, OPEN, CLOSE] == Letters("',-0:\\{}")
    ensures [SLASH, DOT] == Letters("/.")
  {
  }

  /** A name a file of a save can have: one segment of a path on any host, and 32 bytes at most. */
  predicate IsName(name: seq<u8>) {
    && 1 <= |name| <= 32 && name != Letters(".") && name != Letters("..")
    && forall i {:trigger name[i]} :: 0 <= i < |name| ==> name[i] != '/' as int && name[i] != '\\' as int
  }

  predicate SetApart(path: seq<u8>) {
    Letters("_pcsx2_") <= path
  }

  lemma NameIff(name: seq<u8>)
    ensures IsName(name) <==> PlainName(name) && |name| <= NAME_LEN
  {
    assert Letters(".") == [DOT] && Letters("..") == [DOT, DOT];
  }

  lemma ApartIff(path: seq<u8>)
    ensures SetApart(path) <==> Reserved(path)
  {
    hide Letters;
    PrefixIs();
  }

  /* ---- What is refused ------------------------------------------------------------------ */

  /** A file no save can have: not set apart, and its name or its length do not fit. */
  predicate Bad(f: FolderFile) {
    !SetApart(f.path) && (!IsName(f.path) || |f.data| >= 0x1_0000_0000)
  }

  predicate BadName(f: FolderFile) {
    !Reserved(f.path) && !(PlainName(f.path) && |f.path| <= NAME_LEN)
  }

  lemma {:induction false} GatherIff(files: seq<FolderFile>, rows: seq<Row>, items: Items)
    ensures Gather(files, rows, items).None? <==> exists f :: f in files && BadName(f)
    decreases |files|
  {
    hide PlainName, Reserved, RowFor;
    if files != [] {
      var next := Gathered(items, files[0], RowFor(rows, files[0].path));
      assert next.None? <==> BadName(files[0]);
      if next.Some? {
        GatherIff(files[1..], rows, next.value);
        assert files == [files[0]] + files[1..];
      }
    }
  }

  lemma {:induction false} GivenHas(files: seq<FolderFile>, f: FolderFile)
    ensures multiset(Given(files))[f] == if Reserved(f.path) then 0 else multiset(files)[f]
    decreases |files|
  {
    hide Reserved;
    if files != [] {
      GivenHas(files[1..], f);
      assert files == [files[0]] + files[1..];
    }
  }

  function FilesIn(items: seq<Item>): (fs: seq<FolderFile>)
    ensures |fs| == |items| && forall i {:trigger fs[i]} :: 0 <= i < |fs| ==> fs[i] == items[i].file
  {
    seq(|items|, i requires 0 <= i < |items| => items[i].file)
  }

  lemma FilesNext(items: seq<Item>, x: Item)
    ensures FilesIn(items + [x]) == FilesIn(items) + [x.file]
  {
  }

  lemma {:induction false} InsertedFiles(items: seq<Item>, x: Item)
    ensures multiset(FilesIn(Inserted(items, x))) == multiset(FilesIn(items)) + multiset{x.file}
    decreases |items|
  {
    hide FilesIn;
    FilesNext(items, x);
    if items != [] && x.order < items[|items| - 1].order {
      var front, last := items[..|items| - 1], items[|items| - 1];
      InsertedFiles(front, x);
      FilesNext(Inserted(front, x), last);
      FilesNext(front, last);
      assert items == front + [last];
    }
  }

  lemma {:induction false} OrderedFiles(items: seq<Item>)
    ensures multiset(FilesIn(Ordered(items))) == multiset(FilesIn(items))
    decreases |items|
  {
    hide FilesIn, Inserted;
    if items != [] {
      var front, last := items[..|items| - 1], items[|items| - 1];
      OrderedFiles(front);
      InsertedFiles(Ordered(front), last);
      FilesNext(front, last);
      assert items == front + [last];
    }
  }

  /** The items, in order, hold the files that are not set apart, each as often as it is given. */
  lemma ItemsHave(files: seq<FolderFile>, rows: seq<Row>, f: FolderFile)
    requires Gather(files, rows, Items([], 0)).Some?
    ensures var items := Gather(files, rows, Items([], 0)).value.list;
      multiset(FilesIn(Ordered(items)))[f] == if Reserved(f.path) then 0 else multiset(files)[f]
  {
    hide Gather, Given, Ordered, Reserved;
    var items := Gather(files, rows, Items([], 0)).value.list;
    GivenAre(files, rows);
    assert FilesIn(items) == Given(files);
    OrderedFiles(items);
    GivenHas(files, f);
  }

  lemma FitIff(items: seq<Item>)
    ensures AllFit(items) <==> forall f {:trigger f in FilesIn(items)} :: f in FilesIn(items) ==>
      |f.path| <= NAME_LEN && |f.data| < 0x1_0000_0000
  {
    var fs := FilesIn(items);
    if forall f {:trigger f in fs} :: f in fs ==> |f.path| <= NAME_LEN && |f.data| < 0x1_0000_0000 {
      forall i | 0 <= i < |items| ensures Fits(items[i]) {
        assert fs[i] in fs;
      }
    }
  }

  lemma BadIff(f: FolderFile)
    ensures Bad(f) <==> BadName(f) || (!Reserved(f.path) && |f.data| >= 0x1_0000_0000)
  {
    hide Letters, Reserved, PlainName, IsName, SetApart;
    NameIff(f.path);
    ApartIff(f.path);
  }

  lemma FilesFitIff(files: seq<FolderFile>, rows: seq<Row>)
    requires Gather(files, rows, Items([], 0)).Some?
    ensures AllFit(Ordered(Gather(files, rows, Items([], 0)).value.list)) <==> !exists f :: f in files && Bad(f)
  {
    hide Gather, Ordered, Reserved, PlainName, AllFit, FilesIn, Bad;
    var items := Ordered(Gather(files, rows, Items([], 0)).value.list);
    GatherIff(files, rows, Items([], 0));
    FitIff(items);
    forall f: FolderFile ensures f in FilesIn(items) <==> f in files && !Reserved(f.path) {
      ItemsHave(files, rows, f);
      assert f in FilesIn(items) <==> multiset(FilesIn(items))[f] > 0;
      assert f in files <==> multiset(files)[f] > 0;
    }
    forall f | f in files ensures Bad(f) <==> !Reserved(f.path) && |f.data| >= 0x1_0000_0000 {
      BadIff(f);
    }
  }

  /** A folder is refused exactly when its own name cannot be a save's, its index does not read, or one of its files,
      of those not set apart, has a name no file can have or more bytes than an entry can say. */
  lemma RefusedIff(folder: seq<u8>, files: seq<FolderFile>)
    ensures PackOf(folder, files).None? <==>
      || !IsName(folder)
      || (Lookup(files, INDEX).Some? && ParseIndex(Lookup(files, INDEX).value).None?)
      || exists f :: f in files && Bad(f)
  {
    hide Letters, Reserved, PlainName, IsName, Gather, Ordered, AllFit, Bad, ParseIndex, Lookup, PackedDir, DotEntry,
      PackedFiles;
    NameIff(folder);
    var rows := IndexRows(files);
    if rows.Some? {
      GatherIff(files, rows.value, Items([], 0));
      if f :| f in files && BadName(f) {
        BadIff(f);
      }
      if Gather(files, rows.value, Items([], 0)).Some? {
        FilesFitIff(files, rows.value);
      }
    }
  }

  /* ---- What is packed --------------------------------------------------------------------- */

  /** The save has these files, one after another, under their names. */
  ghost predicate HasFiles(t: Save, fs: seq<FolderFile>) {
    |t.files| == |fs| && forall i {:trigger fs[i]} :: 0 <= i < |fs| ==>
      |fs[i].path| <= 32 && t.files[i].data == fs[i].data
      && t.files[i].entry[64..96] == fs[i].path + Zeros(32 - |fs[i].path|)
  }

  lemma PackedNamed(files: seq<FolderFile>, rows: seq<Row>, f: FolderFile)
    requires |f.path| <= NAME_LEN && |f.data| < 0x1_0000_0000
    ensures var p := PackedFile(files, rows, f);
      p.data == f.data && p.entry[64..96] == f.path + Zeros(32 - |f.path|)
  {
    hide Lookup, RowFor, EntryFromMeta, Placed, WithLe32;
    var row := RowFor(rows, f.path);
    var meta := Lookup(files, MetaPath(f.path));
    MetaNamed(meta, f.path, FILE_MODE, RowCreated(row), RowModified(row));
    FinalKept(EntryFromMeta(meta, f.path, FILE_MODE, RowCreated(row), RowModified(row)), |f.data|, 64, 96);
  }

  lemma MetaNamed(meta: Option<seq<u8>>, name: seq<u8>, mode: nat, created: int, modified: int)
    requires |name| <= NAME_LEN
    ensures EntryFromMeta(meta, name, mode, created, modified)[64..96] == name + Zeros(32 - |name|)
  {
    hide DefaultEntry;
  }

  /** The files given that are not set apart, each as often as it is. */
  ghost predicate AreGiven(fs: seq<FolderFile>, files: seq<FolderFile>) {
    forall f: FolderFile {:trigger multiset(fs)[f]} ::
      multiset(fs)[f] == if SetApart(f.path) then 0 else multiset(files)[f]
  }

  /** A save is packed of exactly those, each under its name and with its bytes. */
  lemma PackHas(folder: seq<u8>, files: seq<FolderFile>)
    requires PackOf(folder, files).Some?
    ensures exists fs {:trigger HasFiles(PackOf(folder, files).value, fs)} ::
      HasFiles(PackOf(folder, files).value, fs) && AreGiven(fs, files)
  {
    hide Letters, Reserved, PlainName, Gather, Ordered, ParseIndex, Lookup, PackedDir, DotEntry, PackedFile, FilesIn,
      SetApart;
    var t, rows := PackOf(folder, files).value, IndexRows(files).value;
    var items := Ordered(Gather(files, rows, Items([], 0)).value.list);
    var fs := FilesIn(items);
    forall i | 0 <= i < |fs|
      ensures |fs[i].path| <= 32 && t.files[i].data == fs[i].data
           && t.files[i].entry[64..96] == fs[i].path + Zeros(32 - |fs[i].path|)
    {
      assert Fits(items[i]);
      PackedNamed(files, rows, items[i].file);
    }
    assert HasFiles(t, fs);
    forall f: FolderFile ensures multiset(fs)[f] == if SetApart(f.path) then 0 else multiset(files)[f] {
      ItemsHave(files, rows, f);
      ApartIff(f.path);
    }
  }
}
