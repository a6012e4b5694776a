/** When a save that comes apart into a folder's files goes back together. */
module Ps2FolderTheorems {
  import opened Bytes
  import opened Status
  import opened Text
  import opened Calendar
  import opened Ps2Fat
  import opened Ps2Save
  import opened Ps2Build
  import opened Ps2Index
  import opened Ps2IndexTheorems
  import opened Ps2Folder
  import opened Ps2FolderParts
  import opened Ps2FolderOrder

  /* ---- Entries rebuilt ------------------------------------------------------------- */

  lemma SpliceSame<T>(s: seq<T>, at: nat, bytes: seq<T>)
    requires at + |bytes| <= |s| && s[at..at + |bytes|] == bytes
    ensures Splice(s, at, bytes) == s
  {
    assert s == s[..at] + s[at..at + |bytes|] + s[at + |bytes|..];
  }

  lemma FourBytes(a: u8, b: u8, c: u8, d: u8)
    ensures Le32Bytes(a as int + 0x100 * b as int + 0x1_0000 * c as int + 0x100_0000 * d as int) == [a, b, c, d]
  {
    var v: nat := a as int + 0x100 * b as int + 0x1_0000 * c as int + 0x100_0000 * d as int;
    var v1: nat := b as int + 0x100 * c as int + 0x1_0000 * d as int;
    var v2: nat := c as int + 0x100 * d as int;
    assert v == 256 * v1 + a && v1 == 256 * v2 + b;
    assert v / 256 == v1 && v1 / 256 == v2 && v2 / 256 == d;
  }

  lemma LengthSame(e: Entry)
    ensures WithLe32(e, LENGTH, Length(e)) == e
  {
    FourBytes(e[LENGTH], e[LENGTH + 1], e[LENGTH + 2], e[LENGTH + 3]);
    assert e[LENGTH..LENGTH + 4] == [e[LENGTH], e[LENGTH + 1], e[LENGTH + 2], e[LENGTH + 3]];
    SpliceSame(e, LENGTH, Le32Bytes(Length(e)));
  }

  lemma PlacedTwice(e: Entry)
    ensures Placed(Placed(e)) == Placed(e)
  {
    hide WithLe32;
    Reorder(WithLe32(e, CLUSTER, 0), CLUSTER, 0, PARENT_INDEX, 0);
    Overwrite(e, CLUSTER, 0, 0);
    Reorder(e, CLUSTER, 0, PARENT_INDEX, 0);
    Reorder(WithLe32(e, PARENT_INDEX, 0), CLUSTER, 0, PARENT_INDEX, 0);
    Overwrite(e, PARENT_INDEX, 0, 0);
    Overwrite(WithLe32(e, PARENT_INDEX, 0), CLUSTER, 0, 0);
  }

  lemma PlacedAside(e: Entry, v: nat)
    ensures WithLe32(Placed(e), LENGTH, v) == Placed(WithLe32(e, LENGTH, v))
  {
    hide WithLe32;
    Reorder(WithLe32(e, CLUSTER, 0), LENGTH, v, PARENT_INDEX, 0);
    Reorder(e, LENGTH, v, CLUSTER, 0);
  }

  /** An entry without the fields the emulator fills in comes back with its length. */
  lemma BareRestores(e: Entry, v: nat)
    ensures Placed(WithLe32(Bare(e), LENGTH, v)) == Placed(WithLe32(e, LENGTH, v))
  {
    hide Placed, WithLe32;
    Overwrite(Placed(e), LENGTH, 0, v);
    PlacedAside(e, v);
    PlacedTwice(WithLe32(e, LENGTH, v));
  }

  /** Bytes clear of those fields. */
  predicate Clear(lo: nat, hi: nat) {
    (CREATED <= lo <= hi <= CLUSTER) || (MODIFIED <= lo <= hi <= ENTRY_SIZE)
  }

  lemma ClearKept(e: Entry, v: nat, lo: nat, hi: nat)
    requires Clear(lo, hi)
    ensures Placed(e)[lo..hi] == e[lo..hi] && WithLe32(e, LENGTH, v)[lo..hi] == e[lo..hi]
  {
    hide Splice, Le32Bytes;
    SpliceFrame(e, LENGTH, Le32Bytes(v), lo, hi);
    SpliceFrame(e, CLUSTER, Le32Bytes(0), lo, hi);
    SpliceFrame(WithLe32(e, CLUSTER, 0), PARENT_INDEX, Le32Bytes(0), lo, hi);
  }

  lemma FinalKept(e: Entry, v: nat, lo: nat, hi: nat)
    requires Clear(lo, hi)
    ensures Placed(WithLe32(e, LENGTH, v))[lo..hi] == e[lo..hi]
  {
    hide Placed, WithLe32;
    ClearKept(e, v, lo, hi);
    ClearKept(WithLe32(e, LENGTH, v), v, lo, hi);
  }

  function Renamed(e: Entry): Entry {
    Splice(e, NAME, NameField(EntryName(e)))
  }

  lemma MetaRestores(e: Entry, v: nat)
    ensures Placed(WithLe32(Renamed(e), LENGTH, v)) == Placed(WithLe32(e, LENGTH, v)) <==> Padded(e)
  {
    hide Placed, WithLe32, EntryName, NameField;
    FinalKept(Renamed(e), v, NAME, NAME + NAME_LEN);
    FinalKept(e, v, NAME, NAME + NAME_LEN);
    if Padded(e) {
      SpliceSame(e, NAME, NameField(EntryName(e)));
    }
  }

  lemma DefaultParts(mode: nat, name: seq<u8>, created: int, modified: int)
    requires |name| <= NAME_LEN
    ensures var e := DefaultEntry(mode, name, created, modified);
      && e[NAME..NAME + NAME_LEN] == NameField(name)
      && e[CREATED..CREATED + TOD_SIZE] == UnixToTod(created) && e[MODIFIED..MODIFIED + TOD_SIZE] == UnixToTod(modified)
  {
    hide UnixToTod, Le16Bytes;
    var e0 := Splice(Zeros(ENTRY_SIZE), 0, Le16Bytes(mode));
    var e1 := Splice(e0, CREATED, UnixToTod(created));
    var e2 := Splice(e1, MODIFIED, UnixToTod(modified));
    SpliceFrame(e1, MODIFIED, UnixToTod(modified), CREATED, CREATED + TOD_SIZE);
    SpliceFrame(e2, NAME, name, CREATED, CREATED + TOD_SIZE);
    SpliceFrame(e2, NAME, name, MODIFIED, MODIFIED + TOD_SIZE);
    NamePart(e2, name);
  }

  lemma NamePart(e: Entry, name: seq<u8>)
    requires |name| <= NAME_LEN && forall i :: NAME <= i < NAME + NAME_LEN ==> e[i] == 0
    ensures Splice(e, NAME, name)[NAME..NAME + NAME_LEN] == NameField(name)
  {
    var r, f := Splice(e, NAME, name), NameField(name);
    forall i | 0 <= i < NAME_LEN ensures r[NAME..NAME + NAME_LEN][i] == f[i] {
      if i < |name| {
        assert r[NAME..NAME + |name|][i] == name[i];
      }
    }
  }

  lemma EntryDefault(name: seq<u8>, mode: nat, created: int, modified: int)
    requires |name| <= NAME_LEN
    ensures EntryFromMeta(None, name, mode, created, modified) == DefaultEntry(mode, name, created, modified)
  {
    hide DefaultEntry, NameField;
    DefaultParts(mode, name, created, modified);
    SpliceSame(DefaultEntry(mode, name, created, modified), NAME, NameField(name));
  }

  lemma EntryMeta(e: Entry, mode: nat, created: int, modified: int)
    ensures |EntryName(e)| <= NAME_LEN
    ensures EntryFromMeta(Some(e), EntryName(e), mode, created, modified) == Renamed(e)
  {
    hide DefaultEntry, NameField, EntryName;
    NameShort(e);
    assert e[..ENTRY_SIZE] == e;
    assert Splice(DefaultEntry(mode, EntryName(e), created, modified), 0, e) == e;
  }

  lemma EntryNamed(meta: Option<seq<u8>>, name: seq<u8>, mode: nat, created: int, modified: int)
    requires |name| <= NAME_LEN
    ensures EntryFromMeta(meta, name, mode, created, modified)[NAME..NAME + NAME_LEN] == NameField(name)
  {
    hide DefaultEntry, NameField;
  }

  /** An entry that the index gives back has its name padded, and dates that convert. */
  lemma RebuildsParts(e: Entry, mode: nat)
    requires Rebuilds(e, mode)
    ensures Padded(e) && TodAt(e, CREATED) == UnixToTod(CreatedOf(e)) && TodAt(e, MODIFIED) == UnixToTod(ModifiedOf(e))
  {
    hide DefaultEntry, NameField, EntryName, UnixToTod, CreatedOf, ModifiedOf, Placed, WithLe32;
    NameShort(e);
    DefaultParts(mode, EntryName(e), CreatedOf(e), ModifiedOf(e));
    BareKept(e, NAME, NAME + NAME_LEN);
    BareKept(e, CREATED, CREATED + TOD_SIZE);
    BareKept(e, MODIFIED, MODIFIED + TOD_SIZE);
  }

  lemma BareKept(e: Entry, lo: nat, hi: nat)
    requires Clear(lo, hi)
    ensures Bare(e)[lo..hi] == e[lo..hi]
  {
    hide Placed, WithLe32;
    ClearKept(e, 0, lo, hi);
    ClearKept(Placed(e), 0, lo, hi);
  }

  /** The dates the default entry would have are the entry's own. */
  predicate DatesAs(e: Entry, created: int, modified: int) {
    UnixToTod(created) == TodAt(e, CREATED) && UnixToTod(modified) == TodAt(e, MODIFIED)
  }

  lemma DefaultSame(mode: nat, name: seq<u8>, c: int, m: int, c': int, m': int)
    requires |name| <= NAME_LEN && UnixToTod(c) == UnixToTod(c') && UnixToTod(m) == UnixToTod(m')
    ensures DefaultEntry(mode, name, c, m) == DefaultEntry(mode, name, c', m')
  {
    hide UnixToTod, Splice;
  }

  lemma DefaultRestores(e: Entry, mode: nat, created: int, modified: int, v: nat)
    requires Rebuilds(e, mode)
    ensures |EntryName(e)| <= NAME_LEN
    ensures Placed(WithLe32(DefaultEntry(mode, EntryName(e), created, modified), LENGTH, v))
         == Placed(WithLe32(e, LENGTH, v))
       <==> DatesAs(e, created, modified)
  {
    hide DefaultEntry, EntryName, UnixToTod, CreatedOf, ModifiedOf, Placed, WithLe32, Bare;
    NameShort(e);
    RebuildsParts(e, mode);
    var d := DefaultEntry(mode, EntryName(e), created, modified);
    if DatesAs(e, created, modified) {
      DefaultSame(mode, EntryName(e), created, modified, CreatedOf(e), ModifiedOf(e));
      BareRestores(e, v);
    }
    DefaultParts(mode, EntryName(e), created, modified);
    FinalKept(d, v, CREATED, CREATED + TOD_SIZE);
    FinalKept(e, v, CREATED, CREATED + TOD_SIZE);
    FinalKept(d, v, MODIFIED, MODIFIED + TOD_SIZE);
    FinalKept(e, v, MODIFIED, MODIFIED + TOD_SIZE);
  }

  /* ---- What comes back, whatever the index reads as -------------------------------- */

  /** A save that comes apart into files with names of their own. */
  ghost predicate Separable(s: Save) {
    && AllUnpackable(s.files, |s.files|) && Distinct(s.files) && PlainName(EntryName(s.entry))
       && |s.files| + 2 < 0x1_0000_0000
    && forall k {:trigger s.files[k]} :: 0 <= k < |s.files| ==> |s.files[k].data| == Length(s.files[k].entry)
  }

  /** An entry comes back: its name is padded with zeros, and it has a meta file or the dates its row gives. */
  ghost predicate EntryBack(e: Entry, mode: nat, row: Option<Row>) {
    Padded(e) && (Rebuilds(e, mode) ==> DatesAs(e, RowCreated(row), RowModified(row)))
  }

  /** The first `n` files, where the rows place them. */
  function ItemsBy(s: Save, rows: seq<Row>, n: nat): (items: Items)
    requires n <= |s.files|
    ensures |items.list| == n && forall k {:trigger items.list[k]} :: 0 <= k < n ==>
      items.list[k].file == HostFile(s.files[k])
  {
    if n == 0 then Items([], 0)
    else
      var items, name := ItemsBy(s, rows, n - 1), EntryName(s.files[n - 1].entry);
      var placed := HasPlace(rows, name);
      Items(items.list + [Item(HostFile(s.files[n - 1]), if placed then PlaceIn(rows, name) else -1 - items.unlisted)],
            items.unlisted + if placed then 0 else 1)
  }

  ghost predicate FileBack(s: Save, rows: seq<Row>, k: nat) {
    k < |s.files| && EntryBack(s.files[k].entry, FILE_MODE, RowFor(rows, EntryName(s.files[k].entry)))
  }

  /** Every entry comes back, and the rows place the files in their order. */
  ghost predicate ReadsBack(s: Save, rows: seq<Row>) {
    && EntryBack(s.entry, DIR_MODE, RootOf(rows)) && Ascends(ItemsBy(s, rows, |s.files|).list)
    && forall k: nat {:trigger FileBack(s, rows, k)} :: k < |s.files| ==> FileBack(s, rows, k)
  }

  /** The same files in the same order, with the same entries but for where they lie, and the folder's own entry,
      which counts them. */
  ghost predicate Restored(s: Save, t: Save) {
    && |t.files| == |s.files|
    && (forall k: nat {:trigger SameFile(s, t, k)} :: k < |s.files| ==> SameFile(s, t, k))
    && Placed(t.entry) == Placed(WithLe32(s.entry, LENGTH, |s.files| + 2))
  }

  ghost predicate SameFile(s: Save, t: Save, k: nat) {
    k < |s.files| && k < |t.files| && t.files[k] == File(Placed(s.files[k].entry), s.files[k].data)
  }

  lemma EntryBackIff(e: Entry, mode: nat, row: Option<Row>, v: nat)
    ensures |EntryName(e)| <= NAME_LEN
    ensures var meta := if Rebuilds(e, mode) then None else Some(e);
            Placed(WithLe32(EntryFromMeta(meta, EntryName(e), mode, RowCreated(row), RowModified(row)), LENGTH, v))
              == Placed(WithLe32(e, LENGTH, v))
            <==> EntryBack(e, mode, row)
  {
    hide Rebuilds, Placed, WithLe32, EntryName, EntryFromMeta, RowCreated, RowModified, Padded, DatesAs, DefaultEntry;
    var c, m := RowCreated(row), RowModified(row);
    NameShort(e);
    if Rebuilds(e, mode) {
      EntryDefault(EntryName(e), mode, c, m);
      DefaultRestores(e, mode, c, m, v);
      RebuildsParts(e, mode);
    } else {
      EntryMeta(e, mode, c, m);
      MetaRestores(e, v);
    }
  }

  lemma PackedFileBack(s: Save, rows: seq<Row>, k: nat)
    requires Separable(s) && k < |s.files|
    ensures Fits(Item(HostFile(s.files[k]), 0))
    ensures var f := PackedFile(Unpacked(s), rows, HostFile(s.files[k]));
      && f.data == s.files[k].data && (f.entry == Placed(s.files[k].entry) <==> FileBack(s, rows, k))
  {
    hide Rebuilds, Unpacked, Placed, WithLe32, EntryName, Lookup, RowFor, EntryFromMeta, MetaPath, EntryBack,
      RowCreated, RowModified;
    var e := s.files[k].entry;
    NameShort(e);
    LengthSame(e);
    MetaFound(s, k);
    EntryBackIff(e, FILE_MODE, RowFor(rows, EntryName(e)), Length(e));
  }

  lemma DirMet(files: seq<FolderFile>, rows: seq<Row>, folder: seq<u8>, count: nat)
    requires |folder| <= NAME_LEN && count + 2 < 0x1_0000_0000
    ensures PackedDir(files, rows, folder, count)
         == WithLe32(EntryFromMeta(Lookup(files, META_DIR), folder, DIR_MODE, RowCreated(RootOf(rows)),
             RowModified(RootOf(rows))), LENGTH, count + 2)
  {
    hide WithLe32, Lookup, RootOf, EntryFromMeta, RowCreated, RowModified;
  }

  lemma PackedDirBack(s: Save, rows: seq<Row>, count: nat)
    requires Separable(s) && count + 2 < 0x1_0000_0000
    ensures |EntryName(s.entry)| <= NAME_LEN
    ensures Placed(PackedDir(Unpacked(s), rows, EntryName(s.entry), count))
         == Placed(WithLe32(s.entry, LENGTH, count + 2))
       <==> EntryBack(s.entry, DIR_MODE, RootOf(rows))
  {
    hide Rebuilds, Unpacked, Placed, WithLe32, EntryName, RootOf, EntryFromMeta, EntryBack, RowCreated, RowModified,
      PackedDir, Lookup;
    NameShort(s.entry);
    IndexFound(s);
    DirMet(Unpacked(s), rows, EntryName(s.entry), count);
    EntryBackIff(s.entry, DIR_MODE, RootOf(rows), count + 2);
  }

  /* ---- The files in order ---------------------------------------------------------- */

  lemma GatheredBy(s: Save, rows: seq<Row>, n: nat)
    requires AllUnpackable(s.files, |s.files|) && n < |s.files|
    ensures Gathered(ItemsBy(s, rows, n), HostFile(s.files[n]), RowFor(rows, EntryName(s.files[n].entry)))
      == Some(ItemsBy(s, rows, n + 1))
  {
    hide EntryName, PlainName, Reserved, RowFor;
    assert Unpackable(s.files[n]);
    NameShort(s.files[n].entry);
  }

  lemma {:induction false} GatherBy(s: Save, rows: seq<Row>, n: nat)
    requires AllUnpackable(s.files, |s.files|) && n <= |s.files|
    ensures Gather(PartsTo(s.files, n), rows, Items([], 0)) == Some(ItemsBy(s, rows, n))
  {
    hide Gather, FileParts, RowFor, EntryName, HostFile, Gathered, Unpackable, ItemsBy;
    if n == 0 {
      NoGather(rows, Items([], 0));
      NoItems(s, rows);
    } else {
      GatherBy(s, rows, n - 1);
      GatherJoin(PartsTo(s.files, n - 1), FileParts(s.files[n - 1]), rows, Items([], 0));
      assert Unpackable(s.files[n - 1]);
      GatherFile(s.files[n - 1], rows, ItemsBy(s, rows, n - 1));
      GatheredBy(s, rows, n - 1);
    }
  }

  lemma NoItems(s: Save, rows: seq<Row>)
    ensures ItemsBy(s, rows, 0) == Items([], 0)
  {
  }

  /** The parts beside the files are all passed over. */
  lemma GatherAll(s: Save, rows: seq<Row>)
    requires AllUnpackable(s.files, |s.files|)
    ensures Gather(Unpacked(s), rows, Items([], 0)) == Some(ItemsBy(s, rows, |s.files|))
  {
    hide Gather, PartsTo, RowFor, IndexText, Rebuilds, ItemsBy;
    var n := |s.files|;
    var items := ItemsBy(s, rows, n);
    var index := FolderFile(INDEX, IndexText(s));
    PathsApart([], []);
    GatherBy(s, rows, n);
    GatherJoin(PartsTo(s.files, n), DirParts(s), rows, Items([], 0));
    GatherJoin(PartsTo(s.files, n) + DirParts(s), [index], rows, Items([], 0));
    GatherOne(index, rows, items);
    NoGather(rows, items);
    GatherOne(FolderFile(META_DIR, s.entry), rows, items);
  }

  lemma OrderedFits(s: Save, items: seq<Item>)
    requires Separable(s) && |items| == |s.files| && forall k {:trigger items[k]} :: 0 <= k < |items| ==>
      items[k].file == HostFile(s.files[k])
    ensures AllFit(Ordered(items))
  {
    hide Ordered, Fits, Separable, HostFile;
    OrderedHas(items);
    Same(Ordered(items), items);
    forall i | 0 <= i < |Ordered(items)| ensures Fits(Ordered(items)[i]) {
      assert Ordered(items)[i] in Ordered(items);
      var k :| 0 <= k < |items| && items[k] == Ordered(items)[i];
      HostFits(s, k, items[k]);
    }
  }

  lemma HostFits(s: Save, k: nat, x: Item)
    requires Separable(s) && k < |s.files| && x.file == HostFile(s.files[k])
    ensures Fits(x)
  {
    hide EntryName;
    NameShort(s.files[k].entry);
  }

  function PackedOf(s: Save): Option<Save> {
    PackOf(EntryName(s.entry), Unpacked(s))
  }

  /** The rows the reader makes of the save's own index. */
  function OwnRows(s: Save): Option<seq<Row>> {
    ParseIndex(IndexText(s))
  }

  lemma Packs(s: Save, rows: seq<Row>)
    requires Separable(s) && OwnRows(s) == Some(rows)
    ensures |EntryName(s.entry)| <= NAME_LEN && AllFit(Ordered(ItemsBy(s, rows, |s.files|).list))
    ensures PackedOf(s) == PackItems(EntryName(s.entry), Unpacked(s), rows, Ordered(ItemsBy(s, rows, |s.files|).list))
      && PackedOf(s).Some?
  {
    hide Gather, Ordered, Unpacked, EntryName, PackedDir, PackedFiles, DotEntry, ParseIndex, IndexText, Lookup;
    NameShort(s.entry);
    IndexFound(s);
    GatherAll(s, rows);
    OrderedFits(s, ItemsBy(s, rows, |s.files|).list);
  }

  lemma {:induction false} CStringPadded(name: seq<u8>, n: nat)
    requires 0 !in name
    ensures CString(name + Zeros(n)) == name
  {
    var s := name + Zeros(n);
    if name != [] {
      assert s[0] == name[0] && name[0] in name && s[1..] == name[1..] + Zeros(n);
      CStringPadded(name[1..], n);
      assert name == [name[0]] + name[1..];
    }
  }

  lemma PackedNamed(files: seq<FolderFile>, rows: seq<Row>, f: FolderFile)
    requires |f.path| <= NAME_LEN && |f.data| < 0x1_0000_0000 && 0 !in f.path
    ensures EntryName(PackedFile(files, rows, f).entry) == f.path
  {
    hide EntryFromMeta, Placed, WithLe32, Lookup, RowFor;
    var row := RowFor(rows, f.path);
    EntryNamed(Lookup(files, MetaPath(f.path)), f.path, FILE_MODE, RowCreated(row), RowModified(row));
    FinalKept(EntryFromMeta(Lookup(files, MetaPath(f.path)), f.path, FILE_MODE, RowCreated(row), RowModified(row)),
              |f.data|, NAME, NAME + NAME_LEN);
    CStringPadded(f.path, NAME_LEN - |f.path|);
  }

  lemma PlacedNamed(e: Entry)
    ensures EntryName(Placed(e)) == EntryName(e)
  {
    hide Placed, CString;
    ClearKept(e, 0, NAME, NAME + NAME_LEN);
  }

  lemma NameClean(e: Entry)
    ensures |EntryName(e)| <= NAME_LEN && 0 !in EntryName(e)
  {
  }

  lemma PathsDistinct(s: Save, items: seq<Item>, i: nat, j: nat)
    requires Separable(s) && |items| == |s.files|
      && (forall k {:trigger items[k]} :: 0 <= k < |items| ==> items[k].file == HostFile(s.files[k]))
    requires i < |items| && j < |items| && items[i].file.path == items[j].file.path
    ensures i == j
  {
    hide EntryName;
    assert items[i].file.path == EntryName(s.files[i].entry) && items[j].file.path == EntryName(s.files[j].entry);
  }

  /** Out of order, some file stands where another one was. */
  lemma OutOfOrder(s: Save, items: seq<Item>) returns (k: nat)
    requires Separable(s) && |items| == |s.files| && forall k {:trigger items[k]} :: 0 <= k < |items| ==>
      items[k].file == HostFile(s.files[k])
    requires !Ascends(items)
    ensures k < |items| && Ordered(items)[k] in items && Ordered(items)[k].file.path != items[k].file.path
  {
    hide Ordered, Separable, HostFile;
    OrderedAscends(items);
    assert Ordered(items) != items;
    k :| 0 <= k < |items| && Ordered(items)[k] != items[k];
    OrderedHas(items);
    Same(Ordered(items), items);
    assert Ordered(items)[k] in Ordered(items);
    var j: nat :| j < |items| && items[j] == Ordered(items)[k];
    if items[j].file.path == items[k].file.path {
      PathsDistinct(s, items, j, k);
    }
  }

  lemma NotThere(s: Save, rows: seq<Row>, t: Save, k: nat)
    requires Separable(s) && OwnRows(s) == Some(rows) && PackedOf(s) == Some(t) && k < |s.files|
    requires var items := ItemsBy(s, rows, |s.files|).list;
             Ordered(items)[k] in items && Ordered(items)[k].file.path != items[k].file.path
    ensures !SameFile(s, t, k)
  {
    hide Unpacked, EntryName, PackedDir, PackedFile, DotEntry, Ordered, Placed, PackedOf, OwnRows, Separable, ItemsBy,
      AllFit, Fits;
    Packs(s, rows);
    var items := ItemsBy(s, rows, |s.files|).list;
    var f := Ordered(items)[k].file;
    var j: nat :| j < |items| && items[j] == Ordered(items)[k];
    HostNamed(s, j);
    HostNamed(s, k);
    PackedNamed(Unpacked(s), rows, f);
    PlacedNamed(s.files[k].entry);
  }

  lemma HostNamed(s: Save, k: nat)
    requires Separable(s) && k < |s.files|
    ensures var f := HostFile(s.files[k]);
      f.path == EntryName(s.files[k].entry) && |f.path| <= NAME_LEN && 0 !in f.path && |f.data| < 0x1_0000_0000
  {
    NameClean(s.files[k].entry);
  }

  /** Any save taken apart: when its own index reads, it packs again, and comes back exactly when the rows read give
      every entry back and place the files in their order; when the index does not read, it is refused. */
  lemma PackIff(s: Save)
    requires Separable(s)
    ensures OwnRows(s).None? <==> PackedOf(s).None?
    ensures OwnRows(s).Some? ==> (Restored(s, PackedOf(s).value) <==> ReadsBack(s, OwnRows(s).value))
  {
    hide Unpacked, EntryName, PackedDir, PackedFile, DotEntry, Ordered, Placed, PackedOf, OwnRows, Separable, ItemsBy,
      AllFit, Fits, EntryBack, Ascends;
    if OwnRows(s).None? {
      Refused(s);
    } else {
      var rows := OwnRows(s).value;
      Packs(s, rows);
      var t, items := PackedOf(s).value, ItemsBy(s, rows, |s.files|).list;
      if Ascends(items) {
        InOrder(s, rows, t);
      } else {
        var k := OutOfOrder(s, items);
        NotThere(s, rows, t, k);
      }
    }
  }

  lemma Refused(s: Save)
    requires Separable(s) && OwnRows(s).None?
    ensures PackedOf(s).None?
  {
    hide Unpacked, EntryName, ParseIndex, IndexText, Lookup, Gather;
    IndexFound(s);
  }

  lemma AscendsOrdered(items: seq<Item>)
    requires Ascends(items)
    ensures Ordered(items) == items
  {
    OrderedAlready(items);
  }

  lemma InOrder(s: Save, rows: seq<Row>, t: Save)
    requires Separable(s) && OwnRows(s) == Some(rows) && PackedOf(s) == Some(t)
      && Ascends(ItemsBy(s, rows, |s.files|).list)
    ensures Restored(s, t) <==> ReadsBack(s, rows)
  {
    hide Unpacked, EntryName, PackedDir, PackedFile, DotEntry, Ordered, Placed, PackedOf, OwnRows, ItemsBy, AllFit,
      Fits, EntryBack, Ascends, Separable, FileBack;
    Packs(s, rows);
    var items := ItemsBy(s, rows, |s.files|).list;
    AscendsOrdered(items);
    forall k: nat | k < |s.files| ensures SameFile(s, t, k) <==> FileBack(s, rows, k) {
      PackedFileBack(s, rows, k);
      assert items[k].file == HostFile(s.files[k]);
    }
    CountFits(s);
    PackedDirBack(s, rows, |s.files|);
  }

  lemma CountFits(s: Save)
    requires Separable(s)
    ensures |s.files| + 2 < 0x1_0000_0000
  {
  }

  /* ---- The index of a folder reads back -------------------------------------------- */

  lemma EraBound(y: int)
    requires -1 <= y < 0x1_0000
    ensures -1 <= y / 400 <= 163 && 0 <= y % 400 < 400
  {
  }

  /** Whatever its bytes, a card date's count of seconds prints in the room a value has. */
  lemma TodPrintable(t: Tod)
    ensures Printable(TodToUnix(t))
  {
    hide DaysFromCivil, Seconds;
    var year, month, day := Le16(t, 6), if t[5] == 0 then 1 else t[5], if t[4] == 0 then 1 else t[4];
    DaysBound(Date(year, month, day));
    SecondsBound(t);
  }

  lemma SecondsBound(t: Tod)
    ensures 0 <= Seconds(t) < 1_000_000
  {
  }

  lemma DaysBound(t: Date)
    requires 0 <= t.year < 0x1_0000 && 1 <= t.month < 256 && 1 <= t.day < 256
    ensures -1_000_000 <= DaysFromCivil(t) <= 100_000_000
  {
    var y := if t.month <= 2 then t.year - 1 else t.year;
    EraBound(y);
    DaysOfParts(t, y / 400, y % 400, MonthStart(FromMarch(t.month)) + t.day - 1);
    YearStartBound(y % 400);
    MonthStartBound(FromMarch(t.month));
  }

  lemma YearStartBound(yoe: int)
    requires 0 <= yoe < 400
    ensures 0 <= YearStart(yoe) < 200_000
  {
  }

  lemma MonthStartBound(mp: int)
    requires 0 <= mp < 300
    ensures 0 <= MonthStart(mp) < 10_000
  {
  }

  lemma RowsGood(s: Save)
    requires Foldable(s)
    ensures AllGood(RowsTo(s.files, |s.files|))
  {
    hide EntryName, TodToUnix;
    var rs := RowsTo(s.files, |s.files|);
    forall i | 0 <= i < |rs| ensures Good(rs[i]) {
      NameClean(s.files[i].entry);
      TodPrintable(TodAt(s.files[i].entry, CREATED));
      TodPrintable(TodAt(s.files[i].entry, MODIFIED));
    }
  }

  lemma RowsParsed(s: Save)
    requires Foldable(s)
    ensures OwnRows(s) == Some(RowsOf(s))
  {
    hide ParseIndex, Printed, TodToUnix, Printable, AllGood, RootRow;
    RowsGood(s);
    TodPrintable(TodAt(s.entry, CREATED));
    TodPrintable(TodAt(s.entry, MODIFIED));
    IndexReads(CreatedOf(s.entry), ModifiedOf(s.entry), RowsTo(s.files, |s.files|));
  }

  /* ---- Names without a line's end -------------------------------------------------- */

  /** A save that comes apart into files with names of their own, none with a line's end in it. */
  ghost predicate Foldable(s: Save) {
    Separable(s) && forall k {:trigger s.files[k]} :: 0 <= k < |s.files| ==> NEWLINE !in EntryName(s.files[k].entry)
  }

  /** File `k` comes back: its name is padded with zeros, and if it is the root's key, it has the root's dates or a
      meta file. */
  ghost predicate FileKept(s: Save, k: nat) {
    && k < |s.files| && Padded(s.files[k].entry)
    && (Named(s, k) && Rebuilds(s.files[k].entry, FILE_MODE) ==>
        DatesAs(s.files[k].entry, CreatedOf(s.entry), ModifiedOf(s.entry)))
  }

  ghost predicate ComesBack(s: Save) {
    && Padded(s.entry)
    && (forall k: nat {:trigger FileKept(s, k)} :: k < |s.files| ==> FileKept(s, k))
    && (forall k: nat {:trigger Named(s, k)} :: Named(s, k) ==> k == 0)
  }

  lemma OwnDates(e: Entry, mode: nat)
    requires Rebuilds(e, mode)
    ensures DatesAs(e, CreatedOf(e), ModifiedOf(e))
  {
    hide Rebuilds, UnixToTod;
    RebuildsParts(e, mode);
  }

  lemma FileKeptIff(s: Save, k: nat)
    requires Foldable(s) && k < |s.files|
    ensures FileBack(s, RowsOf(s), k) <==> FileKept(s, k)
  {
    hide Rebuilds, EntryName, RowFor, CreatedOf, ModifiedOf, Padded, DatesAs, RowsOf;
    var e := s.files[k].entry;
    RowFound(s, k);
    RootDatesNamed(s);
    if Rebuilds(e, FILE_MODE) {
      OwnDates(e, FILE_MODE);
    }
  }

  lemma DirKeptIff(s: Save)
    requires Foldable(s)
    ensures EntryBack(s.entry, DIR_MODE, RootOf(RowsOf(s))) <==> Padded(s.entry)
  {
    hide Rebuilds, EntryName, RootOf, CreatedOf, ModifiedOf, Padded, DatesAs, RowsOf, Foldable;
    RootFound(s);
    RootDatesNamed(s);
    if Rebuilds(s.entry, DIR_MODE) {
      OwnDates(s.entry, DIR_MODE);
    }
  }

  /** Where the index places each file: the root's key is placed by no order of its own. */
  lemma {:induction false} ItemsMetBy(s: Save, n: nat)
    requires AllUnpackable(s.files, |s.files|) && Distinct(s.files) && n <= |s.files|
    ensures ItemsBy(s, RowsOf(s), n) == Items(ItemsMet(s, n), if NamedBefore(s, n) then 1 else 0)
  {
    hide EntryName, RowFor, RowsOf, HostFile, RootDates;
    if n == 0 {
      assert ItemsMet(s, 0) == [];
    } else {
      var k := n - 1;
      ItemsMetBy(s, k);
      RowFound(s, k);
      RootDatesNamed(s);
      NamedOnce(s, k);
      assert ItemsMet(s, n) == ItemsMet(s, k) + [ItemMet(s, k)];
      assert NamedBefore(s, n) <==> NamedBefore(s, k) || Named(s, k) by {
        assert Named(s, k) ==> NamedBefore(s, n);
      }
    }
  }

  /** The files are in order unless the root's key names a later one. */
  lemma OrderMetIff(s: Save)
    requires Foldable(s)
    ensures Ascends(ItemsMet(s, |s.files|)) <==> forall k: nat {:trigger Named(s, k)} :: Named(s, k) ==> k == 0
  {
    hide EntryName, HostFile;
    var items := ItemsMet(s, |s.files|);
    forall i, j | 0 <= i < j < |items| ensures items[i].order <= items[j].order <==> !Named(s, j) {
      assert items[i] == ItemMet(s, i) && items[j] == ItemMet(s, j);
      assert EntryName(s.files[i].entry) != EntryName(s.files[j].entry);
    }
    if k: nat :| Named(s, k) && k > 0 {
      assert items[k].order < items[0].order;
    }
  }

  /** A save whose names hold no line's end goes back together exactly when its names are padded with zeros and the
      root's key, if it names a file, names the first, with the root's dates or a meta file. */
  lemma PackUndoesUnpack(s: Save)
    requires Foldable(s)
    ensures PackedOf(s).Some? && (Restored(s, PackedOf(s).value) <==> ComesBack(s))
  {
    hide Restored, PackedOf, FileBack, FileKept, Padded, RowsOf, ItemsBy, ItemsMet, EntryBack, EntryName, Ascends,
      OwnRows, RootOf, AllUnpackable, Distinct;
    RowsParsed(s);
    PackIff(s);
    ItemsMetBy(s, |s.files|);
    OrderMetIff(s);
    DirKeptIff(s);
    forall k: nat | k < |s.files| ensures FileBack(s, RowsOf(s), k) <==> FileKept(s, k) {
      FileKeptIff(s, k);
    }
  }
}
