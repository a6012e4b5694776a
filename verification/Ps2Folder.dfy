/** A save folder as the files a PCSX2 folder card keeps: taking a save apart into them, putting it
    back together, and when that gives the save back. */
module Ps2Folder {
  import opened Bytes
  import opened Status
  import opened Text
  import opened Calendar
  import opened Ps2Fat
  import opened Ps2Save
  import opened Ps2Build
  import opened Ps2Index

  datatype FolderFile = FolderFile(path: seq<u8>, data: seq<u8>)

  const PREFIX: seq<u8> := [0x5F, 0x70, 0x63, 0x73, 0x78, 0x32, 0x5F]   // _pcsx2_
  const INDEX: seq<u8> := PREFIX + [0x69, 0x6E, 0x64, 0x65, 0x78]   // _pcsx2_index
  const META: seq<u8> := PREFIX + [0x6D, 0x65, 0x74, 0x61]   // _pcsx2_meta
  const META_PREFIX: seq<u8> := META + [0x2F]   // _pcsx2_meta/
  /** _pcsx2_meta_directory */
  const META_DIR: seq<u8> := META + [0x5F, 0x64, 0x69, 0x72, 0x65, 0x63, 0x74, 0x6F, 0x72, 0x79]

  const SLASH: u8 := 0x2F
  const DOT: u8 := 0x2E
  const DIR_MODE := 0x8427
  const FILE_MODE := 0x8497

  /* ---- Names ---------------------------------------------------------------------------------------------- */

  /** One path segment on any host. */
  predicate PlainName(name: seq<u8>) {
    name != [] && name != [DOT] && name != [DOT, DOT] && SLASH !in name && BACKSLASH !in name
  }

  predicate Reserved(path: seq<u8>) {
    PREFIX <= path
  }

  function EntryName(e: Entry): (name: seq<u8>)
    ensures |name| <= NAME_LEN
  {
    CString(Ps2Save.Name(e))
  }

  /** The name as an entry's field, zeros after it. */
  function NameField(name: seq<u8>): (f: seq<u8>)
    requires |name| <= NAME_LEN
    ensures |f| == NAME_LEN
  {
    name + Zeros(NAME_LEN - |name|)
  }

  predicate Padded(e: Entry) {
    Ps2Save.Name(e) == NameField(EntryName(e))
  }

  /* ---- Entries -------------------------------------------------------------------------------------------- */

  function TodAt(e: Entry, at: nat): (t: Tod)
    requires at + TOD_SIZE <= ENTRY_SIZE
  {
    e[at..at + TOD_SIZE]
  }

  function CreatedOf(e: Entry): int {
    TodToUnix(TodAt(e, CREATED))
  }

  function ModifiedOf(e: Entry): int {
    TodToUnix(TodAt(e, MODIFIED))
  }

  /** The entry the emulator builds for a file it has nothing else of. */
  function DefaultEntry(mode: nat, name: seq<u8>, created: int, modified: int): (e: Entry)
    requires |name| <= NAME_LEN
  {
    var e1 := Splice(Splice(Zeros(ENTRY_SIZE), 0, Le16Bytes(mode)), CREATED, UnixToTod(created));
    Splice(Splice(e1, MODIFIED, UnixToTod(modified)), NAME, name)
  }

  /** The entry without the fields the emulator fills in: length, cluster and parent index. */
  function Bare(e: Entry): Entry {
    WithLe32(Placed(e), LENGTH, 0)
  }

  /** The entry without the fields that say where it lies. */
  function Placed(e: Entry): Entry {
    WithLe32(WithLe32(e, CLUSTER, 0), PARENT_INDEX, 0)
  }

  predicate Rebuilds(e: Entry, mode: nat) {
    DefaultEntry(mode, EntryName(e), CreatedOf(e), ModifiedOf(e)) == Bare(e)
  }

  /** The default entry with the bytes of a meta file over it, under the host's name. */
  function EntryFromMeta(meta: Option<seq<u8>>, name: seq<u8>, mode: nat, created: int, modified: int): Entry
    requires |name| <= NAME_LEN
  {
    var e := DefaultEntry(mode, name, created, modified);
    var over := if meta.None? then e
                else Splice(e, 0, if |meta.value| < ENTRY_SIZE then meta.value else meta.value[..ENTRY_SIZE]);
    Splice(over, NAME, NameField(name))
  }

  /* ---- Taking a save apart ---------------------------------------------------------------------------------- */

  predicate Unpackable(f: File) {
    PlainName(EntryName(f.entry)) && !Reserved(EntryName(f.entry))
  }

  function MetaPath(name: seq<u8>): seq<u8> {
    META_PREFIX + name
  }

  /** A file, and its whole entry beside it when the index does not give it back. */
  function FileParts(f: File): seq<FolderFile> {
    [FolderFile(EntryName(f.entry), f.data)]
    + if Rebuilds(f.entry, FILE_MODE) then [] else [FolderFile(MetaPath(EntryName(f.entry)), f.entry)]
  }

  function PartsTo(files: seq<File>, n: nat): seq<FolderFile>
    requires n <= |files|
  {
    if n == 0 then [] else PartsTo(files, n - 1) + FileParts(files[n - 1])
  }

  function RowOf(f: File, i: nat): (r: Row)
    ensures Full(r)
  {
    Row(EntryName(f.entry), Some(i + 1), Some(CreatedOf(f.entry)), Some(ModifiedOf(f.entry)))
  }

  function RowsTo(files: seq<File>, n: nat): (rs: seq<Row>)
    requires n <= |files|
    ensures |rs| == n && forall i {:trigger rs[i]} :: 0 <= i < n ==> rs[i] == RowOf(files[i], i)
    ensures AllFull(rs)
  {
    seq(n, i requires 0 <= i < n => RowOf(files[i], i))
  }

  function DirParts(s: Save): seq<FolderFile> {
    if Rebuilds(s.entry, DIR_MODE) then [] else [FolderFile(META_DIR, s.entry)]
  }

  function IndexText(s: Save): seq<u8> {
    Printed(CreatedOf(s.entry), ModifiedOf(s.entry), RowsTo(s.files, |s.files|))
  }

  function Unpacked(s: Save): seq<FolderFile> {
    PartsTo(s.files, |s.files|) + DirParts(s) + [FolderFile(INDEX, IndexText(s))]
  }

  predicate AllUnpackable(files: seq<File>, n: nat)
    requires n <= |files|
  {
    forall i {:trigger files[i]} :: 0 <= i < n ==> Unpackable(files[i])
  }

  /* ---- Putting it back together ------------------------------------------------------------------------------- */

  /** The first file of that path. */
  function Lookup(files: seq<FolderFile>, path: seq<u8>): Option<seq<u8>> {
    if files == [] then None else if files[0].path == path then Some(files[0].data) else Lookup(files[1..], path)
  }

  datatype Item = Item(file: FolderFile, order: int)

  datatype Items = Items(list: seq<Item>, unlisted: nat)

  /** One more file of the folder: passed over when its name is reserved, refused when it is not plain, else
      placed where the index puts it, or, when it does not, before all others, the later the earlier. */
  function Gathered(items: Items, f: FolderFile, row: Option<Row>): Option<Items> {
    if Reserved(f.path) then Some(items)
    else if !PlainName(f.path) || |f.path| > NAME_LEN then None
    else if row.Some? && row.value.order.Some?
      then Some(Items(items.list + [Item(f, row.value.order.value)], items.unlisted))
    else Some(Items(items.list + [Item(f, -1 - items.unlisted)], items.unlisted + 1))
  }

  function Gather(files: seq<FolderFile>, rows: seq<Row>, items: Items): Option<Items> {
    if files == [] then Some(items)
    else match Gathered(items, files[0], RowFor(rows, files[0].path))
         case None => None
         case Some(next) => Gather(files[1..], rows, next)
  }

  /** `x` after every item that does not come later. */
  function Inserted(items: seq<Item>, x: Item): (r: seq<Item>)
    ensures |r| == |items| + 1
  {
    if items != [] && x.order < items[|items| - 1].order then Inserted(items[..|items| - 1], x) + [items[|items| - 1]]
    else items + [x]
  }

  /** The items in order; those of one order as they came. */
  function Ordered(items: seq<Item>): (r: seq<Item>)
    ensures |r| == |items|
  {
    if items == [] then [] else Inserted(Ordered(items[..|items| - 1]), items[|items| - 1])
  }

  function Or(v: Option<int>): int {
    if v.Some? then v.value else 0
  }

  function RowCreated(row: Option<Row>): int {
    if row.Some? then Or(row.value.created) else 0
  }

  function RowModified(row: Option<Row>): int {
    if row.Some? then Or(row.value.modified) else 0
  }

  function PackedFile(files: seq<FolderFile>, rows: seq<Row>, f: FolderFile): File
    requires |f.path| <= NAME_LEN && |f.data| < 0x1_0000_0000
  {
    var row := RowFor(rows, f.path);
    var e := EntryFromMeta(Lookup(files, MetaPath(f.path)), f.path, FILE_MODE, RowCreated(row), RowModified(row));
    File(Placed(WithLe32(e, LENGTH, |f.data|)), f.data)
  }

  function RootOf(rows: seq<Row>): Option<Row> {
    if RowFor(rows, ROOT_KEY).Some? then RowFor(rows, ROOT_KEY) else RowFor(rows, OTHER_ROOT_KEY)
  }

  function PackedDir(files: seq<FolderFile>, rows: seq<Row>, folder: seq<u8>, count: nat): Entry
    requires |folder| <= NAME_LEN
  {
    var e := EntryFromMeta(Lookup(files, META_DIR), folder, DIR_MODE, RowCreated(RootOf(rows)),
        RowModified(RootOf(rows)));
    WithLe32(e, LENGTH, (count + 2) % 0x1_0000_0000)
  }

  /** The entry of the folder itself or of its parent: no dates. */
  function DotEntry(name: seq<u8>): Entry
    requires |name| <= NAME_LEN
  {
    Splice(Splice(DefaultEntry(DIR_MODE, name, 0, 0), CREATED, Zeros(TOD_SIZE)), MODIFIED, Zeros(TOD_SIZE))
  }

  predicate Fits(item: Item) {
    |item.file.path| <= NAME_LEN && |item.file.data| < 0x1_0000_0000
  }

  predicate AllFit(items: seq<Item>) {
    forall i {:trigger items[i]} :: 0 <= i < |items| ==> Fits(items[i])
  }

  function PackedFiles(files: seq<FolderFile>, rows: seq<Row>, items: seq<Item>, n: nat): (fs: seq<File>)
    requires AllFit(items) && n <= |items|
    ensures |fs| == n && forall i {:trigger fs[i]} :: 0 <= i < n ==> fs[i] == PackedFile(files, rows, items[i].file)
  {
    seq(n, i requires 0 <= i < n => PackedFile(files, rows, items[i].file))
  }

  function IndexRows(files: seq<FolderFile>): Option<seq<Row>> {
    match Lookup(files, INDEX)
    case None => Some([])
    case Some(data) => ParseIndex(data)
  }

  function PackItems(folder: seq<u8>, files: seq<FolderFile>, rows: seq<Row>, items: seq<Item>): Option<Save>
    requires |folder| <= NAME_LEN
  {
    if !AllFit(items) then None
    else Some(Save(PackedDir(files, rows, folder, |items|), DotEntry([DOT]), DotEntry([DOT, DOT]),
        PackedFiles(files, rows, items, |items|)))
  }

  /** The save a folder's files make, or nothing. */
  function PackOf(folder: seq<u8>, files: seq<FolderFile>): Option<Save> {
    if !PlainName(folder) || |folder| > NAME_LEN then None
    else match IndexRows(files)
         case None => None
         case Some(rows) =>
           match Gather(files, rows, Items([], 0))
           case None => None
           case Some(items) => PackItems(folder, files, rows, Ordered(items.list))
  }

  lemma {:induction false} InsertedHas(items: seq<Item>, x: Item)
    ensures multiset(Inserted(items, x)) == multiset(items) + multiset{x}
    decreases |items|
  {
    if items != [] {
      assert items == items[..|items| - 1] + [items[|items| - 1]];
      if x.order < items[|items| - 1].order {
        InsertedHas(items[..|items| - 1], x);
      }
    }
  }

  /** Nothing is lost or added by ordering. */
  lemma {:induction false} OrderedHas(items: seq<Item>)
    ensures multiset(Ordered(items)) == multiset(items)
    decreases |items|
  {
    if items != [] {
      OrderedHas(items[..|items| - 1]);
      InsertedHas(Ordered(items[..|items| - 1]), items[|items| - 1]);
      assert items == items[..|items| - 1] + [items[|items| - 1]];
    }
  }

  /* ---- The operations -------------------------------------------------------------- */

  lemma PartsNext(files: seq<File>, i: nat)
    requires i < |files|
    ensures PartsTo(files, i + 1) == PartsTo(files, i) + FileParts(files[i])
    ensures PrintRows(RowsTo(files, i + 1)) == PrintRows(RowsTo(files, i)) + PrintRow(RowOf(files[i], i))
  {
    hide FileParts, PrintRow, RowOf;
    assert RowsTo(files, i + 1)[..i] == RowsTo(files, i);
  }

  lemma NoParts(files: seq<File>)
    ensures PartsTo(files, 0) == [] && PrintRows(RowsTo(files, 0)) == []
  {
  }

  lemma Onto<T>(a: seq<T>, b: seq<T>, c: seq<T>, d: seq<T>)
    ensures a + b + c + d == a + (b + c + d)
  {
  }

  /** Takes a save apart into the files of a folder, unless a name cannot be one. */
  method Unpack(s: Save) returns (files: Option<seq<FolderFile>>)
    requires forall k {:trigger s.files[k]} :: 0 <= k < |s.files| ==> |s.files[k].data| == Length(s.files[k].entry)
    ensures files == if AllUnpackable(s.files, |s.files|) then Some(Unpacked(s)) else None
  {
    hide EntryName, Rebuilds, KeyLine, FieldLine, Times, QuotedKey, PrintRows, PartsTo, CreatedOf, ModifiedOf, MetaPath,
      PlainName, Reserved;
    var out := [];
    var index := KeyLine(ROOT_KEY) + Times(CreatedOf(s.entry), ModifiedOf(s.entry));
    ghost var head := index;
    NoParts(s.files);
    for i := 0 to |s.files|
      invariant AllUnpackable(s.files, i) && out == PartsTo(s.files, i)
      invariant index == head + PrintRows(RowsTo(s.files, i))
    {
      var f := s.files[i];
      var name := EntryName(f.entry);
      if !PlainName(name) || Reserved(name) {
        assert !Unpackable(f);
        return None;
      }
      PartsNext(s.files, i);
      ghost var was, printed := out, index;
      out := out + [FolderFile(name, f.data)];
      if !Rebuilds(f.entry, FILE_MODE) {
        out := out + [FolderFile(MetaPath(name), f.entry)];
      }
      assert out == was + FileParts(f);
      var key := WriteKey(name);
      index := index + KeyLine(key) + FieldLine(ORDER, i + 1) + Times(CreatedOf(f.entry), ModifiedOf(f.entry));
      Onto(printed, KeyLine(key), FieldLine(ORDER, i + 1), Times(CreatedOf(f.entry), ModifiedOf(f.entry)));
      assert head + PrintRows(RowsTo(s.files, i)) + PrintRow(RowOf(f, i))
        == head + (PrintRows(RowsTo(s.files, i)) + PrintRow(RowOf(f, i)));
    }
    if !Rebuilds(s.entry, DIR_MODE) {
      out := out + [FolderFile(META_DIR, s.entry)];
    }
    assert out == PartsTo(s.files, |s.files|) + DirParts(s);
    files := Some(out + [FolderFile(INDEX, index)]);
  }

  lemma Rest<T>(s: seq<T>, i: nat)
    requires i < |s|
    ensures s[i..] != [] && s[i..][0] == s[i] && s[i..][1..] == s[i + 1..]
  {
  }

  method FindFile(files: seq<FolderFile>, path: seq<u8>) returns (data: Option<seq<u8>>)
    ensures data == Lookup(files, path)
  {
    assert files[0..] == files;
    for i := 0 to |files|
      invariant Lookup(files, path) == Lookup(files[i..], path)
    {
      Rest(files, i);
      if files[i].path == path {
        return Some(files[i].data);
      }
    }
    return None;
  }

  method FindRow(rows: seq<Row>, name: seq<u8>) returns (row: Option<Row>)
    ensures row == RowFor(rows, name)
  {
    assert rows[0..] == rows;
    for i := 0 to |rows|
      invariant RowFor(rows, name) == RowFor(rows[i..], name)
    {
      Rest(rows, i);
      if rows[i].name == name {
        return Some(rows[i]);
      }
    }
    return None;
  }

  /** Picks out the folder's own files and where each goes. */
  method GatherFiles(files: seq<FolderFile>, rows: seq<Row>) returns (items: Option<Items>)
    ensures items == Gather(files, rows, Items([], 0))
  {
    hide PlainName, Reserved, RowFor;
    var list: seq<Item>, unlisted: nat := [], 0;
    assert files[0..] == files;
    for i := 0 to |files|
      invariant Gather(files, rows, Items([], 0)) == Gather(files[i..], rows, Items(list, unlisted))
    {
      Rest(files, i);
      var f := files[i];
      if !Reserved(f.path) {
        if !PlainName(f.path) || |f.path| > NAME_LEN {
          return None;
        }
        var row := FindRow(rows, f.path);
        if row.Some? && row.value.order.Some? {
          list := list + [Item(f, row.value.order.value)];
        } else {
          list := list + [Item(f, -1 - unlisted)];
          unlisted := unlisted + 1;
        }
      }
    }
    items := Some(Items(list, unlisted));
  }

  method Insert(items: seq<Item>, x: Item) returns (r: seq<Item>)
    ensures r == Inserted(items, x)
  {
    var j := |items|;
    assert items[..j] == items && Inserted(items, x) == Inserted(items[..j], x) + items[j..];
    while j > 0 && x.order < items[j - 1].order
      invariant 0 <= j <= |items| && Inserted(items, x) == Inserted(items[..j], x) + items[j..]
    {
      assert items[..j][..j - 1] == items[..j - 1] && items[j - 1..] == [items[j - 1]] + items[j..];
      j := j - 1;
    }
    r := items[..j] + [x] + items[j..];
  }

  /** Orders the items; those of one order stay as they came. */
  method Sort(items: seq<Item>) returns (r: seq<Item>)
    ensures r == Ordered(items)
  {
    r := [];
    for i := 0 to |items|
      invariant r == Ordered(items[..i])
    {
      assert items[..i + 1][..i] == items[..i];
      r := Insert(r, items[i]);
    }
    assert items[..|items|] == items;
  }

  /** Builds the entry and data of one file. */
  method PackFile(files: seq<FolderFile>, rows: seq<Row>, f: FolderFile) returns (r: File)
    requires |f.path| <= NAME_LEN && |f.data| < 0x1_0000_0000
    ensures r == PackedFile(files, rows, f)
  {
    hide Lookup, RowFor, EntryFromMeta, WithLe32;
    var meta := FindFile(files, MetaPath(f.path));
    var row := FindRow(rows, f.path);
    var e := EntryFromMeta(meta, f.path, FILE_MODE, RowCreated(row), RowModified(row));
    r := File(WithLe32(WithLe32(WithLe32(e, LENGTH, |f.data|), CLUSTER, 0), PARENT_INDEX, 0), f.data);
  }

  lemma GatheredFit(items: Items, f: FolderFile, row: Option<Row>)
    requires Gathered(items, f, row).Some? && ShortPaths(items.list)
    ensures ShortPaths(Gathered(items, f, row).value.list)
  {
    hide PlainName, Reserved;
  }

  predicate ShortPaths(items: seq<Item>) {
    forall i {:trigger items[i]} :: 0 <= i < |items| ==> |items[i].file.path| <= NAME_LEN
  }

  lemma {:induction false} GatherFits(files: seq<FolderFile>, rows: seq<Row>, items: Items)
    requires Gather(files, rows, items).Some? && ShortPaths(items.list)
    ensures ShortPaths(Gather(files, rows, items).value.list)
  {
    hide Gathered, RowFor, ShortPaths;
    if files != [] {
      GatheredFit(items, files[0], RowFor(rows, files[0].path));
      GatherFits(files[1..], rows, Gathered(items, files[0], RowFor(rows, files[0].path)).value);
    }
  }

  lemma OrderedShort(items: seq<Item>)
    requires ShortPaths(items)
    ensures ShortPaths(Ordered(items))
  {
    hide Ordered;
    OrderedHas(items);
    forall i | 0 <= i < |Ordered(items)| ensures |Ordered(items)[i].file.path| <= NAME_LEN {
      assert Ordered(items)[i] in multiset(Ordered(items));
      assert Ordered(items)[i] in items;
    }
  }

  /** Puts a folder's files back together as a save; not when its index does not read, a name is not plain or
      fits no entry, or a file is too long for one. */
  method Pack(folder: seq<u8>, files: seq<FolderFile>) returns (save: Option<Save>)
    ensures save == PackOf(folder, files)
  {
    hide PlainName, Lookup, ParseIndex, Gather, Ordered, RowFor, PackedFile, DotEntry, EntryFromMeta, WithLe32,
      ShortPaths;
    if !PlainName(folder) || |folder| > NAME_LEN {
      return None;
    }
    var rows := [];
    var index := FindFile(files, INDEX);
    if index.Some? {
      var parsed := ReadIndex(index.value);
      if parsed.None? {
        return None;
      }
      rows := parsed.value;
    }
    var root := FindRow(rows, ROOT_KEY);
    if root.None? {
      root := FindRow(rows, OTHER_ROOT_KEY);
    }
    var items := GatherFiles(files, rows);
    if items.None? {
      return None;
    }
    var list := Sort(items.value.list);
    AllShort(files, rows, items.value.list, list);
    var out: seq<File> := [];
    for i := 0 to |list|
      invariant |out| == i && forall k {:trigger list[k]} :: 0 <= k < i ==> Fits(list[k])
      invariant forall k {:trigger out[k]} :: 0 <= k < i ==>
        Fits(list[k]) && out[k] == PackedFile(files, rows, list[k].file)
    {
      var f := list[i].file;
      if |f.data| >= 0x1_0000_0000 {
        return None;
      }
      var packed := PackFile(files, rows, f);
      out := out + [packed];
    }
    assert AllFit(list) && out == PackedFiles(files, rows, list, |list|);
    var meta := FindFile(files, META_DIR);
    var e := EntryFromMeta(meta, folder, DIR_MODE, RowCreated(root), RowModified(root));
    e := WithLe32(e, LENGTH, (|out| + 2) % 0x1_0000_0000);
    save := Some(Save(e, DotEntry([DOT]), DotEntry([DOT, DOT]), out));
  }

  lemma AllShort(files: seq<FolderFile>, rows: seq<Row>, items: seq<Item>, list: seq<Item>)
    requires Gather(files, rows, Items([], 0)).Some? && items == Gather(files, rows, Items([], 0)).value.list
      && list == Ordered(items)
    ensures forall i {:trigger list[i]} :: 0 <= i < |list| ==> |list[i].file.path| <= NAME_LEN
  {
    hide Gather, Ordered;
    GatherFits(files, rows, Items([], 0));
    OrderedShort(items);
  }
}
