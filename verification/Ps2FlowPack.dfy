/** Folders whose index is in the flow form pack as they do with the other. */
module Ps2FlowPack {
  import opened Bytes
  import opened Status
  import opened Text
  import opened Calendar
  import opened Ps2Fat
  import opened Ps2Save
  import opened Ps2Build
  import opened Ps2Index
  import opened Ps2IndexTheorems
  import opened Ps2FlowIndex
  import opened Ps2Folder
  import opened Ps2FolderParts
  import opened Ps2FolderOrder
  import opened Ps2FolderTheorems

  /* ---- Any folder ------------------------------------------------------------------------------ */

  /** The same files in the same order, but for what their indexes say. */
  ghost predicate SameBesideIndex(a: seq<FolderFile>, b: seq<FolderFile>) {
    && |a| == |b|
    && forall i {:trigger a[i]} {:trigger b[i]} :: 0 <= i < |a| ==> a[i] == b[i] || a[i].path == INDEX == b[i].path
  }

  lemma {:induction false} SameLookup(a: seq<FolderFile>, b: seq<FolderFile>, path: seq<u8>)
    requires SameBesideIndex(a, b) && path != INDEX
    ensures Lookup(a, path) == Lookup(b, path)
    decreases |a|
  {
    if a != [] {
      SameLookup(a[1..], b[1..], path);
    }
  }

  lemma {:induction false} SameGather(a: seq<FolderFile>, b: seq<FolderFile>, rows: seq<Row>, items: Items)
    requires SameBesideIndex(a, b)
    ensures Gather(a, rows, items) == Gather(b, rows, items)
    decreases |a|
  {
    hide RowFor;
    if a != [] {
      assert Reserved(INDEX);
      var next := Gathered(items, a[0], RowFor(rows, a[0].path));
      assert next == Gathered(items, b[0], RowFor(rows, b[0].path));
      if next.Some? {
        SameGather(a[1..], b[1..], rows, next.value);
      }
    }
  }

  lemma MetaPathsApart(path: seq<u8>)
    ensures MetaPath(path) != INDEX && META_DIR != INDEX
  {
    assert |PREFIX| == 7 && |META| == 11;
    assert INDEX[7] == 0x69 && META[7] == 0x6D;
    assert MetaPath(path)[7] == META[7] && META_DIR[7] == META[7];
  }

  lemma SameFile(a: seq<FolderFile>, b: seq<FolderFile>, rows: seq<Row>, f: FolderFile)
    requires SameBesideIndex(a, b) && |f.path| <= NAME_LEN && |f.data| < 0x1_0000_0000
    ensures PackedFile(a, rows, f) == PackedFile(b, rows, f)
  {
    hide EntryFromMeta, Lookup, RowFor;
    MetaPathsApart(f.path);
    SameLookup(a, b, MetaPath(f.path));
  }

  lemma SameItems(folder: seq<u8>, a: seq<FolderFile>, b: seq<FolderFile>, rows: seq<Row>, items: seq<Item>)
    requires SameBesideIndex(a, b) && |folder| <= NAME_LEN
    ensures PackItems(folder, a, rows, items) == PackItems(folder, b, rows, items)
  {
    hide EntryFromMeta, Lookup, RowFor, PackedFile, DotEntry;
    MetaPathsApart([]);
    SameLookup(a, b, META_DIR);
    if AllFit(items) {
      forall i | 0 <= i < |items|
        ensures PackedFiles(a, rows, items, |items|)[i] == PackedFiles(b, rows, items, |items|)[i]
      {
        assert Fits(items[i]);
        SameFile(a, b, rows, items[i].file);
      }
      assert PackedFiles(a, rows, items, |items|) == PackedFiles(b, rows, items, |items|);
    }
  }

  /** Indexes that read alike make no difference to what a folder packs to. */
  lemma PackAlike(folder: seq<u8>, a: seq<FolderFile>, b: seq<FolderFile>)
    requires SameBesideIndex(a, b) && IndexRows(a) == IndexRows(b)
    ensures PackOf(folder, a) == PackOf(folder, b)
  {
    hide IndexRows, Gather, Ordered, PackItems;
    if PlainName(folder) && |folder| <= NAME_LEN && IndexRows(a).Some? {
      var rows := IndexRows(a).value;
      SameGather(a, b, rows, Items([], 0));
      var items := Gather(a, rows, Items([], 0));
      if items.Some? {
        SameItems(folder, a, b, rows, Ordered(items.value.list));
      }
    }
  }

  /* ---- A save taken apart ------------------------------------------------------------------------ */

  /** A save's files with the rows of its index in the flow form. */
  function UnpackedFlow(s: Save): seq<FolderFile> {
    PartsTo(s.files, |s.files|) + DirParts(s)
    + [FolderFile(INDEX, FlowPrinted([RootRow(CreatedOf(s.entry), ModifiedOf(s.entry))] + RowsTo(s.files, |s.files|)))]
  }

  lemma IndexLast(s: Save, text: seq<u8>)
    requires AllUnpackable(s.files, |s.files|)
    ensures Lookup(PartsTo(s.files, |s.files|) + DirParts(s) + [FolderFile(INDEX, text)], INDEX) == Some(text)
  {
    hide Lookup, Rebuilds, PartsTo, DirParts, MetaPath, Reserved, EntryName;
    PathsApart([], []);
    forall k: nat | k < |s.files| ensures !Owns(s.files, INDEX, k) {
      PathsApart(EntryName(s.files[k].entry), []);
    }
    PartsMiss(s.files, |s.files|, INDEX);
    DirPartsAt(s, INDEX);
    OneFile(FolderFile(INDEX, text), INDEX);
    LookupJoin(PartsTo(s.files, |s.files|), DirParts(s), INDEX);
    LookupJoin(PartsTo(s.files, |s.files|) + DirParts(s), [FolderFile(INDEX, text)], INDEX);
  }

  lemma OnlyIndex(front: seq<FolderFile>, a: seq<u8>, b: seq<u8>)
    ensures SameBesideIndex(front + [FolderFile(INDEX, a)], front + [FolderFile(INDEX, b)])
  {
  }

  /** With its index in the flow form, a save's folder packs to the same as with the index it is given. */
  lemma FlowPacksAlike(s: Save)
    requires Foldable(s)
    ensures PackOf(EntryName(s.entry), UnpackedFlow(s)) == PackOf(EntryName(s.entry), Unpacked(s))
  {
    hide PackOf, ParseIndex, FlowPrinted, Printed, RootRow, TodToUnix, Printable, AllGood, SameBesideIndex, Lookup,
      PartsTo, DirParts, EntryName;
    var created, modified, rs := CreatedOf(s.entry), ModifiedOf(s.entry), RowsTo(s.files, |s.files|);
    RowsGood(s);
    TodPrintable(TodAt(s.entry, CREATED));
    TodPrintable(TodAt(s.entry, MODIFIED));
    FormsAgree(created, modified, rs);
    var flow := FlowPrinted([RootRow(created, modified)] + rs);
    IndexLast(s, flow);
    IndexLast(s, IndexText(s));
    OnlyIndex(PartsTo(s.files, |s.files|) + DirParts(s), flow, IndexText(s));
    PackAlike(EntryName(s.entry), UnpackedFlow(s), Unpacked(s));
  }

  /* ---- One such folder, byte for byte -------------------------------------------------------------- */

  /** a: {order: 1, timeCreated: 1} */
  const ROW_A: seq<u8> :=
    [0x61, 0x3A, 0x20, 0x7B, 0x6F, 0x72, 0x64, 0x65, 0x72, 0x3A, 0x20, 0x31, 0x2C, 0x20, 0x74, 0x69,
     0x6D, 0x65, 0x43, 0x72, 0x65, 0x61, 0x74, 0x65, 0x64, 0x3A, 0x20, 0x31, 0x7D]

  /** b: {order: 2, timeCreated: 1} */
  const ROW_B: seq<u8> :=
    [0x62, 0x3A, 0x20, 0x7B, 0x6F, 0x72, 0x64, 0x65, 0x72, 0x3A, 0x20, 0x32, 0x2C, 0x20, 0x74, 0x69,
     0x6D, 0x65, 0x43, 0x72, 0x65, 0x61, 0x74, 0x65, 0x64, 0x3A, 0x20, 0x31, 0x7D]

  /** {a: {order: 1, timeCreated: 1}, b: {order: 2, timeCreated: 1}} */
  const FLOW_TWO: seq<u8> := [0x7B] + ROW_A + [0x2C, 0x20] + ROW_B + [0x7D]

  function TwoRows(): seq<Row> {
    [Row([0x61], Some(1), Some(1), None), Row([0x62], Some(2), Some(1), None)]
  }

  lemma OneDigit(n: nat)
    requires n < 10
    ensures Signed(n) == [ZERO + n]
  {
  }

  lemma TwoFields(f: seq<u8>, v: int, g: seq<u8>, w: int, rest: seq<u8>)
    ensures FieldsText([(f, v), (g, w)], rest)
         == FlowField(f, v) + ([COMMA, SPACE] + (FlowField(g, w) + ([CLOSE] + rest)))
  {
    hide FlowField;
    assert [(f, v), (g, w)][1..] == [(g, w)];
  }

  lemma TwoTexts(a: Row, b: Row)
    ensures RowsText([a, b], []) == RowText(a, [COMMA, SPACE] + RowText(b, [CLOSE]))
  {
    hide RowText;
    assert [a, b][1..] == [b] && [CLOSE] + [] == [CLOSE];
  }

  lemma FieldBytes()
    ensures FlowField(ORDER, 1) == [0x6F, 0x72, 0x64, 0x65, 0x72, 0x3A, 0x20, 0x31]
    ensures FlowField(ORDER, 2) == [0x6F, 0x72, 0x64, 0x65, 0x72, 0x3A, 0x20, 0x32]
    ensures FlowField(TIME_CREATED, 1) ==
      [0x74, 0x69, 0x6D, 0x65, 0x43, 0x72, 0x65, 0x61, 0x74, 0x65, 0x64, 0x3A, 0x20, 0x31]
  {
    hide Signed;
    OneDigit(1);
    OneDigit(2);
  }

  lemma RowBytes(a: u8, n: int, field: seq<u8>, times: seq<u8>, rest: seq<u8>)
    requires 0x61 <= a <= 0x7A && field == FlowField(ORDER, n) && times == FlowField(TIME_CREATED, 1)
    ensures RowText(Row([a], Some(n), Some(1), None), rest)
         == ([a, 0x3A, 0x20, 0x7B] + field + [0x2C, 0x20] + times + [0x7D]) + rest
  {
    hide Signed, FieldsText, FlowField;
    var r := Row([a], Some(n), Some(1), None);
    assert Unquoted(r.name);
    assert FieldsOf(r) == [(ORDER, n), (TIME_CREATED, 1)];
    TwoFields(ORDER, n, TIME_CREATED, 1, rest);
  }

  lemma FlowBytes()
    ensures ParseIndex(FLOW_TWO) == Some(TwoRows())
  {
    hide ParseIndex, Signed, RowText, RowsText, FlowField;
    FieldBytes();
    var a, b := TwoRows()[0], TwoRows()[1];
    var times := FlowField(TIME_CREATED, 1);
    TwoTexts(a, b);
    RowBytes(0x62, 2, FlowField(ORDER, 2), times, [CLOSE]);
    RowBytes(0x61, 1, FlowField(ORDER, 1), times, [COMMA, SPACE] + RowText(b, [CLOSE]));
    assert ROW_A == [0x61, 0x3A, 0x20, 0x7B] + FlowField(ORDER, 1) + [0x2C, 0x20] + times + [0x7D];
    assert ROW_B == [0x62, 0x3A, 0x20, 0x7B] + FlowField(ORDER, 2) + [0x2C, 0x20] + times + [0x7D];
    assert FLOW_TWO == FlowPrinted(TwoRows());
    FlowReads(TwoRows());
  }

  lemma RowsFor()
    ensures RowFor(TwoRows(), [0x61]) == Some(TwoRows()[0]) && RowFor(TwoRows(), [0x62]) == Some(TwoRows()[1])
    ensures RowFor(TwoRows(), ROOT_KEY).None? && RowFor(TwoRows(), OTHER_ROOT_KEY).None?
  {
    assert |ROOT_KEY| == 5 == |OTHER_ROOT_KEY|;
    assert TwoRows()[1..] == [TwoRows()[1]] && [TwoRows()[1]][1..] == [];
    assert [0x61 as u8][0] != [0x62 as u8][0];
  }

  lemma LetterPlaced(c: u8, row: Row, items: Items)
    requires 0x61 <= c <= 0x7A && row.order.Some?
    ensures Gathered(items, Letter(c), Some(row))
         == Some(Items(items.list + [Item(Letter(c), row.order.value)], items.unlisted))
  {
    LetterName(c);
  }

  lemma ModeKept(mode: nat, name: seq<u8>, created: int, modified: int)
    requires |name| <= NAME_LEN && mode < 0x1_0000
    ensures DefaultEntry(mode, name, created, modified)[..2] == Le16Bytes(mode)
  {
    hide UnixToTod, Le16Bytes;
    var e0 := Splice(Zeros(ENTRY_SIZE), 0, Le16Bytes(mode));
    var e1 := Splice(e0, CREATED, UnixToTod(created));
    var e2 := Splice(e1, MODIFIED, UnixToTod(modified));
    SpliceFrame(e0, CREATED, UnixToTod(created), 0, 2);
    SpliceFrame(e1, MODIFIED, UnixToTod(modified), 0, 2);
    SpliceFrame(e2, NAME, name, 0, 2);
  }

  lemma LengthPlaced(e: Entry, v: nat)
    requires v < 0x1_0000_0000
    ensures var p := Placed(WithLe32(e, LENGTH, v)); p[..2] == e[..2] && Le32(p, LENGTH) == v
  {
    hide Le32Bytes;
    var f := WithLe32(e, LENGTH, v);
    var c := WithLe32(f, CLUSTER, 0);
    SpliceFrame(e, LENGTH, Le32Bytes(v), 0, 2);
    SpliceFrame(f, CLUSTER, Le32Bytes(0), 0, 2);
    SpliceFrame(c, PARENT_INDEX, Le32Bytes(0), 0, 2);
    SpliceFrame(f, CLUSTER, Le32Bytes(0), LENGTH, LENGTH + 4);
    SpliceFrame(c, PARENT_INDEX, Le32Bytes(0), LENGTH, LENGTH + 4);
    var p := Placed(f);
    assert f[LENGTH..LENGTH + 4] == Le32Bytes(v) == p[LENGTH..LENGTH + 4];
    assert Le32(p, LENGTH) == Le32(p[LENGTH..LENGTH + 4], 0);
  }

  /** The seconds an index gives, or the start of 1970. */
  function Stated(v: Option<int>): int {
    match v
    case Some(n) => n
    case None => 0
  }

  function CreatedIn(row: Option<Row>): int {
    Stated(if row.Some? then row.value.created else None)
  }

  function ModifiedIn(row: Option<Row>): int {
    Stated(if row.Some? then row.value.modified else None)
  }

  /** What a file with no meta of its own packs to, by the bytes of its entry: mode, length, dates and name. */
  lemma PlainEntry(files: seq<FolderFile>, rows: seq<Row>, f: FolderFile)
    requires |f.path| <= NAME_LEN && |f.data| < 0x1_0000_0000 && Lookup(files, MetaPath(f.path)).None?
    ensures var row := RowFor(rows, f.path);
      var e := PackedFile(files, rows, f).entry;
      && e[..2] == [0x97, 0x84] && Le32(e, 4) == |f.data|
      && e[8..16] == UnixToTod(CreatedIn(row)) && e[24..32] == UnixToTod(ModifiedIn(row))
      && e[64..96] == f.path + Zeros(32 - |f.path|)
  {
    hide UnixToTod, RowFor, Lookup, DefaultEntry, Placed, WithLe32;
    var row := RowFor(rows, f.path);
    EntryDefault(f.path, FILE_MODE, RowCreated(row), RowModified(row));
    var d := DefaultEntry(FILE_MODE, f.path, RowCreated(row), RowModified(row));
    ModeKept(FILE_MODE, f.path, RowCreated(row), RowModified(row));
    DefaultParts(FILE_MODE, f.path, RowCreated(row), RowModified(row));
    LengthPlaced(d, |f.data|);
    FinalKept(d, |f.data|, 8, 16);
    FinalKept(d, |f.data|, 24, 32);
    FinalKept(d, |f.data|, 64, 96);
  }

  lemma LengthKept(e: Entry, v: nat)
    requires v < 0x1_0000_0000
    ensures var p := WithLe32(e, LENGTH, v); p[..2] == e[..2] && Le32(p, LENGTH) == v
  {
    hide Le32Bytes;
    SpliceFrame(e, LENGTH, Le32Bytes(v), 0, 2);
    var p := WithLe32(e, LENGTH, v);
    assert p[LENGTH..LENGTH + 4] == Le32Bytes(v);
    assert Le32(p, LENGTH) == Le32(p[LENGTH..LENGTH + 4], 0);
  }

  /** What a folder with no meta of its own packs to: its dates are those of the first row called $ROOT, or, when there
      is none, of the first called %ROOT. */
  lemma PlainDir(files: seq<FolderFile>, rows: seq<Row>, folder: seq<u8>, count: nat)
    requires |folder| <= NAME_LEN && count + 2 < 0x1_0000_0000 && Lookup(files, META_DIR).None?
    ensures var own := RowFor(rows, [0x24, 0x52, 0x4F, 0x4F, 0x54]);
      var row := if own.Some? then own else RowFor(rows, [0x25, 0x52, 0x4F, 0x4F, 0x54]);
      var e := PackedDir(files, rows, folder, count);
      && e[..2] == [0x27, 0x84] && Le32(e, 4) == count + 2
      && e[8..16] == UnixToTod(CreatedIn(row)) && e[24..32] == UnixToTod(ModifiedIn(row))
      && e[64..96] == folder + Zeros(32 - |folder|)
  {
    hide UnixToTod, RowFor, Lookup, DefaultEntry, WithLe32;
    var row := RootOf(rows);
    EntryDefault(folder, DIR_MODE, RowCreated(row), RowModified(row));
    var d := DefaultEntry(DIR_MODE, folder, RowCreated(row), RowModified(row));
    ModeKept(DIR_MODE, folder, RowCreated(row), RowModified(row));
    DefaultParts(DIR_MODE, folder, RowCreated(row), RowModified(row));
    LengthKept(d, count + 2);
    ClearKept(d, count + 2, 8, 16);
    ClearKept(d, count + 2, 24, 32);
    ClearKept(d, count + 2, 64, 96);
  }

  /** The folder's entries for itself and for its parent: a mode, a name, and nothing else. */
  lemma Dots(n: nat)
    requires 1 <= n <= 2
    ensures var e := DotEntry(Filled(n, DOT));
      && e[..2] == [0x27, 0x84] && e[64..96] == Filled(n, 0x2E) + Zeros(32 - n)
      && forall k {:trigger e[k]} :: 2 <= k < ENTRY_SIZE && !(64 <= k < 96) ==> e[k] == 0
  {
    hide UnixToTod;
    var name := Filled(n, DOT);
    var d := DefaultEntry(DIR_MODE, name, 0, 0);
    var f := Splice(d, CREATED, Zeros(TOD_SIZE));
    ModeKept(DIR_MODE, name, 0, 0);
    DefaultParts(DIR_MODE, name, 0, 0);
    SpliceFrame(d, CREATED, Zeros(TOD_SIZE), 0, 2);
    SpliceFrame(f, MODIFIED, Zeros(TOD_SIZE), 0, 2);
    SpliceFrame(d, CREATED, Zeros(TOD_SIZE), NAME, NAME + NAME_LEN);
    SpliceFrame(f, MODIFIED, Zeros(TOD_SIZE), NAME, NAME + NAME_LEN);
  }

  lemma FirstSecond()
    ensures UnixToTod(1) == [0, 1, 0, 0, 1, 1, 0xB2, 0x07]
  {
    hide UnixToTod, DaysFromCivil;
    var t: Tod := [0, 1, 0, 0, 1, 1, 0xB2, 0x07];
    assert Le16(t, 6) == 1970;
    Epoch();
    TodInverse(t);
  }

  /** What packs from items in order: each as its file packs. */
  lemma ItemsPack(files: seq<FolderFile>, rows: seq<Row>, items: Items, list: seq<Item>)
    requires IndexRows(files) == Some(rows) && Gather(files, rows, Items([], 0)) == Some(items)
      && Ordered(items.list) == list && AllFit(list)
    ensures var t := PackOf([0x73], files);
            && t.Some? && |t.value.files| == |list|
            && forall i {:trigger list[i]} :: 0 <= i < |list| ==>
                 Fits(list[i]) && t.value.files[i] == PackedFile(files, rows, list[i].file)
  {
    hide IndexRows, Gather, Ordered, PackedDir, DotEntry, Lookup, EntryFromMeta, PackedFile;
    assert PlainName([0x73]);
  }

  lemma NoMeta(index: seq<u8>, c: u8)
    requires 0x61 <= c <= 0x7A
    ensures Lookup(Folder(index, [Letter(0x62), Letter(0x61)]), MetaPath([c])).None?
  {
    hide Lookup;
    var m, a, b, x := MetaPath([c]), Letter(0x61), Letter(0x62), FolderFile(INDEX, index);
    PathsApart([c], []);
    assert |META| == 11;
    OneFile(a, m);
    OneFile(b, m);
    OneFile(x, m);
    LookupJoin([b], [a], m);
    LookupJoin([x], [b] + [a], m);
    assert [b] + [a] == [b, a];
  }

  lemma TwoGathered()
    ensures var files := Folder(FLOW_TWO, [Letter(0x62), Letter(0x61)]);
      var x, y := Item(Letter(0x62), 2), Item(Letter(0x61), 1);
      && IndexRows(files) == Some(TwoRows()) && Gather(files, TwoRows(), Items([], 0)) == Some(Items([x, y], 0))
      && Ordered([x, y]) == [y, x]
  {
    hide Gather, Gathered, RowFor, TwoRows, Ordered, Inserted, FLOW_TWO, ParseIndex, Lookup;
    var a, b := Letter(0x61), Letter(0x62);
    var x, y := Item(b, 2), Item(a, 1);
    var rows := TwoRows();
    RowsFor();
    RowsAre();
    FlowBytes();
    IndexPassed(FLOW_TWO, [b, a], rows);
    assert [] + [x] == [x] && [x] + [y] == [x, y] && [b, a] == [b] + [a] && [a] == [a] + [];
    LetterPlaced(0x62, rows[1], Items([], 0));
    GatherStep(b, [a], rows, Items([], 0), Items([x], 0));
    LetterPlaced(0x61, rows[0], Items([x], 0));
    GatherStep(a, [], rows, Items([x], 0), Items([x, y], 0));
    NoGather(rows, Items([x, y], 0));
    OrderedAlready([x]);
    OrderedEnd([x], y);
    InsertedFirst([x], y);
  }

  lemma RowsAre()
    ensures |TwoRows()| == 2 && TwoRows()[0].order == Some(1) && TwoRows()[1].order == Some(2)
  {
  }

  /** Files "b" and "a" with that index: they pack as "a", "b", each of the second after 1970 began. */
  lemma FlowPacked()
    ensures var t := PackOf([0x73], Folder(FLOW_TWO, [Letter(0x62), Letter(0x61)]));
            && t.Some? && |t.value.files| == 2
            && t.value.files[0].data == [0x61] && t.value.files[1].data == [0x62]
            && t.value.files[0].entry[8..16] == t.value.files[1].entry[8..16] == [0, 1, 0, 0, 1, 1, 0xB2, 0x07]
  {
    hide Gather, RowFor, Ordered, FLOW_TWO, PackOf, Lookup, IndexRows, UnixToTod, EntryFromMeta, Folder;
    var files := Folder(FLOW_TWO, [Letter(0x62), Letter(0x61)]);
    var x, y := Item(Letter(0x62), 2), Item(Letter(0x61), 1);
    TwoGathered();
    assert AllFit([y, x]) by {
      assert Fits(y) && Fits(x);
    }
    ItemsPack(files, TwoRows(), Items([x, y], 0), [y, x]);
    assert [y, x][0] == y && [y, x][1] == x;
    RowsFor();
    NoMeta(FLOW_TWO, 0x61);
    NoMeta(FLOW_TWO, 0x62);
    PlainEntry(files, TwoRows(), Letter(0x61));
    PlainEntry(files, TwoRows(), Letter(0x62));
    FirstSecond();
  }
}
