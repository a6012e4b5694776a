/** Saves with a line's end in a file's name: what the reader makes of their index, and when they come back. */
module Ps2LineEnd {
  import opened Bytes
  import opened Status
  import opened Text
  import opened Ps2Save
  import opened Calendar
  import opened Ps2Index
  import opened Ps2IndexTheorems
  import opened Ps2Folder
  import opened Ps2FolderParts
  import opened Ps2FolderOrder
  import opened Ps2FolderTheorems

  /* ---- One row ------------------------------------------------------------------------------------------------ */

  /** A line that reads as a plain key once the quote is behind it: no blank or comment, nothing that ends or quotes. */
  predicate TailWord(b: seq<u8>) {
    && 1 <= |b| < ROW_NAME_LEN && b[0] > SPACE && b[0] != HASH && b[0] != DOUBLE
    && forall i {:trigger b[i]} :: 0 <= i < |b| ==> b[i] != NEWLINE && b[i] != COLON && b[i] != QUOTE
  }

  /** A name with a line's end at `n`, and such a line after it. */
  predicate SplitAt(name: seq<u8>, n: nat) {
    n < |name| <= ROW_NAME_LEN && 0 !in name && NEWLINE !in name[..n] && name[n] == NEWLINE && TailWord(name[n + 1..])
  }

  ghost predicate Splits(name: seq<u8>) {
    exists n: nat {:trigger SplitAt(name, n)} :: SplitAt(name, n)
  }

  /** What is left of the name after its first line's end, and the closing quote. */
  function After(name: seq<u8>): (a: seq<u8>)
    ensures |a| <= |name| + 1
  {
    NextLine(name) + [QUOTE]
  }

  lemma AfterSplit(name: seq<u8>, n: nat)
    requires SplitAt(name, n)
    ensures NextLine(name) == name[n + 1..]
  {
    assert name == name[..n] + ([NEWLINE] + name[n + 1..]);
    LineEnds(name[..n], name[n + 1..]);
  }

  lemma {:induction false} DoubledPlain(b: seq<u8>)
    requires forall i {:trigger b[i]} :: 0 <= i < |b| ==> b[i] != QUOTE
    ensures Doubled(b) == b
  {
    if b != [] {
      assert forall i {:trigger b[1..][i]} :: 0 <= i < |b| - 1 ==> b[1..][i] == b[i + 1];
      DoubledPlain(b[1..]);
    }
  }

  /** The line after the line's end opens another row. */
  lemma TailReads(b: seq<u8>, rest: seq<u8>, rows: seq<Row>)
    requires TailWord(b)
    ensures BlockLine(KeyLine(b + [QUOTE]) + rest, rows) == Some(rows + [NewRow(b + [QUOTE])])
    ensures NextLine(KeyLine(b + [QUOTE]) + rest) == rest
  {
    hide KeyLine, Plain, NextLine, Trim, NewRow;
    var word, after := b + [QUOTE], [COLON, NEWLINE] + rest;
    KeyLineParts(word, rest);
    assert (word + after)[0] == b[0];
    assert NoneIn(word, [COLON, NEWLINE]);
    PlainReads(word, after, [COLON, NEWLINE], [], KEY_ROOM);
    TrimWord(word);
    assert [] + word == word;
    LineEnds(word + [COLON], rest);
  }

  predicate RowPrints(r: Row) {
    Full(r) && Printable(r.order.value) && Printable(r.created.value) && Printable(r.modified.value)
  }

  /** The rows the reader makes of a printed one: a split name keeps no field, they go to the row its rest opens. */
  function Made(r: Row): seq<Row> {
    if NEWLINE in r.name then [NewRow(r.name), r.(name := After(r.name))] else [r]
  }

  /** The fields after a key's line, set in the last row. */
  lemma FieldsRead(r: Row, name: seq<u8>, rest: seq<u8>, rows: seq<Row>)
    requires RowPrints(r) && |name| <= ROW_NAME_LEN
    ensures BlockRows(FieldLine(ORDER, r.order.value) + (Times(r.created.value, r.modified.value) + rest),
        rows + [NewRow(name)])
         == BlockRows(rest, rows + [r.(name := name)])
  {
    hide BlockRows, FieldLine, Times, ORDER;
    FieldsAreWords();
    var r0 := NewRow(name);
    var r1 := r0.(order := r.order);
    FieldStep(ORDER, r.order.value, Times(r.created.value, r.modified.value) + rest, rows + [r0]);
    OrderSet(r0, r.order.value);
    LastSet(rows, r0, r1);
    TimesRead(r.created.value, r.modified.value, rest, rows, r1);
  }

  lemma OrderSet(r: Row, v: int)
    ensures WithField(r, ORDER, v) == r.(order := Some(v))
  {
  }

  lemma SplitReads(r: Row, n: nat, rest: seq<u8>, rows: seq<Row>)
    requires RowPrints(r) && SplitAt(r.name, n)
    ensures BlockRows(PrintRow(r) + rest, rows) == BlockRows(rest, rows + Made(r))
  {
    hide BlockRows, BlockLine, NextLine, FieldLine, KeyLine, QuotedKey, Times, ORDER, Doubled, TailWord, NewRow,
      PrintRow;
    var a, b := r.name[..n], r.name[n + 1..];
    var fields := FieldLine(ORDER, r.order.value) + (Times(r.created.value, r.modified.value) + rest);
    var line := KeyLine(QuotedKey(r.name));
    RowParts(r, rest);
    assert r.name == a + [NEWLINE] + b;
    LineEndSplits(a, b, fields, rows);
    SplitDoubled(b, fields);
    KeyLineSome(QuotedKey(r.name));
    SplitStep(line, fields, KeyLine(b + [QUOTE]) + fields, rows, rows + [NewRow(r.name)]);
    TailReads(b, fields, rows + [NewRow(r.name)]);
    KeyLineSome(b + [QUOTE]);
    BlockStep(KeyLine(b + [QUOTE]), fields, rows + [NewRow(r.name)], rows + [NewRow(r.name)] + [NewRow(b + [QUOTE])]);
    FieldsRead(r, b + [QUOTE], rest, rows + [NewRow(r.name)]);
    AfterSplit(r.name, n);
    assert rows + [NewRow(r.name)] + [r.(name := b + [QUOTE])] == rows + Made(r);
  }

  lemma SplitStep(line: seq<u8>, rest: seq<u8>, next: seq<u8>, rows: seq<Row>, made: seq<Row>)
    requires line + rest != [] && BlockLine(line + rest, rows) == Some(made) && NextLine(line + rest) == next
    ensures BlockRows(line + rest, rows) == BlockRows(next, made)
  {
    hide BlockLine, NextLine;
  }

  lemma SplitDoubled(b: seq<u8>, rest: seq<u8>)
    requires TailWord(b)
    ensures Doubled(b) + ([QUOTE, COLON, NEWLINE] + rest) == KeyLine(b + [QUOTE]) + rest
  {
    DoubledPlain(b);
  }

  /* ---- The whole index ------------------------------------------------------------------------------------------- */

  ghost predicate Legible(r: Row) {
    RowPrints(r) && (Keyable(r.name) || Splits(r.name))
  }

  ghost predicate AllLegible(rs: seq<Row>) {
    forall i {:trigger rs[i]} :: 0 <= i < |rs| ==> Legible(rs[i])
  }

  function MadeAll(rs: seq<Row>): seq<Row> {
    if rs == [] then [] else MadeAll(rs[..|rs| - 1]) + Made(rs[|rs| - 1])
  }

  lemma LegibleReads(r: Row, rest: seq<u8>, rows: seq<Row>)
    requires Legible(r)
    ensures BlockRows(PrintRow(r) + rest, rows) == BlockRows(rest, rows + Made(r))
  {
    hide BlockRows, PrintRow, SplitAt;
    if Keyable(r.name) {
      RowReads(r, rest, rows);
    } else {
      var n: nat :| SplitAt(r.name, n);
      SplitReads(r, n, rest, rows);
    }
  }

  lemma LegibleNoNul(r: Row)
    requires Legible(r)
    ensures 0 !in PrintRow(r)
  {
    hide FieldLine, Times, Doubled, ORDER;
    FieldsAreWords();
    DoubledClean(r.name, 0);
    FieldNoNul(ORDER, r.order.value);
    TimesNoNul(r.created.value, r.modified.value);
  }

  lemma {:induction false} AllLegibleRead(rs: seq<Row>, rest: seq<u8>, rows: seq<Row>)
    requires AllLegible(rs) && AllFull(rs)
    ensures BlockRows(PrintRows(rs) + rest, rows) == BlockRows(rest, rows + MadeAll(rs))
    ensures 0 !in PrintRows(rs)
    decreases |rs|
  {
    hide BlockRows, PrintRow, Legible, Made;
    if rs == [] {
      assert PrintRows(rs) + rest == rest && rows + MadeAll(rs) == rows;
    } else {
      var front, last := rs[..|rs| - 1], rs[|rs| - 1];
      AllLegibleRead(front, PrintRow(last) + rest, rows);
      Regroup(PrintRows(front), PrintRow(last), rest);
      LegibleReads(last, rest, rows + MadeAll(front));
      LegibleNoNul(last);
      assert rows + MadeAll(front) + Made(last) == rows + MadeAll(rs);
    }
  }

  /** A printed index whose names are clean or split reads as the root's row and what is made of the others. */
  lemma IndexMakes(created: int, modified: int, rs: seq<Row>)
    requires Printable(created) && Printable(modified) && AllLegible(rs) && AllFull(rs)
    ensures ParseIndex(Printed(created, modified, rs)) == Some([RootRow(created, modified)] + MadeAll(rs))
  {
    hide BlockRows, FlowRows, BlockLine, NextLine, KeyLine, Times, PrintRows, RootRow, NewRow, CString, MadeAll,
      AllLegible;
    var text, rest := Printed(created, modified, rs), Times(created, modified) + PrintRows(rs);
    var r0 := NewRow(ROOT_KEY);
    AllLegibleRead(rs, [], [] + [RootRow(created, modified)]);
    TimesNoNul(created, modified);
    RootNoNul();
    WholeCString(text);
    PrintedStarts(created, modified, rs);
    Ps2IndexTheorems.RootReads(rest, []);
    KeyLineSome(ROOT_KEY);
    BlockStep(KeyLine(ROOT_KEY), rest, [], [] + [r0]);
    TimesRead(created, modified, PrintRows(rs), [], r0);
    RootRowIs(created, modified);
    assert PrintRows(rs) + [] == PrintRows(rs);
    NothingLeft([] + [RootRow(created, modified)] + MadeAll(rs));
    assert [] + [RootRow(created, modified)] == [RootRow(created, modified)];
  }

  lemma RootNoNul()
    ensures 0 !in KeyLine(ROOT_KEY)
  {
    assert |ROOT_KEY| == 5;
  }

  /* ---- The whole save -------------------------------------------------------------- */

  /** A save that comes apart, each of its names clean or split. */
  ghost predicate Readable(s: Save) {
    Separable(s) && forall k {:trigger s.files[k]} :: 0 <= k < |s.files| ==>
      NEWLINE !in EntryName(s.files[k].entry) || Splits(EntryName(s.files[k].entry))
  }

  function RowsMade(s: Save): seq<Row> {
    [RootDates(s)] + MadeAll(RowsTo(s.files, |s.files|))
  }

  lemma RowsLegible(s: Save)
    requires Readable(s)
    ensures AllLegible(RowsTo(s.files, |s.files|)) && Printable(CreatedOf(s.entry)) && Printable(ModifiedOf(s.entry))
  {
    hide EntryName, TodToUnix, Splits;
    var rs := RowsTo(s.files, |s.files|);
    TodPrintable(TodAt(s.entry, CREATED));
    TodPrintable(TodAt(s.entry, MODIFIED));
    forall i | 0 <= i < |rs| ensures Legible(rs[i]) {
      assert NEWLINE !in EntryName(s.files[i].entry) || Splits(EntryName(s.files[i].entry));
      NameClean(s.files[i].entry);
      TodPrintable(TodAt(s.files[i].entry, CREATED));
      TodPrintable(TodAt(s.files[i].entry, MODIFIED));
    }
  }

  /** The reader takes every split name for two rows. */
  lemma OwnRowsMade(s: Save)
    requires Readable(s)
    ensures OwnRows(s) == Some(RowsMade(s))
  {
    hide ParseIndex, Printed, CreatedOf, ModifiedOf, AllLegible, RootRow, MadeAll, Readable;
    RowsLegible(s);
    IndexMakes(CreatedOf(s.entry), ModifiedOf(s.entry), RowsTo(s.files, |s.files|));
  }

  lemma {:induction false} RowForJoin(a: seq<Row>, b: seq<Row>, name: seq<u8>)
    ensures RowFor(a + b, name) == if RowFor(a, name).Some? then RowFor(a, name) else RowFor(b, name)
    decreases |a|
  {
    if a == [] {
      assert a + b == b;
    } else {
      assert (a + b)[0] == a[0] && (a + b)[1..] == a[1..] + b;
      RowForJoin(a[1..], b, name);
    }
  }

  lemma RowForFew(a: Row, b: Row, name: seq<u8>)
    ensures RowFor([a], name) == if a.name == name then Some(a) else None
    ensures RowFor([a, b], name) == if a.name == name then Some(a) else if b.name == name then Some(b) else None
  {
    assert [a][1..] == [] && [a, b][1..] == [b] && [b][1..] == [];
  }

  lemma MadeNames(r: Row, name: seq<u8>)
    requires Legible(r) && NEWLINE in name
    ensures RowFor(Made(r), name) == if r.name == name then Some(NewRow(name)) else None
  {
    hide TailWord, RowFor;
    if NEWLINE in r.name {
      var n: nat :| SplitAt(r.name, n);
      AfterSplit(r.name, n);
      TailClean(r.name[n + 1..]);
      RowForFew(NewRow(r.name), r.(name := After(r.name)), name);
    } else {
      RowForFew(r, r, name);
    }
  }

  lemma TailClean(b: seq<u8>)
    requires TailWord(b)
    ensures NEWLINE !in b + [QUOTE]
  {
  }

  /** A split name finds the row of no fields that its first line opened. */
  lemma {:induction false} SplitFinds(rs: seq<Row>, name: seq<u8>)
    requires AllLegible(rs) && NEWLINE in name
    ensures RowFor(MadeAll(rs), name) == if exists i {:trigger rs[i]} :: 0 <= i < |rs| && rs[i].name == name
      then Some(NewRow(name)) else None
    decreases |rs|
  {
    hide Legible, Made, NewRow;
    if rs != [] {
      var front, last := rs[..|rs| - 1], rs[|rs| - 1];
      SplitFinds(front, name);
      RowForJoin(MadeAll(front), Made(last), name);
      assert Legible(last);
      MadeNames(last, name);
      assert forall i {:trigger front[i]} {:trigger rs[i]} :: 0 <= i < |front| ==> front[i] == rs[i];
    }
  }

  lemma SplitRow(s: Save, k: nat)
    requires Readable(s) && k < |s.files| && NEWLINE in EntryName(s.files[k].entry)
    ensures RowFor(RowsMade(s), EntryName(s.files[k].entry)) == Some(NewRow(EntryName(s.files[k].entry)))
  {
    hide EntryName, MadeAll, NewRow, Legible, RootDates, CreatedOf, ModifiedOf, Readable;
    var rs, name := RowsTo(s.files, |s.files|), EntryName(s.files[k].entry);
    RowsLegible(s);
    RootDatesNamed(s);
    SplitFinds(rs, name);
    assert rs[k].name == name;
    RowForJoin([RootDates(s)], MadeAll(rs), name);
    RootElsewhere(RootDates(s), name);
  }

  lemma RootElsewhere(root: Row, name: seq<u8>)
    requires root.name == ROOT_KEY && NEWLINE in name
    ensures RowFor([root], name) == None
  {
    assert |ROOT_KEY| == 5 && NEWLINE !in ROOT_KEY && [root][1..] == [];
  }

  /** A file with such a name comes back exactly when its name is padded and it has a meta file or the dates of no
      index at all; and the index never places it. */
  lemma SplitBack(s: Save, k: nat)
    requires Readable(s) && k < |s.files| && NEWLINE in EntryName(s.files[k].entry)
    ensures var e := s.files[k].entry;
            && (FileBack(s, RowsMade(s), k) <==> Padded(e) && (Rebuilds(e, FILE_MODE) ==> DatesAs(e, 0, 0)))
            && !HasPlace(RowsMade(s), EntryName(e))
  {
    hide EntryName, Rebuilds, Padded, DatesAs, RowsMade;
    SplitRow(s, k);
  }

  lemma {:induction false} ItemsByAt(s: Save, rows: seq<Row>, n: nat, k: nat)
    requires k < n <= |s.files|
    ensures ItemsBy(s, rows, k).unlisted <= ItemsBy(s, rows, n).unlisted
    ensures var name := EntryName(s.files[k].entry);
            && ItemsBy(s, rows, n).list[k].order
               == (if HasPlace(rows, name) then PlaceIn(rows, name) else -1 - ItemsBy(s, rows, k).unlisted)
            && (!HasPlace(rows, name) ==> ItemsBy(s, rows, k).unlisted < ItemsBy(s, rows, n).unlisted)
  {
    hide EntryName, RowFor, HostFile;
    if k < n - 1 {
      ItemsByAt(s, rows, n - 1, k);
    }
  }

  lemma {:induction false} MadeFirst(rs: seq<Row>)
    requires rs != []
    ensures MadeAll(rs) != [] && MadeAll(rs)[0] == Made(rs[0])[0]
    decreases |rs|
  {
    if |rs| > 1 {
      MadeFirst(rs[..|rs| - 1]);
    } else {
      assert rs[..0] == [];
    }
  }

  /** The first file, if it is placed at all, is placed at 1. */
  lemma FirstPlace(s: Save)
    requires Readable(s) && s.files != []
    ensures var name := EntryName(s.files[0].entry); HasPlace(RowsMade(s), name) ==> PlaceIn(RowsMade(s), name) == 1
  {
    hide EntryName, MadeAll, NewRow, RootDates, CreatedOf, ModifiedOf, Readable;
    var rs, name := RowsTo(s.files, |s.files|), EntryName(s.files[0].entry);
    RootDatesNamed(s);
    if NEWLINE in name {
      SplitBack(s, 0);
    } else if name == ROOT_KEY {
      assert RowsMade(s)[0] == RootDates(s);
    } else {
      MadeFirst(rs);
      assert rs[0] == RowOf(s.files[0], 0) && MadeAll(rs)[0] == rs[0];
      RowForAt(RowsMade(s), 1);
    }
  }

  /** Only the first file may have such a name: otherwise the save does not come back. */
  lemma SplitLater(s: Save, k: nat)
    requires Readable(s) && 0 < k < |s.files| && NEWLINE in EntryName(s.files[k].entry)
    ensures PackedOf(s).Some? && !Restored(s, PackedOf(s).value)
  {
    hide EntryName, RowsMade, OwnRows, PackedOf, Restored, ItemsBy, EntryBack, FileBack, HasPlace, PlaceIn;
    var rows := RowsMade(s);
    OwnRowsMade(s);
    PackIff(s);
    SplitBack(s, k);
    FirstPlace(s);
    ItemsByAt(s, rows, |s.files|, 0);
    ItemsByAt(s, rows, k, 0);
    ItemsByAt(s, rows, |s.files|, k);
    NoItems(s, rows);
    var list := ItemsBy(s, rows, |s.files|).list;
    assert list[k].order < list[0].order;
  }

  /** A save of one such file comes back exactly when the names are padded and the file has a meta file or the dates of
      no index at all. */
  lemma LoneSplitBack(s: Save)
    requires Readable(s) && |s.files| == 1 && NEWLINE in EntryName(s.files[0].entry)
    ensures PackedOf(s).Some?
    ensures var e := s.files[0].entry;
            Restored(s, PackedOf(s).value)
            <==> Padded(s.entry) && Padded(e) && (Rebuilds(e, FILE_MODE) ==> DatesAs(e, 0, 0))
  {
    hide EntryName, RowsMade, OwnRows, PackedOf, Restored, ItemsBy, EntryBack, FileBack, Rebuilds, DatesAs, Padded,
      RootOf;
    OwnRowsMade(s);
    PackIff(s);
    SplitBack(s, 0);
    RootBack(s);
  }

  lemma RootBack(s: Save)
    requires Readable(s)
    ensures EntryBack(s.entry, DIR_MODE, RootOf(RowsMade(s))) <==> Padded(s.entry)
  {
    hide EntryName, Rebuilds, CreatedOf, ModifiedOf, Padded, DatesAs, MadeAll, RootDates, Readable;
    RootDatesNamed(s);
    assert RowsMade(s)[0] == RootDates(s);
    RowForAt(RowsMade(s), 0);
    if Rebuilds(s.entry, DIR_MODE) {
      OwnDates(s.entry, DIR_MODE);
    }
  }
}
