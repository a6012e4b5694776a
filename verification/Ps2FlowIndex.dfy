/** The other form a folder's index comes in, rows in braces: any rows printed so read back as they were. */
module Ps2FlowIndex {
  import opened Bytes
  import opened Status
  import opened Text
  import opened Ps2Index
  import opened Ps2IndexTheorems

  /* ---- Printing ------------------------------------------------------------------------------ */

  /** A name that needs no quotes. */
  predicate Unquoted(name: seq<u8>) {
    name != [] && forall i {:trigger name[i]} :: 0 <= i < |name| ==>
      name[i] > SPACE && name[i] !in [COLON, COMMA, QUOTE, DOUBLE, OPEN, CLOSE]
  }

  function FlowKey(name: seq<u8>): seq<u8> {
    if Unquoted(name) then name else QuotedKey(name)
  }

  function FlowField(field: seq<u8>, v: int): seq<u8> {
    field + [COLON, SPACE] + Signed(v)
  }

  /** The fields of a row that are there. */
  function FieldsOf(r: Row): seq<(seq<u8>, int)> {
    (if r.order.Some? then [(ORDER, r.order.value)] else [])
    + (if r.created.Some? then [(TIME_CREATED, r.created.value)] else [])
    + (if r.modified.Some? then [(TIME_MODIFIED, r.modified.value)] else [])
  }

  /** The fields with commas between them, then the closing brace and `rest`. */
  function FieldsText(fs: seq<(seq<u8>, int)>, rest: seq<u8>): seq<u8> {
    if fs == [] then [CLOSE] + rest
    else FlowField(fs[0].0, fs[0].1)
         + if |fs| == 1 then [CLOSE] + rest else [COMMA, SPACE] + FieldsText(fs[1..], rest)
  }

  function RowText(r: Row, rest: seq<u8>): seq<u8> {
    FlowKey(r.name) + [COLON, SPACE, OPEN] + FieldsText(FieldsOf(r), rest)
  }

  function RowsText(rs: seq<Row>, rest: seq<u8>): seq<u8> {
    if rs == [] then [CLOSE] + rest
    else RowText(rs[0], if |rs| == 1 then [CLOSE] + rest else [COMMA, SPACE] + RowsText(rs[1..], rest))
  }

  /** The index of these rows, as in {a: {order: 1, timeCreated: 2}, b: {order: 2}}. */
  function FlowPrinted(rs: seq<Row>): seq<u8> {
    [OPEN] + RowsText(rs, [])
  }

  /** A row whose name and numbers fit. */
  predicate FlowGood(r: Row) {
    |r.name| <= ROW_NAME_LEN && 0 !in r.name && (r.order.Some? ==> Printable(r.order.value))
    && (r.created.Some? ==> Printable(r.created.value)) && (r.modified.Some? ==> Printable(r.modified.value))
  }

  predicate AllFlowGood(rs: seq<Row>) {
    forall i {:trigger rs[i]} :: 0 <= i < |rs| ==> FlowGood(rs[i])
  }

  /* ---- Fields --------------------------------------------------------------------------------- */

  lemma FieldName(f: seq<u8>, after: seq<u8>)
    requires IsWord(f) && after != [] && after[0] == COLON
    ensures f + after != [] && !IsSpace((f + after)[0]) && (f + after)[0] != CLOSE
    ensures ReadScalar(f + after, [COLON], VALUE_ROOM) == Scalar(f, after)
  {
    hide Plain, Trim;
    assert (f + after)[0] == f[0];
    PlainReads(f, after, [COLON], [], VALUE_ROOM);
    TrimWord(f);
    assert [] + f == f;
  }

  lemma FieldValue(v: int, rest: seq<u8>)
    requires Printable(v) && rest != [] && (rest[0] == COMMA || rest[0] == CLOSE)
    ensures var p := Signed(v) + rest;
            p != [] && !IsSpace(p[0]) && ReadScalar(p, [COMMA, CLOSE], VALUE_ROOM) == Scalar(Signed(v), rest)
  {
    hide Plain, Trim, Signed;
    var s := Signed(v);
    SignedClean(v);
    SignedReads(v);
    assert (s + rest)[0] == s[0];
    assert s[|s| - 1] == MINUS || IsDigit(s[|s| - 1]);
    PlainReads(s, rest, [COMMA, CLOSE], [], VALUE_ROOM);
    TrimWord(s);
    assert [] + s == s;
  }

  lemma NoSpace(p: seq<u8>)
    requires p != [] && !IsSpace(p[0])
    ensures SkipSpace(p) == p
  {
  }

  lemma CommaSkipped(p: seq<u8>)
    ensures SkipComma(SkipSpace([COMMA] + p)) == p
    ensures SkipComma(SkipSpace([CLOSE] + p)) == [CLOSE] + p
  {
    assert ([COMMA] + p)[1..] == p;
  }

  lemma SpaceFirst(p: seq<u8>, row: Row)
    ensures FlowFields([SPACE] + p, row) == FlowFields(p, row)
  {
    assert ([SPACE] + p)[1..] == p;
    assert SkipSpace([SPACE] + p) == SkipSpace(p);
  }

  lemma FieldParts(field: seq<u8>, v: int, rest: seq<u8>)
    ensures FlowField(field, v) + rest == field + ([COLON] + ([SPACE] + (Signed(v) + rest)))
  {
    hide Signed;
  }

  /** One field sets the row's, and reading goes on after it. */
  lemma FlowFieldReads(field: seq<u8>, v: int, rest: seq<u8>, row: Row)
    requires IsWord(field) && Printable(v) && rest != [] && (rest[0] == COMMA || rest[0] == CLOSE)
    ensures FlowFields(FlowField(field, v) + rest, row)
         == FlowFields(SkipComma(SkipSpace(rest)), WithField(row, field, v))
  {
    hide Signed, FlowField, ReadScalar, SkipComma, WithField, Number;
    var tail := [SPACE] + (Signed(v) + rest);
    FieldParts(field, v, rest);
    FieldName(field, [COLON] + tail);
    NoSpace(field + ([COLON] + tail));
    assert ([COLON] + tail)[1..] == tail;
    FieldValue(v, rest);
    SpaceSkipped(Signed(v) + rest);
    SignedReads(v);
  }

  /** A row with these fields set, in order. */
  function SetAll(row: Row, fs: seq<(seq<u8>, int)>): Row
    decreases |fs|
  {
    if fs == [] then row else SetAll(WithField(row, fs[0].0, fs[0].1), fs[1..])
  }

  predicate GoodFields(fs: seq<(seq<u8>, int)>) {
    forall i {:trigger fs[i]} :: 0 <= i < |fs| ==> IsWord(fs[i].0) && Printable(fs[i].1)
  }

  lemma {:induction false} FieldsRead(fs: seq<(seq<u8>, int)>, rest: seq<u8>, row: Row)
    requires GoodFields(fs)
    ensures FlowFields(FieldsText(fs, rest), row) == Fields(SetAll(row, fs), rest)
    decreases |fs|
  {
    hide FlowField, WithField, IsWord, Printable, ReadScalar;
    if fs == [] {
      assert ([CLOSE] + rest)[1..] == rest;
      NoSpace([CLOSE] + rest);
    } else {
      var (field, v) := fs[0];
      var row1 := WithField(row, field, v);
      if |fs| == 1 {
        FlowFieldReads(field, v, [CLOSE] + rest, row);
        CommaSkipped(rest);
        FieldsRead([], rest, row1);
        assert fs[1..] == [];
      } else {
        var more := FieldsText(fs[1..], rest);
        FlowFieldReads(field, v, [COMMA] + ([SPACE] + more), row);
        assert [COMMA, SPACE] + more == [COMMA] + ([SPACE] + more);
        CommaSkipped([SPACE] + more);
        SpaceFirst(more, row1);
        FieldsRead(fs[1..], rest, row1);
      }
    }
  }

  lemma SetFirst(row: Row, f: seq<u8>, v: int, fs: seq<(seq<u8>, int)>)
    ensures SetAll(row, [(f, v)] + fs) == SetAll(WithField(row, f, v), fs)
  {
    assert ([(f, v)] + fs)[1..] == fs;
  }

  /** The part of a row's fields that is there, or none. */
  function Part(f: seq<u8>, v: Option<int>): seq<(seq<u8>, int)> {
    if v.Some? then [(f, v.value)] else []
  }

  lemma SetPart(row: Row, f: seq<u8>, v: Option<int>, fs: seq<(seq<u8>, int)>)
    ensures SetAll(row, Part(f, v) + fs) == SetAll(if v.Some? then WithField(row, f, v.value) else row, fs)
  {
    if v.Some? {
      SetFirst(row, f, v.value, fs);
    } else {
      assert Part(f, v) + fs == fs;
    }
  }

  lemma RowFields(r: Row)
    requires FlowGood(r)
    ensures GoodFields(FieldsOf(r)) && SetAll(NewRow(r.name), FieldsOf(r)) == r
  {
    hide IsWord, Printable, SetAll, ORDER, TIME_CREATED, TIME_MODIFIED;
    FieldsAreWords();
    var a, b, c := Part(ORDER, r.order), Part(TIME_CREATED, r.created), Part(TIME_MODIFIED, r.modified);
    var row0 := NewRow(r.name);
    var row1 := row0.(order := r.order);
    var row2 := row1.(created := r.created);
    assert FieldsOf(r) == a + (b + (c + []));
    SetPart(row0, ORDER, r.order, b + (c + []));
    SetPart(row1, TIME_CREATED, r.created, c + []);
    SetPart(row2, TIME_MODIFIED, r.modified, []);
    SetNone(r);
  }

  lemma SetNone(row: Row)
    ensures SetAll(row, []) == row
  {
  }

  /* ---- Rows ------------------------------------------------------------------------------------ */

  lemma UnquotedReads(name: seq<u8>, after: seq<u8>)
    requires Unquoted(name) && |name| <= ROW_NAME_LEN && after != [] && after[0] == COLON
    ensures name + after != [] && !IsSpace((name + after)[0]) && (name + after)[0] != CLOSE
    ensures ReadScalar(name + after, [COLON], KEY_ROOM) == Scalar(name, after)
  {
    hide Plain, Trim;
    assert (name + after)[0] == name[0];
    PlainReads(name, after, [COLON], [], KEY_ROOM);
    TrimWord(name);
    assert [] + name == name;
  }

  lemma FlowKeyReads(name: seq<u8>, after: seq<u8>)
    requires |name| <= ROW_NAME_LEN && after != [] && after[0] == COLON
    ensures var p := FlowKey(name) + after;
      && p != [] && !IsSpace(p[0]) && p[0] != CLOSE && ReadScalar(p, [COLON], KEY_ROOM) == Scalar(name, after)
  {
    hide Unquoted, QuotedKey, Doubled, Quoted, Plain;
    if Unquoted(name) {
      UnquotedReads(name, after);
    } else {
      QuotedParts(name, after);
      DoubledReads(name, after, [], KEY_ROOM);
      assert [] + name == name;
    }
  }

  lemma RowParts(r: Row, rest: seq<u8>)
    ensures RowText(r, rest)
         == FlowKey(r.name) + ([COLON] + ([SPACE] + ([OPEN] + FieldsText(FieldsOf(r), rest))))
  {
    hide FlowKey, FieldsText, FieldsOf;
    assert [COLON, SPACE, OPEN] == [COLON] + [SPACE] + [OPEN];
  }

  /** One row is added, and reading goes on after it. */
  lemma RowReads(r: Row, rest: seq<u8>, rows: seq<Row>)
    requires FlowGood(r)
    ensures FlowRows(RowText(r, rest), rows) == FlowRows(SkipComma(SkipSpace(rest)), rows + [r])
  {
    hide FlowKey, FieldsText, FieldsOf, ReadScalar, FlowFields, SkipComma, NewRow, SetAll, GoodFields;
    var fields := FieldsText(FieldsOf(r), rest);
    var open := [OPEN] + fields;
    var after := [COLON] + ([SPACE] + open);
    RowParts(r, rest);
    FlowKeyReads(r.name, after);
    NoSpace(FlowKey(r.name) + after);
    assert after[1..] == [SPACE] + open && open[1..] == fields;
    SpaceSkipped(open);
    RowFields(r);
    FieldsRead(FieldsOf(r), rest, NewRow(r.name));
  }

  lemma RowSpaceFirst(p: seq<u8>, rows: seq<Row>)
    ensures FlowRows([SPACE] + p, rows) == FlowRows(p, rows)
  {
    assert ([SPACE] + p)[1..] == p;
    assert SkipSpace([SPACE] + p) == SkipSpace(p);
  }

  lemma {:induction false} FlowRowsRead(rs: seq<Row>, rest: seq<u8>, rows: seq<Row>)
    requires AllFlowGood(rs)
    ensures FlowRows(RowsText(rs, rest), rows) == Some(rows + rs)
    decreases |rs|
  {
    hide RowText, FlowGood;
    if rs == [] {
      NoSpace([CLOSE] + rest);
      assert rows + rs == rows;
    } else {
      var next := rows + [rs[0]];
      assert next + rs[1..] == rows + rs;
      if |rs| == 1 {
        RowReads(rs[0], [CLOSE] + rest, rows);
        CommaSkipped(rest);
        FlowRowsRead([], rest, next);
        assert rs[1..] == [];
      } else {
        var more := RowsText(rs[1..], rest);
        RowReads(rs[0], [COMMA] + ([SPACE] + more), rows);
        assert [COMMA, SPACE] + more == [COMMA] + ([SPACE] + more);
        CommaSkipped([SPACE] + more);
        RowSpaceFirst(more, next);
        FlowRowsRead(rs[1..], rest, next);
      }
    }
  }

  /* ---- The whole index -------------------------------------------------------------------------- */

  lemma {:induction false} FieldsNoNul(fs: seq<(seq<u8>, int)>, rest: seq<u8>)
    requires GoodFields(fs) && 0 !in rest
    ensures 0 !in FieldsText(fs, rest)
    decreases |fs|
  {
    hide Signed;
    if fs != [] {
      SignedClean(fs[0].1);
      FieldsNoNul(fs[1..], rest);
    }
  }

  lemma {:induction false} TextNoNul(rs: seq<Row>, rest: seq<u8>)
    requires AllFlowGood(rs) && 0 !in rest
    ensures 0 !in RowsText(rs, rest)
    decreases |rs|
  {
    hide FieldsText, FieldsOf, Doubled;
    if rs != [] {
      TextNoNul(rs[1..], rest);
      var after := if |rs| == 1 then [CLOSE] + rest else [COMMA, SPACE] + RowsText(rs[1..], rest);
      RowFields(rs[0]);
      FieldsNoNul(FieldsOf(rs[0]), after);
      DoubledClean(rs[0].name, 0);
    }
  }

  /** Any rows printed in this form read back. */
  lemma FlowReads(rs: seq<Row>)
    requires AllFlowGood(rs)
    ensures ParseIndex(FlowPrinted(rs)) == Some(rs)
  {
    hide RowsText, FlowRows, BlockRows, CString;
    TextNoNul(rs, []);
    var text := FlowPrinted(rs);
    WholeCString(text);
    NoSpace(text);
    assert text[1..] == RowsText(rs, []);
    FlowRowsRead(rs, [], []);
    assert [] + rs == rs;
  }

  /** The two forms of the same rows read alike. */
  lemma FormsAgree(created: int, modified: int, rs: seq<Row>)
    requires Printable(created) && Printable(modified) && AllGood(rs) && AllFull(rs)
    ensures ParseIndex(FlowPrinted([RootRow(created, modified)] + rs)) == ParseIndex(Printed(created, modified, rs))
  {
    hide ParseIndex, FlowPrinted, Printed;
    IndexReads(created, modified, rs);
    var all := [RootRow(created, modified)] + rs;
    assert |ROOT_KEY| == 5;
    forall i | 0 <= i < |all| ensures FlowGood(all[i]) {
      if i > 0 {
        assert all[i] == rs[i - 1];
      }
    }
    FlowReads(all);
  }
}
