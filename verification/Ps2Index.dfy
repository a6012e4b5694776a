/** The text index of a PS2 folder card: printing it, and the reader for both forms it comes in. */
module Ps2Index {
  import opened Bytes
  import opened Status
  import opened Text

  const TAB: u8 := 0x09
  const NEWLINE: u8 := 0x0A
  const RETURN: u8 := 0x0D
  const SPACE: u8 := 0x20
  const DOUBLE: u8 := 0x22
  const HASH: u8 := 0x23
  const QUOTE: u8 := 0x27
  const COMMA: u8 := 0x2C
  const MINUS: u8 := 0x2D
  const ZERO: u8 := 0x30
  const COLON: u8 := 0x3A
  const BACKSLASH: u8 := 0x5C
  const OPEN: u8 := 0x7B
  const CLOSE: u8 := 0x7D

  const ORDER: seq<u8> := [0x6F, 0x72, 0x64, 0x65, 0x72]   // order
  const TIME_CREATED: seq<u8> := [0x74, 0x69, 0x6D, 0x65, 0x43, 0x72, 0x65, 0x61, 0x74, 0x65, 0x64]   // timeCreated
  /** timeModified */
  const TIME_MODIFIED: seq<u8> := [0x74, 0x69, 0x6D, 0x65, 0x4D, 0x6F, 0x64, 0x69, 0x66, 0x69, 0x65, 0x64]
  const ROOT_KEY: seq<u8> := [0x24, 0x52, 0x4F, 0x4F, 0x54]   // $ROOT
  const OTHER_ROOT_KEY: seq<u8> := [0x25, 0x52, 0x4F, 0x4F, 0x54]   // %ROOT

  const ROW_NAME_LEN := 32
  const KEY_ROOM := 40
  const VALUE_ROOM := 32

  const MAX64 := 0x7FFF_FFFF_FFFF_FFFF

  datatype Row = Row(name: seq<u8>, order: Option<int>, created: Option<int>, modified: Option<int>)

  /** A new row; its name is cut to what a row holds. */
  function NewRow(key: seq<u8>): Row {
    Row(if |key| > ROW_NAME_LEN then key[..ROW_NAME_LEN] else key, None, None, None)
  }

  /** The row the reader makes of the root's own lines. */
  function RootRow(created: int, modified: int): Row {
    NewRow(ROOT_KEY).(created := Some(created), modified := Some(modified))
  }

  /** Fields of other names are passed over. */
  function WithField(r: Row, field: seq<u8>, v: int): Row {
    if field == ORDER then r.(order := Some(v))
    else if field == TIME_CREATED then r.(created := Some(v))
    else if field == TIME_MODIFIED then r.(modified := Some(v))
    else r
  }

  /** The first row of that name. */
  function RowFor(rows: seq<Row>, name: seq<u8>): Option<Row> {
    if rows == [] then None else if rows[0].name == name then Some(rows[0]) else RowFor(rows[1..], name)
  }

  /* ---- Scalars -------------------------------------------------------------------------------------------- */

  predicate IsSpace(c: u8) {
    c == SPACE || c == TAB || c == RETURN || c == NEWLINE
  }

  function SkipSpace(p: seq<u8>): (q: seq<u8>)
    ensures |q| <= |p|
  {
    if p != [] && IsSpace(p[0]) then SkipSpace(p[1..]) else p
  }

  datatype Scalar = NoFit | Scalar(text: seq<u8>, rest: seq<u8>)

  /** The rest of a quoted scalar, with `out` read of it: single quotes double inside single quotes, and a
      backslash takes the next byte as it is inside double ones. */
  function Quoted(p: seq<u8>, quote: u8, out: seq<u8>, room: nat): (r: Scalar)
    ensures r.Scalar? ==> |r.rest| < |p|
    decreases |p|
  {
    if p == [] then NoFit
    else if p[0] == quote then
      if quote == QUOTE && |p| > 1 && p[1] == QUOTE then
        if |out| + 1 >= room then NoFit else Quoted(p[2..], quote, out + [QUOTE], room)
      else Scalar(out, p[1..])
    else
      var q := if quote == DOUBLE && p[0] == BACKSLASH && |p| > 1 then p[1..] else p;
      if |out| + 1 >= room then NoFit else Quoted(q[1..], quote, out + [q[0]], room)
  }

  function Trim(out: seq<u8>): seq<u8> {
    if out != [] && (out[|out| - 1] == SPACE || out[|out| - 1] == TAB || out[|out| - 1] == RETURN)
      then Trim(out[..|out| - 1]) else out
  }

  /** The rest of a plain scalar, up to any of `stops`. */
  function Plain(p: seq<u8>, stops: seq<u8>, out: seq<u8>, room: nat): (r: Scalar)
    ensures r.Scalar? ==> |r.rest| <= |p|
    decreases |p|
  {
    if p == [] || p[0] in stops then Scalar(Trim(out), p)
    else if |out| + 1 >= room then NoFit
    else Plain(p[1..], stops, out + [p[0]], room)
  }

  function ReadScalar(p: seq<u8>, stops: seq<u8>, room: nat): (r: Scalar)
    ensures r.Scalar? ==> |r.rest| <= |p|
  {
    if p != [] && (p[0] == QUOTE || p[0] == DOUBLE) then Quoted(p[1..], p[0], [], room) else Plain(p, stops, [], room)
  }

  /* ---- Numbers ---------------------------------------------------------------------------------------------- */

  predicate IsDigit(c: u8) {
    ZERO <= c <= ZERO + 9
  }

  predicate IsBlank(c: u8) {
    c == SPACE || TAB <= c <= RETURN
  }

  function SkipBlank(p: seq<u8>): seq<u8> {
    if p != [] && IsBlank(p[0]) then SkipBlank(p[1..]) else p
  }

  /** The digits `p` begins with, read after `acc`. */
  function Digits(p: seq<u8>, acc: nat): nat {
    if p == [] || !IsDigit(p[0]) then acc else Digits(p[1..], 10 * acc + (p[0] - ZERO))
  }

  function Clamped(v: int): int {
    if v > MAX64 then MAX64 else if v < -MAX64 - 1 then -MAX64 - 1 else v
  }

  /** The number `p` begins with, cut off at 64 bits. */
  function Number(p: seq<u8>): int {
    var q := SkipBlank(p);
    if q != [] && q[0] == MINUS then Clamped(0 - Digits(q[1..], 0))
    else if q != [] && q[0] == 0x2B then Clamped(Digits(q[1..], 0))
    else Clamped(Digits(q, 0))
  }

  function Decimal(n: nat): (s: seq<u8>)
    ensures |s| >= 1 && forall i {:trigger s[i]} :: 0 <= i < |s| ==> IsDigit(s[i])
  {
    if n < 10 then [ZERO + n] else Decimal(n / 10) + [ZERO + n % 10]
  }

  function Signed(v: int): (s: seq<u8>)
    ensures |s| >= 1
  {
    if v < 0 then [MINUS] + Decimal(-v) else Decimal(v)
  }

  /* ---- The block form ---------------------------------------------------------------------------------------- */

  function NextLine(p: seq<u8>): (q: seq<u8>)
    ensures p != [] ==> |q| < |p|
  {
    if p == [] then [] else if p[0] == NEWLINE then p[1..] else NextLine(p[1..])
  }

  function SkipIndent(p: seq<u8>): (q: seq<u8>)
    ensures |q| <= |p|
  {
    if p != [] && (p[0] == SPACE || p[0] == TAB) then SkipIndent(p[1..]) else p
  }

  predicate Passed(text: seq<u8>) {
    text == [] || text[0] == NEWLINE || text[0] == RETURN || text[0] == HASH
  }

  /** The rows once the line `p` begins with is read: a key at its start opens a row, an indented one sets a
      field of the last. */
  function BlockLine(p: seq<u8>, rows: seq<Row>): Option<seq<Row>> {
    var text := SkipIndent(p);
    if Passed(text) then Some(rows)
    else
      var key := ReadScalar(text, [COLON, NEWLINE], KEY_ROOM);
      if key.NoFit? || key.rest == [] || key.rest[0] != COLON then None
      else if |text| == |p| then Some(rows + [NewRow(key.text)])
      else if rows == [] then None
      else
        var value := ReadScalar(SkipSpace(key.rest[1..]), [NEWLINE], VALUE_ROOM);
        if value.NoFit? then None
        else Some(rows[|rows| - 1 := WithField(rows[|rows| - 1], key.text, Number(value.text))])
  }

  function BlockRows(p: seq<u8>, rows: seq<Row>): Option<seq<Row>>
    decreases |p|
  {
    if p == [] then Some(rows)
    else match BlockLine(p, rows)
         case None => None
         case Some(next) => BlockRows(NextLine(p), next)
  }

  /* ---- The flow form ------------------------------------------------------------------------------------------ */

  function SkipComma(p: seq<u8>): (q: seq<u8>)
    ensures |q| <= |p|
  {
    if p != [] && p[0] == COMMA then p[1..] else p
  }

  datatype Fields = NoFields | Fields(row: Row, rest: seq<u8>)

  function FlowFields(p: seq<u8>, row: Row): (r: Fields)
    ensures r.Fields? ==> |r.rest| < |p|
    decreases |p|
  {
    var q := SkipSpace(p);
    if q != [] && q[0] == CLOSE then Fields(row, q[1..])
    else
      var field := ReadScalar(q, [COLON], VALUE_ROOM);
      if field.NoFit? || field.rest == [] || field.rest[0] != COLON then NoFields
      else
        var value := ReadScalar(SkipSpace(field.rest[1..]), [COMMA, CLOSE], VALUE_ROOM);
        if value.NoFit? then NoFields
        else FlowFields(SkipComma(SkipSpace(value.rest)), WithField(row, field.text, Number(value.text)))
  }

  function FlowRows(p: seq<u8>, rows: seq<Row>): Option<seq<Row>>
    decreases |p|
  {
    var q := SkipSpace(p);
    if q != [] && q[0] == CLOSE then Some(rows)
    else
      var key := ReadScalar(q, [COLON], KEY_ROOM);
      if key.NoFit? || key.rest == [] || key.rest[0] != COLON then None
      else
        var open := SkipSpace(key.rest[1..]);
        if open == [] || open[0] != OPEN then None
        else
          match FlowFields(open[1..], NewRow(key.text))
          case NoFields => None
          case Fields(row, rest) => FlowRows(SkipComma(SkipSpace(rest)), rows + [row])
  }

  /** The rows of an index in either form. */
  function ParseIndex(data: seq<u8>): Option<seq<Row>> {
    var start := SkipSpace(CString(data));
    if start != [] && start[0] == OPEN then FlowRows(start[1..], []) else BlockRows(start, [])
  }

  /* ---- Printing ------------------------------------------------------------------------------------------------- */

  function Doubled(name: seq<u8>): seq<u8> {
    if name == [] then [] else (if name[0] == QUOTE then [QUOTE, QUOTE] else [name[0]]) + Doubled(name[1..])
  }

  function QuotedKey(name: seq<u8>): seq<u8> {
    [QUOTE] + Doubled(name) + [QUOTE]
  }

  function KeyLine(key: seq<u8>): seq<u8> {
    key + [COLON, NEWLINE]
  }

  function FieldLine(field: seq<u8>, v: int): seq<u8> {
    [SPACE, SPACE] + field + [COLON, SPACE] + Signed(v) + [NEWLINE]
  }

  function Times(created: int, modified: int): seq<u8> {
    FieldLine(TIME_CREATED, created) + FieldLine(TIME_MODIFIED, modified)
  }

  /** A row whose fields are all there. */
  predicate Full(r: Row) {
    r.order.Some? && r.created.Some? && r.modified.Some?
  }

  function PrintRow(r: Row): seq<u8>
    requires Full(r)
  {
    KeyLine(QuotedKey(r.name)) + FieldLine(ORDER, r.order.value) + Times(r.created.value, r.modified.value)
  }

  predicate AllFull(rows: seq<Row>) {
    forall i {:trigger rows[i]} :: 0 <= i < |rows| ==> Full(rows[i])
  }

  function PrintRows(rows: seq<Row>): seq<u8>
    requires AllFull(rows)
  {
    if rows == [] then [] else PrintRows(rows[..|rows| - 1]) + PrintRow(rows[|rows| - 1])
  }

  /** The index of a folder with these dates and rows. */
  function Printed(created: int, modified: int, rows: seq<Row>): seq<u8>
    requires AllFull(rows)
  {
    KeyLine(ROOT_KEY) + Times(created, modified) + PrintRows(rows)
  }

  /* ---- The reader ------------------------------------------------------------------------------------------------ */

  lemma Onward<T>(s: seq<T>, p: nat)
    requires p < |s|
    ensures s[p..] != [] && s[p..][0] == s[p] && s[p..][1..] == s[p + 1..]
  {
  }

  method SkipSpaceAt(s: seq<u8>, from: nat) returns (p: nat)
    requires from <= |s|
    ensures from <= p <= |s| && SkipSpace(s[from..]) == s[p..]
  {
    p := from;
    while p < |s| && IsSpace(s[p])
      invariant from <= p <= |s| && SkipSpace(s[from..]) == SkipSpace(s[p..])
    {
      Onward(s, p);
      p := p + 1;
    }
    if p < |s| {
      Onward(s, p);
    }
  }

  /** Reads on in a quoted scalar. */
  method QuotedAt(s: seq<u8>, from: nat, quote: u8, room: nat) returns (ok: bool, out: seq<u8>, p: nat)
    requires from <= |s|
    ensures from <= p <= |s| && Quoted(s[from..], quote, [], room) == if ok then Scalar(out, s[p..]) else NoFit
  {
    p, out := from, [];
    while true
      invariant from <= p <= |s| && Quoted(s[from..], quote, [], room) == Quoted(s[p..], quote, out, room)
      decreases |s| - p
    {
      if p == |s| {
        return false, out, p;
      }
      Onward(s, p);
      assert p + 2 <= |s| ==> s[p..][2..] == s[p + 2..] && s[p..][1] == s[p + 1];
      if s[p] == quote {
        if quote == QUOTE && p + 1 < |s| && s[p + 1] == QUOTE {
          if |out| + 1 >= room {
            return false, out, p;
          }
          out := out + [QUOTE];
          p := p + 2;
        } else {
          return true, out, p + 1;
        }
      } else {
        var q := if quote == DOUBLE && s[p] == BACKSLASH && p + 1 < |s| then p + 1 else p;
        Onward(s, q);
        if |out| + 1 >= room {
          return false, out, p;
        }
        out := out + [s[q]];
        p := q + 1;
      }
    }
  }

  /** Reads a plain scalar up to any of `stops`, and cuts the spaces behind it. */
  method PlainAt(s: seq<u8>, from: nat, stops: seq<u8>, room: nat) returns (ok: bool, out: seq<u8>, p: nat)
    requires from <= |s|
    ensures from <= p <= |s| && Plain(s[from..], stops, [], room) == if ok then Scalar(out, s[p..]) else NoFit
  {
    p, out := from, [];
    while p < |s| && s[p] !in stops
      invariant from <= p <= |s| && Plain(s[from..], stops, [], room) == Plain(s[p..], stops, out, room)
    {
      Onward(s, p);
      if |out| + 1 >= room {
        return false, out, p;
      }
      out := out + [s[p]];
      p := p + 1;
    }
    if p < |s| {
      Onward(s, p);
    }
    ghost var all := out;
    while out != [] && (out[|out| - 1] == SPACE || out[|out| - 1] == TAB || out[|out| - 1] == RETURN)
      invariant Trim(all) == Trim(out)
    {
      out := out[..|out| - 1];
    }
    ok := true;
  }

  method ScalarAt(s: seq<u8>, from: nat, stops: seq<u8>, room: nat) returns (ok: bool, out: seq<u8>, p: nat)
    requires from <= |s|
    ensures from <= p <= |s| && ReadScalar(s[from..], stops, room) == if ok then Scalar(out, s[p..]) else NoFit
  {
    hide Quoted, Plain;
    if from < |s| && (s[from] == QUOTE || s[from] == DOUBLE) {
      Onward(s, from);
      ok, out, p := QuotedAt(s, from + 1, s[from], room);
    } else {
      ok, out, p := PlainAt(s, from, stops, room);
    }
  }

  method NextLineAt(s: seq<u8>, from: nat) returns (p: nat)
    requires from <= |s|
    ensures from <= p <= |s| && (from < |s| ==> from < p) && NextLine(s[from..]) == s[p..]
  {
    p := from;
    while p < |s| && s[p] != NEWLINE
      invariant from <= p <= |s| && NextLine(s[from..]) == NextLine(s[p..])
    {
      Onward(s, p);
      p := p + 1;
    }
    if p < |s| {
      Onward(s, p);
      p := p + 1;
    }
  }

  method SkipIndentAt(s: seq<u8>, from: nat) returns (p: nat)
    requires from <= |s|
    ensures from <= p <= |s| && SkipIndent(s[from..]) == s[p..]
  {
    p := from;
    while p < |s| && (s[p] == SPACE || s[p] == TAB)
      invariant from <= p <= |s| && SkipIndent(s[from..]) == SkipIndent(s[p..])
    {
      Onward(s, p);
      p := p + 1;
    }
    if p < |s| {
      Onward(s, p);
    }
  }

  /** Reads the line at `from`. */
  method BlockLineAt(s: seq<u8>, from: nat, rows: seq<Row>) returns (next: Option<seq<Row>>)
    requires from < |s|
    ensures next == BlockLine(s[from..], rows)
  {
    hide ReadScalar, SkipIndent, SkipSpace;
    var text := SkipIndentAt(s, from);
    if text < |s| {
      Onward(s, text);
    }
    if text == |s| || s[text] == NEWLINE || s[text] == RETURN || s[text] == HASH {
      return Some(rows);
    }
    var ok, key, after := ScalarAt(s, text, [COLON, NEWLINE], KEY_ROOM);
    if !ok || after == |s| {
      return None;
    }
    Onward(s, after);
    if s[after] != COLON {
      return None;
    }
    if text == from {
      return Some(rows + [NewRow(key)]);
    }
    if rows == [] {
      return None;
    }
    var at := SkipSpaceAt(s, after + 1);
    var fits, value, _ := ScalarAt(s, at, [NEWLINE], VALUE_ROOM);
    if !fits {
      return None;
    }
    next := Some(rows[|rows| - 1 := WithField(rows[|rows| - 1], key, Number(value))]);
  }

  method ParseBlock(s: seq<u8>) returns (rows: Option<seq<Row>>)
    ensures rows == BlockRows(s, [])
  {
    hide BlockLine, NextLine;
    var p, sofar: seq<Row> := 0, [];
    assert s[0..] == s;
    while p < |s|
      invariant p <= |s| && BlockRows(s, []) == BlockRows(s[p..], sofar)
      decreases |s| - p
    {
      var line := BlockLineAt(s, p, sofar);
      var next := NextLineAt(s, p);
      if line.None? {
        return None;
      }
      p, sofar := next, line.value;
    }
    rows := Some(sofar);
  }

  method SkipCommaAt(s: seq<u8>, from: nat) returns (p: nat)
    requires from <= |s|
    ensures from <= p <= |s| && SkipComma(SkipSpace(s[from..])) == s[p..]
  {
    p := SkipSpaceAt(s, from);
    if p < |s| {
      Onward(s, p);
      if s[p] == COMMA {
        p := p + 1;
      }
    }
  }

  /** Reads the fields of one row, up to their closing brace. */
  method FieldsAt(s: seq<u8>, from: nat, row: Row) returns (ok: bool, r: Row, p: nat)
    requires from <= |s|
    ensures from <= p <= |s| && FlowFields(s[from..], row) == if ok then Fields(r, s[p..]) else NoFields
    ensures ok ==> from < p
  {
    hide ReadScalar, SkipSpace, SkipComma, Number, WithField;
    r, p := row, from;
    while true
      invariant from <= p <= |s| && FlowFields(s[from..], row) == FlowFields(s[p..], r)
      decreases |s| - p
    {
      var q := SkipSpaceAt(s, p);
      if q < |s| {
        Onward(s, q);
        if s[q] == CLOSE {
          return true, r, q + 1;
        }
      }
      var fits, field, after := ScalarAt(s, q, [COLON], VALUE_ROOM);
      if !fits || after == |s| {
        return false, r, p;
      }
      Onward(s, after);
      if s[after] != COLON {
        return false, r, p;
      }
      var at := SkipSpaceAt(s, after + 1);
      var value, end;
      fits, value, end := ScalarAt(s, at, [COMMA, CLOSE], VALUE_ROOM);
      if !fits {
        return false, r, p;
      }
      r := WithField(r, field, Number(value));
      p := SkipCommaAt(s, end);
    }
  }

  method ParseFlow(s: seq<u8>, from: nat) returns (rows: Option<seq<Row>>)
    requires from <= |s|
    ensures rows == FlowRows(s[from..], [])
  {
    hide ReadScalar, SkipSpace, SkipComma, FlowFields, NewRow, IsSpace;
    var p, sofar: seq<Row> := from, [];
    while true
      invariant from <= p <= |s| && FlowRows(s[from..], []) == FlowRows(s[p..], sofar)
      decreases |s| - p
    {
      var q := SkipSpaceAt(s, p);
      if q < |s| {
        Onward(s, q);
        if s[q] == CLOSE {
          return Some(sofar);
        }
      }
      var fits, key, after := ScalarAt(s, q, [COLON], KEY_ROOM);
      if !fits || after == |s| {
        return None;
      }
      Onward(s, after);
      if s[after] != COLON {
        return None;
      }
      var open := SkipSpaceAt(s, after + 1);
      if open == |s| {
        return None;
      }
      Onward(s, open);
      if s[open] != OPEN {
        return None;
      }
      var ok, row, end := FieldsAt(s, open + 1, NewRow(key));
      if !ok {
        return None;
      }
      sofar := sofar + [row];
      p := SkipCommaAt(s, end);
    }
  }

  /** Reads an index in either form. */
  method ReadIndex(data: seq<u8>) returns (rows: Option<seq<Row>>)
    ensures rows == ParseIndex(data)
  {
    hide FlowRows, BlockRows;
    var text := CString(data);
    assert text[0..] == text;
    var start := SkipSpaceAt(text, 0);
    if start < |text| {
      Onward(text, start);
      if text[start] == OPEN {
        rows := ParseFlow(text, start + 1);
        return;
      }
    }
    rows := ParseBlock(text[start..]);
  }

  /** Quotes a key, its own quotes doubled. */
  method WriteKey(name: seq<u8>) returns (out: seq<u8>)
    ensures out == QuotedKey(name)
  {
    out := [QUOTE];
    for i := 0 to |name|
      invariant out + Doubled(name[i..]) == [QUOTE] + Doubled(name)
    {
      Onward(name, i);
      ghost var was := out;
      out := out + if name[i] == QUOTE then [QUOTE, QUOTE] else [name[i]];
      assert was + Doubled(name[i..]) == out + Doubled(name[i + 1..]);
    }
    assert name[|name|..] == [] && out + [] == out;
    out := out + [QUOTE];
  }
}
