/** The index of a PS2 folder card reads back as it was printed. */
module Ps2IndexTheorems {
  import opened Bytes
  import opened Status
  import opened Text
  import opened Ps2Index

  /** A name a row and a line hold. */
  predicate Keyable(name: seq<u8>) {
    |name| <= ROW_NAME_LEN && NEWLINE !in name && 0 !in name
  }

  /** A number that prints in the room a value has. */
  predicate Printable(v: int) {
    -1_000_000_000_000_000_000 < v < 1_000_000_000_000_000_000
  }

  predicate Good(r: Row) {
    Full(r) && Keyable(r.name) && Printable(r.order.value) && Printable(r.created.value) && Printable(r.modified.value)
  }

  lemma Regroup<T>(a: seq<T>, b: seq<T>, c: seq<T>)
    ensures a + b + c == a + (b + c)
  {
  }

  /** A doubled name reads back to its closing quote. */
  lemma {:induction false} DoubledReads(name: seq<u8>, rest: seq<u8>, out: seq<u8>, room: nat)
    requires |out| + |name| < room && (rest == [] || rest[0] != QUOTE)
    ensures Quoted(Doubled(name) + ([QUOTE] + rest), QUOTE, out, room) == Scalar(out + name, rest)
    decreases |name|
  {
    var p := Doubled(name) + ([QUOTE] + rest);
    if name == [] {
      assert p == [QUOTE] + rest && p[1..] == rest && out + name == out;
    } else {
      DoubledReads(name[1..], rest, out + [name[0]], room);
      var tail := Doubled(name[1..]) + ([QUOTE] + rest);
      assert out + [name[0]] + name[1..] == out + name;
      if name[0] == QUOTE {
        assert p == [QUOTE, QUOTE] + tail && p[2..] == tail;
      } else {
        assert p == [name[0]] + tail && p[1..] == tail;
      }
    }
  }

  ghost predicate NoneIn(word: seq<u8>, stops: seq<u8>) {
    forall i {:trigger word[i]} :: 0 <= i < |word| ==> word[i] !in stops
  }

  lemma {:induction false} PlainReads(word: seq<u8>, rest: seq<u8>, stops: seq<u8>, out: seq<u8>, room: nat)
    requires |out| + |word| < room && NoneIn(word, stops) && rest != [] && rest[0] in stops
    ensures Plain(word + rest, stops, out, room) == Scalar(Trim(out + word), rest)
    decreases |word|
  {
    var p := word + rest;
    if word == [] {
      assert p == rest && out + word == out;
    } else {
      assert p[0] == word[0] && p[1..] == word[1..] + rest && word[0] !in stops;
      assert NoneIn(word[1..], stops) by {
        assert forall i {:trigger word[1..][i]} :: 0 <= i < |word| - 1 ==> word[1..][i] == word[i + 1];
      }
      PlainReads(word[1..], rest, stops, out + [word[0]], room);
      assert out + [word[0]] + word[1..] == out + word;
    }
  }

  lemma {:induction false} LineEnds(line: seq<u8>, rest: seq<u8>)
    requires NEWLINE !in line
    ensures NextLine(line + ([NEWLINE] + rest)) == rest
  {
    var p := line + ([NEWLINE] + rest);
    if line == [] {
      assert p == [NEWLINE] + rest && p[1..] == rest;
    } else {
      assert p[0] == line[0] && p[0] in line && p[1..] == line[1..] + ([NEWLINE] + rest);
      LineEnds(line[1..], rest);
    }
  }

  /* ---- Numbers read back ---- */

  lemma {:induction false} DigitsJoin(a: seq<u8>, b: seq<u8>, acc: nat)
    requires forall i {:trigger a[i]} :: 0 <= i < |a| ==> IsDigit(a[i])
    ensures Digits(a + b, acc) == Digits(b, Digits(a, acc))
    decreases |a|
  {
    if a == [] {
      assert a + b == b;
    } else {
      assert (a + b)[0] == a[0] && (a + b)[1..] == a[1..] + b && IsDigit(a[0]);
      DigitsJoin(a[1..], b, 10 * acc + (a[0] - ZERO));
    }
  }

  lemma {:induction false} DecimalReads(n: nat)
    ensures Digits(Decimal(n), 0) == n
    decreases n
  {
    var last: u8 := ZERO + n % 10;
    var one: seq<u8> := [last];
    assert one[1..] == [];
    if n >= 10 {
      DecimalReads(n / 10);
      DigitsJoin(Decimal(n / 10), one, 0);
      assert Digits(one, n / 10) == Digits([], 10 * (n / 10) + n % 10);
    } else {
      assert Digits(one, 0) == Digits([], n);
    }
  }

  lemma {:induction false} DecimalShort(n: nat, power: nat, k: nat)
    requires k >= 1 && n < power && PowerOfTen(k) == power
    ensures |Decimal(n)| <= k
    decreases k
  {
    if n >= 10 {
      assert k > 1 && power == 10 * PowerOfTen(k - 1);
      DecimalShort(n / 10, PowerOfTen(k - 1), k - 1);
    }
  }

  function PowerOfTen(k: nat): nat {
    if k == 0 then 1 else 10 * PowerOfTen(k - 1)
  }

  lemma EighteenDigits()
    ensures PowerOfTen(18) == 1_000_000_000_000_000_000
  {
    assert PowerOfTen(6) == 1_000_000;
    assert PowerOfTen(12) == 1_000_000_000_000;
  }

  lemma SignedReads(v: int)
    requires Printable(v)
    ensures Number(Signed(v)) == v && |Signed(v)| <= 19
  {
    EighteenDigits();
    var n := if v < 0 then -v else v;
    DecimalReads(n);
    DecimalShort(n, PowerOfTen(18), 18);
    var s := Signed(v);
    assert IsDigit(Decimal(n)[0]);
    assert SkipBlank(s) == s;
    if v < 0 {
      assert s[1..] == Decimal(n);
    }
  }

  lemma SignedClean(v: int)
    ensures var s := Signed(v); forall i {:trigger s[i]} :: 0 <= i < |s| ==> s[i] == MINUS || IsDigit(s[i])
  {
  }

  /* ---- Lines read back ---- */

  /** Letters, few enough for a value's room. */
  predicate IsWord(f: seq<u8>) {
    1 <= |f| < VALUE_ROOM && forall i {:trigger f[i]} :: 0 <= i < |f| ==> 0x41 <= f[i] <= 0x7A
  }

  lemma FieldsAreWords()
    ensures IsWord(ORDER) && IsWord(TIME_CREATED) && IsWord(TIME_MODIFIED)
    ensures ORDER != TIME_CREATED && ORDER != TIME_MODIFIED && TIME_CREATED != TIME_MODIFIED
  {
    assert |ORDER| == 5 && |TIME_CREATED| == 11 && |TIME_MODIFIED| == 12;
  }

  lemma {:induction false} DoubledClean(name: seq<u8>, c: u8)
    requires c !in name && c != QUOTE
    ensures c !in Doubled(name)
  {
    if name != [] {
      assert name[0] in name;
      DoubledClean(name[1..], c);
    }
  }

  lemma TrimWord(f: seq<u8>)
    requires f != [] && f[|f| - 1] > SPACE
    ensures Trim(f) == f
  {
  }

  lemma BlockStep(line: seq<u8>, rest: seq<u8>, rows: seq<Row>, next: seq<Row>)
    requires line != [] && BlockLine(line + rest, rows) == Some(next) && NextLine(line + rest) == rest
    ensures BlockRows(line + rest, rows) == BlockRows(rest, next)
  {
    hide BlockLine, NextLine;
  }

  lemma KeyLineParts(key: seq<u8>, rest: seq<u8>)
    ensures KeyLine(key) + rest == key + ([COLON, NEWLINE] + rest) == key + [COLON] + ([NEWLINE] + rest)
  {
  }

  lemma QuotedParts(name: seq<u8>, after: seq<u8>)
    ensures var p := QuotedKey(name) + after;
            p != [] && p[0] == QUOTE && p[1..] == Doubled(name) + ([QUOTE] + after)
  {
    hide Doubled;
    var p := QuotedKey(name) + after;
    assert p == [QUOTE] + (Doubled(name) + ([QUOTE] + after));
  }

  /** A quoted key's line opens a row of its name. */
  lemma KeyReads(name: seq<u8>, rest: seq<u8>, rows: seq<Row>)
    requires Keyable(name)
    ensures BlockLine(KeyLine(QuotedKey(name)) + rest, rows) == Some(rows + [NewRow(name)])
    ensures NextLine(KeyLine(QuotedKey(name)) + rest) == rest
  {
    hide Doubled, QuotedKey, KeyLine, Quoted, NextLine;
    var after := [COLON, NEWLINE] + rest;
    KeyLineParts(QuotedKey(name), rest);
    QuotedParts(name, after);
    DoubledReads(name, after, [], KEY_ROOM);
    assert [] + name == name;
    KeyClean(name);
    LineEnds(QuotedKey(name) + [COLON], rest);
  }

  lemma KeyClean(name: seq<u8>)
    requires NEWLINE !in name
    ensures NEWLINE !in QuotedKey(name) + [COLON]
  {
    DoubledClean(name, NEWLINE);
  }

  lemma RootReads(rest: seq<u8>, rows: seq<Row>)
    ensures BlockLine(KeyLine(ROOT_KEY) + rest, rows) == Some(rows + [NewRow(ROOT_KEY)])
    ensures NextLine(KeyLine(ROOT_KEY) + rest) == rest
  {
    hide KeyLine, Plain, NextLine, Trim;
    var after := [COLON, NEWLINE] + rest;
    KeyLineParts(ROOT_KEY, rest);
    assert |ROOT_KEY| == 5 && NoneIn(ROOT_KEY, [COLON, NEWLINE]);
    PlainReads(ROOT_KEY, after, [COLON, NEWLINE], [], KEY_ROOM);
    TrimWord(ROOT_KEY);
    assert [] + ROOT_KEY == ROOT_KEY;
    LineEnds(ROOT_KEY + [COLON], rest);
  }

  lemma FieldLineParts(field: seq<u8>, v: int, rest: seq<u8>)
    ensures FieldLine(field, v) + rest
      == [SPACE] + ([SPACE] + (field + ([COLON] + ([SPACE] + (Signed(v) + ([NEWLINE] + rest))))))
    ensures FieldLine(field, v) + rest == ([SPACE, SPACE] + field + [COLON, SPACE] + Signed(v)) + ([NEWLINE] + rest)
  {
    hide Signed;
  }

  lemma IndentSkipped(text: seq<u8>)
    requires text != [] && text[0] != SPACE && text[0] != TAB
    ensures SkipIndent([SPACE] + ([SPACE] + text)) == text
  {
    var one := [SPACE] + text;
    assert SkipIndent(text) == text;
    assert one[1..] == text && SkipIndent(one) == text;
    assert ([SPACE] + one)[1..] == one;
  }

  lemma SpaceSkipped(text: seq<u8>)
    requires text != [] && !IsSpace(text[0])
    ensures SkipSpace([SPACE] + text) == text
  {
    assert ([SPACE] + text)[1..] == text;
  }

  lemma WordReads(f: seq<u8>, after: seq<u8>)
    requires IsWord(f) && after != [] && after[0] == COLON
    ensures !Passed(f + after) && (f + after)[0] != SPACE && (f + after)[0] != TAB
    ensures ReadScalar(f + after, [COLON, NEWLINE], KEY_ROOM) == Scalar(f, after)
  {
    hide Plain, Trim;
    assert (f + after)[0] == f[0];
    PlainReads(f, after, [COLON, NEWLINE], [], KEY_ROOM);
    TrimWord(f);
    assert [] + f == f;
  }

  lemma ValueReads(v: int, rest: seq<u8>)
    requires Printable(v)
    ensures var p := Signed(v) + ([NEWLINE] + rest);
            && p != [] && !IsSpace(p[0])
            && ReadScalar(p, [NEWLINE], VALUE_ROOM) == Scalar(Signed(v), [NEWLINE] + rest)
  {
    hide Plain, Trim, Signed;
    var s := Signed(v);
    SignedClean(v);
    SignedReads(v);
    assert (s + ([NEWLINE] + rest))[0] == s[0];
    assert s[|s| - 1] == MINUS || IsDigit(s[|s| - 1]);
    PlainReads(s, [NEWLINE] + rest, [NEWLINE], [], VALUE_ROOM);
    TrimWord(s);
    assert [] + s == s;
  }

  lemma FieldClean(field: seq<u8>, v: int)
    requires IsWord(field)
    ensures NEWLINE !in [SPACE, SPACE] + field + [COLON, SPACE] + Signed(v)
  {
    hide Signed;
    SignedClean(v);
  }

  /** A field's line sets it in the last row. */
  lemma FieldReads(field: seq<u8>, v: int, rest: seq<u8>, rows: seq<Row>)
    requires IsWord(field) && Printable(v) && rows != []
    ensures BlockLine(FieldLine(field, v) + rest, rows)
      == Some(rows[|rows| - 1 := WithField(rows[|rows| - 1], field, v)])
    ensures NextLine(FieldLine(field, v) + rest) == rest
  {
    hide FieldLine, Signed, ReadScalar, SkipSpace, SkipIndent, NextLine, Number, WithField, Passed;
    var p3 := Signed(v) + ([NEWLINE] + rest);
    var p2 := [COLON] + ([SPACE] + p3);
    var p1 := field + p2;
    FieldLineParts(field, v, rest);
    ValueReads(v, rest);
    SignedReads(v);
    WordReads(field, p2);
    IndentSkipped(p1);
    SpaceSkipped(p3);
    assert p2[1..] == [SPACE] + p3;
    FieldClean(field, v);
    LineEnds([SPACE, SPACE] + field + [COLON, SPACE] + Signed(v), rest);
  }

  lemma FieldStep(field: seq<u8>, v: int, rest: seq<u8>, rows: seq<Row>)
    requires IsWord(field) && Printable(v) && rows != []
    ensures BlockRows(FieldLine(field, v) + rest, rows)
      == BlockRows(rest, rows[|rows| - 1 := WithField(rows[|rows| - 1], field, v)])
  {
    hide BlockRows, BlockLine, NextLine, WithField;
    FieldReads(field, v, rest, rows);
    BlockStep(FieldLine(field, v), rest, rows, rows[|rows| - 1 := WithField(rows[|rows| - 1], field, v)]);
  }

  lemma LastSet<T>(rows: seq<T>, a: T, b: T)
    ensures (rows + [a])[|rows + [a]| - 1 := b] == rows + [b] && (rows + [a])[|rows + [a]| - 1] == a
  {
  }

  lemma TimesRead(created: int, modified: int, rest: seq<u8>, rows: seq<Row>, r: Row)
    requires Printable(created) && Printable(modified)
    ensures BlockRows(Times(created, modified) + rest, rows + [r])
      == BlockRows(rest, rows + [r.(created := Some(created), modified := Some(modified))])
  {
    hide BlockRows, FieldLine, TIME_CREATED, TIME_MODIFIED;
    FieldsAreWords();
    var r1 := r.(created := Some(created));
    var r2 := r1.(modified := Some(modified));
    WithTimes(r, created, modified);
    Regroup(FieldLine(TIME_CREATED, created), FieldLine(TIME_MODIFIED, modified), rest);
    FieldStep(TIME_CREATED, created, FieldLine(TIME_MODIFIED, modified) + rest, rows + [r]);
    LastSet(rows, r, r1);
    FieldStep(TIME_MODIFIED, modified, rest, rows + [r1]);
    LastSet(rows, r1, r2);
  }

  lemma WithTimes(r: Row, created: int, modified: int)
    ensures WithField(r, TIME_CREATED, created) == r.(created := Some(created))
    ensures WithField(r, TIME_MODIFIED, modified) == r.(modified := Some(modified))
  {
    FieldsAreWords();
  }

  lemma RowReads(r: Row, rest: seq<u8>, rows: seq<Row>)
    requires Good(r)
    ensures BlockRows(PrintRow(r) + rest, rows) == BlockRows(rest, rows + [r])
  {
    hide BlockRows, BlockLine, NextLine, FieldLine, KeyLine, QuotedKey, Times, ORDER;
    var order, created, modified := r.order.value, r.created.value, r.modified.value;
    var key, line, times := KeyLine(QuotedKey(r.name)), FieldLine(ORDER, order), Times(created, modified);
    FieldsAreWords();
    var r0 := NewRow(r.name);
    var r1 := r0.(order := Some(order));
    RowParts(r, rest);
    KeyReads(r.name, line + (times + rest), rows);
    KeyLineSome(QuotedKey(r.name));
    BlockStep(key, line + (times + rest), rows, rows + [r0]);
    FieldStep(ORDER, order, times + rest, rows + [r0]);
    LastSet(rows, r0, r1);
    TimesRead(created, modified, rest, rows, r1);
  }

  lemma KeyLineSome(key: seq<u8>)
    ensures KeyLine(key) != []
  {
  }

  lemma RowParts(r: Row, rest: seq<u8>)
    requires Full(r)
    ensures PrintRow(r) + rest
         == KeyLine(QuotedKey(r.name))
           + (FieldLine(ORDER, r.order.value) + (Times(r.created.value, r.modified.value) + rest))
  {
    hide KeyLine, QuotedKey, FieldLine, Times;
  }

  predicate AllGood(rows: seq<Row>) {
    forall i {:trigger rows[i]} :: 0 <= i < |rows| ==> Good(rows[i])
  }

  lemma {:induction false} RowsRead(rs: seq<Row>, rest: seq<u8>, rows: seq<Row>)
    requires AllGood(rs) && AllFull(rs)
    ensures BlockRows(PrintRows(rs) + rest, rows) == BlockRows(rest, rows + rs)
    decreases |rs|
  {
    hide BlockRows, PrintRow, Good;
    if rs == [] {
      assert PrintRows(rs) + rest == rest && rows + rs == rows;
    } else {
      var front, last := rs[..|rs| - 1], rs[|rs| - 1];
      RowsRead(front, PrintRow(last) + rest, rows);
      Regroup(PrintRows(front), PrintRow(last), rest);
      GoodLast(rs);
      RowReads(last, rest, rows + front);
      assert rows + front + [last] == rows + rs;
    }
  }

  lemma GoodLast(rs: seq<Row>)
    requires rs != [] && AllGood(rs)
    ensures Good(rs[|rs| - 1])
  {
  }

  /* ---- No NUL is printed ---- */

  lemma {:induction false} WholeCString(s: seq<u8>)
    requires 0 !in s
    ensures CString(s) == s
  {
    if s != [] {
      assert s[0] in s;
      WholeCString(s[1..]);
      assert s == [s[0]] + s[1..];
    }
  }

  lemma FieldNoNul(field: seq<u8>, v: int)
    requires IsWord(field)
    ensures 0 !in FieldLine(field, v)
  {
    hide Signed;
    SignedClean(v);
  }

  lemma TimesNoNul(created: int, modified: int)
    ensures 0 !in Times(created, modified)
  {
    hide FieldLine, TIME_CREATED, TIME_MODIFIED;
    FieldsAreWords();
    FieldNoNul(TIME_CREATED, created);
    FieldNoNul(TIME_MODIFIED, modified);
  }

  lemma RowNoNul(r: Row)
    requires Good(r)
    ensures 0 !in PrintRow(r)
  {
    hide FieldLine, Times, Doubled, ORDER;
    FieldsAreWords();
    DoubledClean(r.name, 0);
    FieldNoNul(ORDER, r.order.value);
    TimesNoNul(r.created.value, r.modified.value);
  }

  lemma {:induction false} RowsNoNul(rs: seq<Row>)
    requires AllGood(rs) && AllFull(rs)
    ensures 0 !in PrintRows(rs)
    decreases |rs|
  {
    hide PrintRow, Good;
    if rs != [] {
      GoodLast(rs);
      RowNoNul(rs[|rs| - 1]);
      RowsNoNul(rs[..|rs| - 1]);
    }
  }

  lemma PrintedNoNul(created: int, modified: int, rs: seq<Row>)
    requires AllGood(rs) && AllFull(rs)
    ensures 0 !in Printed(created, modified, rs)
  {
    hide Times, PrintRows;
    TimesNoNul(created, modified);
    RowsNoNul(rs);
    assert 0 !in KeyLine(ROOT_KEY) by {
      assert |ROOT_KEY| == 5;
    }
  }

  /** What is printed reads back: the root's row, then every other. */
  lemma IndexReads(created: int, modified: int, rs: seq<Row>)
    requires Printable(created) && Printable(modified) && AllGood(rs) && AllFull(rs)
    ensures ParseIndex(Printed(created, modified, rs)) == Some([RootRow(created, modified)] + rs)
  {
    hide BlockRows, FlowRows, BlockLine, NextLine, KeyLine, Times, PrintRows, RootRow, NewRow, CString;
    var text, rest := Printed(created, modified, rs), Times(created, modified) + PrintRows(rs);
    var r0 := NewRow(ROOT_KEY);
    PrintedNoNul(created, modified, rs);
    WholeCString(text);
    PrintedStarts(created, modified, rs);
    RootReads(rest, []);
    KeyLineSome(ROOT_KEY);
    BlockStep(KeyLine(ROOT_KEY), rest, [], [] + [r0]);
    TimesRead(created, modified, PrintRows(rs), [], r0);
    RootRowIs(created, modified);
    assert PrintRows(rs) + [] == PrintRows(rs);
    RowsRead(rs, [], [] + [RootRow(created, modified)]);
    NothingLeft([] + [RootRow(created, modified)] + rs);
    assert [] + [RootRow(created, modified)] == [RootRow(created, modified)];
  }

  lemma RootRowIs(created: int, modified: int)
    ensures RootRow(created, modified) == NewRow(ROOT_KEY).(created := Some(created), modified := Some(modified))
  {
  }

  lemma NothingLeft(rows: seq<Row>)
    ensures BlockRows([], rows) == Some(rows)
  {
  }

  lemma PrintedStarts(created: int, modified: int, rs: seq<Row>)
    requires AllFull(rs)
    ensures var p := Printed(created, modified, rs);
            && p != [] && p[0] == ROOT_KEY[0] && SkipSpace(p) == p
            && p == KeyLine(ROOT_KEY) + (Times(created, modified) + PrintRows(rs))
  {
    hide Times, PrintRows;
    var p := Printed(created, modified, rs);
    Regroup(KeyLine(ROOT_KEY), Times(created, modified), PrintRows(rs));
    assert |ROOT_KEY| == 5 && p[0] == ROOT_KEY[0];
  }

  /* ---- A line's end in a name ---- */

  lemma {:induction false} DoubledJoin(a: seq<u8>, b: seq<u8>)
    ensures Doubled(a + b) == Doubled(a) + Doubled(b)
    decreases |a|
  {
    if a == [] {
      assert a + b == b;
    } else {
      assert (a + b)[0] == a[0] && (a + b)[1..] == a[1..] + b;
      DoubledJoin(a[1..], b);
    }
  }

  /** A quoted key with a line's end in it opens its row, and then the rest of the key is read as a line. */
  lemma LineEndSplits(a: seq<u8>, b: seq<u8>, rest: seq<u8>, rows: seq<Row>)
    requires |a| + 1 + |b| <= ROW_NAME_LEN && NEWLINE !in a
    ensures BlockLine(KeyLine(QuotedKey(a + [NEWLINE] + b)) + rest, rows) == Some(rows + [NewRow(a + [NEWLINE] + b)])
    ensures NextLine(KeyLine(QuotedKey(a + [NEWLINE] + b)) + rest) == Doubled(b) + ([QUOTE, COLON, NEWLINE] + rest)
  {
    hide Doubled, QuotedKey, KeyLine, Quoted, NextLine;
    var name, after := a + [NEWLINE] + b, [COLON, NEWLINE] + rest;
    KeyLineParts(QuotedKey(name), rest);
    QuotedParts(name, after);
    DoubledReads(name, after, [], KEY_ROOM);
    assert [] + name == name;
    SplitParts(a, b, after);
    DoubledClean(a, NEWLINE);
    LineEnds([QUOTE] + Doubled(a), Doubled(b) + ([QUOTE] + after));
    assert [QUOTE] + after == [QUOTE, COLON, NEWLINE] + rest;
  }

  lemma DoubledEnd()
    ensures Doubled([NEWLINE]) == [NEWLINE]
  {
    assert [NEWLINE][1..] == [] && Doubled([]) == [];
  }

  lemma Regrouped<T>(q: T, x: seq<T>, n: T, y: seq<T>, after: seq<T>)
    ensures [q] + (x + [n] + y) + [q] + after == ([q] + x) + ([n] + (y + ([q] + after)))
  {
  }

  lemma SplitParts(a: seq<u8>, b: seq<u8>, after: seq<u8>)
    ensures QuotedKey(a + [NEWLINE] + b) + after
      == ([QUOTE] + Doubled(a)) + ([NEWLINE] + (Doubled(b) + ([QUOTE] + after)))
  {
    hide Doubled;
    DoubledJoin(a + [NEWLINE], b);
    DoubledJoin(a, [NEWLINE]);
    DoubledEnd();
    Regrouped(QUOTE, Doubled(a), NEWLINE, Doubled(b), after);
  }
}
