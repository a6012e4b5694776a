/** What the words of a folder's index read as, whoever wrote it: numbers of any length, plain and quoted words, and the
    room they have. */
module Ps2IndexScalars {
  import opened Bytes
  import opened Status
  import opened Text
  import opened Ps2Index

  /* ---- Numbers ------------------------------------------------------------------------ */

  predicate AllDigits(ds: seq<u8>) {
    forall i {:trigger ds[i]} :: 0 <= i < |ds| ==> '0' as int <= ds[i] <= '9' as int
  }

  /** What decimal digits amount to. */
  function Value(ds: seq<u8>): nat
    requires AllDigits(ds)
  {
    if ds == [] then 0 else 10 * Value(ds[..|ds| - 1]) + (ds[|ds| - 1] - '0' as int)
  }

  /** A space, or one of the five characters from the tab to the carriage return. */
  predicate Blank(c: u8) {
    c == ' ' as int || 9 <= c <= 13
  }

  /** The nearest number of 64 bits. */
  function Nearest(n: int): int {
    if n >= 0x8000_0000_0000_0000 then 0x7FFF_FFFF_FFFF_FFFF
    else if n < -0x8000_0000_0000_0000 then -0x8000_0000_0000_0000 else n
  }

  lemma {:induction false} BlanksSkipped(blanks: seq<u8>, p: seq<u8>)
    requires forall i {:trigger blanks[i]} :: 0 <= i < |blanks| ==> Blank(blanks[i])
    requires p == [] || !Blank(p[0])
    ensures SkipBlank(blanks + p) == p
    decreases |blanks|
  {
    if blanks == [] {
      assert blanks + p == p;
    } else {
      assert (blanks + p)[0] == blanks[0] && (blanks + p)[1..] == blanks[1..] + p;
      BlanksSkipped(blanks[1..], p);
    }
  }

  lemma {:induction false} DigitsRead(before: seq<u8>, ds: seq<u8>, rest: seq<u8>)
    requires AllDigits(before) && AllDigits(ds) && (rest == [] || !('0' as int <= rest[0] <= '9' as int))
    ensures AllDigits(before + ds) && Digits(ds + rest, Value(before)) == Value(before + ds)
    decreases |ds|
  {
    if ds == [] {
      assert ds + rest == rest && before + ds == before;
    } else {
      assert (ds + rest)[0] == ds[0] && (ds + rest)[1..] == ds[1..] + rest;
      var next := before + [ds[0]];
      assert next[..|next| - 1] == before && before + ds == next + ds[1..];
      DigitsRead(next, ds[1..], rest);
    }
  }

  predicate IsSign(sign: seq<u8>) {
    sign == [] || sign == ['-' as int] || sign == ['+' as int]
  }

  lemma BlanksAside(blanks: seq<u8>, q: seq<u8>)
    requires forall i {:trigger blanks[i]} :: 0 <= i < |blanks| ==> Blank(blanks[i])
    requires q == [] || !Blank(q[0])
    ensures Number(blanks + q) == Number(q)
  {
    hide Digits, SkipBlank, Clamped;
    BlanksSkipped(blanks, q);
    BlanksSkipped([], q);
    assert [] + q == q;
  }

  lemma SignRead(sign: seq<u8>, p: seq<u8>)
    requires IsSign(sign)
    requires sign == [] && p != [] ==> !Blank(p[0]) && p[0] != '-' as int && p[0] != '+' as int
    ensures Number(sign + p) == Nearest(if sign == ['-' as int] then 0 - Digits(p, 0) else Digits(p, 0))
  {
    hide Digits;
    var q := sign + p;
    if sign == [] {
      assert q == p;
    } else {
      assert q[0] == sign[0] && q[1..] == p;
    }
  }

  /** Blanks, a sign or none, digits, and whatever follows them: the digits' value with that sign, or the nearest number
      of 64 bits; 0 without digits. */
  lemma NumberIs(blanks: seq<u8>, sign: seq<u8>, ds: seq<u8>, rest: seq<u8>)
    requires forall i {:trigger blanks[i]} :: 0 <= i < |blanks| ==> Blank(blanks[i])
    requires IsSign(sign) && AllDigits(ds) && (rest == [] || !('0' as int <= rest[0] <= '9' as int))
    requires sign == ds == [] && rest != [] ==> !Blank(rest[0]) && rest[0] != '-' as int && rest[0] != '+' as int
    ensures Number(blanks + (sign + (ds + rest)))
         == Nearest(if sign == ['-' as int] then 0 - Value(ds) else Value(ds))
  {
    hide Number, Digits, SkipBlank, Value;
    var p := ds + rest;
    BlanksAside(blanks, sign + p);
    SignRead(sign, p);
    NoDigits();
    DigitsRead([], ds, rest);
    assert [] + ds == ds;
  }

  lemma NoDigits()
    ensures Value([]) == 0
  {
  }

  /* ---- Plain words ----------------------------------------------------------------------- */

  lemma {:induction false} PlainReads(text: seq<u8>, rest: seq<u8>, stops: seq<u8>, out: seq<u8>, room: nat)
    requires forall i {:trigger text[i]} :: 0 <= i < |text| ==> text[i] !in stops
    requires (rest == [] || rest[0] in stops) && |out| < room
    ensures Plain(text + rest, stops, out, room)
         == if |out| + |text| >= room then NoFit else Scalar(Trim(out + text), rest)
    decreases |text|
  {
    if text == [] {
      assert text + rest == rest && out + text == out;
    } else {
      var p := text + rest;
      assert p[0] == text[0] && p[1..] == text[1..] + rest && out + text == out + [text[0]] + text[1..];
      if |out| + 1 < room {
        PlainReads(text[1..], rest, stops, out + [text[0]], room);
      }
    }
  }

  /** A plain word runs up to the next of the characters that stop it, and fits when it is shorter than its room;
      spaces, tabs and carriage returns at its end do not belong to it. */
  lemma PlainIs(text: seq<u8>, rest: seq<u8>, stops: seq<u8>, room: nat)
    requires forall i {:trigger text[i]} :: 0 <= i < |text| ==> text[i] !in stops
    requires (rest == [] || rest[0] in stops) && room >= 1
    requires text != [] && text[0] != '\'' as int && text[0] != '\"' as int
    ensures ReadScalar(text + rest, stops, room) == if |text| >= room then NoFit else Scalar(Trim(text), rest)
  {
    PlainReads(text, rest, stops, [], room);
    assert [] + text == text && (text + rest)[0] == text[0];
  }

  lemma {:induction false} TrimIs(word: seq<u8>, blanks: seq<u8>)
    requires word == [] || word[|word| - 1] !in Letters(" \t\r")
    requires forall i {:trigger blanks[i]} :: 0 <= i < |blanks| ==> blanks[i] in Letters(" \t\r")
    ensures Trim(word + blanks) == word
    decreases |blanks|
  {
    assert Letters(" \t\r") == [32, 9, 13];
    var s := word + blanks;
    if blanks == [] {
      assert s == word;
    } else {
      assert s[|s| - 1] == blanks[|blanks| - 1] && s[..|s| - 1] == word + blanks[..|blanks| - 1];
      TrimIs(word, blanks[..|blanks| - 1]);
    }
  }

  /* ---- Quoted words ------------------------------------------------------------------------ */

  /** A character of a word in double quotes, behind a backslash or not. */
  datatype Piece = Piece(escaped: bool, c: u8)

  predicate Pieces(ps: seq<Piece>) {
    forall i {:trigger ps[i]} :: 0 <= i < |ps| && !ps[i].escaped ==> ps[i].c != '\"' as int && ps[i].c != '\\' as int
  }

  function Spelled(ps: seq<Piece>): seq<u8> {
    if ps == [] then [] else (if ps[0].escaped then ['\\' as int] else []) + [ps[0].c] + Spelled(ps[1..])
  }

  function Chars(ps: seq<Piece>): (s: seq<u8>)
    ensures |s| == |ps| && forall i {:trigger s[i]} :: 0 <= i < |s| ==> s[i] == ps[i].c
  {
    seq(|ps|, i requires 0 <= i < |ps| => ps[i].c)
  }

  lemma {:induction false} PiecesRead(ps: seq<Piece>, rest: seq<u8>, out: seq<u8>, room: nat)
    requires Pieces(ps) && |out| < room
    ensures Quoted(Spelled(ps) + (['\"' as int] + rest), '\"' as int, out, room)
         == if |out| + |ps| >= room then NoFit else Scalar(out + Chars(ps), rest)
    decreases |ps|
  {
    var p := Spelled(ps) + (['\"' as int] + rest);
    if ps == [] {
      assert p == ['\"' as int] + rest && p[1..] == rest && out + Chars(ps) == out;
    } else {
      var tail, c := Spelled(ps[1..]) + (['\"' as int] + rest), ps[0].c;
      assert Chars(ps) == [c] + Chars(ps[1..]);
      assert out + Chars(ps) == out + [c] + Chars(ps[1..]);
      if ps[0].escaped {
        assert Spelled(ps) == ['\\' as int, c] + Spelled(ps[1..]);
        assert p == ['\\' as int, c] + tail && p[0] == '\\' as int && p[1] == c && p[1..][1..] == tail;
      } else {
        assert Spelled(ps) == [c] + Spelled(ps[1..]);
        assert p == [c] + tail && p[0] == c && p[1..] == tail;
      }
      if |out| + 1 < room {
        PiecesRead(ps[1..], rest, out + [c], room);
      }
    }
  }

  /** In double quotes a backslash takes the next character as it is, and a quote or a backslash needs one. */
  lemma DoubleQuotedIs(ps: seq<Piece>, rest: seq<u8>, stops: seq<u8>, room: nat)
    requires Pieces(ps) && room >= 1
    ensures ReadScalar(['\"' as int] + Spelled(ps) + ['\"' as int] + rest, stops, room)
         == if |ps| >= room then NoFit else Scalar(Chars(ps), rest)
  {
    hide Spelled, Quoted, Plain, Chars;
    var p := ['\"' as int] + Spelled(ps) + ['\"' as int] + rest;
    assert p == ['\"' as int] + (Spelled(ps) + (['\"' as int] + rest));
    assert p[0] == '\"' as int && p[1..] == Spelled(ps) + (['\"' as int] + rest);
    PiecesRead(ps, rest, [], room);
    assert [] + Chars(ps) == Chars(ps);
  }

  lemma {:induction false} DoublesRead(name: seq<u8>, rest: seq<u8>, out: seq<u8>, room: nat)
    requires |out| < room && (rest == [] || rest[0] != '\'' as int)
    ensures Quoted(Doubled(name) + (['\'' as int] + rest), '\'' as int, out, room)
         == if |out| + |name| >= room then NoFit else Scalar(out + name, rest)
    decreases |name|
  {
    var p := Doubled(name) + (['\'' as int] + rest);
    if name == [] {
      assert p == ['\'' as int] + rest && p[1..] == rest && out + name == out;
    } else {
      var tail := Doubled(name[1..]) + (['\'' as int] + rest);
      assert out + [name[0]] + name[1..] == out + name;
      if name[0] == '\'' as int {
        assert p == [name[0], name[0]] + tail && p[2..] == tail;
      } else {
        assert p == [name[0]] + tail && p[1..] == tail;
      }
      if |out| + 1 < room {
        DoublesRead(name[1..], rest, out + [name[0]], room);
      }
    }
  }

  /** In single quotes a quote stands twice, and every other character for itself. */
  lemma SingleQuotedIs(name: seq<u8>, rest: seq<u8>, stops: seq<u8>, room: nat)
    requires room >= 1 && (rest == [] || rest[0] != '\'' as int)
    ensures ReadScalar(QuotedKey(name) + rest, stops, room) == if |name| >= room then NoFit else Scalar(name, rest)
  {
    var p := QuotedKey(name) + rest;
    assert p == ['\'' as int] + (Doubled(name) + (['\'' as int] + rest));
    assert p[0] == '\'' as int && p[1..] == Doubled(name) + (['\'' as int] + rest);
    DoublesRead(name, rest, [], room);
    assert [] + name == name;
  }

  /* ---- Lines ----------------------------------------------------------------------------------- */

  /** A key of 40 characters or more is refused, and of a shorter one a row keeps the first 32. */
  lemma KeyOpens(name: seq<u8>, rest: seq<u8>, rows: seq<Row>)
    ensures BlockLine(QuotedKey(name) + ([':' as int] + rest), rows)
         == if |name| >= 40 then None
            else Some(rows + [Row(if |name| <= 32 then name else name[..32], None, None, None)])
  {
    hide Doubled, Quoted, Plain;
    var after := [':' as int] + rest;
    var p := QuotedKey(name) + after;
    assert p[0] == '\'' as int;
    SingleQuotedIs(name, after, [COLON, NEWLINE], 40);
  }

  lemma FieldReads(field: seq<u8>, after: seq<u8>)
    requires field in {ORDER, TIME_CREATED, TIME_MODIFIED} && after != [] && after[0] == ':' as int
    ensures SkipIndent([' ' as int] + (field + after)) == field + after && !Passed(field + after)
    ensures ReadScalar(field + after, [COLON, NEWLINE], 40) == Scalar(field, after)
  {
    hide Plain, Trim;
    var line := field + after;
    var p := [' ' as int] + line;
    FieldKey(field);
    assert p[1..] == line && line[0] == field[0];
    PlainIs(field, after, [COLON, NEWLINE], 40);
  }

  lemma ValueReads(value: seq<u8>, end: seq<u8>)
    requires value != [] && value[0] > ' ' as int && value[0] != '\'' as int && value[0] != '\"' as int
    requires value[|value| - 1] > ' ' as int && '\n' as int !in value && end != [] && end[0] == '\n' as int
    ensures ReadScalar(SkipSpace([' ' as int] + (value + end)), [NEWLINE], 32)
         == if |value| >= 32 then NoFit else Scalar(value, end)
  {
    hide Plain, Trim;
    var p := [' ' as int] + (value + end);
    assert p[1..] == value + end && (value + end)[0] == value[0];
    PlainIs(value, end, [NEWLINE], 32);
    Untrimmed(value);
  }

  /** The row with a field set, by the field's name. */
  function Set(r: Row, field: seq<u8>, n: Option<int>): Row {
    if field == Letters("order") then r.(order := n)
    else if field == Letters("timeCreated") then r.(created := n)
    else r.(modified := n)
  }

  /** A field's value of 32 characters or more is refused; a shorter one is set as the number it begins with. */
  lemma ValueSets(field: seq<u8>, value: seq<u8>, rest: seq<u8>, rows: seq<Row>)
    requires field in {Letters("order"), Letters("timeCreated"), Letters("timeModified")} && rows != []
    requires value != [] && value[0] > ' ' as int && value[0] != '\'' as int && value[0] != '\"' as int
    requires value[|value| - 1] > ' ' as int && '\n' as int !in value
    ensures BlockLine([' ' as int] + field + Letters(": ") + value + ['\n' as int] + rest, rows)
         == if |value| >= 32 then None
            else Some(rows[|rows| - 1 := Set(rows[|rows| - 1], field, Some(Number(value)))])
  {
    hide Number, SkipIndent, Passed, ReadScalar, SkipSpace, Letters;
    LettersAre();
    var end := ['\n' as int] + rest;
    var after := [':' as int, ' ' as int] + (value + end);
    assert [' ' as int] + field + Letters(": ") + value + ['\n' as int] + rest == [' ' as int] + (field + after);
    assert after[0] == ':' as int && after[1..] == [' ' as int] + (value + end) && end[0] == '\n' as int;
    FieldReads(field, after);
    ValueReads(value, end);
  }

  lemma LettersAre()
    ensures Letters("order") == ORDER && Letters("timeCreated") == TIME_CREATED
    ensures Letters("timeModified") == TIME_MODIFIED && Letters(": ") == [':' as int, ' ' as int]
  {
  }

  lemma FieldKey(field: seq<u8>)
    requires field in {ORDER, TIME_CREATED, TIME_MODIFIED}
    ensures forall i {:trigger field[i]} :: 0 <= i < |field| ==> field[i] !in [COLON, NEWLINE]
    ensures 5 <= |field| <= 12 && field[0] in {0x6F, 0x74} && Trim(field) == field
  {
  }

  lemma Untrimmed(s: seq<u8>)
    requires s != [] && s[|s| - 1] > ' ' as int
    ensures Trim(s) == s
  {
  }
}
