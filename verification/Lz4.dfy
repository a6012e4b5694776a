/** The LZ4 block format and the decoder that stops once the output is full. */
module Lz4 {
  import opened Bytes
  import opened Status

  /* ---- The format --------------------------------------------------------------------------------------- */

  /** Literals to copy from the block, then `copy` bytes from `offset` back in the output. */
  datatype Sequence = Sequence(lits: seq<u8>, offset: nat, copy: nat)

  predicate IsSequence(q: Sequence) {
    1 <= q.offset < 0x1_0000 && q.copy >= 4
  }

  /** A length past 15, in bytes that add up: all 255 but the last. */
  function Extra(n: nat): (b: seq<u8>)
    ensures |b| >= 1
  {
    if n < 255 then [n] else [255] + Extra(n - 255)
  }

  /** The nibble a length takes in the token, and the bytes that follow it. */
  function Nibble(n: nat): (k: nat)
    ensures k < 16
  {
    if n < 15 then n else 15
  }

  function More(n: nat): seq<u8> {
    if n < 15 then [] else Extra(n - 15)
  }

  /** A token and literals; the low nibble is the match's. */
  function EncodeLiterals(lits: seq<u8>, low: nat): (b: seq<u8>)
    requires low < 16
    ensures |b| >= 1
  {
    [16 * Nibble(|lits|) + low] + More(|lits|) + lits
  }

  function Encode(q: Sequence): (b: seq<u8>)
    requires IsSequence(q)
    ensures |b| >= 1
  {
    EncodeLiterals(q.lits, Nibble(q.copy - 4)) + Le16Bytes(q.offset) + More(q.copy - 4)
  }

  predicate AreSequences(ss: seq<Sequence>) {
    forall i {:trigger ss[i]} :: 0 <= i < |ss| ==> IsSequence(ss[i])
  }

  function EncodeAll(ss: seq<Sequence>): seq<u8>
    requires AreSequences(ss)
  {
    if ss == [] then [] else Encode(ss[0]) + EncodeAll(ss[1..])
  }

  /** `out` with `n` more bytes, each the one `offset` back; the bytes copied may be ones the
      copy itself put there. */
  function Copy(out: seq<u8>, offset: nat, n: nat): (r: seq<u8>)
    requires 1 <= offset <= |out|
    ensures |r| == |out| + n && r[..|out|] == out
    decreases n
  {
    if n == 0 then out else Copy(out + [out[|out| - offset]], offset, n - 1)
  }

  /** The output after one sequence. */
  function Expand(out: seq<u8>, q: Sequence): (r: seq<u8>)
    requires 1 <= q.offset <= |out| + |q.lits|
    ensures |r| == |out| + |q.lits| + q.copy
  {
    Copy(out + q.lits, q.offset, q.copy)
  }

  /** Every sequence copies from inside the output before it. */
  predicate Reaches(out: seq<u8>, ss: seq<Sequence>)
    decreases |ss|
  {
    ss == [] || (1 <= ss[0].offset <= |out| + |ss[0].lits| && Reaches(Expand(out, ss[0]), ss[1..]))
  }

  function ExpandAll(out: seq<u8>, ss: seq<Sequence>): (r: seq<u8>)
    requires Reaches(out, ss)
    ensures |r| >= |out|
    decreases |ss|
  {
    if ss == [] then out else ExpandAll(Expand(out, ss[0]), ss[1..])
  }

  /** A copy repeats the bytes before it with period `offset`. */
  lemma {:induction false} CopyRepeats(out: seq<u8>, offset: nat, n: nat, i: nat)
    requires 1 <= offset <= |out| <= i < |out| + n
    ensures Copy(out, offset, n)[i] == Copy(out, offset, n)[i - offset]
    decreases n
  {
    var next := out + [out[|out| - offset]];
    var r := Copy(next, offset, n - 1);
    if i == |out| {
      assert r[..|next|][i] == next[i] && r[..|next|][i - offset] == next[i - offset];
    } else {
      CopyRepeats(next, offset, n - 1, i);
    }
  }

  /* ---- The decoder, on the bytes left --------------------------------------------------------------------- */

  datatype Length = Short | Length(value: nat, rest: seq<u8>)

  function ReadMore(s: seq<u8>, n: nat): (l: Length)
    ensures l.Length? ==> |l.rest| < |s|
  {
    if s == [] then Short
    else if s[0] == 255 then ReadMore(s[1..], n + 255)
    else Length(n + s[0], s[1..])
  }

  /** A length whose nibble is `k`. */
  function ReadLength(s: seq<u8>, k: nat): (l: Length)
    ensures l.Length? ==> |l.rest| <= |s|
  {
    if k == 15 then ReadMore(s, 15) else Length(k, s)
  }

  /** What the decoder makes of the bytes `s` that are left, with `out` written of the `n` bytes
      wanted: the whole output, or nothing. */
  function Run(s: seq<u8>, out: seq<u8>, n: nat): (r: Option<seq<u8>>)
    requires |out| <= n
    ensures r.Some? ==> |r.value| == n
    decreases |s|
  {
    if s == [] then (if |out| == n then Some(out) else None)
    else
      var l := ReadLength(s[1..], s[0] / 16);
      if l.Short? || l.value > |l.rest| then None
      else if l.value >= n - |out| then Some(out + l.rest[..n - |out|])
      else RunMatch(l.rest[l.value..], out + l.rest[..l.value], s[0] % 16, n)
  }

  /** The same, with a match to come whose token nibble is `low`. */
  function RunMatch(s: seq<u8>, out: seq<u8>, low: nat, n: nat): (r: Option<seq<u8>>)
    requires |out| < n
    ensures r.Some? ==> |r.value| == n
    decreases |s|
  {
    if |s| < 2 then None
    else
      var offset := Le16(s, 0);
      var m := ReadLength(s[2..], low);
      if offset == 0 || offset > |out| || m.Short? then None
      else if m.value + 4 >= n - |out| then Some(Copy(out, offset, n - |out|))
      else Run(m.rest, Copy(out, offset, m.value + 4), n)
  }

  /* ---- Accepting every block that is long enough --------------------------------------------------------- */

  lemma {:induction false} ExtraReads(n: nat, base: nat, rest: seq<u8>)
    ensures ReadMore(Extra(n) + rest, base) == Length(base + n, rest)
  {
    var s := Extra(n) + rest;
    if n < 255 {
      assert s[1..] == rest;
    } else {
      ExtraReads(n - 255, base + 255, rest);
      assert s[1..] == Extra(n - 255) + rest;
    }
  }

  lemma LengthReads(n: nat, rest: seq<u8>)
    ensures ReadLength(More(n) + rest, Nibble(n)) == Length(n, rest)
  {
    if n < 15 {
      assert More(n) + rest == rest;
    } else {
      ExtraReads(n - 15, 15, rest);
    }
  }

  /** Reading a token and its literals back. */
  lemma LiteralsRead(lits: seq<u8>, low: nat, rest: seq<u8>)
    requires low < 16
    ensures var s := EncodeLiterals(lits, low) + rest;
            s[0] % 16 == low && ReadLength(s[1..], s[0] / 16) == Length(|lits|, lits + rest)
  {
    var s := EncodeLiterals(lits, low) + rest;
    assert s[1..] == More(|lits|) + (lits + rest);
    LengthReads(|lits|, lits + rest);
  }

  lemma {:induction false} CopyPrefix(out: seq<u8>, offset: nat, k: nat, n: nat)
    requires 1 <= offset <= |out| && k <= n
    ensures Copy(out, offset, k) == Copy(out, offset, n)[..|out| + k]
    decreases k
  {
    if k > 0 {
      CopyPrefix(out + [out[|out| - offset]], offset, k - 1, n - 1);
    }
  }

  lemma {:induction false} ExpandAllPrefix(out: seq<u8>, ss: seq<Sequence>)
    requires Reaches(out, ss)
    ensures ExpandAll(out, ss)[..|out|] == out
    decreases |ss|
  {
    if ss != [] {
      var next := Expand(out, ss[0]);
      ExpandAllPrefix(next, ss[1..]);
      assert out == (out + ss[0].lits)[..|out|] == next[..|out + ss[0].lits|][..|out|];
      assert ExpandAll(out, ss)[..|out|] == ExpandAll(out, ss)[..|next|][..|out|];
    }
  }

  /** How a block's use ends: after a sequence, or inside literals whose token is `low`'s. */
  datatype Ending = Cut | Literals(lits: seq<u8>, low: nat)

  predicate IsEnding(e: Ending) {
    e.Literals? ==> e.low < 16
  }

  function EndBytes(e: Ending): seq<u8>
    requires IsEnding(e)
  {
    if e.Cut? then [] else EncodeLiterals(e.lits, e.low)
  }

  function EndLits(e: Ending): seq<u8> {
    if e.Cut? then [] else e.lits
  }

  /** What sequences `ss` and the ending put after `out`. */
  function Total(out: seq<u8>, ss: seq<Sequence>, e: Ending): (r: seq<u8>)
    requires Reaches(out, ss)
    ensures |r| >= |out|
  {
    ExpandAll(out, ss) + EndLits(e)
  }

  /** Block bytes `s` begin with sequences `ss` and the ending. */
  ghost predicate Begins(s: seq<u8>, ss: seq<Sequence>, e: Ending)
    decreases |ss|
  {
    if ss == [] then IsEnding(e) && EndBytes(e) <= s
    else IsSequence(ss[0]) && Encode(ss[0]) <= s && Begins(s[|Encode(ss[0])|..], ss[1..], e)
  }

  lemma TailAreSequences(ss: seq<Sequence>)
    requires ss != []
    ensures AreSequences(ss) <==> IsSequence(ss[0]) && AreSequences(ss[1..])
  {
    if IsSequence(ss[0]) && AreSequences(ss[1..]) {
      assert forall i {:trigger ss[i]} :: 0 < i < |ss| ==> ss[i] == ss[1..][i - 1];
    }
    if AreSequences(ss) {
      assert forall i {:trigger ss[1..][i]} :: 0 <= i < |ss| - 1 ==> ss[1..][i] == ss[i + 1];
    }
  }

  lemma JoinPrefix<T>(a: seq<T>, b: seq<T>, s: seq<T>)
    requires a <= s && b <= s[|a|..]
    ensures a + b <= s
  {
    assert s == a + s[|a|..];
  }

  lemma PartPrefix<T>(a: seq<T>, b: seq<T>, s: seq<T>)
    requires a + b <= s
    ensures a <= s && b <= s[|a|..]
  {
    assert s == a + b + s[|a + b|..];
    assert s[|a|..] == b + s[|a + b|..];
  }

  lemma PrefixParts<T>(a: seq<T>, b: seq<T>, c: seq<T>, s: seq<T>)
    ensures a + b + c <= s <==> a <= s && b + c <= s[|a|..]
  {
    assert a + b + c == a + (b + c);
    if a + (b + c) <= s {
      PartPrefix(a, b + c, s);
    } else if a <= s && b + c <= s[|a|..] {
      JoinPrefix(a, b + c, s);
    }
  }

  /** That is: the sequences one after another, then the ending, then anything. */
  lemma {:induction false} BeginsIs(s: seq<u8>, ss: seq<Sequence>, e: Ending)
    ensures Begins(s, ss, e) <==> AreSequences(ss) && IsEnding(e) && EncodeAll(ss) + EndBytes(e) <= s
    decreases |ss|
  {
    hide Encode, EndBytes, IsEnding, IsSequence;
    if ss == [] {
      assert IsEnding(e) ==> EncodeAll(ss) + EndBytes(e) == EndBytes(e);
    } else if IsSequence(ss[0]) {
      var b := Encode(ss[0]);
      TailAreSequences(ss);
      if AreSequences(ss) && IsEnding(e) {
        PrefixParts(b, EncodeAll(ss[1..]), EndBytes(e), s);
      }
      if b <= s {
        BeginsIs(s[|b|..], ss[1..], e);
      }
    }
  }

  lemma TotalPrefix(out: seq<u8>, ss: seq<Sequence>, e: Ending, n: nat)
    requires Reaches(out, ss) && n <= |out|
    ensures Total(out, ss, e)[..n] == out[..n]
  {
    ExpandAllPrefix(out, ss);
    assert Total(out, ss, e)[..n] == ExpandAll(out, ss)[..|out|][..n];
  }

  /** The first sequence of a block, read. */
  lemma FirstReads(q: Sequence, s: seq<u8>, out: seq<u8>, n: nat)
    requires IsSequence(q) && 1 <= q.offset <= |out| + |q.lits| && |out| < n
    ensures Run(Encode(q) + s, out, n)
         == if |out| + |q.lits| >= n then Some((out + q.lits)[..n])
            else if |Expand(out, q)| >= n then Some(Expand(out, q)[..n])
            else Run(s, Expand(out, q), n)
  {
    var low := Nibble(q.copy - 4);
    var tail := Le16Bytes(q.offset) + More(q.copy - 4) + s;
    assert Encode(q) + s == EncodeLiterals(q.lits, low) + tail;
    LiteralsRead(q.lits, low, tail);
    var here := (EncodeLiterals(q.lits, low) + tail)[1..];
    if |out| + |q.lits| >= n {
      assert out + (q.lits + tail)[..n - |out|] == (out + q.lits)[..n];
    } else {
      assert (q.lits + tail)[|q.lits|..] == tail && (q.lits + tail)[..|q.lits|] == q.lits;
      MatchReads(q, s, out + q.lits, n);
    }
  }

  lemma Regroup<T>(a: seq<T>, b: seq<T>, c: seq<T>, d: seq<T>)
    ensures a + b + c + d == a + (b + (c + d)) == a + (b + c + d)
  {
    hide Run, Copy, More, Nibble, Le16Bytes;
  }

  lemma OffsetFirst(offset: nat, more: seq<u8>, s: seq<u8>)
    requires offset < 0x1_0000
    ensures var t := Le16Bytes(offset) + more + s; Le16(t, 0) == offset && t[2..] == more + s
  {
    var t := Le16Bytes(offset) + more + s;
    assert t[0] == Le16Bytes(offset)[0] && t[1] == Le16Bytes(offset)[1];
    assert t == Le16Bytes(offset) + (more + s);
  }

  lemma MatchReads(q: Sequence, s: seq<u8>, out: seq<u8>, n: nat)
    requires IsSequence(q) && 1 <= q.offset <= |out| < n
    ensures RunMatch(Le16Bytes(q.offset) + More(q.copy - 4) + s, out, Nibble(q.copy - 4), n)
         == if |out| + q.copy >= n
           then Some(Copy(out, q.offset, q.copy)[..n]) else Run(s, Copy(out, q.offset, q.copy), n)
  {
    hide Run, Copy, More, Nibble, Le16Bytes, Le16, ReadLength;
    OffsetFirst(q.offset, More(q.copy - 4), s);
    LengthReads(q.copy - 4, s);
    if |out| + q.copy >= n {
      CopyPrefix(out, q.offset, n - |out|, q.copy);
    }
  }

  lemma CutTwice<T>(s: seq<T>, k: nat, n: nat)
    requires n <= k <= |s|
    ensures s[..n] == s[..k][..n]
  {
  }

  lemma EndReads(s: seq<u8>, out: seq<u8>, n: nat, e: Ending)
    requires e.Literals? && IsEnding(e) && EndBytes(e) <= s && |out| < n <= |out| + |e.lits|
    ensures Run(s, out, n) == Some((out + e.lits)[..n])
  {
    var rest := s[|EndBytes(e)|..];
    assert s == EndBytes(e) + rest;
    LiteralsRead(e.lits, e.low, rest);
    assert out + (e.lits + rest)[..n - |out|] == (out + e.lits)[..n];
  }

  /** Every block that begins with enough is accepted, and gives its first `n` bytes. */
  lemma {:induction false} RunAccepts(s: seq<u8>, out: seq<u8>, n: nat, ss: seq<Sequence>, e: Ending)
    requires Begins(s, ss, e) && Reaches(out, ss) && |out| < n <= |Total(out, ss, e)|
    ensures Run(s, out, n) == Some(Total(out, ss, e)[..n])
    decreases |ss|
  {
    if ss == [] {
      EndReads(s, out, n, e);
    } else {
      var q, next := ss[0], Expand(out, ss[0]);
      var after := s[|Encode(q)|..];
      assert s == Encode(q) + after;
      FirstReads(q, after, out, n);
      if |out| + |q.lits| >= n {
        TotalPrefix(next, ss[1..], e, n);
        CutTwice(next, |out + q.lits|, n);
      } else if |next| >= n {
        TotalPrefix(next, ss[1..], e, n);
      } else {
        RunAccepts(after, next, n, ss[1..], e);
      }
    }
  }

  /* ---- Accepting nothing else ---------------------------------------------------------------------------------- */

  lemma Shifted<T>(s: seq<T>, x: T, a: seq<T>, b: seq<T>)
    requires s != [] && s[0] == x && s[1..] == a + b
    ensures s == [x] + a + b
  {
    assert s == [x] + s[1..];
  }

  lemma {:induction false} MoreIs(s: seq<u8>, base: nat)
    requires ReadMore(s, base).Length?
    ensures var l := ReadMore(s, base); l.value >= base && s == Extra(l.value - base) + l.rest
  {
    if s[0] == 255 {
      MoreIs(s[1..], base + 255);
      var l := ReadMore(s, base);
      Shifted(s, 255, Extra(l.value - base - 255), l.rest);
    } else {
      assert s == [s[0]] + s[1..];
    }
  }

  lemma LengthIs(s: seq<u8>, k: nat)
    requires k < 16 && ReadLength(s, k).Length?
    ensures var l := ReadLength(s, k); k == Nibble(l.value) && s == More(l.value) + l.rest
  {
    if k == 15 {
      MoreIs(s, 15);
    }
  }

  /** The literals a token announces. */
  lemma LiteralsAre(s: seq<u8>)
    requires s != [] && ReadLength(s[1..], s[0] / 16).Length?
    requires ReadLength(s[1..], s[0] / 16).value <= |ReadLength(s[1..], s[0] / 16).rest|
    ensures var l := ReadLength(s[1..], s[0] / 16);
            s == EncodeLiterals(l.rest[..l.value], s[0] % 16) + l.rest[l.value..]
  {
    var l := ReadLength(s[1..], s[0] / 16);
    var lits, tail := l.rest[..l.value], l.rest[l.value..];
    var token: u8 := s[0];
    LengthIs(s[1..], token / 16);
    assert s == [token] + s[1..] && l.rest == lits + tail;
    Regroup([token], More(|lits|), lits, tail);
    assert 16 * Nibble(|lits|) + token % 16 == token;
  }

  /** The match after them. */
  lemma MatchIs(s: seq<u8>, low: nat) returns (q: Sequence, rest: seq<u8>)
    requires |s| >= 2 && low < 16 && Le16(s, 0) >= 1 && ReadLength(s[2..], low).Length?
    ensures IsSequence(q) && q.lits == [] && q.offset == Le16(s, 0) && low == Nibble(q.copy - 4)
    ensures q.copy == ReadLength(s[2..], low).value + 4 && rest == ReadLength(s[2..], low).rest
    ensures s == Le16Bytes(q.offset) + More(q.copy - 4) + rest
  {
    var m := ReadLength(s[2..], low);
    LengthIs(s[2..], low);
    q, rest := Sequence([], Le16(s, 0), m.value + 4), m.rest;
    assert Le16Bytes(q.offset) == s[..2];
    assert s == s[..2] + s[2..];
  }

  /** The sequence a block begins with. */
  lemma FirstIs(s: seq<u8>, lits: seq<u8>, tail: seq<u8>, low: nat) returns (q: Sequence, rest: seq<u8>)
    requires low < 16 && s == EncodeLiterals(lits, low) + tail
    requires |tail| >= 2 && Le16(tail, 0) >= 1 && ReadLength(tail[2..], low).Length?
    ensures IsSequence(q) && q.lits == lits && q.offset == Le16(tail, 0) && s == Encode(q) + rest
    ensures q.copy == ReadLength(tail[2..], low).value + 4 && rest == ReadLength(tail[2..], low).rest
  {
    var m;
    m, rest := MatchIs(tail, low);
    q := m.(lits := lits);
    Regroup(EncodeLiterals(lits, low), Le16Bytes(q.offset), More(q.copy - 4), rest);
  }

  /** Whatever is accepted begins with sequences that make the output. */
  lemma {:induction false} RunBegins(s: seq<u8>, out: seq<u8>, n: nat) returns (ss: seq<Sequence>, e: Ending)
    requires |out| < n && Run(s, out, n).Some?
    ensures Begins(s, ss, e) && Reaches(out, ss) && n <= |Total(out, ss, e)|
    decreases |s|
  {
    var l := ReadLength(s[1..], s[0] / 16);
    LiteralsAre(s);
    var lits, tail, low := l.rest[..l.value], l.rest[l.value..], s[0] % 16;
    if |lits| >= n - |out| {
      ss, e := [], Literals(lits, low);
    } else {
      var q, after := FirstIs(s, lits, tail, low);
      assert after == s[|Encode(q)|..];
      if |Expand(out, q)| >= n {
        ss, e := [q], Cut;
      } else {
        FirstReads(q, after, out, n);
        var later;
        later, e := RunBegins(after, Expand(out, q), n);
        ss := [q] + later;
        assert ss[1..] == later;
      }
    }
  }

  /** `r` is the first `n` bytes that sequences at the start of block `s` expand to. */
  ghost predicate Yields(s: seq<u8>, n: nat, r: seq<u8>, ss: seq<Sequence>, e: Ending) {
    Begins(s, ss, e) && Reaches([], ss) && n <= |Total([], ss, e)| && r == Total([], ss, e)[..n]
  }

  /** The block begins with literals whole, or is empty: all that is looked at when nothing is wanted. */
  ghost predicate Opens(s: seq<u8>) {
    s == [] || exists e: Ending {:trigger Begins(s, [], e)} :: e.Literals? && Begins(s, [], e)
  }

  lemma RunNothing(s: seq<u8>)
    ensures Run(s, [], 0) == if Opens(s) then Some([]) else None
  {
    hide RunMatch, EncodeLiterals, ReadLength;
    if s != [] {
      var l := ReadLength(s[1..], s[0] / 16);
      if l.Length? && l.value <= |l.rest| {
        LiteralsAre(s);
        assert Begins(s, [], Literals(l.rest[..l.value], s[0] % 16));
      }
      if e: Ending :| e.Literals? && Begins(s, [], e) {
        var rest := s[|EndBytes(e)|..];
        assert s == EncodeLiterals(e.lits, e.low) + rest;
        LiteralsRead(e.lits, e.low, rest);
      }
    }
  }

  /** The decoder accepts exactly the blocks that begin with sequences for at least `n` bytes, and gives the first `n`
      bytes of what they expand to; when no bytes are wanted, those whose first literals are whole. */
  lemma RunIff(s: seq<u8>, n: nat, r: seq<u8>)
    ensures Run(s, [], n) == Some(r) <==>
      if n == 0 then r == [] && Opens(s) else exists ss, e {:trigger Yields(s, n, r, ss, e)} :: Yields(s, n, r, ss, e)
  {
    if n == 0 {
      RunNothing(s);
    } else {
      if Run(s, [], n) == Some(r) {
        var ss, e := RunBegins(s, [], n);
        RunAccepts(s, [], n, ss, e);
        assert Yields(s, n, r, ss, e);
      }
      if ss, e :| Yields(s, n, r, ss, e) {
        RunAccepts(s, [], n, ss, e);
      }
    }
  }

  /* ---- The decoder --------------------------------------------------------------------------------------------- */

  /** Reads the bytes of a long length from `ip`. */
  method ReadLengthBytes(src: seq<u8>, from: nat, base: nat) returns (ok: bool, ip: nat, len: nat)
    requires from <= |src|
    ensures from <= ip <= |src|
    ensures ok ==> ReadMore(src[from..], base) == Length(len, src[ip..])
    ensures !ok ==> ReadMore(src[from..], base) == Short
  {
    ip, len := from, base;
    while ip < |src|
      invariant from <= ip <= |src| && ReadMore(src[from..], base) == ReadMore(src[ip..], len)
    {
      var b := src[ip];
      assert src[ip..][1..] == src[ip + 1..];
      ip := ip + 1;
      len := len + b;
      if b != 255 {
        return true, ip, len;
      }
    }
    return false, ip, len;
  }

  /** The length whose token nibble is `k`, with any bytes that add to it. */
  method LengthOf(src: seq<u8>, from: nat, k: nat) returns (ok: bool, ip: nat, len: nat)
    requires from <= |src|
    ensures from <= ip <= |src|
    ensures ok ==> ReadLength(src[from..], k) == Length(len, src[ip..])
    ensures !ok ==> ReadLength(src[from..], k) == Short
  {
    ok, ip, len := true, from, k;
    if k == 15 {
      ok, ip, len := ReadLengthBytes(src, ip, k);
    }
  }

  lemma CopyStep(out: seq<u8>, offset: nat, n: nat, next: seq<u8>)
    requires 1 <= offset <= |out| && next == out + [out[|out| - offset]]
    ensures Copy(out, offset, n + 1) == Copy(next, offset, n)
  {
  }

  lemma CopyNone(out: seq<u8>, offset: nat)
    requires 1 <= offset <= |out|
    ensures Copy(out, offset, 0) == out
  {
  }

  /** Puts one byte at `op`, the one `offset` back. */
  method CopyByte(dst: array<u8>, op: nat, offset: nat)
    requires 1 <= offset <= op < dst.Length
    modifies dst
    ensures dst[..op + 1] == old(dst[..op]) + [old(dst[..op])[op - offset]]
  {
    dst[op] := dst[op - offset];
  }

  /** Copies `count` bytes from `offset` back, one at a time. */
  method CopyMatch(dst: array<u8>, op: nat, offset: nat, count: nat)
    requires 1 <= offset <= op && op + count <= dst.Length
    modifies dst
    ensures dst[..op + count] == Copy(old(dst[..op]), offset, count)
  {
    hide Copy;
    ghost var out := dst[..op];
    for i := 0 to count
      invariant Copy(out, offset, count) == Copy(dst[..op + i], offset, count - i)
    {
      CopyStep(dst[..op + i], offset, count - i - 1, dst[..op + i] + [dst[..op + i][op + i - offset]]);
      CopyByte(dst, op + i, offset);
    }
    CopyNone(dst[..op + count], offset);
  }

  /** One match of `m` bytes, from `offset` back, read up to `ip`. */
  lemma MatchOnce(src: seq<u8>, from: nat, out: seq<u8>, low: nat, n: nat, offset: nat, m: nat, ip: nat)
    requires from + 2 <= |src| && from <= ip <= |src| && |out| < n && offset == Le16(src, from) && 1 <= offset <= |out|
    requires ReadLength(src[from + 2..], low) == Length(m, src[ip..])
    ensures RunMatch(src[from..], out, low, n)
         == if m + 4 >= n - |out|
           then Some(Copy(out, offset, n - |out|)) else Run(src[ip..], Copy(out, offset, m + 4), n)
  {
    hide Run, Copy, ReadLength;
    assert src[from..][2..] == src[from + 2..];
  }

  lemma MatchStops(src: seq<u8>, from: nat, out: seq<u8>, low: nat, n: nat)
    requires from <= |src| && |out| < n
    requires |src| < from + 2 || Le16(src, from) == 0 || Le16(src, from) > |out|
      || ReadLength(src[from + 2..], low).Short?
    ensures RunMatch(src[from..], out, low, n).None?
  {
    hide Run, Copy, ReadLength;
    if from + 2 <= |src| {
      assert src[from..][2..] == src[from + 2..];
    }
  }

  /** Copies one match whose token nibble is `low`, cut off where the output is full. */
  method DecodeMatch(src: seq<u8>, from: nat, dst: array<u8>, from': nat, low: nat) returns (ok: bool, ip: nat, op: nat)
    requires from <= |src| && from' < dst.Length && low < 16
    modifies dst
    ensures from <= ip <= |src| && from' <= op <= dst.Length
    ensures !ok ==> RunMatch(src[from..], old(dst[..from']), low, dst.Length).None?
    ensures ok ==> ip >= from + 2 && RunMatch(src[from..], old(dst[..from']), low, dst.Length)
                   == if op == dst.Length then Some(dst[..op]) else Run(src[ip..], dst[..op], dst.Length)
  {
    hide Run, RunMatch, Copy, ReadLength, Le16;
    ip, op := from, from';
    ghost var out := dst[..op];
    if |src| - ip < 2 {
      MatchStops(src, from, out, low, dst.Length);
      return false, ip, op;
    }
    var offset := Le16(src, ip);
    ip := ip + 2;
    if offset == 0 || offset > op {
      MatchStops(src, from, out, low, dst.Length);
      return false, ip, op;
    }
    var match';
    ok, ip, match' := LengthOf(src, ip, low);
    if !ok {
      MatchStops(src, from, out, low, dst.Length);
      return;
    }
    MatchOnce(src, from, out, low, dst.Length, offset, match', ip);
    match' := match' + 4;
    if match' > dst.Length - op {
      match' := dst.Length - op;
    }
    CopyMatch(dst, op, offset, match');
    op := op + match';
    ok := true;
  }

  method CopyIn(dst: array<u8>, op: nat, src: seq<u8>, ip: nat, count: nat)
    requires op + count <= dst.Length && ip + count <= |src|
    modifies dst
    ensures dst[..op + count] == old(dst[..op]) + src[ip..ip + count]
  {
    forall i | 0 <= i < count {
      dst[op + i] := src[ip + i];
    }
  }

  /** One token's `lit` literals, its length read up to `ip`, of which `take` are wanted. */
  lemma LiteralsOnce(src: seq<u8>, from: nat, out: seq<u8>, n: nat, ip: nat, lit: nat, take: nat)
    requires from < |src| && ip + lit <= |src| && |out| <= n && take == (if lit >= n - |out| then n - |out| else lit)
    requires ReadLength(src[from + 1..], src[from] / 16) == Length(lit, src[ip..])
    ensures Run(src[from..], out, n)
         == if |out| + take == n
           then Some(out + src[ip..ip + take])
             else RunMatch(src[ip + take..], out + src[ip..ip + take], src[from] % 16, n)
  {
    hide RunMatch, ReadLength;
    assert src[from..][1..] == src[from + 1..];
    assert src[ip..][..take] == src[ip..ip + take] && src[ip..][take..] == src[ip + take..];
  }

  lemma LiteralsStop(src: seq<u8>, from: nat, out: seq<u8>, n: nat)
    requires from < |src| && |out| <= n
    requires var l := ReadLength(src[from + 1..], src[from] / 16); l.Short? || l.value > |l.rest|
    ensures Run(src[from..], out, n).None?
  {
    hide RunMatch, ReadLength;
    assert src[from..][1..] == src[from + 1..];
  }

  /** Copies the literals of the next token, cut off where the output is full. */
  method DecodeLiterals(src: seq<u8>, from: nat, dst: array<u8>, from': nat)
    returns (ok: bool, full: bool, ip: nat, op: nat)
    requires from < |src| && from' <= dst.Length
    modifies dst
    ensures from < ip <= |src| && from' <= op <= dst.Length
    ensures !ok ==> Run(src[from..], old(dst[..from']), dst.Length).None?
    ensures ok ==> full == (op == dst.Length) && Run(src[from..], old(dst[..from']), dst.Length)
                   == if full then Some(dst[..op]) else RunMatch(src[ip..], dst[..op], src[from] % 16, dst.Length)
  {
    hide Run, RunMatch, ReadLength;
    ghost var out := dst[..from'];
    ip, op, full := from + 1, from', false;
    var lit;
    ok, ip, lit := LengthOf(src, ip, src[from] / 16);
    if !ok {
      LiteralsStop(src, from, out, dst.Length);
      return;
    }
    if lit > |src| - ip {
      LiteralsStop(src, from, out, dst.Length);
      return false, false, ip, op;
    }
    var take := if lit >= dst.Length - op then dst.Length - op else lit;
    LiteralsOnce(src, from, out, dst.Length, ip, lit, take);
    CopyIn(dst, op, src, ip, take);
    op := op + take;
    ok, full := true, op == dst.Length;
    ip := ip + take;
  }

  /** Decodes one block until `dst` is full. */
  method Decode(src: seq<u8>, dst: array<u8>) returns (ok: bool)
    modifies dst
    ensures ok <==> Run(src, [], dst.Length).Some?
    ensures ok ==> Run(src, [], dst.Length) == Some(dst[..])
  {
    var ip, op := 0, 0;
    while ip < |src|
      invariant 0 <= ip <= |src| && 0 <= op <= dst.Length && (op == dst.Length ==> dst.Length == 0)
      invariant Run(src, [], dst.Length) == Run(src[ip..], dst[..op], dst.Length)
    {
      var low := src[ip] % 16;
      var full;
      ok, full, ip, op := DecodeLiterals(src, ip, dst, op);
      if !ok || full {
        assert ok && full ==> dst[..op] == dst[..];
        return;
      }
      if ip == |src| {
        break;
      }
      ok, ip, op := DecodeMatch(src, ip, dst, op, low);
      if !ok {
        return;
      }
      if op == dst.Length {
        assert dst[..] == dst[..op];
        return true;
      }
    }
    assert src[ip..] == [] && dst[..dst.Length] == dst[..];
    return op == dst.Length;
  }
}
