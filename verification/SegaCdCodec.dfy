/** The Sega CD block code: 32 bytes with two copies of their CRC, cut into 6-bit
    symbols, under eight 6-bit code words and then eight 8-bit code words. */
module SegaCdCodec {
  import opened BitTerms
  import opened Crc16
  import opened Polynomials
  import opened SegaCdField
  import opened SegaCdWord
  import opened SegaCdGrid
  import opened Status

  type Payload = p: seq<bv8> | |p| == 32 witness seq(32, _ => 0)

  /* ---- Framing and symbols --------------------------------------------------------------- */

  function High8(w: bv16): bv8 {
    (w >> 8) as bv8
  }

  function Low8(w: bv16): bv8 {
    (w & 0xFF) as bv8
  }

  function Not(b: bv8): bv8 {
    !b
  }

  lemma PairParts(w: bv16)
    ensures Pair(High8(w), Low8(w)) == w
  {
  }

  /** The 36 bytes the symbols spell: the CRC, the payload, and the CRC complemented. */
  function Framed(p: Payload): (s: seq<bv8>)
    ensures |s| == 36
  {
    var crc := Crc(p);
    [High8(crc), Low8(crc)] + p + [Not(High8(crc)), Not(Low8(crc))]
  }

  /** Symbol `k` of three bytes, as the byte that holds it. */
  function Six(a: bv8, b: bv8, c: bv8, k: nat): bv8 {
    var v := ((a as bv32) << 16) | ((b as bv32) << 8) | (c as bv32);
    match k
    case 0 => ((v >> 18) & 0x3F) as bv8
    case 1 => ((v >> 12) & 0x3F) as bv8
    case 2 => ((v >> 6) & 0x3F) as bv8
    case _ => (v & 0x3F) as bv8
  }

  /** The symbol at place `q` of the first 48 bytes. */
  function SymbolAt(buf: seq<bv8>, q: nat): bv8
    requires |buf| == 36 && q < 48
  {
    Six(buf[q / 4 * 3], buf[q / 4 * 3 + 1], buf[q / 4 * 3 + 2], q % 4)
  }

  lemma SixIsSymbol(a: bv8, b: bv8, c: bv8, k: nat)
    ensures Symbol(GF6, Six(a, b, c, k))
  {
  }

  lemma SixBits(a: bv8, b: bv8, c: bv8)
    ensures BitOf(Six(a, b, c, 0), 2) == BitOf(a, 0) && BitOf(Six(a, b, c, 0), 3) == BitOf(a, 1)
    ensures BitOf(Six(a, b, c, 0), 4) == BitOf(a, 2) && BitOf(Six(a, b, c, 0), 5) == BitOf(a, 3)
    ensures BitOf(Six(a, b, c, 0), 6) == BitOf(a, 4) && BitOf(Six(a, b, c, 0), 7) == BitOf(a, 5)
    ensures BitOf(Six(a, b, c, 1), 2) == BitOf(a, 6) && BitOf(Six(a, b, c, 1), 3) == BitOf(a, 7)
    ensures BitOf(Six(a, b, c, 1), 4) == BitOf(b, 0) && BitOf(Six(a, b, c, 1), 5) == BitOf(b, 1)
    ensures BitOf(Six(a, b, c, 1), 6) == BitOf(b, 2) && BitOf(Six(a, b, c, 1), 7) == BitOf(b, 3)
    ensures BitOf(Six(a, b, c, 2), 2) == BitOf(b, 4) && BitOf(Six(a, b, c, 2), 3) == BitOf(b, 5)
    ensures BitOf(Six(a, b, c, 2), 4) == BitOf(b, 6) && BitOf(Six(a, b, c, 2), 5) == BitOf(b, 7)
    ensures BitOf(Six(a, b, c, 2), 6) == BitOf(c, 0) && BitOf(Six(a, b, c, 2), 7) == BitOf(c, 1)
    ensures BitOf(Six(a, b, c, 3), 2) == BitOf(c, 2) && BitOf(Six(a, b, c, 3), 3) == BitOf(c, 3)
    ensures BitOf(Six(a, b, c, 3), 4) == BitOf(c, 4) && BitOf(Six(a, b, c, 3), 5) == BitOf(c, 5)
    ensures BitOf(Six(a, b, c, 3), 6) == BitOf(c, 6) && BitOf(Six(a, b, c, 3), 7) == BitOf(c, 7)
  {
  }

  lemma SixBits0(a: bv8, b: bv8, c: bv8, j: nat)
    requires j < 6
    ensures BitOf(Six(a, b, c, 0), 2 + j) == BitOf(a, j)
  {
    hide Six, BitOf;
    SixBits(a, b, c);
    assert j == 0 || j == 1 || j == 2 || j == 3 || j == 4 || j == 5;
  }

  lemma SixBits1(a: bv8, b: bv8, c: bv8, j: nat)
    requires j < 6
    ensures BitOf(Six(a, b, c, 1), 2 + j) == BitOf(if j < 2 then a else b, (6 + j) % 8)
  {
    hide Six, BitOf;
    SixBits(a, b, c);
    assert j == 0 || j == 1 || j == 2 || j == 3 || j == 4 || j == 5;
  }

  lemma SixBits2(a: bv8, b: bv8, c: bv8, j: nat)
    requires j < 6
    ensures BitOf(Six(a, b, c, 2), 2 + j) == BitOf(if j < 4 then b else c, (4 + j) % 8)
  {
    hide Six, BitOf;
    SixBits(a, b, c);
    assert j == 0 || j == 1 || j == 2 || j == 3 || j == 4 || j == 5;
  }

  lemma SixBits3(a: bv8, b: bv8, c: bv8, j: nat)
    requires j < 6
    ensures BitOf(Six(a, b, c, 3), 2 + j) == BitOf(c, 2 + j)
  {
    hide Six, BitOf;
    SixBits(a, b, c);
    assert j == 0 || j == 1 || j == 2 || j == 3 || j == 4 || j == 5;
  }

  /** Bit `n` of three bytes is bit `n` of their symbols. */
  lemma SixInOrder(a: bv8, b: bv8, c: bv8, n: nat)
    requires n < 24
    ensures BitOf(Six(a, b, c, n / 6), 2 + n % 6) == BitOf(if n < 8 then a else if n < 16 then b else c, n % 8)
  {
    hide Six, BitOf;
    if n < 6 {
      SixBits0(a, b, c, n);
    } else if n < 12 {
      SixBits1(a, b, c, n - 6);
    } else if n < 18 {
      SixBits2(a, b, c, n - 12);
    } else {
      SixBits3(a, b, c, n - 18);
    }
  }

  /** The symbols hold the bits of the bytes in order, six at a time. */
  lemma SymbolsInOrder(buf: seq<bv8>, k: nat)
    requires |buf| == 36 && k < 288
    ensures BitOf(SymbolAt(buf, k / 6), 2 + k % 6) == BitOf(buf[k / 8], k % 8)
    ensures BitOf(SymbolAt(buf, k / 6), 0) == 0 && BitOf(SymbolAt(buf, k / 6), 1) == 0
  {
    hide Six, BitOf;
    var g, n := k / 24, k % 24;
    var a, b, c := buf[3 * g], buf[3 * g + 1], buf[3 * g + 2];
    SixInOrder(a, b, c, n);
    SixIsSymbol(a, b, c, n / 6);
    SymbolTop(Six(a, b, c, n / 6));
    assert k / 6 == 4 * g + n / 6 && k % 6 == n % 6 && k / 8 == 3 * g + n / 8 && k % 8 == n % 8;
    assert (4 * g + n / 6) / 4 == g && (4 * g + n / 6) % 4 == n / 6;
  }

  lemma SymbolTop(s: bv8)
    requires Symbol(GF6, s)
    ensures BitOf(s, 0) == 0 && BitOf(s, 1) == 0
  {
  }

  /** What the two bytes are that stand before the payload, and again after it, complemented: with
      them at its end the payload is a multiple of the generator. */
  lemma FramedSeals(p: Payload)
    ensures var s := Framed(p);
      && s[2..34] == p && Divides(GENERATOR, Terms(p + [s[0], s[1]]))
      && s[34] == Not(s[0]) && s[35] == Not(s[1])
  {
    hide Divides, Terms, Crc;
    assert Framed(p)[2..34] == p;
    PairParts(Crc(p));
    CodeWordIff(p, High8(Crc(p)), Low8(Crc(p)));
  }

  /** `b` encodes `p`: the framed payload in the top bits of six rows, parity below and
      in the low bits, every word of both kinds a code word. */
  predicate IsEncoding(b: Grid, p: Payload) {
    && (forall q :: 0 <= q < 48 ==> Top6(b[q]) == SymbolAt(Framed(p), q))
    && (forall col: nat {:trigger Rs6Word(b, col)} :: col < 8 ==> Valid(GF6, Rs6Word(b, col)))
    && (forall col: nat {:trigger Rs8Word(b, col)} :: col < 8 ==> Valid(GF8, Rs8Word(b, col)))
  }

  /* ---- Encoding --------------------------------------------------------------------------- */

  method Frame(payload: seq<bv8>) returns (buf: array<bv8>)
    requires |payload| == 32
    ensures fresh(buf) && buf.Length == 36 && buf[..] == Framed(payload)
  {
    var crc := Compute(payload);
    buf := new bv8[36];
    buf[0] := High8(crc);
    buf[1] := Low8(crc);
    forall i | 0 <= i < 32 {
      buf[2 + i] := payload[i];
    }
    buf[34] := Not(buf[0]);
    buf[35] := Not(buf[1]);
    assert buf[..] == Framed(payload);
  }

  method PackSymbols(buf: array<bv8>, out: array<bv8>)
    requires buf.Length == 36 && out.Length == 64 && buf != out
    modifies out
    ensures forall q :: 0 <= q < 48 ==> Top6(out[q]) == SymbolAt(buf[..], q)
  {
    for i := 0 to 64 {
      out[i] := 0;
    }
    for g := 0 to 12
      invariant buf[..] == old(buf[..])
      invariant forall q :: 0 <= q < 4 * g ==> Top6(out[q]) == SymbolAt(buf[..], q)
    {
      for k := 0 to 4
        invariant buf[..] == old(buf[..])
        invariant forall q :: 0 <= q < 4 * g + k ==> Top6(out[q]) == SymbolAt(buf[..], q)
      {
        var six := Six(buf[3 * g], buf[3 * g + 1], buf[3 * g + 2], k);
        SixIsSymbol(buf[3 * g], buf[3 * g + 1], buf[3 * g + 2], k);
        ShiftedTop(six);
        assert (4 * g + k) / 4 == g && (4 * g + k) % 4 == k;
        out[4 * g + k] := six << 2;
      }
    }
  }

  lemma ShiftedTop(s: bv8)
    requires Symbol(GF6, s)
    ensures Top6(s << 2) == s
  {
  }

  method EncodeColumn6(out: array<bv8>, c: array<bv8>, column: nat)
    requires out.Length == 64 && c.Length == 8 && out != c && column < 8
    modifies out, c
    ensures Valid(GF6, Rs6Word(out[..], column))
    ensures forall col: nat {:trigger Rs6Word(out[..], col)} :: col < 8 && col != column ==>
      Rs6Word(out[..], col) == Rs6Word(old(out[..]), col)
    ensures forall q :: 0 <= q < 48 ==> Top6(out[q]) == Top6(old(out[q]))
  {
    ghost var was: Grid := out[..];
    Rs6Get(out, column, c);
    ghost var data: Word := c[..];
    Rs6WordSymbols(was, column);
    RsEncode(GF6, c);
    ghost var w: Word := c[..];
    Rs6Put(out, column, c);
    forall col: nat | col < 8 ensures Rs6Word(out[..], col) == if col == column then w else Rs6Word(was, col) {
      Rs6WithWord(was, column, w, col);
    }
    forall q | 0 <= q < 48 ensures Top6(out[q]) == Top6(was[q]) {
      TopOfPut(was, column, data, w, q);
      assert out[q] == out[..][q];
    }
  }

  lemma TopOfPut(b: Grid, column: nat, data: Word, w: Word, q: nat)
    requires column < 8 && q < 48 && data == Rs6Word(b, column) && w[..6] == data[..6]
    ensures Top6(Rs6With(b, column, w)[q]) == Top6(b[q])
  {
    var i := Rs6Index(q);
    Rs6Partition(Rs6Column(q), i, q);
    assert w[i] == w[..6][i] && data[i] == data[..6][i];
    JoinedParts(Top6(b[q]), b[q]);
  }

  method EncodeColumn8(out: array<bv8>, c: array<bv8>, column: nat)
    requires out.Length == 64 && c.Length == 8 && out != c && column < 8
    modifies out, c
    ensures Valid(GF8, Rs8Word(out[..], column))
    ensures forall col: nat {:trigger Rs8Word(out[..], col)} :: col < 8 && col != column ==>
      Rs8Word(out[..], col) == Rs8Word(old(out[..]), col)
    ensures forall q :: 0 <= q < 64 ==> Top6(out[q]) == Top6(old(out[q]))
  {
    ghost var was: Grid := out[..];
    Rs8Get(out, column, c);
    ghost var data: Word := c[..];
    RsEncode(GF8, c);
    ghost var w: Word := c[..];
    Rs8Put(out, column, c);
    forall col: nat | col < 8 ensures Rs8Word(out[..], col) == if col == column then w else Rs8Word(was, col) {
      Rs8WithWord(was, column, w, col);
    }
    forall q | 0 <= q < 64 ensures Top6(out[q]) == Top6(was[q]) {
      TopOfPut8(was, column, data, w, q);
      assert out[q] == out[..][q];
    }
  }

  lemma TopOfPut8(b: Grid, column: nat, data: Word, w: Word, q: nat)
    requires column < 8 && q < 64 && data == Rs8Word(b, column) && w[..6] == data[..6]
    ensures Top6(Rs8With(b, column, w)[q]) == Top6(b[q])
  {
    if q % 8 == column {
      DataKeepsTops(data, w, q / 8);
      TransposedTwice(Column(b, column));
      assert Column(b, column)[q / 8] == b[q];
    }
  }

  lemma TopsKeepWord6(a: Grid, b: Grid, column: nat)
    requires column < 8 && forall q :: 0 <= q < 64 ==> Top6(a[q]) == Top6(b[q])
    ensures Rs6Word(a, column) == Rs6Word(b, column)
  {
  }

  method EncodeBlock(payload: seq<bv8>, out: array<bv8>)
    requires |payload| == 32 && out.Length == 64
    modifies out
    ensures IsEncoding(out[..], payload)
  {
    var buf := Frame(payload);
    PackSymbols(buf, out);
    var c := new bv8[8];
    for column := 0 to 8
      invariant forall q :: 0 <= q < 48 ==> Top6(out[q]) == SymbolAt(Framed(payload), q)
      invariant forall col: nat {:trigger Rs6Word(out[..], col)} :: col < column ==> Valid(GF6, Rs6Word(out[..], col))
    {
      EncodeColumn6(out, c, column);
    }
    ghost var was: Grid := out[..];
    for column := 0 to 8
      invariant forall q :: 0 <= q < 64 ==> Top6(out[q]) == Top6(was[q])
      invariant forall col: nat {:trigger Rs8Word(out[..], col)} :: col < column ==> Valid(GF8, Rs8Word(out[..], col))
    {
      EncodeColumn8(out, c, column);
    }
    forall col: nat | col < 8 ensures Valid(GF6, Rs6Word(out[..], col)) {
      TopsKeepWord6(out[..], was, col);
    }
  }

  /* ---- Decoding --------------------------------------------------------------------------- */

  /** A grid with one column's 8-bit word corrected, when it can be. */
  function Fix8(b: Grid, column: nat): Option<Grid>
    requires column < 8
  {
    match Corrected(GF8, Rs8Word(b, column))
    case None => None
    case Some(w) => Some(Rs8With(b, column, w))
  }

  function Fix6(b: Grid, column: nat): Option<Grid>
    requires column < 8
  {
    match Corrected(GF6, Rs6Word(b, column))
    case None => None
    case Some(w) => Some(Rs6With(b, column, w))
  }

  /** A grid after one of the two corrections of its first `n` columns. */
  function Pass(fix: (Grid, nat) --> Option<Grid>, b: Grid, n: nat): Option<Grid>
    requires n <= 8 && forall g: Grid, k: nat {:trigger fix.requires(g, k)} :: k < 8 ==> fix.requires(g, k)
  {
    if n == 0 then Some(b)
    else
      match Pass(fix, b, n - 1)
      case None => None
      case Some(m) => fix(m, n - 1)
  }

  /** Byte `k` of three spelled by four symbols. */
  function ByteOf(s0: bv8, s1: bv8, s2: bv8, s3: bv8, k: nat): bv8 {
    var v := ((s0 as bv32) << 18) | ((s1 as bv32) << 12) | ((s2 as bv32) << 6) | (s3 as bv32);
    match k
    case 0 => ((v >> 16) & 0xFF) as bv8
    case 1 => ((v >> 8) & 0xFF) as bv8
    case _ => (v & 0xFF) as bv8
  }

  function Spelled(b: Grid, q: nat): bv8
    requires q < 36
  {
    var g := q / 3 * 4;
    ByteOf(Top6(b[g]), Top6(b[g + 1]), Top6(b[g + 2]), Top6(b[g + 3]), q % 3)
  }

  function Unpacked(b: Grid): (s: seq<bv8>)
    ensures |s| == 36 && forall q :: 0 <= q < 36 ==> s[q] == Spelled(b, q)
  {
    seq(36, q requires 0 <= q < 36 => Spelled(b, q))
  }

  /** The payload, when either copy of the CRC agrees with it. */
  function Checked(buf: seq<bv8>): (r: Option<Payload>)
    requires |buf| == 36
    ensures r.Some? <==> Crc(buf[2..34]) == Pair(buf[0], buf[1]) || Crc(buf[2..34]) == Pair(Not(buf[34]), Not(buf[35]))
    ensures r.Some? ==> r.value == buf[2..34]
  {
    if Crc(buf[2..34]) == Pair(buf[0], buf[1]) || Crc(buf[2..34]) == Pair(Not(buf[34]), Not(buf[35]))
      then Some(buf[2..34])
    else None
  }

  /** A grid after both corrections. */
  function Mended(b: Grid): Option<Grid> {
    match Pass(Fix8, b, |b| / 8)
    case None => None
    case Some(m) => Pass(Fix6, m, |m| / 8)
  }

  function Decode(b: Grid): Option<Payload> {
    match Mended(b)
    case None => None
    case Some(r) => Checked(Unpacked(r))
  }

  /** One of the two copies of the CRC makes the payload a multiple of the generator. */
  ghost predicate Sealed(buf: seq<bv8>)
    requires |buf| == 36
  {
    || Divides(GENERATOR, Terms(buf[2..34] + [buf[0], buf[1]]))
    || Divides(GENERATOR, Terms(buf[2..34] + [Not(buf[34]), Not(buf[35])]))
  }

  lemma CheckedIff(buf: seq<bv8>)
    requires |buf| == 36
    ensures Checked(buf).Some? <==> Sealed(buf)
  {
    hide Divides, Terms, Crc;
    CodeWordIff(buf[2..34], buf[0], buf[1]);
    CodeWordIff(buf[2..34], Not(buf[34]), Not(buf[35]));
  }

  method Unpack(blk: array<bv8>) returns (buf: array<bv8>)
    requires blk.Length == 64
    ensures fresh(buf) && buf[..] == Unpacked(blk[..])
  {
    buf := new bv8[36];
    for g := 0 to 12
      invariant blk[..] == old(blk[..])
      invariant forall q :: 0 <= q < 3 * g ==> buf[q] == Spelled(blk[..], q)
    {
      var s0, s1, s2, s3 := blk[4 * g] >> 2, blk[4 * g + 1] >> 2, blk[4 * g + 2] >> 2, blk[4 * g + 3] >> 2;
      forall k | 0 <= k < 3 {
        buf[3 * g + k] := ByteOf(s0, s1, s2, s3, k);
      }
      forall q | 3 * g <= q < 3 * g + 3 ensures buf[q] == Spelled(blk[..], q) {
        assert q / 3 == g && q % 3 == q - 3 * g;
        assert buf[3 * g + (q - 3 * g)] == ByteOf(s0, s1, s2, s3, q - 3 * g);
      }
    }
  }

  method CorrectColumn8(blk: array<bv8>, c: array<bv8>, column: nat) returns (ok: bool)
    requires blk.Length == 64 && c.Length == 8 && blk != c && column < 8
    modifies blk, c
    ensures ok == Fix8(old(blk[..]), column).Some?
    ensures ok ==> blk[..] == Fix8(old(blk[..]), column).value
  {
    Rs8Get(blk, column, c);
    ok := RsCorrect(GF8, c);
    if ok {
      Rs8Put(blk, column, c);
    }
  }

  method CorrectColumns8(blk: array<bv8>, c: array<bv8>) returns (ok: bool)
    requires blk.Length == 64 && c.Length == 8 && blk != c
    modifies blk, c
    ensures ok == Pass(Fix8, old(blk[..]), 8).Some?
    ensures ok ==> blk[..] == Pass(Fix8, old(blk[..]), 8).value
  {
    ghost var b: Grid := blk[..];
    for column := 0 to 8
      invariant Pass(Fix8, b, column) == Some(blk[..])
    {
      ghost var m: Grid := blk[..];
      ok := CorrectColumn8(blk, c, column);
      PassNext(Fix8, b, column, m);
      if !ok {
        PassStops(Fix8, b, column + 1, 8);
        return;
      }
    }
    ok := true;
  }

  method CorrectColumn6(blk: array<bv8>, c: array<bv8>, column: nat) returns (ok: bool)
    requires blk.Length == 64 && c.Length == 8 && blk != c && column < 8
    modifies blk, c
    ensures ok == Fix6(old(blk[..]), column).Some?
    ensures ok ==> blk[..] == Fix6(old(blk[..]), column).value
  {
    Rs6Get(blk, column, c);
    Rs6WordSymbols(blk[..], column);
    ok := RsCorrect(GF6, c);
    if ok {
      Rs6Put(blk, column, c);
    }
  }

  method CorrectColumns6(blk: array<bv8>, c: array<bv8>) returns (ok: bool)
    requires blk.Length == 64 && c.Length == 8 && blk != c
    modifies blk, c
    ensures ok == Pass(Fix6, old(blk[..]), 8).Some?
    ensures ok ==> blk[..] == Pass(Fix6, old(blk[..]), 8).value
  {
    ghost var b: Grid := blk[..];
    for column := 0 to 8
      invariant Pass(Fix6, b, column) == Some(blk[..])
    {
      ghost var m: Grid := blk[..];
      ok := CorrectColumn6(blk, c, column);
      PassNext(Fix6, b, column, m);
      if !ok {
        PassStops(Fix6, b, column + 1, 8);
        return;
      }
    }
    ok := true;
  }

  method CheckCrc(buf: array<bv8>) returns (ok: bool)
    requires buf.Length == 36
    ensures ok == Checked(buf[..]).Some?
  {
    var crc := Compute(buf[2..34]);
    var first := Pair(buf[0], buf[1]);
    var second := Pair(Not(buf[34]), Not(buf[35]));
    ok := !(crc != first && crc != second);
    assert buf[..][2..34] == buf[2..34];
  }

  method ReadPayload(blk: array<bv8>, out: array<bv8>) returns (ok: bool)
    requires blk.Length == 64 && out.Length == 32 && blk != out
    modifies out
    ensures ok == Checked(Unpacked(blk[..])).Some?
    ensures out[..] == if ok then Checked(Unpacked(blk[..])).value else old(out[..])
  {
    var buf := Unpack(blk);
    ghost var text := buf[..];
    ok := CheckCrc(buf);
    if ok {
      forall i | 0 <= i < 32 {
        out[i] := buf[2 + i];
      }
      assert out[..] == text[2..34];
    }
    assert blk[..] == old(blk[..]);
  }

  lemma DecodeAfter(b: Grid, m: Grid, r: Grid)
    requires Pass(Fix8, b, 8) == Some(m) && Pass(Fix6, m, 8) == Some(r)
    ensures Mended(b) == Some(r) && Decode(b) == Checked(Unpacked(r))
  {
  }

  /** Decodes a block; `out` is written only when the block decodes, which it does when its words can
      be corrected and a copy of the CRC then agrees. */
  method DecodeBlock(block: seq<bv8>, out: array<bv8>) returns (ok: bool)
    requires |block| == 64 && out.Length == 32
    modifies out
    ensures ok == Decode(block).Some?
    ensures ok <==> Mended(block).Some? && Sealed(Unpacked(Mended(block).value))
    ensures out[..] == if ok then Decode(block).value else old(out[..])
  {
    var blk := new bv8[64];
    forall i | 0 <= i < 64 {
      blk[i] := block[i];
    }
    assert blk[..] == block;
    var c := new bv8[8];
    ok := CorrectColumns8(blk, c);
    if !ok {
      return;
    }
    ghost var m: Grid := blk[..];
    ok := CorrectColumns6(blk, c);
    if !ok {
      return;
    }
    DecodeAfter(block, m, blk[..]);
    CheckedIff(Unpacked(blk[..]));
    ok := ReadPayload(blk, out);
  }

  lemma PassNext(fix: (Grid, nat) --> Option<Grid>, b: Grid, n: nat, m: Grid)
    requires n < 8 && forall g: Grid, k: nat {:trigger fix.requires(g, k)} :: k < 8 ==> fix.requires(g, k)
    requires Pass(fix, b, n) == Some(m)
    ensures Pass(fix, b, n + 1) == fix(m, n)
  {
  }

  lemma {:induction false} PassStops(fix: (Grid, nat) --> Option<Grid>, b: Grid, n: nat, m: nat)
    requires n <= m <= 8 && forall g: Grid, k: nat {:trigger fix.requires(g, k)} :: k < 8 ==> fix.requires(g, k)
    requires Pass(fix, b, n).None?
    ensures Pass(fix, b, m).None?
  {
    if n < m {
      PassStops(fix, b, n, m - 1);
    }
  }

  /* ---- Decoding what was encoded ------------------------------------------------------------ */

  /** `r` is `b` damaged, if at all, in one bit plane of each column. */
  ghost predicate OnePlaneBad(b: Grid, r: Grid) {
    forall col: nat {:trigger ColumnBad(b, r, col)} :: col < 8 ==> ColumnBad(b, r, col)
  }

  ghost predicate ColumnBad(b: Grid, r: Grid, col: nat)
    requires col < 8
  {
    exists j: nat {:trigger PlaneBad(b, r, col, j)} :: j < 8 && PlaneBad(b, r, col, j)
  }

  ghost predicate PlaneBad(b: Grid, r: Grid, col: nat, j: nat)
    requires col < 8
  {
    forall i, k {:trigger BitOf(Column(r, col)[i], k)} :: 0 <= i < 8 && 0 <= k < 8 && k != j ==>
      BitOf(Column(r, col)[i], k) == BitOf(Column(b, col)[i], k)
  }

  lemma PlaneIsSymbol(b: Grid, r: Grid, col: nat, j: nat)
    requires col < 8 && j < 8 && PlaneBad(b, r, col, j)
    ensures SameBut(Rs8Word(r, col), Rs8Word(b, col), j)
  {
    forall k | 0 <= k < 8 && k != j ensures Rs8Word(r, col)[k] == Rs8Word(b, col)[k] {
      GatherSame(Column(r, col), Column(b, col), k, 8);
    }
  }

  lemma Symbols8(c: Word)
    ensures Symbols(GF8, c)
  {
  }

  lemma ColumnRestored(e: Grid, m: Grid, r: Grid, n: nat)
    requires n < 8 && Valid(GF8, Rs8Word(e, n)) && OnePlaneBad(e, r) && Column(m, n) == Column(r, n)
    ensures Corrected(GF8, Rs8Word(m, n)) == Some(Rs8Word(e, n))
  {
    assert ColumnBad(e, r, n);
    var j: nat :| j < 8 && PlaneBad(e, r, n, j);
    PlaneIsSymbol(e, r, n, j);
    Symbols8(Rs8Word(m, n));
    Symbols8(Rs8Word(e, n));
    NearIsCorrected(GF8, Rs8Word(m, n), Rs8Word(e, n), j);
  }

  /** The first pass brings each column back as it reaches it. */
  lemma {:induction false} Pass8Restores(e: Grid, r: Grid, n: nat)
    requires n <= 8 && OnePlaneBad(e, r)
    requires forall col: nat {:trigger Rs8Word(e, col)} :: col < 8 ==> Valid(GF8, Rs8Word(e, col))
    ensures Pass(Fix8, r, n).Some?
    ensures forall col: nat :: col < 8 ==>
      Column(Pass(Fix8, r, n).value, col) == if col < n then Column(e, col) else Column(r, col)
  {
    if n > 0 {
      Pass8Restores(e, r, n - 1);
      var m := Pass(Fix8, r, n - 1).value;
      var w := Rs8Word(e, n - 1);
      ColumnRestored(e, m, r, n - 1);
      TransposedTwice(Column(e, n - 1));
      forall col: nat | col < 8
        ensures Column(Rs8With(m, n - 1, w), col) == if col < n then Column(e, col) else Column(r, col)
      {
        Rs8WithColumn(m, n - 1, w, col);
      }
    }
  }

  lemma {:induction false} Pass6Keeps(e: Grid, n: nat)
    requires n <= 8
    requires forall col: nat {:trigger Rs6Word(e, col)} :: col < 8 ==> Valid(GF6, Rs6Word(e, col))
    ensures Pass(Fix6, e, n) == Some(e)
  {
    if n > 0 {
      Pass6Keeps(e, n - 1);
      assert Valid(GF6, Rs6Word(e, n - 1));
      Rs6PutBack(e, n - 1);
    }
  }

  lemma SixSpells(a: bv8, b: bv8, c: bv8)
    ensures ByteOf(Six(a, b, c, 0), Six(a, b, c, 1), Six(a, b, c, 2), Six(a, b, c, 3), 0) == a
    ensures ByteOf(Six(a, b, c, 0), Six(a, b, c, 1), Six(a, b, c, 2), Six(a, b, c, 3), 1) == b
    ensures ByteOf(Six(a, b, c, 0), Six(a, b, c, 1), Six(a, b, c, 2), Six(a, b, c, 3), 2) == c
  {
  }

  /** Cutting triples into fours and joining the fours gives the triples back, whatever
      pair of inverse maps does the cutting and joining. */
  lemma FoursJoin<T(!new)>(tops: seq<T>, buf: seq<T>, cut: (T, T, T, nat) -> T, join: (T, T, T, T, nat) -> T, q: nat)
    requires |buf| == 36 && |tops| == 48 && q < 36
    requires forall i: nat :: i < 48 ==> tops[i] == cut(buf[i / 4 * 3], buf[i / 4 * 3 + 1], buf[i / 4 * 3 + 2], i % 4)
    requires forall a, b, c {:trigger JoinsCut(cut, join, a, b, c)} :: JoinsCut(cut, join, a, b, c)
    ensures var g := q / 3 * 4; join(tops[g], tops[g + 1], tops[g + 2], tops[g + 3], q % 3) == buf[q]
  {
    var g := q / 3;
    assert (4 * g) / 4 == g && (4 * g + 1) / 4 == g && (4 * g + 2) / 4 == g && (4 * g + 3) / 4 == g;
    assert JoinsCut(cut, join, buf[3 * g], buf[3 * g + 1], buf[3 * g + 2]);
    assert q == 3 * g + q % 3;
  }

  ghost predicate JoinsCut<T>(cut: (T, T, T, nat) -> T, join: (T, T, T, T, nat) -> T, a: T, b: T, c: T) {
    var s0, s1, s2, s3 := cut(a, b, c, 0), cut(a, b, c, 1), cut(a, b, c, 2), cut(a, b, c, 3);
    join(s0, s1, s2, s3, 0) == a && join(s0, s1, s2, s3, 1) == b && join(s0, s1, s2, s3, 2) == c
  }

  lemma SymbolsSpell(b: Grid, buf: seq<bv8>)
    requires |buf| == 36 && forall q :: 0 <= q < 48 ==> Top6(b[q]) == SymbolAt(buf, q)
    ensures Unpacked(b) == buf
  {
    var tops := seq(48, i requires 0 <= i < 48 => Top6(b[i]));
    forall x, y, z ensures JoinsCut(Six, ByteOf, x, y, z) {
      SixSpells(x, y, z);
    }
    forall q | 0 <= q < 36 ensures Spelled(b, q) == buf[q] {
      FoursJoin(tops, buf, Six, ByteOf, q);
    }
  }

  lemma FramedChecks(p: Payload)
    ensures Checked(Framed(p)) == Some(p)
  {
    assert Framed(p)[2..34] == p;
    PairParts(Crc(p));
  }

  /** An encoded block decodes to its payload, and still does with one bit plane of every
      column damaged in any way. */
  lemma DecodeUndoesEncode(p: Payload, e: Grid, r: Grid)
    requires IsEncoding(e, p) && OnePlaneBad(e, r)
    ensures Decode(r) == Some(p)
  {
    Pass8Restores(e, r, 8);
    SameColumns(Pass(Fix8, r, 8).value, e);
    Pass6Keeps(e, 8);
    SymbolsSpell(e, Framed(p));
    FramedChecks(p);
  }

  lemma Undamaged(e: Grid)
    ensures OnePlaneBad(e, e)
  {
    forall col: nat | col < 8 ensures ColumnBad(e, e, col) {
      assert PlaneBad(e, e, col, 0);
    }
  }

  /** A payload has one encoding. */
  lemma EncodingIsUnique(p: Payload, a: Grid, b: Grid)
    requires IsEncoding(a, p) && IsEncoding(b, p)
    ensures a == b
  {
    forall col: nat | col < 8 ensures Rs6Word(a, col) == Rs6Word(b, col) {
      SameWord6(p, a, b, col);
    }
    forall q | 0 <= q < 64 ensures Top6(a[q]) == Top6(b[q]) {
      Rs6Partition(0, 0, q);
      assert Rs6Word(a, Rs6Column(q))[Rs6Index(q)] == Rs6Word(b, Rs6Column(q))[Rs6Index(q)];
    }
    forall col: nat | col < 8 ensures Column(a, col) == Column(b, col) {
      SameWord8(a, b, col);
      TransposedTwice(Column(a, col));
      TransposedTwice(Column(b, col));
    }
    SameColumns(a, b);
  }

  lemma SameWord6(p: Payload, a: Grid, b: Grid, col: nat)
    requires IsEncoding(a, p) && IsEncoding(b, p) && col < 8
    ensures Rs6Word(a, col) == Rs6Word(b, col)
  {
    forall i | 0 <= i < 6 ensures Rs6Word(a, col)[i] == Rs6Word(b, col)[i] {
      Rs6Partition(col, i, 0);
    }
    Rs6WordSymbols(a, col);
    Rs6WordSymbols(b, col);
    assert Rs6Word(a, col)[..6] == Rs6Word(b, col)[..6];
    ParityIsUnique(GF6, Rs6Word(a, col), Rs6Word(b, col));
  }

  lemma SameWord8(a: Grid, b: Grid, col: nat)
    requires col < 8 && Valid(GF8, Rs8Word(a, col)) && Valid(GF8, Rs8Word(b, col))
    requires forall q :: 0 <= q < 64 ==> Top6(a[q]) == Top6(b[q])
    ensures Rs8Word(a, col) == Rs8Word(b, col)
  {
    forall j: nat | j < 6 ensures Rs8Word(a, col)[j] == Rs8Word(b, col)[j] {
      TopsKeepData(Column(a, col), Column(b, col), j);
    }
    assert Rs8Word(a, col)[..6] == Rs8Word(b, col)[..6];
    Symbols8(Rs8Word(a, col));
    Symbols8(Rs8Word(b, col));
    ParityIsUnique(GF8, Rs8Word(a, col), Rs8Word(b, col));
  }
}
