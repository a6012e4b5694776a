/** MD5 (RFC 1321), fed in any pieces. */
module Md5 {
  import opened Bytes
  import opened Streaming

  const OPERATIONS := 64

  /** The sines of 1 to 64, each 32 bits after the point, round by round. */
  const SINES: seq<seq<bv32>> := [
    [0xd76aa478, 0xe8c7b756, 0x242070db, 0xc1bdceee, 0xf57c0faf, 0x4787c62a, 0xa8304613, 0xfd469501,
     0x698098d8, 0x8b44f7af, 0xffff5bb1, 0x895cd7be, 0x6b901122, 0xfd987193, 0xa679438e, 0x49b40821],
    [0xf61e2562, 0xc040b340, 0x265e5a51, 0xe9b6c7aa, 0xd62f105d, 0x02441453, 0xd8a1e681, 0xe7d3fbc8,
     0x21e1cde6, 0xc33707d6, 0xf4d50d87, 0x455a14ed, 0xa9e3e905, 0xfcefa3f8, 0x676f02d9, 0x8d2a4c8a],
    [0xfffa3942, 0x8771f681, 0x6d9d6122, 0xfde5380c, 0xa4beea44, 0x4bdecfa9, 0xf6bb4b60, 0xbebfbc70,
     0x289b7ec6, 0xeaa127fa, 0xd4ef3085, 0x04881d05, 0xd9d4d039, 0xe6db99e5, 0x1fa27cf8, 0xc4ac5665],
    [0xf4292244, 0x432aff97, 0xab9423a7, 0xfc93a039, 0x655b59c3, 0x8f0ccc92, 0xffeff47d, 0x85845dd1,
     0x6fa87e4f, 0xfe2ce6e0, 0xa3014314, 0x4e0811a1, 0xf7537e82, 0xbd3af235, 0x2ad7d2bb, 0xeb86d391]]

  /** Bits each of a round's four operations rotates by, round by round. */
  const ROTATIONS: seq<seq<nat>> := [[7, 12, 17, 22], [5, 9, 14, 20], [4, 11, 16, 23], [6, 10, 15, 21]]

  datatype State = State(a: bv32, b: bv32, c: bv32, d: bv32)

  const INITIAL := State(0x67452301, 0xefcdab89, 0x98badcfe, 0x10325476)

  /* ---- One operation ---------------------------------------------------------------------------------------- */

  function Rotl(x: bv32, n: nat): bv32
    requires 0 < n < 32
  {
    (x << n) | (x >> (32 - n))
  }

  /** The four auxiliary functions of section 3.4, by round. */
  function Mix(round: nat, x: bv32, y: bv32, z: bv32): bv32
    requires round < 4
  {
    if round == 0 then (x & y) | (!x & z)
    else if round == 1 then (x & z) | (y & !z)
    else if round == 2 then x ^ y ^ z
    else y ^ (x | !z)
  }

  /** The word of the block operation `i` takes. */
  function WordFor(i: nat): (k: nat)
    requires i < 64
    ensures k < 16
  {
    if i < 16 then i else if i < 32 then (5 * i + 1) % 16 else if i < 48 then (3 * i + 5) % 16 else 7 * i % 16
  }

  function Word(block: seq<u8>, k: nat): bv32
    requires |block| == BLOCK && k < 16
  {
    Le32(block, 4 * k) as bv32
  }

  function RotationFor(i: nat): (n: nat)
    requires i < 64
    ensures 0 < n < 32
  {
    ROTATIONS[i / 16][i % 4]
  }

  /** The second register after operation `i` on a word. */
  function Operated(i: nat, a: bv32, b: bv32, c: bv32, d: bv32, w: bv32): bv32
    requires i < 64
  {
    b + Rotl(a + Mix(i / 16, b, c, d) + SINES[i / 16][i % 16] + w, RotationFor(i))
  }

  function Turned(block: seq<u8>, i: nat, a: bv32, b: bv32, c: bv32, d: bv32): bv32
    requires |block| == BLOCK && i < 64
  {
    Operated(i, a, b, c, d, Word(block, WordFor(i)))
  }

  /* ---- The block function, as the standard has it --------------------------------------------------------------- */

  /** The standard names four registers and updates one in place at each operation, taking them in the
      order ABCD, DABC, CDAB, BCDA: operation `i` updates register `-i` modulo 4. */
  function Register(i: nat, k: nat): (r: nat)
    requires k < 4
    ensures r < 4
  {
    Place(i % 4, k)
  }

  /** The place of register `k` when `m` operations have moved them on. */
  function Place(m: nat, k: nat): (r: nat)
    requires m < 4 && k < 4
    ensures r < 4
  {
    if k >= m then k - m else k + 4 - m
  }

  function InPlace(block: seq<u8>, s: State, i: nat): (r: seq<bv32>)
    requires |block| == BLOCK && i <= 64
    ensures |r| == 4
  {
    if i == 0 then [s.a, s.b, s.c, s.d]
    else
      var r, j := InPlace(block, s, i - 1), i - 1;
      r[Register(j, 0) := Turned(block, j, r[Register(j, 0)], r[Register(j, 1)], r[Register(j, 2)], r[Register(j, 3)])]
  }

  function Sum(s: State, t: State): State {
    State(s.a + t.a, s.b + t.b, s.c + t.c, s.d + t.d)
  }

  function StateOf(r: seq<bv32>): State
    requires |r| == 4
  {
    State(r[0], r[1], r[2], r[3])
  }

  /** The state after one block. */
  function Block(s: State, block: seq<u8>): State
    requires |block| == BLOCK
  {
    Sum(s, StateOf(InPlace(block, s, OPERATIONS)))
  }

  /* ---- The block function, as it is run -------------------------------------------- */

  function Turn(block: seq<u8>, i: nat, t: State): State
    requires |block| == BLOCK && i < 64
  {
    State(t.d, Turned(block, i, t.a, t.b, t.c, t.d), t.b, t.c)
  }

  /** The registers moved round at each operation instead. */
  function Moved(block: seq<u8>, s: State, i: nat): State
    requires |block| == BLOCK && i <= 64
  {
    if i == 0 then s
    else Turn(block, i - 1, Moved(block, s, i - 1))
  }

  /** Moving the registers round and updating them in place are the same computation. */
  lemma {:induction false} MovedIsInPlace(block: seq<u8>, s: State, i: nat)
    requires |block| == BLOCK && i <= 64
    ensures var r, t := InPlace(block, s, i), Moved(block, s, i);
            t == State(r[Register(i, 0)], r[Register(i, 1)], r[Register(i, 2)], r[Register(i, 3)])
  {
    hide Turned, Register;
    if i == 0 {
      RegistersBack(0);
    } else {
      MovedIsInPlace(block, s, i - 1);
      RegistersTurn(i - 1);
    }
  }

  lemma RegistersTurn(j: nat)
    ensures Register(j + 1, 0) == Register(j, 3) && Register(j + 1, 1) == Register(j, 0)
    ensures Register(j + 1, 2) == Register(j, 1) && Register(j + 1, 3) == Register(j, 2)
    ensures Register(j, 0) != Register(j, 1) && Register(j, 0) != Register(j, 2) && Register(j, 0) != Register(j, 3)
  {
    hide Place;
    NextOfFour(j);
    PlacesTurn(j % 4, (j + 1) % 4);
  }

  lemma NextOfFour(j: nat)
    ensures (j + 1) % 4 == if j % 4 == 3 then 0 else j % 4 + 1
  {
  }

  lemma PlacesTurn(m: nat, n: nat)
    requires m < 4 && n == if m == 3 then 0 else m + 1
    ensures Place(n, 0) == Place(m, 3) && Place(n, 1) == Place(m, 0)
    ensures Place(n, 2) == Place(m, 1) && Place(n, 3) == Place(m, 2)
    ensures Place(m, 0) != Place(m, 1) && Place(m, 0) != Place(m, 2) && Place(m, 0) != Place(m, 3)
  {
  }

  /** After a multiple of four operations the registers are back where they were. */
  lemma MovedBack(s: State, block: seq<u8>, n: nat)
    requires |block| == BLOCK && n <= 64 && n % 4 == 0
    ensures Moved(block, s, n) == StateOf(InPlace(block, s, n))
  {
    MovedIsInPlace(block, s, n);
    RegistersBack(n);
  }

  lemma RegistersBack(n: nat)
    requires n % 4 == 0
    ensures Register(n, 0) == 0 && Register(n, 1) == 1 && Register(n, 2) == 2 && Register(n, 3) == 3
  {
  }

  lemma MovedIsBlock(s: State, block: seq<u8>)
    requires |block| == BLOCK
    ensures Sum(s, Moved(block, s, OPERATIONS)) == Block(s, block)
  {
    MovedBack(s, block, OPERATIONS);
  }

  /** Runs the 64 operations on one block. */
  method Compress(s: State, block: seq<u8>) returns (r: State)
    requires |block| == BLOCK
    ensures r == Block(s, block)
  {
    var t := s;
    for i := 0 to OPERATIONS
      invariant t == Moved(block, s, i)
    {
      t := Turn(block, i, t);
    }
    MovedIsBlock(s, block);
    r := Sum(s, t);
  }

  /* ---- The digest ------------------------------------------------------------------ */

  /** The block function on whole blocks, which is all a stream gives it. */
  function OnBlock(s: State, block: seq<u8>): State {
    if |block| == BLOCK then Block(s, block) else s
  }

  /** The registers, low byte first. */
  function Output(s: State): (d: seq<u8>)
    ensures |d| == 16
  {
    Le32Bytes(s.a as nat) + Le32Bytes(s.b as nat) + Le32Bytes(s.c as nat) + Le32Bytes(s.d as nat)
  }

  function Le64Bytes(v: nat): (s: seq<u8>)
    ensures |s| == 8
  {
    Le32Bytes(v % 0x1_0000_0000) + Le32Bytes(v / 0x1_0000_0000 % 0x1_0000_0000)
  }

  /** The digest of a message, by sections 3.1 to 3.5: pad it, fold the block function over its
      blocks, and put out the registers. */
  function Digest(msg: seq<u8>): (d: seq<u8>)
    ensures |d| == 16
  {
    Output(Fold(OnBlock, INITIAL, Padded(msg, Le64Bytes(Bits(|msg|)))))
  }

  /** Feeds zero bytes until eight are left in the block, without counting them. */
  method PadZeros(m: Stream<State>, ghost msg: seq<u8>)
    requires m.Holds() && m.fed == msg + [0x80]
    modifies m, m.buffer
    ensures m.Holds() && m.fed == msg + [0x80] + Zeros(ZeroCount(|msg|)) && m.length == old(m.length)
  {
    ghost var z := 0;
    assert Zeros(0) == [] && msg + [0x80] + [] == msg + [0x80];
    while m.buffered != 56
      invariant m.Holds() && m.length == old(m.length)
      invariant 0 <= z <= ZeroCount(|msg|) && m.fed == msg + [0x80] + Zeros(z)
      decreases ZeroCount(|msg|) - z
    {
      assert m.buffered == (|msg| + 1 + z) % BLOCK;
      m.Update([0]);
      m.length := m.length - 1;
      assert Zeros(z) + [0] == Zeros(z + 1);
      assert msg + [0x80] + Zeros(z) + [0] == msg + [0x80] + (Zeros(z) + [0]);
      z := z + 1;
    }
    ZeroCountLeast(|msg|, z);
  }

  /** Pads what was fed and puts out the digest. The length is taken before the padding and does not
      count it. */
  method Final(m: Stream<State>) returns (digest: seq<u8>)
    requires m.Valid() && m.block == OnBlock && m.start == INITIAL
    modifies m, m.buffer
    ensures digest == Digest(old(m.fed))
  {
    ghost var msg := m.fed;
    var bits := Bits(m.length);
    m.Update([0x80]);
    m.length := m.length - 1;
    PadZeros(m, msg);
    m.Update(Le64Bytes(bits));
    digest := Output(m.state);
  }

  /** The digest of a message fed in any pieces is the digest of the message. */
  method DigestOf(pieces: seq<seq<u8>>) returns (digest: seq<u8>)
    ensures digest == Digest(Flat(pieces))
  {
    var m := new Stream<State>(OnBlock, INITIAL);
    UpdateAll(m, pieces);
    digest := Final(m);
  }
}
