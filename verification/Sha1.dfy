/** SHA-1 (FIPS 180-4, section 6.1), fed in any pieces, and HMAC over it (RFC 2104). */
module Sha1 {
  import opened Bytes
  import opened Streaming

  const STEPS := 80

  datatype State = State(a: bv32, b: bv32, c: bv32, d: bv32, e: bv32)

  const INITIAL := State(0x67452301, 0xefcdab89, 0x98badcfe, 0x10325476, 0xc3d2e1f0)

  function Rotl(x: bv32, n: nat): bv32
    requires 0 < n < 32
  {
    (x << n) | (x >> (32 - n))
  }

  /* ---- The block function ------------------------------------------------------------------------------------ */

  /** A word of the schedule, from the four it is made of. */
  function Woven(a: bv32, b: bv32, c: bv32, d: bv32): bv32 {
    Rotl(a ^ b ^ c ^ d, 1)
  }

  /** The message schedule. */
  function Schedule(block: seq<u8>, t: nat): bv32
    requires |block| == BLOCK
  {
    if t < 16 then Be32(block, 4 * t) as bv32
    else Woven(Schedule(block, t - 3), Schedule(block, t - 8), Schedule(block, t - 14), Schedule(block, t - 16))
  }

  /** Ch, Parity and Maj, by step. */
  function Mix(t: nat, x: bv32, y: bv32, z: bv32): bv32 {
    if t < 20 then (x & y) ^ (!x & z)
    else if t < 40 then x ^ y ^ z
    else if t < 60 then (x & y) ^ (x & z) ^ (y & z)
    else x ^ y ^ z
  }

  function Constant(t: nat): bv32 {
    if t < 20 then 0x5a827999 else if t < 40 then 0x6ed9eba1 else if t < 60 then 0x8f1bbcdc else 0xca62c1d6
  }

  /** What step `t` puts in the first register. */
  function Stepping(t: nat, a: bv32, b: bv32, c: bv32, d: bv32, e: bv32, w: bv32): bv32 {
    Rotl(a, 5) + Mix(t, b, c, d) + e + Constant(t) + w
  }

  function Step(s: State, t: nat, w: bv32): State {
    State(Stepping(t, s.a, s.b, s.c, s.d, s.e, w), s.a, Rotl(s.b, 30), s.c, s.d)
  }

  function Stepped(block: seq<u8>, s: State, n: nat): State
    requires |block| == BLOCK
  {
    if n == 0 then s else Step(Stepped(block, s, n - 1), n - 1, Schedule(block, n - 1))
  }

  function Sum(s: State, t: State): State {
    State(s.a + t.a, s.b + t.b, s.c + t.c, s.d + t.d, s.e + t.e)
  }

  /** The state after one block. */
  function Block(s: State, block: seq<u8>): State
    requires |block| == BLOCK
  {
    Sum(s, Stepped(block, s, STEPS))
  }

  /** Fills the schedule's array. */
  method FillSchedule(block: seq<u8>, w: array<bv32>)
    requires |block| == BLOCK && w.Length >= 16
    modifies w
    ensures forall k {:trigger w[k]} :: 0 <= k < w.Length ==> w[k] == Schedule(block, k)
  {
    for t := 0 to 16
      invariant forall k {:trigger w[k]} :: 0 <= k < t ==> w[k] == Schedule(block, k)
    {
      w[t] := Be32(block, 4 * t) as bv32;
    }
    for t := 16 to w.Length
      invariant forall k {:trigger w[k]} :: 0 <= k < t ==> w[k] == Schedule(block, k)
    {
      w[t] := Woven(w[t - 3], w[t - 8], w[t - 14], w[t - 16]);
    }
  }

  /** Runs the steps on one block. */
  method Compress(s: State, block: seq<u8>) returns (r: State)
    requires |block| == BLOCK
    ensures r == Block(s, block)
  {
    var w := new bv32[STEPS](_ => 0);
    FillSchedule(block, w);
    var x := s;
    for t := 0 to w.Length
      invariant x == Stepped(block, s, t)
    {
      x := Step(x, t, w[t]);
    }
    r := Sum(s, x);
  }

  /* ---- The digest ------------------------------------------------------------------------------------------------ */

  function OnBlock(s: State, block: seq<u8>): State {
    if |block| == BLOCK then Block(s, block) else s
  }

  /** The registers, high byte first. */
  function Output(s: State): (d: seq<u8>)
    ensures |d| == 20
  {
    Be32Bytes(s.a as nat) + Be32Bytes(s.b as nat) + Be32Bytes(s.c as nat) + Be32Bytes(s.d as nat)
      + Be32Bytes(s.e as nat)
  }

  function Be64Bytes(v: nat): (s: seq<u8>)
    ensures |s| == 8
  {
    Be32Bytes(v / 0x1_0000_0000 % 0x1_0000_0000) + Be32Bytes(v % 0x1_0000_0000)
  }

  /** The digest of a message: pad it as section 5.1.1 says, fold the block function over its blocks,
      and put out the registers. */
  function Digest(msg: seq<u8>): (d: seq<u8>)
    ensures |d| == 20
  {
    Output(Fold(OnBlock, INITIAL, Padded(msg, Be64Bytes(Bits(|msg|)))))
  }

  /** Writes the padding into the buffer itself, a block more when the length does not fit, and puts out
      the digest. */
  method Final(m: Stream<State>) returns (digest: seq<u8>)
    requires m.Valid() && m.block == OnBlock && m.start == INITIAL
    modifies m, m.buffer
    ensures digest == Digest(old(m.fed))
  {
    ghost var msg := m.fed;
    var length := Be64Bytes(Bits(m.length));
    FinishBlocks(m, length);
    digest := Output(m.state);
  }

  /** Runs the last block, or the last two. */
  method FinishBlocks<S>(m: Stream<S>, length: seq<u8>)
    requires m.Holds() && |length| == 8
    modifies m, m.buffer
    ensures m.state == Fold(m.block, m.start, Padded(old(m.fed), length))
  {
    ghost var tail, s := Tail(m.fed), m.state;
    PaddedFold(m.block, m.start, m.fed, length);
    var at := m.buffered;
    m.buffer[at] := 0x80;
    assert m.buffer[..at + 1] == tail + [0x80];
    at := at + 1;
    if at > BLOCK - 8 {
      Clear(m.buffer, at, BLOCK);
      ghost var first := m.buffer[..];
      assert first == tail + [0x80] + Zeros(BLOCK - at);
      m.state := m.block(m.state, m.buffer[..]);
      Clear(m.buffer, 0, BLOCK - 8);
      WriteBytes(m.buffer, BLOCK - 8, length);
      EndingTwo(m.block, s, tail, length, first, m.buffer[..]);
    } else {
      Clear(m.buffer, at, BLOCK - 8);
      WriteBytes(m.buffer, BLOCK - 8, length);
      assert m.buffer[..] == Ending(tail, length);
      OneBlock(m.block, s, m.buffer[..]);
    }
    m.state := m.block(m.state, m.buffer[..]);
  }

  /** Zeroes the buffer from `from` to `to`. */
  method Clear(b: array<u8>, from: nat, to: nat)
    requires from <= to <= b.Length
    modifies b
    ensures b[..] == Splice(old(b[..]), from, Zeros(to - from))
  {
    forall i | from <= i < to {
      b[i] := 0;
    }
    assert b[..] == Splice(old(b[..]), from, Zeros(to - from));
  }

  /** The digest of a message fed in any pieces is the digest of the message. */
  method DigestOf(pieces: seq<seq<u8>>) returns (digest: seq<u8>)
    ensures digest == Digest(Flat(pieces))
  {
    var m := new Stream<State>(OnBlock, INITIAL);
    UpdateAll(m, pieces);
    digest := Final(m);
  }

  /* ---- HMAC ------------------------------------------------------------------------ */

  function Xor(x: u8, y: bv8): u8 {
    ((x as bv8) ^ y) as u8
  }

  /** Every byte of a key block with the pad byte mixed in. */
  function Mixed(block: seq<u8>, pad: bv8): (r: seq<u8>)
    ensures |r| == |block|
  {
    seq(|block|, i requires 0 <= i < |block| => Xor(block[i], pad))
  }

  /** The key as a block: hashed first when it is longer, then zeros to the end. */
  function KeyBlock(key: seq<u8>): (b: seq<u8>)
    ensures |b| == BLOCK
  {
    var k := if |key| > BLOCK then Digest(key) else key;
    k + Zeros(BLOCK - |k|)
  }

  /** HMAC, as section 2 of RFC 2104 has it. */
  function Hmac(key: seq<u8>, data: seq<u8>): (mac: seq<u8>)
    ensures |mac| == 20
  {
    Digest(Mixed(KeyBlock(key), 0x5c) + Digest(Mixed(KeyBlock(key), 0x36) + data))
  }

  lemma FlatTwo(a: seq<u8>, b: seq<u8>)
    ensures Flat([a, b]) == a + b
  {
    assert [a, b][..1] == [a] && [a][..0] == [];
    assert Flat([a]) == [] + a == a;
  }

  lemma FlatOne(a: seq<u8>)
    ensures Flat([a]) == a
  {
    assert [a][..0] == [] && [] + a == a;
  }

  /** The digest of `data` after the key block mixed with a pad. */
  method DigestWith(block: seq<u8>, pad: bv8, data: seq<u8>) returns (digest: seq<u8>)
    ensures digest == Digest(Mixed(block, pad) + data)
  {
    FlatTwo(Mixed(block, pad), data);
    digest := DigestOf([Mixed(block, pad), data]);
  }

  method BlockOf(key: seq<u8>) returns (block: seq<u8>)
    ensures block == KeyBlock(key)
  {
    var k := key;
    if |key| > BLOCK {
      FlatOne(key);
      k := DigestOf([key]);
    }
    block := k + Zeros(BLOCK - |k|);
  }

  /** Authenticates `data` under `key`. */
  method HmacSha1(key: seq<u8>, data: seq<u8>) returns (mac: seq<u8>)
    ensures mac == Hmac(key, data)
  {
    var block := BlockOf(key);
    var inner := DigestWith(block, 0x36, data);
    mac := DigestWith(block, 0x5c, inner);
  }
}
