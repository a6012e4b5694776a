/** Digests over 64-byte blocks fed piece by piece: a buffer keeps what does not fill a block yet. */
module Streaming {
  import opened Bytes

  const BLOCK := 64

  /* ---- The whole message at once ---------------------------------------------------------------------------- */

  /** The state after every full block of `data`. */
  function Fold<S>(block: (S, seq<u8>) -> S, s: S, data: seq<u8>): S
    decreases |data|
  {
    if |data| < BLOCK then s else Fold(block, block(s, data[..BLOCK]), data[BLOCK..])
  }

  /** What is left over. */
  function Tail(data: seq<u8>): (t: seq<u8>)
    ensures |t| < BLOCK && |t| == |data| % BLOCK
    decreases |data|
  {
    if |data| < BLOCK then data else Tail(data[BLOCK..])
  }

  /** More data goes on from the state and what was left over. */
  lemma {:induction false} FoldOn<S>(block: (S, seq<u8>) -> S, s: S, a: seq<u8>, b: seq<u8>)
    ensures Fold(block, s, a + b) == Fold(block, Fold(block, s, a), Tail(a) + b)
    ensures Tail(a + b) == Tail(Tail(a) + b)
    decreases |a|
  {
    if |a| >= BLOCK {
      assert (a + b)[..BLOCK] == a[..BLOCK] && (a + b)[BLOCK..] == a[BLOCK..] + b;
      FoldOn(block, block(s, a[..BLOCK]), a[BLOCK..], b);
    }
  }

  /* ---- Piece by piece ------------------------------------------------------------------------------------------ */

  class Stream<S> {
    const block: (S, seq<u8>) -> S
    const start: S
    var state: S
    var length: nat
    const buffer: array<u8>
    var buffered: nat
    ghost var fed: seq<u8>

    /** The state is that of the blocks fed, and the buffer holds the rest. */
    ghost predicate Holds()
      reads this, buffer
    {
      && buffer.Length == BLOCK && buffered < BLOCK
      && state == Fold(block, start, fed) && buffer[..buffered] == Tail(fed)
    }

    /** And the length counts all of it, as it does until padding is fed. */
    ghost predicate Valid()
      reads this, buffer
    {
      Holds() && length == |fed|
    }

    constructor (block: (S, seq<u8>) -> S, start: S)
      ensures Valid() && fed == [] && this.block == block && this.start == start && fresh(buffer)
    {
      this.block, this.start := block, start;
      state, length, buffered, fed := start, 0, 0, [];
      buffer := new u8[BLOCK](_ => 0);
    }

    /** Runs the block function over the full blocks of `data`, and keeps what is left over. The
        buffer is empty before. */
    method Blocks(data: seq<u8>)
      requires buffer.Length == BLOCK && buffered == 0
      modifies this, buffer
      ensures state == Fold(block, old(state), data) && buffered == |Tail(data)| && buffer[..buffered] == Tail(data)
      ensures length == old(length) && fed == old(fed)
    {
      var at := 0;
      ghost var s := state;
      while |data| - at >= BLOCK
        invariant 0 <= at <= |data| && buffered == 0 && length == old(length) && fed == old(fed)
        invariant Fold(block, state, data[at..]) == Fold(block, s, data) && Tail(data[at..]) == Tail(data)
      {
        assert data[at..][..BLOCK] == data[at..at + BLOCK] && data[at..][BLOCK..] == data[at + BLOCK..];
        state := block(state, data[at..at + BLOCK]);
        at := at + BLOCK;
      }
      var left := |data| - at;
      forall i | 0 <= i < left {
        buffer[i] := data[at + i];
      }
      buffered := left;
      assert buffer[..left] == data[at..];
    }

    /** Feeds `data`. */
    method Update(data: seq<u8>)
      requires Holds()
      modifies this, buffer
      ensures Holds() && fed == old(fed) + data && length == old(length) + |data|
    {
      ghost var was, tail := fed, Tail(fed);
      FoldOn(block, start, was, data);
      length := length + |data|;
      fed := fed + data;
      var rest := data;
      if buffered > 0 {
        var take := if BLOCK - buffered > |data| then |data| else BLOCK - buffered;
        forall i | 0 <= i < take {
          buffer[buffered + i] := data[i];
        }
        buffered := buffered + take;
        assert buffer[..buffered] == tail + data[..take];
        rest := data[take..];
        if buffered < BLOCK {
          assert tail + data == buffer[..buffered];
          return;
        }
        assert (tail + data)[..BLOCK] == tail + data[..take] && (tail + data)[BLOCK..] == rest;
        assert buffer[..BLOCK] == buffer[..];
        state := block(state, buffer[..]);
        buffered := 0;
      } else {
        assert tail == [] && tail + data == data;
      }
      Blocks(rest);
    }
  }

  /** Pieces one after another. */
  function Flat(pieces: seq<seq<u8>>): seq<u8> {
    if pieces == [] then [] else Flat(pieces[..|pieces| - 1]) + pieces[|pieces| - 1]
  }

  /** Feeds every piece in turn. */
  method UpdateAll<S>(s: Stream<S>, pieces: seq<seq<u8>>)
    requires s.Valid() && s.fed == []
    modifies s, s.buffer
    ensures s.Valid() && s.fed == Flat(pieces)
  {
    for i := 0 to |pieces|
      invariant s.Valid() && s.fed == Flat(pieces[..i])
    {
      assert pieces[..i + 1][..i] == pieces[..i];
      s.Update(pieces[i]);
    }
    assert pieces[..|pieces|] == pieces;
  }

  /* ---- Padding -------------------------------------------------------------------------------------------------- */

  /** Zero bytes after the 0x80 that leave eight bytes in the last block. */
  function ZeroCount(n: nat): (z: nat)
    ensures z < BLOCK && (n + 1 + z) % BLOCK == 56
  {
    (119 - n % BLOCK) % BLOCK
  }

  /** They are the fewest that do. */
  lemma ZeroCountLeast(n: nat, z: nat)
    requires (n + 1 + z) % BLOCK == 56
    ensures ZeroCount(n) <= z
  {
  }

  /** The message with a 1 bit, zero bits, and its length in bits, a multiple of the block long. */
  function Padded(msg: seq<u8>, length: seq<u8>): (p: seq<u8>)
    requires |length| == 8
    ensures |p| % BLOCK == 0 && msg <= p
  {
    msg + [0x80] + Zeros(ZeroCount(|msg|)) + length
  }

  /** A message's length in bits, as a 64-bit counter has it. */
  function Bits(n: nat): (b: nat)
    ensures b < 0x1_0000_0000_0000_0000
  {
    n * 8 % 0x1_0000_0000_0000_0000
  }

  /** The last block, or the last two, of a message with `tail` over. */
  function Ending(tail: seq<u8>, length: seq<u8>): (e: seq<u8>)
    requires |tail| < BLOCK && |length| == 8
    ensures |e| == if |tail| < 56 then BLOCK else 2 * BLOCK
  {
    tail + [0x80] + Zeros(ZeroCount(|tail|)) + length
  }

  /** Padding a message folds on from its full blocks over what they leave, padded. */
  lemma PaddedFold<S>(block: (S, seq<u8>) -> S, s: S, msg: seq<u8>, length: seq<u8>)
    requires |length| == 8
    ensures Fold(block, s, Padded(msg, length)) == Fold(block, Fold(block, s, msg), Ending(Tail(msg), length))
  {
    var rest := [0x80] + Zeros(ZeroCount(|msg|)) + length;
    assert ZeroCount(|Tail(msg)|) == ZeroCount(|msg|);
    FoldOn(block, s, msg, rest);
    assert Padded(msg, length) == msg + rest;
    assert Tail(msg) + rest == Ending(Tail(msg), length);
  }

  lemma OneBlock<S>(block: (S, seq<u8>) -> S, s: S, e: seq<u8>)
    requires |e| == BLOCK
    ensures Fold(block, s, e) == block(s, e)
  {
    assert e[..BLOCK] == e && e[BLOCK..] == [];
  }

  /** When the length does not fit, a block of padding comes before the one with the length. */
  lemma EndingTwo<S>(block: (S, seq<u8>) -> S, s: S, tail: seq<u8>, length: seq<u8>, first: seq<u8>, last: seq<u8>)
    requires 56 <= |tail| < BLOCK && |length| == 8
    requires first == tail + [0x80] + Zeros(BLOCK - 1 - |tail|) && last == Zeros(56) + length
    ensures Fold(block, s, Ending(tail, length)) == block(block(s, first), last)
  {
    assert Zeros(ZeroCount(|tail|)) == Zeros(BLOCK - 1 - |tail|) + Zeros(56);
    assert Ending(tail, length)[..BLOCK] == first && Ending(tail, length)[BLOCK..] == last;
    OneBlock(block, block(s, first), last);
  }
}
