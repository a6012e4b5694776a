/** The block code on plain bytes, as the volume uses it. */
module SegaCdBlock {
  import opened Bytes
  import opened Status
  import opened SegaCdCodec
  import opened SegaCdGrid

  const BLOCK_SIZE := 64
  const PAYLOAD_SIZE := 32

  function ToBits(n: u8): bv8 {
    n as bv8
  }

  function FromBits(b: bv8): u8 {
    b as int
  }

  lemma BitsBack(b: bv8)
    ensures ToBits(FromBits(b)) == b
  {
  }

  lemma NextBits(b: bv8)
    requires FromBits(b) < 255
    ensures FromBits(b + 1) == FromBits(b) + 1
  {
    assert b != 255;
  }

  /** Every number is some bits'. */
  lemma {:induction false} HasBits(n: u8) returns (b: bv8)
    ensures FromBits(b) == n
  {
    if n == 0 {
      b := 0;
    } else {
      var c := HasBits(n - 1);
      NextBits(c);
      b := c + 1;
    }
  }

  lemma NumberBack(n: u8)
    ensures FromBits(ToBits(n)) == n
  {
    hide ToBits, FromBits;
    var b := HasBits(n);
    BitsBack(b);
  }

  function Bits(s: seq<u8>): (r: seq<bv8>)
    ensures |r| == |s| && forall i :: 0 <= i < |s| ==> r[i] == ToBits(s[i])
  {
    seq(|s|, i requires 0 <= i < |s| => ToBits(s[i]))
  }

  function Numbers(s: seq<bv8>): (r: seq<u8>)
    ensures |r| == |s| && forall i :: 0 <= i < |s| ==> r[i] == FromBits(s[i])
  {
    seq(|s|, i requires 0 <= i < |s| => FromBits(s[i]))
  }

  lemma NumbersBack(s: seq<u8>, t: seq<bv8>)
    ensures Numbers(Bits(s)) == s && Bits(Numbers(t)) == t
  {
    forall i | 0 <= i < |s| ensures Numbers(Bits(s))[i] == s[i] {
      NumberBack(s[i]);
    }
    forall i | 0 <= i < |t| ensures Bits(Numbers(t))[i] == t[i] {
      BitsBack(t[i]);
    }
  }

  type Bytes32 = s: seq<u8> | |s| == 32 witness Zeros(32)

  /** The payload a stored block decodes to. */
  function PayloadOf(block: seq<u8>): Option<Bytes32> {
    if |block| != BLOCK_SIZE then None
    else
      match Decode(Bits(block))
      case None => None
      case Some(p) => Some(Numbers(p))
  }

  predicate Encodes(block: seq<u8>, payload: seq<u8>) {
    |block| == BLOCK_SIZE && |payload| == PAYLOAD_SIZE && IsEncoding(Bits(block), Bits(payload))
  }

  /** A block code: what a stored block decodes to, and which blocks encode a payload. The
      volume is stated of any that agrees with PayloadOf and Encodes, so that its proofs
      rest on the round trip and not on the code. */
  datatype Code = Code(decode: seq<u8> -> Option<Bytes32>, encodes: (seq<u8>, seq<u8>) -> bool)

  ghost predicate Agrees(code: Code, block: seq<u8>, payload: seq<u8>) {
    code.decode(block) == PayloadOf(block) && code.encodes(block, payload) == Encodes(block, payload)
  }

  ghost predicate IsBlockCode(code: Code) {
    forall block, payload {:trigger Agrees(code, block, payload)} :: Agrees(code, block, payload)
  }

  lemma BlockCodeExists()
    ensures IsBlockCode(Code(PayloadOf, Encodes))
  {
  }

  /** All the volume asks of its code: a block encoded from a payload decodes to it, and
      a payload has one encoding. */
  ghost predicate RoundTrips(code: Code) {
    && (forall block, payload {:trigger Decodes(code, block, payload)} :: code.encodes(block, payload) ==>
        Decodes(code, block, payload))
    && (forall a, b, payload {:trigger code.encodes(a, payload), code.encodes(b, payload)} ::
          code.encodes(a, payload) && code.encodes(b, payload) ==> a == b)
  }

  ghost predicate Decodes(code: Code, block: seq<u8>, payload: seq<u8>) {
    |block| == BLOCK_SIZE && |payload| == PAYLOAD_SIZE && code.decode(block) == Some(payload)
  }

  lemma EncodedDecodes(code: Code, block: seq<u8>, payload: seq<u8>)
    requires RoundTrips(code) && code.encodes(block, payload)
    ensures |block| == BLOCK_SIZE && |payload| == PAYLOAD_SIZE && code.decode(block) == Some(payload)
  {
    assert Decodes(code, block, payload);
  }

  lemma EncodedFacts(block: seq<u8>, payload: seq<u8>)
    requires Encodes(block, payload)
    ensures |block| == BLOCK_SIZE && |payload| == PAYLOAD_SIZE && PayloadOf(block) == Some(payload)
  {
    Undamaged(Bits(block));
    DecodeUndoesEncode(Bits(payload), Bits(block), Bits(block));
    NumbersBack(payload, []);
  }

  lemma EncodedOnce(a: seq<u8>, b: seq<u8>, payload: seq<u8>)
    requires Encodes(a, payload) && Encodes(b, payload)
    ensures a == b
  {
    EncodingIsUnique(Bits(payload), Bits(a), Bits(b));
    NumbersBack(a, []);
    NumbersBack(b, []);
  }

  /** The Sega CD block code is such a code. */
  lemma BlockCodeRoundTrips(code: Code)
    requires IsBlockCode(code)
    ensures RoundTrips(code)
  {
    forall block, payload | code.encodes(block, payload) ensures Decodes(code, block, payload) {
      assert Agrees(code, block, payload);
      EncodedFacts(block, payload);
    }
    forall a, b, payload | code.encodes(a, payload) && code.encodes(b, payload) ensures a == b {
      assert Agrees(code, a, payload) && Agrees(code, b, payload);
      EncodedOnce(a, b, payload);
    }
  }

  method Decoded(ghost code: Code, block: seq<u8>) returns (r: Option<Bytes32>)
    requires IsBlockCode(code) && |block| == BLOCK_SIZE
    ensures r == code.decode(block)
  {
    assert Agrees(code, block, []);
    var out := new bv8[32];
    var ok := DecodeBlock(Bits(block), out);
    r := if ok then Some(Numbers(out[..])) else None;
  }

  method Encoded(ghost code: Code, payload: seq<u8>) returns (block: seq<u8>)
    requires IsBlockCode(code) && |payload| == PAYLOAD_SIZE
    ensures |block| == BLOCK_SIZE && code.encodes(block, payload)
  {
    var out := new bv8[64];
    EncodeBlock(Bits(payload), out);
    block := Numbers(out[..]);
    NumbersBack([], out[..]);
    assert Agrees(code, block, payload);
  }
}
