/** Backup RAM dumps that give each byte two: halving them to the volume, and storing the volume back
    the way it came. */
module Bram {
  import opened Bytes
  import opened Status

  /** Every first byte of a pair is the dump's first. */
  ghost predicate Constant(s: seq<u8>, n: nat) {
    forall i: nat {:trigger s[2 * i]} :: 2 * i < n && 2 * i < |s| ==> s[2 * i] == s[0]
  }

  ghost predicate PairAlike(s: seq<u8>, i: nat) {
    2 * i + 1 < |s| && s[2 * i] == s[2 * i + 1]
  }

  /** Every pair is one byte twice. */
  ghost predicate Repeated(s: seq<u8>, n: nat) {
    forall i: nat {:trigger PairAlike(s, i)} :: 2 * i + 1 < n && 2 * i + 1 < |s| ==> PairAlike(s, i)
  }

  ghost predicate Doubled(s: seq<u8>) {
    |s| >= 2 && |s| % 2 == 0 && (Constant(s, |s|) || Repeated(s, |s|))
  }

  /** The second byte of each pair. */
  function Seconds(s: seq<u8>): (v: seq<u8>)
    ensures |v| == |s| / 2 && forall i {:trigger v[i]} :: 0 <= i < |v| ==> v[i] == s[2 * i + 1]
  {
    seq(|s| / 2, i requires 0 <= i < |s| / 2 => s[2 * i + 1])
  }

  /** The byte that fills the pairs, if one fills them all; else each repeats its own. */
  ghost function FillerOf(s: seq<u8>): Option<u8>
    requires s != []
  {
    if Constant(s, |s|) then Some(s[0]) else None
  }

  function Pairs(v: seq<u8>, filler: Option<u8>): (s: seq<u8>)
    ensures |s| == 2 * |v|
    ensures forall i {:trigger v[i]} :: 0 <= i < |v| ==>
      s[2 * i] == (if filler.Some? then filler.value else v[i]) && s[2 * i + 1] == v[i]
  {
    seq(2 * |v|, k requires 0 <= k < 2 * |v| => if k % 2 == 1 || filler.None? then v[k / 2] else filler.value)
  }

  /** A dump that is halved is stored back byte for byte. */
  lemma StoreUndoesCollapse(s: seq<u8>)
    requires Doubled(s)
    ensures Pairs(Seconds(s), FillerOf(s)) == s
  {
    var v, r := Seconds(s), Pairs(Seconds(s), FillerOf(s));
    forall k | 0 <= k < |s| ensures r[k] == s[k] {
      var i := k / 2;
      assert v[i] == s[2 * i + 1] && r[2 * i + 1] == v[i];
      if k % 2 == 0 && !Constant(s, |s|) {
        assert PairAlike(s, i);
      }
      assert k == 2 * i || k == 2 * i + 1;
    }
  }

  /** And a volume stored in pairs is one that is halved back to it. */
  lemma CollapseUndoesStore(v: seq<u8>, filler: Option<u8>)
    requires v != []
    ensures var s := Pairs(v, filler); Doubled(s) && Seconds(s) == v && Pairs(v, FillerOf(s)) == s
  {
    var s := Pairs(v, filler);
    if filler.Some? {
      forall i: nat | 2 * i < |s| ensures s[2 * i] == s[0] {
        assert v[i] == s[2 * i + 1] && v[0] == s[1];
      }
    } else {
      forall i: nat | 2 * i + 1 < |s| ensures PairAlike(s, i) {
        assert v[i] == s[2 * i + 1];
      }
    }
    StoreUndoesCollapse(s);
  }

  /** What the pairs say of being filled with one byte, and of repeating their own. */
  method Inspect(buf: array<u8>) returns (constant: bool, repeated: bool)
    requires buf.Length >= 2 && buf.Length % 2 == 0
    ensures constant || repeated <==> Doubled(buf[..])
    ensures constant || repeated ==> constant == Constant(buf[..], buf.Length)
  {
    constant, repeated := true, true;
    ghost var s := buf[..];
    var i := 0;
    while i < buf.Length && (constant || repeated)
      invariant 0 <= i <= buf.Length && i % 2 == 0
      invariant constant == Constant(s, i) && repeated == Repeated(s, i)
    {
      var half := i / 2;
      assert i == 2 * half && s[2 * half] == buf[i];
      if buf[i] != buf[0] {
        constant := false;
      }
      if buf[i] != buf[i + 1] {
        assert !PairAlike(s, half);
        repeated := false;
      }
      Widened(s, half);
      i := i + 2;
    }
    Narrowed(s, i);
  }

  lemma Widened(s: seq<u8>, half: nat)
    requires 2 * half + 1 < |s|
    ensures Constant(s, 2 * half + 2) <==> Constant(s, 2 * half) && s[2 * half] == s[0]
    ensures Repeated(s, 2 * half + 2) <==> Repeated(s, 2 * half) && PairAlike(s, half)
  {
    forall i: nat | 2 * i + 1 < 2 * half + 2 && 2 * i + 1 < |s| ensures i == half || 2 * i + 1 < 2 * half {
    }
  }

  lemma Narrowed(s: seq<u8>, n: nat)
    requires n <= |s|
    ensures !Constant(s, n) ==> !Constant(s, |s|)
    ensures !Repeated(s, n) ==> !Repeated(s, |s|)
  {
  }

  /** Halves a dump in place, unless its pairs are neither filled alike nor repeated. */
  method Collapse(buf: array<u8>) returns (ok: bool, filler: Option<u8>)
    modifies buf
    ensures ok == Doubled(old(buf[..]))
    ensures ok ==> buf[..buf.Length / 2] == Seconds(old(buf[..])) && filler == FillerOf(old(buf[..]))
    ensures !ok ==> buf[..] == old(buf[..])
  {
    if buf.Length < 2 || buf.Length % 2 != 0 {
      return false, None;
    }
    var constant, repeated := Inspect(buf);
    if !constant && !repeated {
      return false, None;
    }
    ok, filler := true, if constant then Some(buf[0]) else None;
    ghost var s := buf[..];
    for i := 0 to buf.Length / 2
      invariant buf[..i] == Seconds(s)[..i]
      invariant forall k :: i <= k < buf.Length ==> buf[k] == s[k]
    {
      buf[i] := buf[2 * i + 1];
      assert buf[..i + 1] == buf[..i] + [buf[i]] && Seconds(s)[i] == s[2 * i + 1];
    }
  }

  /** Lays a volume out as it is stored. */
  method Store(volume: seq<u8>, expanded: bool, filler: Option<u8>) returns (flat: array<u8>)
    ensures fresh(flat) && flat[..] == if expanded then Pairs(volume, filler) else volume
  {
    if !expanded {
      flat := new u8[|volume|](i requires 0 <= i < |volume| => volume[i]);
      assert flat[..] == volume;
      return;
    }
    flat := new u8[2 * |volume|](_ => 0);
    for i := 0 to |volume|
      invariant flat[..2 * i] == Pairs(volume, filler)[..2 * i]
    {
      flat[2 * i] := if filler.Some? then filler.value else volume[i];
      flat[2 * i + 1] := volume[i];
      assert flat[..2 * i + 2] == flat[..2 * i] + [flat[2 * i], flat[2 * i + 1]];
      assert Pairs(volume, filler)[..2 * i + 2]
        == Pairs(volume, filler)[..2 * i] + [Pairs(volume, filler)[2 * i], Pairs(volume, filler)[2 * i + 1]];
      assert volume[i] == Pairs(volume, filler)[2 * i + 1];
    }
    assert flat[..] == flat[..2 * |volume|];
  }
}
