/** Bytes, the little- and big-endian fields the card formats keep in them, and
    writes of a run of bytes inside a longer buffer. */
module Bytes {

  type u8 = x: int | 0 <= x < 256

  function Le16(s: seq<u8>, at: nat): (v: nat)
    requires at + 2 <= |s|
    ensures v < 0x1_0000
  {
    s[at] as int + 256 * s[at + 1] as int
  }

  function Be16(s: seq<u8>, at: nat): (v: nat)
    requires at + 2 <= |s|
    ensures v < 0x1_0000
  {
    256 * s[at] as int + s[at + 1] as int
  }

  function Le32(s: seq<u8>, at: nat): (v: nat)
    requires at + 4 <= |s|
    ensures v < 0x1_0000_0000
  {
    s[at] as int + 0x100 * s[at + 1] as int + 0x1_0000 * s[at + 2] as int + 0x100_0000 * s[at + 3] as int
  }

  function Be32(s: seq<u8>, at: nat): (v: nat)
    requires at + 4 <= |s|
    ensures v < 0x1_0000_0000
  {
    0x100_0000 * s[at] as int + 0x1_0000 * s[at + 1] as int + 0x100 * s[at + 2] as int + s[at + 3] as int
  }

  /** The two bytes a 16-bit write leaves, low byte first; higher bits are dropped. */
  function Le16Bytes(v: nat): (s: seq<u8>)
    ensures |s| == 2 && Le16(s, 0) == v % 0x1_0000
  {
    [v % 256, v / 256 % 256]
  }

  function Be16Bytes(v: nat): (s: seq<u8>)
    ensures |s| == 2 && Be16(s, 0) == v % 0x1_0000
  {
    [v / 256 % 256, v % 256]
  }

  function Le32Bytes(v: nat): (s: seq<u8>)
    ensures |s| == 4 && Le32(s, 0) == v % 0x1_0000_0000
  {
    var q1, q2, q3 := v / 256, v / 256 / 256, v / 256 / 256 / 256;
    [v % 256, q1 % 256, q2 % 256, q3 % 256]
  }

  function Be32Bytes(v: nat): (s: seq<u8>)
    ensures |s| == 4 && Be32(s, 0) == v % 0x1_0000_0000
  {
    var q1, q2, q3 := v / 256, v / 256 / 256, v / 256 / 256 / 256;
    [q3 % 256, q2 % 256, q1 % 256, v % 256]
  }

  /** `s` with `bytes` written over it from `at`. */
  function Splice<T>(s: seq<T>, at: nat, bytes: seq<T>): (r: seq<T>)
    requires at + |bytes| <= |s|
    ensures |r| == |s|
    ensures r[at..at + |bytes|] == bytes
    ensures forall i :: 0 <= i < |s| && !(at <= i < at + |bytes|) ==> r[i] == s[i]
  {
    s[..at] + bytes + s[at + |bytes|..]
  }

  /** A slice that the write does not meet keeps its bytes. */
  lemma SpliceFrame<T>(s: seq<T>, at: nat, bytes: seq<T>, lo: nat, hi: nat)
    requires at + |bytes| <= |s| && lo <= hi <= |s|
    requires hi <= at || at + |bytes| <= lo
    ensures Splice(s, at, bytes)[lo..hi] == s[lo..hi]
  {
  }

  lemma Le16Frame(s: seq<u8>, at: nat, bytes: seq<u8>, p: nat)
    requires at + |bytes| <= |s| && p + 2 <= |s|
    requires p + 2 <= at || at + |bytes| <= p
    ensures Le16(Splice(s, at, bytes), p) == Le16(s, p)
  {
  }

  lemma Le16Written(s: seq<u8>, at: nat, v: nat)
    requires at + 2 <= |s|
    ensures Le16(Splice(s, at, Le16Bytes(v)), at) == v % 0x1_0000
  {
    var r := Splice(s, at, Le16Bytes(v));
    assert r[at..at + 2] == Le16Bytes(v);
    assert r[at] == r[at..at + 2][0] && r[at + 1] == r[at..at + 2][1];
  }

  lemma Be16Frame(s: seq<u8>, at: nat, bytes: seq<u8>, p: nat)
    requires at + |bytes| <= |s| && p + 2 <= |s|
    requires p + 2 <= at || at + |bytes| <= p
    ensures Be16(Splice(s, at, bytes), p) == Be16(s, p)
  {
  }

  lemma Be16Written(s: seq<u8>, at: nat, v: nat)
    requires at + 2 <= |s|
    ensures Be16(Splice(s, at, Be16Bytes(v)), at) == v % 0x1_0000
  {
    var r := Splice(s, at, Be16Bytes(v));
    assert r[at..at + 2] == Be16Bytes(v);
    assert r[at] == r[at..at + 2][0] && r[at + 1] == r[at..at + 2][1];
  }

  function Filled(n: nat, value: u8): (s: seq<u8>)
    ensures |s| == n && forall i :: 0 <= i < n ==> s[i] == value
  {
    seq(n, _ => value)
  }

  function Zeros(n: nat): (s: seq<u8>)
    ensures |s| == n && forall i :: 0 <= i < n ==> s[i] == 0
  {
    Filled(n, 0)
  }

  /** Copies `bytes` into `a` from `at`. */
  method WriteBytes<T>(a: array<T>, at: nat, bytes: seq<T>)
    requires at + |bytes| <= a.Length
    modifies a
    ensures a[..] == Splice(old(a[..]), at, bytes)
  {
    forall i | 0 <= i < |bytes| {
      a[at + i] := bytes[i];
    }
    assert a[..] == Splice(old(a[..]), at, bytes);
  }
}
