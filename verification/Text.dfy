/** Strings as bytes. */
module Text {
  import opened Bytes

  /** The bytes before the first NUL. */
  function CString(s: seq<u8>): (r: seq<u8>)
    ensures |r| <= |s| && forall i {:trigger r[i]} :: 0 <= i < |r| ==> r[i] == s[i] != 0
    ensures |r| < |s| ==> s[|r|] == 0
  {
    if s == [] || s[0] == 0 then [] else [s[0]] + CString(s[1..])
  }

  /** A string of plain characters, a byte each. */
  function Letters(s: string): (b: seq<u8>)
    requires forall i :: 0 <= i < |s| ==> s[i] < 128 as char
  {
    seq(|s|, i requires 0 <= i < |s| => s[i] as int)
  }
}
