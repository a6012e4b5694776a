/** What writing a Sega CD directory slot does to the directory, and the bytes of a
    volume nothing else has touched. */
module SegaCdLayout {
  import opened Bytes
  import opened Status
  import opened SegaCdBlock
  import opened SegaCdVolume
  import opened SegaCdDirectory

  function DirAt(blocks: nat, b: nat): nat
    requires b + 2 <= blocks
  {
    64 * (blocks - 2 - b)
  }

  predicate Zeroed(s: seq<u8>) {
    forall i :: 0 <= i < |s| ==> s[i] == 0
  }

  /* ---- Directory payloads ------------------------------------------------------------------ */

  ghost predicate EntryIn(raw: seq<u8>, saves: seq<Save>, i: nat) {
    i < |saves| && IsEntry(raw, saves[i], Start(saves, i))
  }

  /** The payload of directory block `b`: the odd entry first, zeros when there is none. */
  ghost predicate IsDirPayload(p: seq<u8>, saves: seq<Save>, b: nat) {
    && |p| == 32 && EntryIn(p[16..32], saves, 2 * b)
    && (if 2 * b + 1 < |saves| then EntryIn(p[..16], saves, 2 * b + 1) else Zeroed(p[..16]))
  }

  ghost predicate DirEncodes(code: Code, v: Volume, saves: seq<Save>, b: nat)
    requires b + 2 <= Blocks(v)
  {
    exists p {:trigger code.encodes(DirBlock(v, b), p)} :: IsDirPayload(p, saves, b) && code.encodes(DirBlock(v, b), p)
  }

  lemma DirEncodesSlots(code: Code, v: Volume, saves: seq<Save>, b: nat)
    requires RoundTrips(code) && b + 2 <= Blocks(v) && DirEncodes(code, v, saves, b)
    ensures 2 * b < |saves| && SlotHolds(code, v, saves, 2 * b)
    ensures 2 * b + 1 < |saves| ==> SlotHolds(code, v, saves, 2 * b + 1)
  {
    var p :| IsDirPayload(p, saves, b) && code.encodes(DirBlock(v, b), p);
    EncodedDecodes(code, DirBlock(v, b), p);
  }

  /** The payload of a directory block is determined by the saves. */
  lemma DirPayloadOnce(p: seq<u8>, q: seq<u8>, saves: seq<Save>, b: nat)
    requires IsDirPayload(p, saves, b) && IsDirPayload(q, saves, b)
    ensures p == q
  {
    EntryOnce(p[16..32], q[16..32], saves[2 * b], Start(saves, 2 * b));
    if 2 * b + 1 < |saves| {
      EntryOnce(p[..16], q[..16], saves[2 * b + 1], Start(saves, 2 * b + 1));
    } else {
      assert p[..16] == q[..16];
    }
    assert p == p[..16] + p[16..32] && q == q[..16] + q[16..32];
  }

  /* ---- Writing a slot ------------------------------------------------------------------------ */

  /** The payload a slot write encodes: the other half is kept for an odd slot, zeroed for
      an even one. */
  ghost predicate IsNewPayload(code: Code, v: Volume, slot: nat, raw: seq<u8>, p: seq<u8>)
    requires slot / 2 + 2 <= Blocks(v)
  {
    |p| == 32 &&
    if slot % 2 == 0 then p[16..32] == raw && Zeroed(p[..16])
    else p[..16] == raw && (match code.decode(DirBlock(v, slot / 2)) case None => Zeroed(p[16..32])
        case Some(q) => p[16..32] == q[16..32])
  }

  ghost predicate NewlyEncoded(code: Code, v: Volume, block: seq<u8>, slot: nat, raw: seq<u8>)
    requires slot / 2 + 2 <= Blocks(v)
  {
    exists p {:trigger code.encodes(block, p)} :: IsNewPayload(code, v, slot, raw, p) && code.encodes(block, p)
  }

  /** `w` is `v` with the slot's directory block encoding its new payload, and no other
      byte changed. */
  ghost predicate SlotWritten(code: Code, v: Volume, w: Volume, slot: nat, raw: seq<u8>)
    requires slot / 2 + 2 <= Blocks(v)
  {
    && |w| == |v| && Outside(v, w, DirAt(Blocks(v), slot / 2), 64)
    && NewlyEncoded(code, v, DirBlock(w, slot / 2), slot, raw)
  }

  /** `w` and `v` agree before `at` and from `at + n` on. */
  ghost predicate Outside(v: seq<u8>, w: seq<u8>, at: nat, n: nat)
    requires |w| == |v| && at + n <= |v|
  {
    w[..at] == v[..at] && w[at + n..] == v[at + n..]
  }

  /** `w` is `v` with `bytes` written over it from `at`. */
  ghost predicate Wrote(v: Volume, w: Volume, at: nat, bytes: seq<u8>) {
    |w| == |v| && at + |bytes| <= |v| && Outside(v, w, at, |bytes|) && w[at..at + |bytes|] == bytes
  }

  /** `w` is `v` with `n` bytes zeroed from `at`. */
  ghost predicate Blanked(v: Volume, w: Volume, at: nat, n: nat) {
    |w| == |v| && at + n <= |v| && Outside(v, w, at, n) && Zeroed(w[at..at + n])
  }

  method WriteAt(vol: array<u8>, at: nat, bytes: seq<u8>)
    requires WholeBlocks(vol.Length) && at + |bytes| <= vol.Length
    modifies vol
    ensures Wrote(old(vol[..]), vol[..], at, bytes)
  {
    ghost var v := vol[..];
    WriteBytes(vol, at, bytes);
    SpliceFrame(v, at, bytes, 0, at);
    SpliceFrame(v, at, bytes, at + |bytes|, |v|);
  }

  method Blank(vol: array<u8>, at: nat, n: nat)
    requires WholeBlocks(vol.Length) && at + n <= vol.Length
    modifies vol
    ensures Blanked(old(vol[..]), vol[..], at, n)
  {
    WriteAt(vol, at, Zeros(n));
    assert vol[..][at..at + n] == Zeros(n);
  }

  method NewPayload(ghost code: Code, vol: array<u8>, slot: nat, raw: seq<u8>) returns (p: seq<u8>)
    requires IsBlockCode(code) && WholeBlocks(vol.Length) && slot / 2 + 2 <= vol.Length / 64 && |raw| == ENTRY_SIZE
    ensures IsNewPayload(code, vol[..], slot, raw, p)
  {
    if slot % 2 == 0 {
      return Zeros(16) + raw;
    }
    var at := 64 * (vol.Length / 64 - 2 - slot / 2);
    var q := Decoded(code, vol[at..at + 64]);
    assert vol[at..at + 64] == DirBlock(vol[..], slot / 2);
    match q {
      case None => p := raw + Zeros(16);
      case Some(old_payload) => p := raw + old_payload[16..32];
    }
  }

  method WriteSlot(ghost code: Code, vol: array<u8>, slot: nat, raw: seq<u8>)
    requires IsBlockCode(code) && WholeBlocks(vol.Length) && slot / 2 + 2 <= vol.Length / 64 && |raw| == ENTRY_SIZE
    modifies vol
    ensures SlotWritten(code, old(vol[..]), vol[..], slot, raw)
  {
    var payload := NewPayload(code, vol, slot, raw);
    var block := Encoded(code, payload);
    WriteAt(vol, 64 * (vol.Length / 64 - 2 - slot / 2), block);
    assert DirBlock(vol[..], slot / 2) == block;
  }

  lemma SliceKept<T>(v: seq<T>, w: seq<T>, lo: nat, hi: nat, a: nat, b: nat)
    requires |w| == |v| && lo <= a <= b <= hi <= |v| && w[lo..hi] == v[lo..hi]
    ensures w[a..b] == v[a..b]
  {
    forall i | a <= i < b ensures w[i] == v[i] {
      assert w[i] == w[lo..hi][i - lo] && v[i] == v[lo..hi][i - lo];
    }
  }

  lemma PrefixKept<T>(v: seq<T>, w: seq<T>, hi: nat, a: nat, b: nat)
    requires |w| == |v| && a <= b <= hi <= |v| && w[..hi] == v[..hi]
    ensures w[a..b] == v[a..b]
  {
    forall i | a <= i < b ensures w[i] == v[i] {
      assert w[i] == w[..hi][i] && v[i] == v[..hi][i];
    }
  }

  lemma SuffixKept<T>(v: seq<T>, w: seq<T>, lo: nat, a: nat, b: nat)
    requires |w| == |v| && lo <= a <= b <= |v| && w[lo..] == v[lo..]
    ensures w[a..b] == v[a..b]
  {
    forall i | a <= i < b ensures w[i] == v[i] {
      assert w[i] == w[lo..][i - lo] && v[i] == v[lo..][i - lo];
    }
  }

  /** A slot write shows in its own directory block and nowhere else. */
  lemma SlotWriteFrame(v: Volume, w: Volume, slot: nat)
    requires slot / 2 + 2 <= Blocks(v) && |w| == |v| && Outside(v, w, DirAt(Blocks(v), slot / 2), 64)
    ensures forall b: nat {:trigger DirBlock(w, b)} :: b + 2 <= Blocks(v) && b != slot / 2 ==>
      DirBlock(w, b) == DirBlock(v, b)
  {
    var at := DirAt(Blocks(v), slot / 2);
    forall b: nat | b + 2 <= Blocks(v) && b != slot / 2 ensures DirBlock(w, b) == DirBlock(v, b) {
      var lo := DirAt(Blocks(v), b);
      if lo < at {
        PrefixKept(v, w, at, lo, lo + 64);
      } else {
        SuffixKept(v, w, at + 64, lo, lo + 64);
      }
    }
  }

  lemma EntryInPrefix(raw: seq<u8>, t: seq<Save>, u: seq<Save>, i: nat)
    requires i < |t| <= |u| && forall k :: 0 <= k <= i ==> t[k] == u[k]
    ensures EntryIn(raw, u, i) == EntryIn(raw, t, i)
  {
    StartPrefix(t, u, i);
  }

  /** The new payload is the one the longer directory calls for. */
  lemma NextPayload(code: Code, v: Volume, t: seq<Save>, s: Save, raw: seq<u8>, p: seq<u8>)
    requires |t| / 2 + 2 <= Blocks(v) && SlotsHold(code, v, t)
    requires IsEntry(raw, s, End(t)) && IsNewPayload(code, v, |t|, raw, p)
    ensures IsDirPayload(p, t + [s], |t| / 2)
  {
    var u, n := t + [s], |t|;
    StartPrefix(t, u, n);
    assert EntryIn(raw, u, n);
    if n % 2 == 0 {
      assert 2 * (n / 2) == n;
    } else {
      assert 2 * (n / 2) == n - 1;
      assert SlotHolds(code, v, t, n - 1) && (n - 1) / 2 == n / 2;
      var q := code.decode(DirBlock(v, n / 2)).value;
      assert EntryIn(q[16..32], t, n - 1);
      EntryInPrefix(q[16..32], t, u, n - 1);
    }
  }

  lemma NextEncodes(code: Code, v: Volume, w: Volume, t: seq<Save>, s: Save, raw: seq<u8>)
    requires |t| / 2 + 2 <= Blocks(v) && SlotsHold(code, v, t) && IsEntry(raw, s, End(t))
    requires SlotWritten(code, v, w, |t|, raw)
    ensures |w| == |v| && DirEncodes(code, w, t + [s], |t| / 2)
  {
    var block := DirBlock(w, |t| / 2);
    var p :| IsNewPayload(code, v, |t|, raw, p) && code.encodes(block, p);
    NextPayload(code, v, t, s, raw, p);
  }

  /** Writing the next entry after the ones a directory holds makes it hold them all. */
  lemma SlotAdds(code: Code, v: Volume, w: Volume, t: seq<Save>, s: Save, raw: seq<u8>)
    requires RoundTrips(code) && |t| / 2 + 2 <= Blocks(v) && IsEntry(raw, s, End(t))
    requires SlotsHold(code, v, t) && SlotWritten(code, v, w, |t|, raw)
    ensures |w| == |v| && DirEncodes(code, w, t + [s], |t| / 2) && SlotsHold(code, w, t + [s])
  {
    var u := t + [s];
    SlotWriteFrame(v, w, |t|);
    NextEncodes(code, v, w, t, s, raw);
    DirEncodesSlots(code, w, u, |t| / 2);
    forall i: nat | i < |u| ensures SlotHolds(code, w, u, i) {
      if i / 2 == |t| / 2 {
        assert i == 2 * (|t| / 2) || i == 2 * (|t| / 2) + 1;
      } else {
        assert SlotHolds(code, v, t, i);
        OldSlot(code, v, w, t, s, i);
      }
    }
  }

  lemma OldSlot(code: Code, v: Volume, w: Volume, t: seq<Save>, s: Save, i: nat)
    requires i < |t| && i / 2 + 2 <= Blocks(v) && |w| == |v| && DirBlock(w, i / 2) == DirBlock(v, i / 2)
    requires SlotHolds(code, v, t, i)
    ensures SlotHolds(code, w, t + [s], i)
  {
    SlotSame(code, v, w, t, i);
    PrefixSlot(code, w, t, t + [s], i);
  }

  lemma SlotSame(code: Code, v: Volume, w: Volume, t: seq<Save>, i: nat)
    requires i < |t| && i / 2 + 2 <= Blocks(v) && |w| == |v| && DirBlock(w, i / 2) == DirBlock(v, i / 2)
    ensures SlotHolds(code, w, t, i) == SlotHolds(code, v, t, i)
  {
  }

  /** Blocks before the last entry's are as they were. */
  lemma DirEncodesLonger(code: Code, v: Volume, w: Volume, t: seq<Save>, s: Save, b: nat)
    requires 2 * b + 1 < |t| && b + 2 <= Blocks(v) && |w| == |v| && DirBlock(w, b) == DirBlock(v, b)
    requires DirEncodes(code, v, t, b)
    ensures DirEncodes(code, w, t + [s], b)
  {
    var block := DirBlock(v, b);
    var p :| IsDirPayload(p, t, b) && code.encodes(block, p);
    EntryInPrefix(p[16..32], t, t + [s], 2 * b);
    EntryInPrefix(p[..16], t, t + [s], 2 * b + 1);
    assert IsDirPayload(p, t + [s], b) && code.encodes(DirBlock(w, b), p);
  }
}
