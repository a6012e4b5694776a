/** Removing a Sega CD save: later saves and their entries move down over the gap. */
module SegaCdErase {
  import opened Bytes
  import opened Status
  import opened SegaCdBlock
  import opened SegaCdVolume
  import opened SegaCdDirectory
  import opened SegaCdLayout
  import opened SegaCdUnit
  import opened SegaCdCard

  /** The saves before `k` and those after it up to `j`. */
  function Moved(saves: seq<Save>, k: nat, j: nat): seq<Save>
    requires k < j <= |saves|
  {
    saves[..k] + saves[k + 1..j]
  }

  function Without(saves: seq<Save>, k: nat): seq<Save>
    requires k < |saves|
  {
    saves[..k] + saves[k + 1..]
  }

  lemma MovedNext(saves: seq<Save>, k: nat, j: nat)
    requires k < j < |saves|
    ensures Moved(saves, k, j + 1) == Moved(saves, k, j) + [saves[j]] && |Moved(saves, k, j)| == j - 1
  {
  }

  lemma {:induction false} MovedEnd(saves: seq<Save>, k: nat, j: nat)
    requires k < j <= |saves|
    ensures End(Moved(saves, k, j)) + Len(saves[k]) == Start(saves, j)
    decreases j
  {
    if j == k + 1 {
      assert Moved(saves, k, j) == saves[..k];
      StartPrefix(saves[..k], saves, k);
    } else {
      MovedEnd(saves, k, j - 1);
      MovedNext(saves, k, j - 1);
      EndSnoc(Moved(saves, k, j - 1), saves[j - 1]);
    }
  }

  lemma MovedSound(code: Code, saves: seq<Save>, k: nat, j: nat)
    requires k < j <= |saves| && AllSound(code, saves)
    ensures AllSound(code, Moved(saves, k, j))
  {
    var t := Moved(saves, k, j);
    forall i | 0 <= i < |t| ensures Sound(code, t[i]) {
      assert t[i] == if i < k then saves[i] else saves[i + 1];
      assert Sound(code, saves[if i < k then i else i + 1]);
    }
  }

  /** Directory blocks from the gap on encode the entries moved so far. */
  ghost predicate TailEncodes(code: Code, v: Volume, t: seq<Save>, k: nat)
    requires DirBlocks(|t|) + 1 <= Blocks(v)
  {
    forall b: nat {:trigger DirEncodes(code, v, t, b)} :: k / 2 <= b < DirBlocks(|t|) ==> DirEncodes(code, v, t, b)
  }

  ghost predicate SameBetween(v: seq<u8>, w: seq<u8>, lo: nat, hi: nat) {
    lo <= hi <= |v| && |w| == |v| && w[lo..hi] == v[lo..hi]
  }

  /** The state once the saves `t`, all but the `k`th up to block `from`, are in place: from
      there on the data of the `n` saves lies where it was. */
  ghost predicate Compacting(code: Code, v: Volume, w: Volume, t: seq<Save>, k: nat, n: nat, from: nat)
    requires DirBlocks(n) + 2 <= Blocks(v) && k <= |t| < n
  {
    && |w| == |v| && DataHolds(w, t) && SlotsHold(code, w, t)
    && SameBetween(v, w, 0, 64) && SameBetween(v, w, 64 * from, 64 * (Blocks(v) - 1 - DirBlocks(n)))
       && SameBetween(v, w, FormatAt(v), |v|)
    && HeadKept(v, w, k / 2) && (|t| > k ==> TailEncodes(code, w, t, k))
  }

  lemma CompactingStarts(code: Code, v: Volume, saves: seq<Save>, k: nat)
    requires DirBlocks(|saves|) + 2 <= Blocks(v) && SlotsHold(code, v, saves) && DataHolds(v, saves) && k < |saves|
    requires End(saves) <= Blocks(v) - 1 - DirBlocks(|saves|)
    ensures Compacting(code, v, v, saves[..k], k, |saves|, Start(saves, k + 1))
  {
    HoldPrefix(code, v, saves, saves[..k]);
    StartGrows(saves, k + 1, |saves|);
  }

  /** The bytes a turn does not reach: from `lo` on to the directory, and the format block. */
  lemma TurnFrames(v: Volume, w: Volume, w1: Volume, w2: Volume, end: nat, from: nat, lo: nat, stop: nat, at: nat)
    requires |v| == |w| == |w1| == |w2| && 64 <= end <= lo <= stop <= at <= at + 64 <= FormatAt(v) && from <= lo
    requires w1[..64] == w[..64] && w1[end..] == w[end..] && Outside(w1, w2, at, 64)
    requires SameBetween(v, w, 0, 64) && SameBetween(v, w, from, stop) && SameBetween(v, w, FormatAt(v), |v|)
    ensures SameBetween(v, w2, 0, 64) && SameBetween(v, w2, lo, stop) && SameBetween(v, w2, FormatAt(v), |v|)
  {
    PrefixKept(w1, w2, at, 0, 64);
    SuffixKept(w, w1, end, lo, stop);
    PrefixKept(w1, w2, at, lo, stop);
    SliceKept(v, w, from, stop, lo, stop);
    SuffixKept(w, w1, end, FormatAt(v), |v|);
    SuffixKept(w1, w2, at + 64, FormatAt(v), |v|);
  }

  lemma TurnHead(code: Code, v: Volume, w: Volume, w1: Volume, w2: Volume, n: nat, k: nat, end: nat, raw: seq<u8>)
    requires |v| == |w| == |w1| && k <= n && DirBlocks(n + 1) + 1 <= Blocks(v)
      && end <= Blocks(v) - 1 - DirBlocks(n + 1)
    requires w1[64 * end..] == w[64 * end..] && SlotWritten(code, w1, w2, n, raw)
    ensures HeadKept(w, w2, n / 2) && (HeadKept(v, w, k / 2) ==> HeadKept(v, w2, k / 2))
  {
    HeadFrame(w, w1, 64 * end, n / 2);
    SlotFrames(code, w1, w2, n, raw);
    HeadTrans(w, w1, w2, n / 2);
    if HeadKept(v, w, k / 2) {
      HeadFewer(w, w2, n / 2, k / 2);
      HeadTrans(v, w, w2, k / 2);
    }
  }

  lemma TurnTail(code: Code, w: Volume, w2: Volume, t: seq<Save>, s: Save, k: nat)
    requires |w| == |w2| && k <= |t| && DirBlocks(|t| + 1) + 1 <= Blocks(w) && (|t| > k ==> TailEncodes(code, w, t, k))
    requires HeadKept(w, w2, |t| / 2) && DirEncodes(code, w2, t + [s], |t| / 2)
    ensures TailEncodes(code, w2, t + [s], k)
  {
    forall b: nat | k / 2 <= b < DirBlocks(|t + [s]|) ensures DirEncodes(code, w2, t + [s], b) {
      if b != |t| / 2 {
        assert DirEncodes(code, w, t, b);
        assert DirBlock(w2, b) == DirBlock(w, b);
        DirEncodesLonger(code, w, w2, t, s, b);
      }
    }
  }

  lemma TurnFits(blocks: nat, n: nat, m: nat, to: nat, len: nat, from: nat, next: nat, stop: int)
    requires m + 1 < n && to < from && next == from + len && next <= stop == blocks - 1 - DirBlocks(n)
    ensures DirBlocks(m + 1) + 1 <= blocks && to + len <= blocks - 1 - DirBlocks(m + 1)
    ensures 64 * from <= 64 * next <= 64 * stop && to <= to + len <= next <= stop <= blocks - 1 - DirBlocks(m + 1)
      && from <= next
  {
  }

  /** A turn of the compaction keeps what the compaction promises. */
  lemma TurnKeeps(code: Code, v: Volume, w: Volume, w1: Volume, w2: Volume, t: seq<Save>, s: Save, k: nat, n: nat,
                  raw: seq<u8>,
      from: nat, next: nat)
    requires RoundTrips(code) && AllSound(code, t) && Sound(code, s) && DirBlocks(n) + 2 <= Blocks(v)
    requires k <= |t| && |t| + 1 < n && Compacting(code, v, w, t, k, n, from)
    requires |w1| == |w2| == |v| && End(t) < from && next == from + Len(s) && next <= Blocks(v) - 1 - DirBlocks(n)
    requires Wrote(w, w1, 64 * End(t), s.data) && SlotWritten(code, w1, w2, |t|, raw) && IsEntry(raw, s, End(t))
    ensures Compacting(code, v, w2, t + [s], k, n, next)
  {
    var stop := Blocks(v) - 1 - DirBlocks(n);
    TurnFits(Blocks(v), n, |t|, End(t), Len(s), from, next, stop);
    EntryHolds(code, w, w1, w2, t, s, raw);
    TurnKeepsRest(code, v, w, w1, w2, t, s, k, raw, End(t), End(t) + Len(s), from, next, stop);
  }

  /** The data about to move is still where it was. */
  lemma MovedData(code: Code, v: Volume, w: Volume, t: seq<Save>, k: nat, n: nat, from: nat, next: nat)
    requires DirBlocks(n) + 2 <= Blocks(v) && k <= |t| < n && Compacting(code, v, w, t, k, n, from)
    requires from <= next <= Blocks(v) - 1 - DirBlocks(n)
    ensures w[64 * from..64 * next] == v[64 * from..64 * next]
  {
    SliceKept(v, w, 64 * from, 64 * (Blocks(v) - 1 - DirBlocks(n)), 64 * from, 64 * next);
  }

  lemma TurnKeepsRest(code: Code, v: Volume, w: Volume, w1: Volume, w2: Volume, t: seq<Save>, s: Save, k: nat,
                      raw: seq<u8>,
      to: nat, end: nat, from: nat, lo: nat, stop: nat)
    requires |v| == |w| == |w1| == |w2| && k <= |t| && DirBlocks(|t| + 1) + 1 <= Blocks(v)
    requires 1 <= to <= end <= lo <= stop <= Blocks(v) - 1 - DirBlocks(|t| + 1) && from <= lo
    requires w1[..64 * to] == w[..64 * to] && w1[64 * end..] == w[64 * end..] && SlotWritten(code, w1, w2, |t|, raw)
    requires SameBetween(v, w, 0, 64) && SameBetween(v, w, 64 * from, 64 * stop) && SameBetween(v, w, FormatAt(v), |v|)
    requires HeadKept(v, w, k / 2) && (|t| > k ==> TailEncodes(code, w, t, k)) && DirEncodes(code, w2, t + [s], |t| / 2)
    ensures SameBetween(v, w2, 0, 64) && SameBetween(v, w2, 64 * lo, 64 * stop) && SameBetween(v, w2, FormatAt(v), |v|)
    ensures HeadKept(v, w2, k / 2) && TailEncodes(code, w2, t + [s], k)
  {
    PrefixKept(w, w1, 64 * to, 0, 64);
    TurnFrames(v, w, w1, w2, 64 * end, 64 * from, 64 * lo, 64 * stop, DirAt(Blocks(v), |t| / 2));
    TurnHead(code, v, w, w1, w2, |t|, k, end, raw);
    TurnTail(code, w, w2, t, s, k);
  }

  /* ---- The moves --------------------------------------------------------------------------------- */

  /** An entry with a new start block. */
  function Restarted(raw: seq<u8>, to: nat): (r: seq<u8>)
    requires |raw| == ENTRY_SIZE
    ensures |r| == ENTRY_SIZE
  {
    Splice(raw, 12, Be16Bytes(to))
  }

  lemma RestartedEntry(raw: seq<u8>, s: Save, start: nat, to: nat)
    requires IsEntry(raw, s, start) && to < 0x1_0000
    ensures IsEntry(Restarted(raw, to), s, to)
  {
    var r := Restarted(raw, to);
    assert r[12..14] == Be16Bytes(to);
    assert r[12] == r[12..14][0] && r[13] == r[12..14][1];
    assert r[..11] == raw[..11];
  }

  /** One turn of the compaction: the save's data, then its entry in the slot before. */
  ghost predicate Turn(code: Code, w: Volume, w1: Volume, w2: Volume, e: Entry, gap: nat, slot: nat)
    requires |w| == |w1| == |w2| && slot / 2 + 2 <= Blocks(w) && Movable(e, gap, |w|)
  {
    && Wrote(w, w1, 64 * (e.start - gap), w[64 * e.start..64 * (e.start + e.blocks)])
    && SlotWritten(code, w1, w2, slot, Restarted(e.raw, e.start - gap))
  }

  predicate Movable(e: Entry, gap: nat, size: nat) {
    |e.raw| == ENTRY_SIZE && gap <= e.start && 64 * e.start <= 64 * (e.start + e.blocks) <= size
  }

  method MoveOne(ghost code: Code, vol: array<u8>, e: Entry, gap: nat, slot: nat) returns (ghost w1: Volume)
    requires IsBlockCode(code) && WholeBlocks(vol.Length) && slot / 2 + 2 <= vol.Length / 64
      && Movable(e, gap, vol.Length)
    modifies vol
    ensures |w1| == vol.Length && Turn(code, old(vol[..]), w1, vol[..], e, gap, slot)
  {
    WriteAt(vol, 64 * (e.start - gap), vol[..][64 * e.start..64 * (e.start + e.blocks)]);
    w1 := vol[..];
    WriteSlot(code, vol, slot, Restarted(e.raw, e.start - gap));
  }

  /** What the next entry says, and where its data is and goes. */
  lemma NextMove(code: Code, v: Volume, w: Volume, saves: seq<Save>, entries: seq<Entry>, k: nat, j: nat)
    requires AllSound(code, saves) && DataHolds(v, saves) && DirBlocks(|saves|) + 2 <= Blocks(v)
      && EntriesMatch(entries, saves)
    requires End(saves) <= Blocks(v) - 1 - DirBlocks(|saves|) && k < j < |saves|
    requires Compacting(code, v, w, Moved(saves, k, j), k, |saves|, Start(saves, j))
    ensures var t, e := Moved(saves, k, j), entries[j];
      && AllSound(code, t) && Sound(code, saves[j]) && |t| == j - 1
      && |e.raw| == ENTRY_SIZE && IsEntry(Restarted(e.raw, End(t)), saves[j], End(t))
      && e.start == Start(saves, j) && e.start + e.blocks == Start(saves, j + 1) && e.blocks == Len(saves[j])
      && entries[k].blocks == Len(saves[k]) && End(t) + entries[k].blocks == e.start && End(t) < e.start
      && Start(saves, j + 1) <= Blocks(v) - 1 - DirBlocks(|saves|)
      && w[64 * e.start..64 * (e.start + e.blocks)] == saves[j].data
  {
    MovedSound(code, saves, k, j);
    MovedEnd(saves, k, j);
    MovedNext(saves, k, j);
    assert Sound(code, saves[j]) && Sound(code, saves[k]);
    EntrySays(saves, entries, k);
    EntrySays(saves, entries, j);
    StartGrows(saves, j + 1, |saves|);
    RestartedEntry(entries[j].raw, saves[j], Start(saves, j), End(Moved(saves, k, j)));
    MovedData(code, v, w, Moved(saves, k, j), k, |saves|, Start(saves, j), Start(saves, j + 1));
    assert DataAt(v, saves, j);
  }

  lemma NextMovable(saves: seq<Save>, entries: seq<Entry>, k: nat, j: nat, blocks: nat)
    requires EntriesMatch(entries, saves) && k < j < |saves| && End(saves) <= blocks
    ensures Movable(entries[j], entries[k].blocks, 64 * blocks)
  {
    EntrySays(saves, entries, k);
    EntrySays(saves, entries, j);
    MovedEnd(saves, k, j);
    StartGrows(saves, j + 1, |saves|);
  }

  lemma TurnDone(code: Code, v: Volume, w: Volume, w1: Volume, w2: Volume, saves: seq<Save>, entries: seq<Entry>,
                 k: nat, j: nat)
    requires RoundTrips(code) && AllSound(code, saves) && DataHolds(v, saves) && DirBlocks(|saves|) + 2 <= Blocks(v)
      && EntriesMatch(entries, saves)
    requires End(saves) <= Blocks(v) - 1 - DirBlocks(|saves|) && k < j < |saves|
    requires Compacting(code, v, w, Moved(saves, k, j), k, |saves|, Start(saves, j))
    requires |w| == |w1| == |w2| && Movable(entries[j], entries[k].blocks, |w|)
      && Turn(code, w, w1, w2, entries[j], entries[k].blocks, j - 1)
    ensures Compacting(code, v, w2, Moved(saves, k, j + 1), k, |saves|, Start(saves, j + 1))
  {
    var t := Moved(saves, k, j);
    NextMove(code, v, w, saves, entries, k, j);
    MovedNext(saves, k, j);
    TurnKeeps(code, v, w, w1, w2, t, saves[j], k, |saves|, Restarted(entries[j].raw, End(t)), Start(saves, j),
        Start(saves, j + 1));
  }

  lemma CompactBegins(code: Code, v: Volume, saves: seq<Save>, entries: seq<Entry>, k: nat)
    requires DirBlocks(|saves|) + 2 <= Blocks(v) && AllSound(code, saves) && DataHolds(v, saves)
      && SlotsHold(code, v, saves)
    requires End(saves) <= Blocks(v) - 1 - DirBlocks(|saves|) && EntriesMatch(entries, saves) && k < |entries|
    ensures |entries| == |saves| && Start(saves, |saves|) == End(saves)
    ensures Compacting(code, v, v, Moved(saves, k, k + 1), k, |saves|, Start(saves, k + 1))
  {
    CompactingStarts(code, v, saves, k);
    assert Moved(saves, k, k + 1) == saves[..k];
  }

  method Compact(ghost code: Code, vol: array<u8>, entries: seq<Entry>, k: nat, ghost v: Volume, ghost saves: seq<Save>)
    returns (ghost w: Volume)
    requires IsBlockCode(code) && WholeBlocks(vol.Length) && vol[..] == v && DirBlocks(|saves|) + 2 <= Blocks(v)
    requires AllSound(code, saves) && DataHolds(v, saves) && SlotsHold(code, v, saves)
    requires End(saves) <= Blocks(v) - 1 - DirBlocks(|saves|) && EntriesMatch(entries, saves) && k < |entries|
    modifies vol
    ensures vol[..] == w && Compacting(code, v, w, Moved(saves, k, |saves|), k, |saves|, End(saves))
  {
    hide Compacting, Start, End, Turn, DataHolds, SlotsHold, EntriesMatch, AllSound, Movable, IsBlockCode, RoundTrips;
    w := v;
    BlockCodeRoundTrips(code);
    CompactBegins(code, v, saves, entries, k);
    for j := k + 1 to |entries|
      invariant vol[..] == w && Compacting(code, v, w, Moved(saves, k, j), k, |saves|, Start(saves, j))
    {
      NextMovable(saves, entries, k, j, Blocks(v));
      ghost var w1 := MoveOne(code, vol, entries[j], entries[k].blocks, j - 1);
      ghost var w2: Volume := vol[..];
      TurnDone(code, v, w, w1, w2, saves, entries, k, j);
      w := w2;
    }
  }

  /* ---- After the last move ------------------------------------------------------------------------ */

  /** Bytes `lo` to `hi` are zero. */
  ghost predicate ZeroBetween(w: seq<u8>, lo: nat, hi: nat) {
    lo <= hi <= |w| && Zeroed(w[lo..hi])
  }

  /** The rest held, the freed blocks zero, the free area and the directory before the gap as
      they were. */
  ghost predicate Vacated(code: Code, v: Volume, w: Volume, t: seq<Save>, k: nat, n: nat, end: nat)
    requires DirBlocks(n) + 2 <= Blocks(v) && k <= |t| && |t| + 1 == n
  {
    && |w| == |v| && DataHolds(w, t) && SlotsHold(code, w, t)
    && SameBetween(v, w, 0, 64) && ZeroBetween(w, 64 * End(t), 64 * end)
    && SameBetween(v, w, 64 * end, 64 * (Blocks(v) - 1 - DirBlocks(n)))
    && HeadKept(v, w, k / 2) && TailEncodes(code, w, t, k)
    && (n % 2 == 1 ==> Zeroed(DirBlock(w, n / 2)))
  }

  /** The volume after a removal. */
  ghost predicate Removed(code: Code, v: Volume, w: Volume, saves: seq<Save>, k: nat)
    requires DirBlocks(|saves|) + 2 <= Blocks(v) && k < |saves|
  {
    Vacated(code, v, w, Without(saves, k), k, |saves|, End(saves)) && HoldsCounted(code, w, Without(saves, k))
      && SameFormat(v, w)
  }

  /** Clearing the data behind the last save. */
  lemma Cleared(code: Code, v: Volume, w: Volume, w1: Volume, t: seq<Save>, k: nat, n: nat, end: nat)
    requires DirBlocks(n) + 2 <= Blocks(v) && k <= |t| && |t| + 1 == n && Compacting(code, v, w, t, k, n, end)
    requires End(t) <= end <= Blocks(v) - 1 - DirBlocks(n) && Blanked(w, w1, 64 * End(t), 64 * end - 64 * End(t))
    ensures Compacting(code, v, w1, t, k, n, end) && ZeroBetween(w1, 64 * End(t), 64 * end)
  {
    var at, hi, stop := 64 * End(t), 64 * end, 64 * (Blocks(v) - 1 - DirBlocks(n));
    assert at + (hi - at) == hi;
    DataKept(w, w1, t, at);
    HeadFrame(w, w1, hi, DirBlocks(n));
    HeadFewer(w, w1, DirBlocks(n), DirBlocks(|t|));
    SlotsKept(code, w, w1, t);
    HeadFewer(w, w1, DirBlocks(n), k / 2);
    HeadTrans(v, w, w1, k / 2);
    if |t| > k {
      TailKeeps(code, w, w1, t, k);
    }
    ClearFrames(v, w, w1, at, hi, stop);
  }

  lemma ClearFrames(v: Volume, w: Volume, w1: Volume, at: nat, hi: nat, stop: nat)
    requires |v| == |w| == |w1| && 64 <= at <= hi <= stop <= FormatAt(v) && w1[..at] == w[..at] && w1[hi..] == w[hi..]
    requires SameBetween(v, w, 0, 64) && SameBetween(v, w, hi, stop) && SameBetween(v, w, FormatAt(v), |v|)
    ensures SameBetween(v, w1, 0, 64) && SameBetween(v, w1, hi, stop) && SameBetween(v, w1, FormatAt(v), |v|)
  {
    PrefixKept(w, w1, at, 0, 64);
    SuffixKept(w, w1, hi, hi, stop);
    SuffixKept(w, w1, hi, FormatAt(v), |w|);
  }

  lemma TailKeeps(code: Code, w: Volume, w1: Volume, t: seq<Save>, k: nat)
    requires |w| == |w1| && DirBlocks(|t|) + 1 <= Blocks(w) && TailEncodes(code, w, t, k)
      && HeadKept(w, w1, DirBlocks(|t|))
    ensures TailEncodes(code, w1, t, k)
  {
    forall b: nat | k / 2 <= b < DirBlocks(|t|) ensures DirEncodes(code, w1, t, b) {
      assert DirEncodes(code, w, t, b) && DirBlock(w1, b) == DirBlock(w, b);
      SameEncodes(code, w, w1, t, b);
    }
  }

  /* ---- The vacated slot ---------------------------------------------------------------------------- */

  /** The vacated slot is cleared: its half of the payload, or its whole block. */
  ghost predicate ClearStep(code: Code, w: Volume, w1: Volume, last: nat)
    requires last / 2 + 2 <= Blocks(w)
  {
    if last % 2 == 1 then SlotWritten(code, w, w1, last, Zeros(16))
    else Blanked(w, w1, DirAt(Blocks(w), last / 2), 64)
  }

  lemma OddEncodes(code: Code, w: Volume, w1: Volume, t: seq<Save>, raw: seq<u8>)
    requires |t| % 2 == 1 && DirBlocks(|t|) + 1 <= Blocks(w) && SlotsHold(code, w, t)
    requires |raw| == 16 && Zeroed(raw) && SlotWritten(code, w, w1, |t|, raw)
    ensures DirEncodes(code, w1, t, |t| / 2)
  {
    var n := |t|;
    assert 2 * (n / 2) == n - 1 && (n - 1) / 2 == n / 2;
    assert SlotHolds(code, w, t, n - 1);
    var p :| IsNewPayload(code, w, n, raw, p) && code.encodes(DirBlock(w1, n / 2), p);
    assert IsDirPayload(p, t, n / 2);
  }

  lemma OddCleared(code: Code, w: Volume, w1: Volume, t: seq<Save>, k: nat, raw: seq<u8>)
    requires RoundTrips(code) && |t| % 2 == 1 && k <= |t| && DirBlocks(|t|) + 1 <= Blocks(w) && SlotsHold(code, w, t)
    requires |raw| == 16 && Zeroed(raw) && SlotWritten(code, w, w1, |t|, raw)
      && (|t| > k ==> TailEncodes(code, w, t, k))
    ensures SlotsHold(code, w1, t) && TailEncodes(code, w1, t, k)
  {
    OddEncodes(code, w, w1, t, raw);
    SlotWriteFrame(w, w1, |t|);
    DirEncodesSlots(code, w1, t, |t| / 2);
    forall i: nat | i < |t| ensures SlotHolds(code, w1, t, i) {
      if i / 2 == |t| / 2 {
        assert i == 2 * (|t| / 2);
      } else {
        assert SlotHolds(code, w, t, i);
        SlotSame(code, w, w1, t, i);
      }
    }
    forall b: nat | k / 2 <= b < DirBlocks(|t|) ensures DirEncodes(code, w1, t, b) {
      if b != |t| / 2 {
        assert DirEncodes(code, w, t, b) && DirBlock(w1, b) == DirBlock(w, b);
        SameEncodes(code, w, w1, t, b);
      }
    }
  }

  lemma VacateFrames(v: Volume, w: Volume, w1: Volume, lo: nat, hi: nat, stop: nat, at: nat)
    requires |v| == |w| == |w1| && 64 <= lo <= hi <= stop <= at <= at + 64 <= FormatAt(v) && Outside(w, w1, at, 64)
    requires SameBetween(v, w, 0, 64) && SameBetween(v, w, hi, stop) && SameBetween(v, w, FormatAt(v), |v|)
      && ZeroBetween(w, lo, hi)
    ensures SameBetween(v, w1, 0, 64) && SameBetween(v, w1, hi, stop) && SameBetween(v, w1, FormatAt(v), |v|)
      && ZeroBetween(w1, lo, hi)
  {
    PrefixKept(w, w1, at, 0, 64);
    PrefixKept(w, w1, at, lo, hi);
    PrefixKept(w, w1, at, hi, stop);
    SuffixKept(w, w1, at + 64, FormatAt(v), |v|);
  }

  lemma EmptyTail(code: Code, w: Volume, t: seq<Save>)
    requires |t| % 2 == 0 && DirBlocks(|t|) + 1 <= Blocks(w)
    ensures TailEncodes(code, w, t, |t|)
  {
  }

  lemma SlotVacated(code: Code, v: Volume, w: Volume, w1: Volume, t: seq<Save>, k: nat, n: nat, end: nat)
    requires RoundTrips(code) && DirBlocks(n) + 2 <= Blocks(v) && k <= |t| && |t| + 1 == n && |w1| == |v|
    requires Compacting(code, v, w, t, k, n, end) && ZeroBetween(w, 64 * End(t), 64 * end)
      && ClearStep(code, w, w1, n - 1)
    ensures Vacated(code, v, w1, t, k, n, end) && SameBetween(v, w1, FormatAt(v), |v|)
  {
    hide DataHolds, SlotsHold, TailEncodes, HeadKept;
    var stop, at := Blocks(v) - 1 - DirBlocks(n), DirAt(Blocks(v), |t| / 2);
    assert 64 * stop <= at <= at + 64 <= FormatAt(v);
    VacateFrames(v, w, w1, 64 * End(t), 64 * end, 64 * stop, at);
    DataKept(w, w1, t, at);
    SlotWriteFrame(w, w1, |t|);
    HeadFewer(w, w1, |t| / 2, k / 2);
    HeadTrans(v, w, w1, k / 2);
    if |t| % 2 == 1 {
      OddCleared(code, w, w1, t, k, Zeros(16));
    } else {
      assert DirBlocks(|t|) == |t| / 2 == n / 2;
      SlotsKept(code, w, w1, t);
      if |t| > k {
        TailKeeps(code, w, w1, t, k);
      } else {
        EmptyTail(code, w1, t);
      }
    }
  }

  /** The removal leaves room enough for the block the BIOS holds. */
  lemma HeldFits(blocks: nat, n: nat, low: nat, end: nat)
    requires n >= 1 && low < end && end + HeldBlock(n) <= DataEnd(blocks, n) && DirBlocks(n) + 2 <= blocks
    ensures low + HeldBlock(n - 1) <= DataEnd(blocks, n - 1) && DirBlocks(n - 1) + 2 <= blocks
    ensures (n - 1) / 2 + 2 <= blocks && BiosFree(blocks, n - 1, low) <= blocks
  {
  }

  lemma RemovedAll(code: Code, v: Volume, w: Volume, w1: Volume, t: seq<Save>, k: nat, n: nat, end: nat, free: nat)
    requires DirBlocks(n) + 2 <= Blocks(v) && k <= |t| && |t| + 1 == n && AllSound(code, t)
    requires Vacated(code, v, w, t, k, n, end) && SameBetween(v, w, FormatAt(v), |v|)
    requires End(t) < end && end + HeldBlock(n) <= DataEnd(Blocks(v), n)
    requires free == BiosFree(Blocks(v), n - 1, End(t)) && Counted(w, w1, free, n - 1)
    ensures Vacated(code, v, w1, t, k, n, end) && HoldsCounted(code, w1, t) && SameFormat(v, w1)
  {
    HeldFits(Blocks(v), n, End(t), end);
    CountedKeeps(code, w, w1, t);
    CountedHead(w, w1, free, n - 1);
    HeadFewer(w, w1, Blocks(v) - 1, k / 2);
    HeadTrans(v, w, w1, k / 2);
    HeadFewer(w, w1, Blocks(v) - 1, DirBlocks(|t|));
    TailKeeps(code, w, w1, t, k);
    CountFrames(v, w, w1, 64 * End(t), 64 * end, 64 * (Blocks(v) - 1 - DirBlocks(n)));
    if n % 2 == 1 {
      assert DirBlock(w1, n / 2) == DirBlock(w, n / 2);
    }
  }

  lemma CountFrames(v: Volume, w: Volume, w1: Volume, lo: nat, hi: nat, stop: nat)
    requires |v| == |w| == |w1| && 64 <= lo <= hi <= stop <= FormatAt(v) && w1[..FormatAt(v)] == w[..FormatAt(v)]
      && SameFormat(w, w1)
    requires SameBetween(v, w, 0, 64) && SameBetween(v, w, hi, stop) && SameBetween(v, w, FormatAt(v), |v|)
      && ZeroBetween(w, lo, hi)
    ensures SameBetween(v, w1, 0, 64) && SameBetween(v, w1, hi, stop) && ZeroBetween(w1, lo, hi) && SameFormat(v, w1)
  {
    PrefixKept(w, w1, FormatAt(v), 0, 64);
    PrefixKept(w, w1, FormatAt(v), lo, hi);
    PrefixKept(w, w1, FormatAt(v), hi, stop);
    TailKept(v, w, FormatAt(v));
  }

  /* ---- The whole removal ---------------------------------------------------------------------------- */

  method ClearSlot(ghost code: Code, vol: array<u8>, last: nat)
    requires IsBlockCode(code) && WholeBlocks(vol.Length) && last / 2 + 2 <= vol.Length / 64
    modifies vol
    ensures ClearStep(code, old(vol[..]), vol[..], last)
  {
    if last % 2 == 1 {
      WriteSlot(code, vol, last, Zeros(16));
    } else {
      Blank(vol, 64 * (vol.Length / 64 - 2 - last / 2), 64);
    }
  }

  lemma WithoutPlaces(code: Code, v: Volume, saves: seq<Save>, entries: seq<Entry>, k: nat)
    requires Holds(code, v, saves) && EntriesMatch(entries, saves) && k < |saves|
    ensures var t, last := Without(saves, k), |saves| - 1;
      && t == Moved(saves, k, |saves|) && |t| == last && AllSound(code, t)
      && entries[k].blocks == Len(saves[k]) && End(t) + Len(saves[k]) == End(saves) && End(t) < End(saves)
      && entries[last].start + entries[last].blocks == End(saves)
      && End(saves) <= Blocks(v) - 1 - DirBlocks(|saves|) && ValidSize(|v|)
  {
    assert Without(saves, k) == Moved(saves, k, |saves|);
    assert Sound(code, saves[k]);
    MovedEnd(saves, k, |saves|);
    MovedSound(code, saves, k, |saves|);
    EntrySays(saves, entries, k);
    EntrySays(saves, entries, |saves| - 1);
  }

  lemma EraseDone(code: Code, v: Volume, w: Volume, w1: Volume, w2: Volume, w3: Volume, t: seq<Save>, k: nat, n: nat,
                  end: nat, free: nat)
    requires RoundTrips(code) && DirBlocks(n) + 2 <= Blocks(v) && k <= |t| && |t| + 1 == n && AllSound(code, t)
    requires Compacting(code, v, w, t, k, n, end) && End(t) < end && end + HeldBlock(n) <= DataEnd(Blocks(v), n)
    requires |v| == |w1| == |w2| && (n - 1) / 2 + 2 <= Blocks(v)
    requires Blanked(w, w1, 64 * End(t), 64 * end - 64 * End(t)) && ClearStep(code, w1, w2, n - 1)
    requires free == BiosFree(Blocks(v), n - 1, End(t)) && Counted(w2, w3, free, n - 1)
    ensures Vacated(code, v, w3, t, k, n, end) && HoldsCounted(code, w3, t) && SameFormat(v, w3)
  {
    Cleared(code, v, w, w1, t, k, n, end);
    SlotVacated(code, v, w1, w2, t, k, n, end);
    RemovedAll(code, v, w2, w3, t, k, n, end, free);
  }

  /** The writes that follow the moves: the freed data, the vacated slot, the counts. */
  method ClearBehind(ghost code: Code, vol: array<u8>, low: nat, end: nat, last: nat)
    returns (ghost w1: Volume, ghost w2: Volume)
    requires IsBlockCode(code) && ValidSize(vol.Length) && 64 * low <= 64 * end <= vol.Length
    requires DirBlocks(last) + 2 <= vol.Length / 64 && last / 2 + 2 <= vol.Length / 64
    requires BiosFree(vol.Length / 64, last, low) <= vol.Length / 64
    modifies vol
    ensures Blanked(old(vol[..]), w1, 64 * low, 64 * end - 64 * low) && |w2| == |w1| && ClearStep(code, w1, w2, last)
    ensures Counted(w2, vol[..], BiosFree(vol.Length / 64, last, low), last)
  {
    Blank(vol, 64 * low, 64 * end - 64 * low);
    w1 := vol[..];
    ClearSlot(code, vol, last);
    w2 := vol[..];
    WriteCounts(vol, BiosFree(vol.Length / 64, last, low), last);
  }

  method Erase(ghost code: Code, vol: array<u8>, entries: seq<Entry>, k: nat, ghost v: Volume, ghost saves: seq<Save>)
    requires IsBlockCode(code) && WholeBlocks(vol.Length) && vol[..] == v && Holds(code, v, saves)
    requires EntriesMatch(entries, saves) && k < |entries|
    modifies vol
    ensures Removed(code, v, vol[..], saves, k)
  {
    hide Compacting, Vacated, HoldsCounted, SameFormat, Blanked, ClearStep, Counted, DataHolds, SlotsHold, AllSound,
      Start;
    ghost var t := Without(saves, k);
    WithoutPlaces(code, v, saves, entries, k);
    HeldFits(Blocks(v), |saves|, End(t), End(saves));
    var last, gap := |entries| - 1, entries[k].blocks;
    var end := entries[last].start + entries[last].blocks;
    var low := end - gap;
    assert low == End(t) && end == End(saves) && last == |saves| - 1 == |t|;
    ghost var w := Compact(code, vol, entries, k, v, saves);
    ghost var w1, w2 := ClearBehind(code, vol, low, end, last);
    ghost var w3: Volume := vol[..];
    BlockCodeRoundTrips(code);
    EraseDone(code, v, w, w1, w2, w3, t, k, |saves|, end, BiosFree(Blocks(v), last, low));
  }

  ghost predicate StartsAt(saves: seq<Save>, k: nat, first: nat)
    requires k < |saves|
  {
    Start(saves, k) == first
  }

  /** What removing the save at `first` answers and leaves, by case. */
  ghost predicate DeleteResult(code: Code, v: Volume, first: nat, st: Status, w: Volume) {
    match Directory(code, v)
    case None => w == v && st == if Counts(v).None? then InvalidArg else Unsupported
    case Some(saves) =>
      && Holds(code, v, saves)
      && (if exists k: nat {:trigger StartsAt(saves, k, first)} :: k < |saves| && StartsAt(saves, k, first)
          then st == Status.Ok
            && exists k: nat {:trigger StartsAt(saves, k, first)} ::
               k < |saves| && StartsAt(saves, k, first) && Removed(code, v, w, saves, k)
          else st == InvalidArg && w == v)
  }

  /** The entry whose save starts at `first`, or the number of entries. */
  method FindStart(ghost saves: seq<Save>, entries: seq<Entry>, first: nat) returns (k: nat)
    requires EntriesMatch(entries, saves)
    ensures k <= |saves| && (k < |saves| ==> StartsAt(saves, k, first))
    ensures forall i: nat {:trigger StartsAt(saves, i, first)} :: i < k ==> !StartsAt(saves, i, first)
  {
    k := 0;
    while k < |entries|
      invariant k <= |entries|
      invariant forall i: nat {:trigger StartsAt(saves, i, first)} :: i < k ==> !StartsAt(saves, i, first)
    {
      EntrySays(saves, entries, k);
      if entries[k].start == first {
        return;
      }
      k := k + 1;
    }
  }

  method Delete(ghost code: Code, vol: array<u8>, first: nat) returns (st: Status)
    requires IsBlockCode(code) && WholeBlocks(vol.Length)
    modifies vol
    ensures DeleteResult(code, old(vol[..]), first, st, vol[..])
  {
    var rc, files, free, entries := ReadDirectory(code, vol);
    if rc != Status.Ok {
      return rc;
    }
    ghost var v: Volume := vol[..];
    ghost var saves := Directory(code, v).value;
    var k := FindStart(saves, entries, first);
    if k == files {
      return InvalidArg;
    }
    Erase(code, vol, entries, k, v, saves);
    st := Status.Ok;
  }
}
