/** Finding serials in a PSP executable: a window slides over the disc's sectors, carrying a few
    bytes, and finds what a look at the whole file would. */
module SerialScan {
  import opened Bytes
  import opened Status

  const SERIAL_LEN := 9
  const MAX_SPAN := 10
  const MAX_CANDIDATES := 8
  const SECTOR := 2048
  const MAX_BYTES := 64 * 1024 * 1024

  /* ---- Serials ------------------------------------------------------------------------------------------ */

  predicate Upper(c: u8) {
    0x41 <= c <= 0x5A
  }

  predicate Digit(c: u8) {
    0x30 <= c <= 0x39
  }

  predicate SerialChar(c: u8) {
    Upper(c) || Digit(c)
  }

  predicate Digits(s: seq<u8>, at: nat)
    requires at + 5 <= |s|
  {
    Digit(s[at]) && Digit(s[at + 1]) && Digit(s[at + 2]) && Digit(s[at + 3]) && Digit(s[at + 4])
  }

  /** The serial that starts at `i`: UL, UC or NP and two letters, then five digits, perhaps after a
      dash; without the dash. */
  function SerialAt(s: seq<u8>, i: nat): (r: Option<seq<u8>>)
    requires i <= |s|
    ensures r.Some? ==> |r.value| == SERIAL_LEN
  {
    if |s| - i < SERIAL_LEN then None
    else if !((s[i] == 0x55 && (s[i + 1] == 0x4C || s[i + 1] == 0x43)) || (s[i] == 0x4E && s[i + 1] == 0x50)) then None
    else if !Upper(s[i + 2]) || !Upper(s[i + 3]) then None
    else if Digits(s, i + 4) then Some(s[i..i + 4] + s[i + 4..i + 9])
    else if |s| - i >= MAX_SPAN && s[i + 4] == 0x2D && Digits(s, i + 5) then Some(s[i..i + 4] + s[i + 5..i + 10])
    else None
  }

  function Letter(c: u8): char {
    c as char
  }

  /** A title's id: UL or UC for a disc, NP for the store, two more letters, five digits. */
  predicate IsSerial(id: seq<u8>) {
    && |id| == 9 && [Letter(id[0]), Letter(id[1])] in {"UL", "UC", "NP"}
    && 'A' <= Letter(id[2]) <= 'Z' && 'A' <= Letter(id[3]) <= 'Z'
    && forall k {:trigger id[k]} :: 4 <= k < 9 ==> '0' <= Letter(id[k]) <= '9'
  }

  /** The id is spelled out at `i`, or with a dash after its letters. */
  predicate SpelledAt(s: seq<u8>, i: nat, id: seq<u8>)
    requires i <= |s| && |id| == 9
  {
    || (i + 9 <= |s| && s[i..i + 9] == id)
    || (i + 10 <= |s| && s[i..i + 4] == id[..4] && Letter(s[i + 4]) == '-' && s[i + 5..i + 10] == id[4..])
  }

  lemma PrefixIs(a: u8, b: u8)
    ensures [Letter(a), Letter(b)] in {"UL", "UC", "NP"}
       <==> (a == 0x55 && (b == 0x4C || b == 0x43)) || (a == 0x4E && b == 0x50)
  {
    var p := [Letter(a), Letter(b)];
    assert p == "UL" <==> p[0] == 'U' && p[1] == 'L';
    assert p == "UC" <==> p[0] == 'U' && p[1] == 'C';
    assert p == "NP" <==> p[0] == 'N' && p[1] == 'P';
  }

  lemma LettersAre(c: u8)
    ensures 'A' <= Letter(c) <= 'Z' <==> Upper(c)
    ensures '0' <= Letter(c) <= '9' <==> Digit(c)
    ensures Letter(c) == '-' <==> c == 0x2D
  {
  }

  lemma DigitsAre(id: seq<u8>)
    requires |id| == 9
    ensures Digits(id, 4) <==> forall k {:trigger id[k]} :: 4 <= k < 9 ==> Digit(id[k])
  {
  }

  lemma SerialIs(id: seq<u8>)
    requires |id| == 9
    ensures IsSerial(id) <==>
      && ((id[0] == 0x55 && (id[1] == 0x4C || id[1] == 0x43)) || (id[0] == 0x4E && id[1] == 0x50))
      && Upper(id[2]) && Upper(id[3]) && Digits(id, 4)
  {
    hide Upper, Digit, Digits, Letter;
    PrefixIs(id[0], id[1]);
    LettersAre(id[2]);
    LettersAre(id[3]);
    DigitsAre(id);
    forall k | 4 <= k < 9 ensures '0' <= Letter(id[k]) <= '9' <==> Digit(id[k]) {
      LettersAre(id[k]);
    }
  }

  lemma DashIs(c: u8)
    ensures Letter(c) == '-' <==> c == 0x2D
    ensures c == 0x2D ==> !Digit(c)
  {
  }

  lemma SameDigits(s: seq<u8>, at: nat, id: seq<u8>)
    requires at + 5 <= |s| && |id| == 9 && s[at..at + 5] == id[4..]
    ensures Digits(s, at) <==> Digits(id, 4)
  {
    hide Digit;
    var t := id[4..];
    assert t[0] == id[4] && t[1] == id[5] && t[2] == id[6] && t[3] == id[7] && t[4] == id[8];
    assert t[0] == s[at] && t[1] == s[at + 1] && t[2] == s[at + 2] && t[3] == s[at + 3] && t[4] == s[at + 4];
  }

  /** The same letters stand at `i`. */
  lemma SameHead(s: seq<u8>, i: nat, id: seq<u8>)
    requires i + 9 <= |s| && |id| == 9 && s[i..i + 4] == id[..4]
    ensures s[i] == id[0] && s[i + 1] == id[1] && s[i + 2] == id[2] && s[i + 3] == id[3]
  {
    var t := id[..4];
    assert t[0] == s[i] && t[1] == s[i + 1] && t[2] == s[i + 2] && t[3] == s[i + 3];
  }

  lemma SpelledIsRead(s: seq<u8>, i: nat, id: seq<u8>)
    requires i <= |s| && |id| == 9 && IsSerial(id) && SpelledAt(s, i, id)
    ensures SerialAt(s, i) == Some(id)
  {
    hide IsSerial, Letter, Upper, Digit, Digits;
    SerialIs(id);
    if s[i..i + 9] == id {
      assert s[i..i + 4] == id[..4] && s[i + 4..i + 9] == id[4..];
      SameHead(s, i, id);
      SameDigits(s, i + 4, id);
      assert s[i..i + 4] + s[i + 4..i + 9] == id;
    } else {
      SameHead(s, i, id);
      SameDigits(s, i + 5, id);
      DashIs(s[i + 4]);
      NoDigits(s, i + 4);
      assert s[i..i + 4] + s[i + 5..i + 10] == id[..4] + id[4..] == id;
    }
  }

  lemma NoDigits(s: seq<u8>, at: nat)
    requires at + 5 <= |s| && !Digit(s[at])
    ensures !Digits(s, at)
  {
  }

  lemma ReadIsSpelled(s: seq<u8>, i: nat)
    requires i <= |s| && SerialAt(s, i).Some?
    ensures IsSerial(SerialAt(s, i).value) && SpelledAt(s, i, SerialAt(s, i).value)
  {
    hide IsSerial, Letter, Upper, Digit, Digits;
    var id := SerialAt(s, i).value;
    assert id[..4] == s[i..i + 4];
    SameHead(s, i, id);
    SerialIs(id);
    if Digits(s, i + 4) {
      assert id[4..] == s[i + 4..i + 9];
      assert s[i..i + 9] == id;
      SameDigits(s, i + 4, id);
    } else {
      assert id[4..] == s[i + 5..i + 10];
      SameDigits(s, i + 5, id);
      DashIs(s[i + 4]);
    }
  }

  /** Exactly the ids of titles are read, where they are spelled out. */
  lemma SerialIff(s: seq<u8>, i: nat, id: seq<u8>)
    requires i <= |s| && |id| == 9
    ensures SerialAt(s, i) == Some(id) <==> IsSerial(id) && SpelledAt(s, i, id)
  {
    if SerialAt(s, i) == Some(id) {
      ReadIsSpelled(s, i);
    }
    if IsSerial(id) && SpelledAt(s, i, id) {
      SpelledIsRead(s, i, id);
    }
  }

  /** A serial starts at `i`, after `prev`, which is no part of a longer word. */
  function Found(s: seq<u8>, i: nat, prev: u8): Option<seq<u8>>
    requires i <= |s|
  {
    if SerialChar(prev) then None else SerialAt(s, i)
  }

  datatype Serials = Serials(ids: seq<seq<u8>>, overflow: bool)

  function Add(set': Serials, id: seq<u8>): Serials {
    if id in set'.ids then set'
    else if |set'.ids| == MAX_CANDIDATES then set'.(overflow := true)
    else set'.(ids := set'.ids + [id])
  }

  function AddFound(set': Serials, id: Option<seq<u8>>): Serials {
    if id.Some? then Add(set', id.value) else set'
  }

  /* ---- The whole file ------------------------------------------------------------------------------------- */

  function Before(f: seq<u8>, i: nat): u8
    requires i <= |f|
  {
    if i == 0 then 0 else f[i - 1]
  }

  /** The serials that start in the first `n` bytes. */
  function Scan(f: seq<u8>, n: nat): Serials
    requires n <= |f|
  {
    if n == 0 then Serials([], false)
    else AddFound(Scan(f, n - 1), Found(f, n - 1, Before(f, n - 1)))
  }

  ghost predicate OccursAt(f: seq<u8>, i: nat, id: seq<u8>) {
    i < |f| && Found(f, i, Before(f, i)) == Some(id)
  }

  /** A serial occurs exactly where it is spelled out and no capital or digit stands before it. */
  lemma OccursAtIff(f: seq<u8>, i: nat, id: seq<u8>)
    ensures OccursAt(f, i, id) <==>
      && i < |f| && |id| == 9 && IsSerial(id) && SpelledAt(f, i, id)
      && (i > 0 ==> !('A' <= Letter(f[i - 1]) <= 'Z') && !('0' <= Letter(f[i - 1]) <= '9'))
  {
    hide IsSerial, Letter, Upper, Digit, SerialAt;
    if i < |f| {
      NotWord(0);
      if i > 0 {
        LettersAre(f[i - 1]);
      }
      if |id| == 9 {
        SerialIff(f, i, id);
      }
    }
  }

  lemma NotWord(c: u8)
    ensures c == 0 ==> !Upper(c) && !Digit(c)
  {
  }

  /** Serial `id` starts in the first `n` bytes. */
  ghost predicate Occurs(f: seq<u8>, n: nat, id: seq<u8>) {
    exists i: nat {:trigger OccursAt(f, i, id)} :: i < n && OccursAt(f, i, id)
  }

  /** The scan lists serials that occur, each once; all of them when it did not overflow, and when
      it did, a full list and one more besides. */
  lemma {:induction false} ScanLists(f: seq<u8>, n: nat)
    requires n <= |f|
    ensures var r := Scan(f, n);
            && |r.ids| <= 8
            && (forall i, j :: 0 <= i < j < |r.ids| ==> r.ids[i] != r.ids[j])
            && (forall id {:trigger Occurs(f, n, id)} :: id in r.ids ==> Occurs(f, n, id))
            && (!r.overflow ==> forall id {:trigger Occurs(f, n, id)} :: Occurs(f, n, id) ==> id in r.ids)
            && (r.overflow ==> |r.ids| == 8)
            && (r.overflow ==> exists id {:trigger Occurs(f, n, id)} :: Occurs(f, n, id) && id !in r.ids)
  {
    if n > 0 {
      ScanLists(f, n - 1);
      var was, found, r := Scan(f, n - 1), Found(f, n - 1, Before(f, n - 1)), Scan(f, n);
      forall id ensures Occurs(f, n, id) <==> Occurs(f, n - 1, id) || found == Some(id) {
        OccursNext(f, n, id);
      }
      if r.overflow {
        if was.overflow {
          var id :| Occurs(f, n - 1, id) && id !in was.ids;
          assert Occurs(f, n, id);
        } else {
          assert Occurs(f, n, found.value);
        }
      }
    }
  }

  lemma OccursNext(f: seq<u8>, n: nat, id: seq<u8>)
    requires 0 < n <= |f|
    ensures Occurs(f, n, id) <==> Occurs(f, n - 1, id) || Found(f, n - 1, Before(f, n - 1)) == Some(id)
  {
    if Occurs(f, n - 1, id) {
      var i: nat :| i < n - 1 && OccursAt(f, i, id);
    }
    assert OccursAt(f, n - 1, id) <==> Found(f, n - 1, Before(f, n - 1)) == Some(id);
  }

  /* ---- The window -------------------------------------------------------------------------------------------- */

  /** A window that holds ten bytes from `i`, or the rest of the file, shows the same serial. */
  lemma WindowSees(f: seq<u8>, w: seq<u8>, base: nat, i: nat)
    requires base + |w| <= |f| && f[base..base + |w|] == w && i <= |w|
    requires |w| - i >= MAX_SPAN || base + |w| == |f|
    ensures SerialAt(w, i) == SerialAt(f, base + i)
  {
    assert forall k {:trigger w[k]} :: 0 <= k < |w| ==> w[k] == f[base..base + |w|][k];
    if |w| - i >= SERIAL_LEN {
      SameSlice(f, w, base, i, i + 4);
      SameSlice(f, w, base, i + 4, i + 9);
      if |w| - i >= MAX_SPAN {
        SameSlice(f, w, base, i + 5, i + 10);
      }
    }
  }

  lemma SameSlice(f: seq<u8>, w: seq<u8>, base: nat, lo: nat, hi: nat)
    requires base + |w| <= |f| && f[base..base + |w|] == w && lo <= hi <= |w|
    ensures w[lo..hi] == f[base + lo..base + hi]
  {
    forall k | 0 <= k < hi - lo ensures w[lo..hi][k] == f[base + lo..base + hi][k] {
      assert w[lo + k] == f[base..base + |w|][lo + k];
    }
  }

  /** The sector `lba` of the disc, which runs past the file's end where the file does not fill it. */
  function SectorOf(disc: seq<u8>, lba: nat): (s: seq<u8>)
    requires SECTOR * (lba + 1) <= |disc|
    ensures |s| == SECTOR
  {
    disc[SECTOR * lba..SECTOR * (lba + 1)]
  }

  /** Scans the window's first `limit` bytes. */
  method ScanWindow(win: array<u8>, have: nat, limit: nat, before: u8, set': Serials, ghost f: seq<u8>, ghost base: nat)
    returns (r: Serials)
    requires limit <= have <= win.Length && base + have <= |f| && f[base..base + have] == win[..have]
    requires before == Before(f, base) && set' == Scan(f, base)
    requires have - limit >= MAX_SPAN || base + have == |f|
    ensures r == Scan(f, base + limit)
  {
    r := set';
    ghost var w := win[..have];
    for i := 0 to limit
      invariant r == Scan(f, base + i)
    {
      var prev := if i == 0 then before else win[i - 1];
      assert prev == Before(f, base + i) by {
        assert i > 0 ==> w[i - 1] == f[base..base + have][i - 1];
      }
      WindowSees(f, w, base, i);
      var found := Found(win[..have], i, prev);
      r := AddFound(r, found);
    }
  }

  /** The window with the next bytes of a sector after it. */
  lemma Refill(disc: seq<u8>, f: seq<u8>, base: nat, have: nat, n: nat, w: seq<u8>, sector: seq<u8>, lba: nat)
    requires |f| <= |disc| && f == disc[..|f|] && base + have + n <= |f| && w == f[base..base + have]
    requires base + have == SECTOR * lba && SECTOR * (lba + 1) <= |disc| && sector == SectorOf(disc, lba) && n <= SECTOR
    ensures w + sector[..n] == f[base..base + have + n]
  {
    var at := base + have;
    assert f[at..at + n] == disc[at..at + n] == sector[..n];
    assert f[base..at + n] == f[base..at] + f[at..at + n];
  }

  /** Drops the window's first `limit` bytes. */
  method Slide(win: array<u8>, have: nat, limit: nat)
    requires limit <= have <= win.Length
    modifies win
    ensures win[..have - limit] == old(win[limit..have])
  {
    forall i | 0 <= i < have - limit {
      win[i] := win[limit + i];
    }
  }

  /** Reads sector `lba` after the window's first `have` bytes; `n` bytes of it are the file's. */
  method ReadSector(disc: seq<u8>, lba: nat, win: array<u8>, have: nat, n: nat, ghost f: seq<u8>, ghost base: nat)
    requires |f| <= |disc| && f == disc[..|f|] && base + have + n <= |f| && win.Length >= have + SECTOR
    requires base + have == SECTOR * lba && SECTOR * (lba + 1) <= |disc| && n <= SECTOR
    requires win[..have] == f[base..base + have]
    modifies win
    ensures win[..have + n] == f[base..base + have + n]
  {
    var sector := SectorOf(disc, lba);
    ghost var was := win[..have];
    Refill(disc, f, base, have, n, was, sector, lba);
    forall i | 0 <= i < SECTOR {
      win[have + i] := sector[i];
    }
    assert win[..have + n] == was + sector[..n];
  }

  /** Scans the file that starts the disc and is `length` bytes long, or its first 64 MiB, sector by sector. */
  method ScanSerials(disc: seq<u8>, length: nat) returns (r: Serials)
    requires length + SECTOR <= |disc|
    ensures var n := if length < 0x400_0000 then length else 0x400_0000; r == Scan(disc[..n], n)
  {
    var win := new u8[MAX_SPAN + SECTOR](_ => 0);
    var have: nat, before: u8 := 0, 0;
    var remaining: nat := if length < MAX_BYTES then length else MAX_BYTES;
    ghost var f, base: nat := disc[..remaining], 0;
    var lba: nat := 0;
    r := Serials([], false);
    while remaining > 0
      invariant base + have + remaining == |f| && f == disc[..|f|] && |f| <= length
      invariant remaining > 0 ==> base + have == SECTOR * lba && have <= MAX_SPAN
      invariant have <= win.Length && win[..have] == f[base..base + have]
      invariant before == Before(f, base) && r == Scan(f, base)
      invariant remaining == 0 ==> base == |f|
      decreases remaining
    {
      var n := if remaining < SECTOR then remaining else SECTOR;
      ReadSector(disc, lba, win, have, n, f, base);
      have := have + n;
      remaining := remaining - n;
      var limit := if remaining == 0 then have else if have > MAX_SPAN then have - MAX_SPAN else 0;
      r := ScanWindow(win, have, limit, before, r, f, base);
      if limit > 0 {
        assert win[..have][limit - 1] == f[base..base + have][limit - 1];
        before := win[limit - 1];
      }
      assert win[limit..have] == f[base..base + have][limit..] == f[base + limit..base + have];
      Slide(win, have, limit);
      base := base + limit;
      have := have - limit;
      lba := lba + 1;
    }
  }
}
