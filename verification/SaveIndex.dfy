/** Ryujinx's save index, an archive of keyed entries in key order: publishing new entries in it,
    and the folder ids they get. */
module SaveIndex {
  import opened Bytes
  import opened Status
  import opened Merge
  import opened Records

  const MAGIC := 0x564B4D49
  const ENTRY_MAGIC := 0x4E454D49
  const HEADER := 12
  const KEY := 0x40
  const VALUE := 0x40
  const ACCOUNT := 1
  const DEVICE := 3
  const SPACE_USER := 1
  const TWO32 := 0x1_0000_0000
  const TWO64 := 0x1_0000_0000_0000_0000

  datatype Entry = Entry(key: seq<u8>, value: seq<u8>)

  /* ---- Entries in an archive ----------------------------------------------------------------------------- */

  function Size(e: Entry): nat {
    HEADER + |e.key| + |e.value|
  }

  /** "IMEN", the sizes, then the key and the value. */
  function Encode(e: Entry): (b: seq<u8>)
    ensures |b| == Size(e)
  {
    Le32Bytes(ENTRY_MAGIC) + Le32Bytes(|e.key|) + Le32Bytes(|e.value|) + e.key + e.value
  }

  /** The entry at `at`, if the bytes hold it whole. */
  function Next(s: seq<u8>, at: nat): (e: Option<Entry>)
    ensures e.Some? ==> at + Size(e.value) <= |s|
  {
    if at + HEADER > |s| || Le32(s, at) != ENTRY_MAGIC || at + HEADER + Le32(s, at + 4) + Le32(s, at + 8) > |s|
      then None
    else
      var k, v := at + HEADER, at + HEADER + Le32(s, at + 4);
      Some(Entry(s[k..v], s[v..v + Le32(s, at + 8)]))
  }

  /** A key long enough to order by, and sizes that fit their fields. */
  predicate IsWhole(e: Entry) {
    KEY <= |e.key| < TWO32 && |e.value| < TWO32
  }

  function Le64(s: seq<u8>, at: nat): (v: nat)
    requires at + 8 <= |s|
    ensures v < TWO64
  {
    Le32(s, at) + TWO32 * Le32(s, at + 4)
  }

  /** What the index orders entries by: program, type, user, static id, index, rank. */
  function Rank(e: Entry): (r: seq<nat>)
    ensures |r| == 7
  {
    var key := e.key;
    if |key| < KEY then [0, 0, 0, 0, 0, 0, 0]
    else [Le64(key, 0x00), key[0x20], Le64(key, 0x08), Le64(key, 0x10), Le64(key, 0x18), Le16(key, 0x22), key[0x21]]
  }

  function EntryCodec(): Codec<Entry> {
    Codec(Next, Size, Encode, Rank, IsWhole)
  }

  lemma FieldIn(a: seq<u8>, v: nat, c: seq<u8>)
    requires v < TWO32
    ensures Le32(a + Le32Bytes(v) + c, |a|) == v
  {
    var s, b := a + Le32Bytes(v) + c, Le32Bytes(v);
    assert forall k {:trigger b[k]} :: 0 <= k < 4 ==> s[|a| + k] == b[k];
  }

  lemma FieldsIn(pre: seq<u8>, e: Entry, tail: seq<u8>)
    requires IsWhole(e)
    ensures var s, at := pre + Encode(e) + tail, |pre|;
            Le32(s, at) == ENTRY_MAGIC && Le32(s, at + 4) == |e.key| && Le32(s, at + 8) == |e.value|
  {
    var a, b, c := Le32Bytes(ENTRY_MAGIC), Le32Bytes(|e.key|), Le32Bytes(|e.value|);
    var d := e.key + e.value + tail;
    assert pre + Encode(e) + tail == pre + a + (b + c + d) == pre + a + b + (c + d) == pre + a + b + c + d;
    FieldIn(pre, ENTRY_MAGIC, b + c + d);
    FieldIn(pre + a, |e.key|, c + d);
    FieldIn(pre + a + b, |e.value|, d);
  }

  /** An encoded entry reads back, whatever comes before and after it. */
  lemma NextReads(pre: seq<u8>, e: Entry, tail: seq<u8>)
    requires IsWhole(e)
    ensures Next(pre + Encode(e) + tail, |pre|) == Some(e)
  {
    var s := pre + Encode(e) + tail;
    FieldsIn(pre, e, tail);
    var k := |pre| + HEADER;
    var v := k + |e.key|;
    assert s[k..v] == e.key && s[v..v + |e.value|] == e.value;
  }

  lemma EntryCodecSound()
    ensures Sound(EntryCodec())
  {
    forall pre, e, tail | IsWhole(e) ensures Next(pre + Encode(e) + tail, |pre|) == Some(e) {
      NextReads(pre, e, tail);
    }
  }

  /* ---- Publishing ---------------------------------------------------------------------------------------------- */

  /** Whether the bytes are an archive at all. */
  predicate IsArchive(index: seq<u8>) {
    |index| >= HEADER && Le32(index, 0) == MAGIC
  }

  function Count(index: seq<u8>): nat
    requires |index| >= HEADER
  {
    Le32(index, 8)
  }

  /** The archive's entries, when as many as it counts are there and every key is whole. */
  ghost predicate Reads(index: seq<u8>, olds: seq<Entry>) {
    |index| >= HEADER && Listed(EntryCodec(), index, HEADER, Count(index)) == Some(olds) && AllWhole(EntryCodec(), olds)
  }

  /** What publishing writes: the archive's first bytes, the new count, then the entries. */
  function Archive(index: seq<u8>, es: seq<Entry>): seq<u8>
    requires |index| >= HEADER
  {
    index[..8] + Le32Bytes(|es|) + Concat(es, Encode)
  }

  /** What is written reads back as what was meant. */
  lemma ArchiveReads(index: seq<u8>, es: seq<Entry>)
    requires |index| >= HEADER && AllWhole(EntryCodec(), es) && |es| < TWO32
    ensures Reads(Archive(index, es), es) && Archive(index, es)[..8] == index[..8] && Count(Archive(index, es)) == |es|
  {
    var head := index[..8] + Le32Bytes(|es|);
    FieldIn(index[..8], |es|, Concat(es, Encode));
    EntryCodecSound();
    Records.ListedReads(EntryCodec(), head, es);
  }

  lemma MergedWhole(olds: seq<Entry>, news: seq<Entry>)
    requires AllWhole(EntryCodec(), olds) && AllWhole(EntryCodec(), news)
    ensures AllWhole(EntryCodec(), Merged(Rank, olds, news))
  {
    var all := Merged(Rank, olds, news);
    MergedHolds(Rank, olds, news);
    forall i | 0 <= i < |all| ensures IsWhole(all[i]) {
      assert all[i] in multiset(all);
      assert all[i] in olds || all[i] in news;
    }
  }

  /** An archive in key order with new entries, in key order and none taken, is one in key order
      with all of them, each once. */
  lemma PublishKeeps(index: seq<u8>, olds: seq<Entry>, news: seq<Entry>)
    requires Reads(index, olds) && AllWhole(EntryCodec(), news) && |olds| + |news| < TWO32
    requires Ascending(Rank, olds) && Ascending(Rank, news) && Fresh(Rank, news, olds)
    ensures var all := Merged(Rank, olds, news);
            && Reads(Archive(index, all), all) && Ascending(Rank, all)
               && multiset(all) == multiset(olds) + multiset(news)
            && Count(Archive(index, all)) == Count(index) + |news|
  {
    var all := Merged(Rank, olds, news);
    MergedWhole(olds, news);
    ArchiveReads(index, all);
    MergedAscends(Rank, 7, olds, news);
    MergedHolds(Rank, olds, news);
  }

  ghost predicate Publishable(index: seq<u8>, news: seq<Entry>, olds: seq<Entry>) {
    Reads(index, olds) && Fresh(Rank, news, olds)
  }

  /** The archive with the new entries put in key order among its own; nothing when an entry runs
      past the archive or has a short key, or a new key is taken. */
  method IndexWith(index: seq<u8>, news: seq<Entry>) returns (out: Option<seq<u8>>, ghost olds: seq<Entry>)
    requires |index| >= HEADER
    ensures out.None? ==> forall all {:trigger Publishable(index, news, all)} :: !Publishable(index, news, all)
    ensures out.Some? ==> Publishable(index, news, olds) && out.value == Archive(index, Merged(Rank, olds, news))
  {
    var have := Count(index);
    out, olds := Rewrite(EntryCodec(), index, HEADER, have, index[..8] + Le32Bytes(have + |news|), news);
    if out.None? {
      forall all ensures !Publishable(index, news, all) {
        assert !Mergeable(EntryCodec(), index, HEADER, have, news, all);
      }
    }
  }

  /* ---- Folder ids ------------------------------------------------------------------------------------------------ */

  /** The folder id an entry's value begins with. */
  function IdOf(e: Entry): Option<nat> {
    if |e.value| >= 8 then Some(Le64(e.value, 0)) else None
  }

  /** An id past every one in use. */
  ghost predicate PastAll(index: seq<u8>, counter: Option<nat>, folders: seq<nat>, id: nat) {
    && (counter.Some? ==> counter.value < id)
    && (forall i {:trigger folders[i]} :: 0 <= i < |folders| ==> folders[i] < id)
    && forall olds {:trigger Reads(index, olds)} :: Reads(index, olds) ==>
         forall i {:trigger olds[i]} :: 0 <= i < |olds| && IdOf(olds[i]).Some? ==> IdOf(olds[i]).value < id
  }

  /** The counter is at the id, a folder has it, or an entry the archive holds whole. */
  ghost predicate InUse(index: seq<u8>, counter: Option<nat>, folders: seq<nat>, id: nat)
    requires |index| >= HEADER
  {
    EntryCodecSound();
    counter == Some(id) || id in folders || HasNumber(Whole(EntryCodec(), index, HEADER), IdOf, id)
  }

  /** The highest id of the counter, the index and the listed folders. */
  method HighestId(index: seq<u8>, counter: Option<nat>, folders: seq<nat>) returns (top: nat)
    requires |index| >= HEADER
    ensures forall id: nat {:trigger PastAll(index, counter, folders, id)} :: id > top ==>
      PastAll(index, counter, folders, id)
    ensures top == 0 || InUse(index, counter, folders, top)
  {
    EntryCodecSound();
    var counted := if counter.Some? then counter.value else 0;
    var indexed := Highest(EntryCodec(), index, HEADER, IdOf, counted);
    top := indexed;
    for i := 0 to |folders|
      invariant top >= indexed && forall j {:trigger folders[j]} :: 0 <= j < i ==> folders[j] <= top
      invariant top == 0 || InUse(index, counter, folders, top)
    {
      if folders[i] > top {
        top := folders[i];
      }
    }
    forall olds, i | Reads(index, olds) && 0 <= i < |olds| && IdOf(olds[i]).Some? ensures IdOf(olds[i]).value <= top {
      ListedWhole(EntryCodec(), index, HEADER, Count(index));
      assert olds[i] == Whole(EntryCodec(), index, HEADER)[i];
    }
  }

  /* ---- New entries ----------------------------------------------------------------- */

  function Le64Bytes(v: nat): (s: seq<u8>)
    ensures |s| == 8
  {
    Le32Bytes(v % TWO32) + Le32Bytes(v / TWO32 % TWO32)
  }

  /** A save's key: its program, its user's two halves, and its type. */
  function KeyOf(title: nat, kind: u8, high: nat, low: nat): (k: seq<u8>)
    ensures |k| == KEY
  {
    Le64Bytes(title) + Le64Bytes(high) + Le64Bytes(low) + Zeros(8) + [kind] + Zeros(31)
  }

  /** Its value: its folder's id, in the user space. */
  function ValueOf(id: nat): (v: seq<u8>)
    ensures |v| == VALUE
  {
    Le64Bytes(id) + Zeros(16) + [SPACE_USER] + Zeros(39)
  }

  lemma Le64In(a: seq<u8>, v: nat, c: seq<u8>)
    requires v < TWO64
    ensures Le64(a + Le64Bytes(v) + c, |a|) == v
  {
    var lo, hi := Le32Bytes(v % TWO32), Le32Bytes(v / TWO32 % TWO32);
    assert a + Le64Bytes(v) + c == a + lo + (hi + c) == a + lo + hi + c;
    FieldIn(a, v % TWO32, hi + c);
    FieldIn(a + lo, v / TWO32 % TWO32, c);
  }

  lemma ValueHasId(id: nat, key: seq<u8>)
    requires id < TWO64
    ensures IdOf(Entry(key, ValueOf(id))) == Some(id)
  {
    Le64In([], id, Zeros(16) + [SPACE_USER] + Zeros(39));
    assert ValueOf(id) == [] + Le64Bytes(id) + (Zeros(16) + [SPACE_USER] + Zeros(39));
  }

  /** An account save's key comes before the device save's of the same program. */
  lemma AccountFirst(title: nat, high: nat, low: nat, a: seq<u8>, b: seq<u8>)
    requires title < TWO64
    ensures Before(Rank, Entry(KeyOf(title, ACCOUNT, high, low), a), Entry(KeyOf(title, DEVICE, 0, 0), b))
  {
    var x, y := Entry(KeyOf(title, ACCOUNT, high, low), a), Entry(KeyOf(title, DEVICE, 0, 0), b);
    KeyFields(title, ACCOUNT, high, low);
    KeyFields(title, DEVICE, 0, 0);
    var r, t := Rank(x), Rank(y);
    assert r[0] == t[0] && r[1] < t[1];
    assert Order(r, t, 0) == Order(r, t, 1);
  }

  lemma KeyFields(title: nat, kind: u8, high: nat, low: nat)
    requires title < TWO64
    ensures var k := KeyOf(title, kind, high, low); Le64(k, 0) == title && k[0x20] == kind
  {
    var rest := Le64Bytes(high) + Le64Bytes(low) + Zeros(8) + [kind] + Zeros(31);
    Le64In([], title, rest);
    assert KeyOf(title, kind, high, low) == [] + Le64Bytes(title) + rest;
  }

  /** A save's user, as one number of 128 bits: the half that comes first in the key is the high one. */
  function User(key: seq<u8>): nat
    requires |key| >= KEY
  {
    TWO64 * Le64(key, 8) + Le64(key, 16)
  }

  /** What a new key holds: the program, the user and the type, and nothing else. */
  lemma KeyHolds(title: nat, kind: u8, high: nat, low: nat)
    requires title < TWO64 && high < TWO64 && low < TWO64
    ensures var k := KeyOf(title, kind, high, low);
      && Le64(k, 0) == title && User(k) == TWO64 * high + low && k[32] == kind
      && forall i {:trigger k[i]} :: 24 <= i < KEY && i != 32 ==> k[i] == 0
  {
    var t, h, l := Le64Bytes(title), Le64Bytes(high), Le64Bytes(low);
    var end := Zeros(8) + [kind] + Zeros(31);
    var k := KeyOf(title, kind, high, low);
    KeyFields(title, kind, high, low);
    Le64In(t, high, l + end);
    Le64In(t + h, low, end);
    assert k == t + h + (l + end) == t + h + l + end;
  }

  /** What a new value holds: the folder's id and the user space, and nothing else. */
  lemma ValueHolds(id: nat)
    requires id < TWO64
    ensures var v := ValueOf(id);
      && Le64(v, 0) == id && v[0x18] == 1
      && forall i {:trigger v[i]} :: 8 <= i < VALUE && i != 0x18 ==> v[i] == 0
  {
    ValueHasId(id, []);
  }

  /** `a` comes before `b` where the first of program, type, user, static id, index and rank that differs is lower. */
  predicate KeyBefore(a: seq<u8>, b: seq<u8>)
    requires |a| >= KEY && |b| >= KEY
  {
    if Le64(a, 0) != Le64(b, 0) then Le64(a, 0) < Le64(b, 0)
    else if a[32] != b[32] then a[32] < b[32]
    else if User(a) != User(b) then User(a) < User(b)
    else if Le64(a, 24) != Le64(b, 24) then Le64(a, 24) < Le64(b, 24)
    else if Le16(a, 34) != Le16(b, 34) then Le16(a, 34) < Le16(b, 34)
    else a[33] < b[33]
  }

  lemma HalvesOrder(a: nat, b: nat, c: nat, d: nat)
    requires b < TWO64 && d < TWO64
    ensures TWO64 * a + b < TWO64 * c + d <==> a < c || (a == c && b < d)
    ensures TWO64 * a + b == TWO64 * c + d <==> a == c && b == d
  {
  }

  /** That is the order of the index. */
  lemma BeforeIff(a: Entry, b: Entry)
    requires |a.key| >= KEY && |b.key| >= KEY
    ensures Before(Rank, a, b) <==> KeyBefore(a.key, b.key)
  {
    hide Le64, Le16;
    var r, t := Rank(a), Rank(b);
    HalvesOrder(Le64(a.key, 8), Le64(a.key, 16), Le64(b.key, 8), Le64(b.key, 16));
    assert Order(r, t, 7) == 0;
    assert Order(r, t, 6) == if r[6] != t[6] then (if r[6] < t[6] then -1 else 1) else 0;
    assert Order(r, t, 5) == if r[5] != t[5] then (if r[5] < t[5] then -1 else 1) else Order(r, t, 6);
    assert Order(r, t, 4) == if r[4] != t[4] then (if r[4] < t[4] then -1 else 1) else Order(r, t, 5);
    assert Order(r, t, 3) == if r[3] != t[3] then (if r[3] < t[3] then -1 else 1) else Order(r, t, 4);
    assert Order(r, t, 2) == if r[2] != t[2] then (if r[2] < t[2] then -1 else 1) else Order(r, t, 3);
    assert Order(r, t, 1) == if r[1] != t[1] then (if r[1] < t[1] then -1 else 1) else Order(r, t, 2);
    assert Order(r, t, 0) == if r[0] != t[0] then (if r[0] < t[0] then -1 else 1) else Order(r, t, 1);
  }

  /** The entries a publish adds: the account's, then the device's, with the ids after `top`. */
  function NewEntries(title: nat, account: bool, device: bool, high: nat, low: nat, top: nat): (es: seq<Entry>)
    ensures |es| <= 2
  {
    (if account then [Entry(KeyOf(title, ACCOUNT, high, low), ValueOf(top + 1))] else [])
    + (if device then [Entry(KeyOf(title, DEVICE, 0, 0), ValueOf(if account then top + 2 else top + 1))] else [])
  }

  /** Entries to publish: in key order, whole, and with the ids after `top` in turn. */
  ghost predicate Numbered(es: seq<Entry>, top: nat) {
    Ascending(Rank, es) && AllWhole(EntryCodec(), es) && forall i {:trigger es[i]} :: 0 <= i < |es| ==>
      IdOf(es[i]) == Some(top + 1 + i)
  }

  lemma EntryNumbered(key: seq<u8>, id: nat)
    requires |key| == KEY && id < TWO64
    ensures IsWhole(Entry(key, ValueOf(id))) && IdOf(Entry(key, ValueOf(id))) == Some(id)
  {
    ValueHasId(id, key);
  }

  lemma NewEntriesNumbered(title: nat, account: bool, device: bool, high: nat, low: nat, top: nat)
    requires title < TWO64 && top + |NewEntries(title, account, device, high, low, top)| < TWO64
    ensures Numbered(NewEntries(title, account, device, high, low, top), top)
  {
    hide KeyOf, ValueOf, IdOf, Rank, Numbered;
    if account {
      EntryNumbered(KeyOf(title, ACCOUNT, high, low), top + 1);
    }
    if device {
      EntryNumbered(KeyOf(title, DEVICE, 0, 0), if account then top + 2 else top + 1);
    }
    if account && device {
      AccountFirst(title, high, low, ValueOf(top + 1), ValueOf(top + 2));
    }
    AtMostTwo(NewEntries(title, account, device, high, low, top), top);
  }

  lemma AtMostTwo(es: seq<Entry>, top: nat)
    requires |es| <= 2 && forall i {:trigger es[i]} :: 0 <= i < |es| ==>
      IsWhole(es[i]) && IdOf(es[i]) == Some(top + 1 + i)
    requires |es| == 2 ==> Before(Rank, es[0], es[1])
    ensures Numbered(es, top)
  {
  }

  /** Publishes the program's saves: the index with their entries in key order, and the last id given,
      for the counter. The ids come after `top`, past every one the counter, the index and the folders
      have; they wrap only where a 64-bit counter would. */
  method Publish(index: seq<u8>, counter: Option<nat>, folders: seq<nat>, title: nat, account: bool, device: bool,
                 high: nat, low: nat)
    returns (out: Option<seq<u8>>, top: nat, last: nat, ghost olds: seq<Entry>, ghost news: seq<Entry>)
    requires title < TWO64
    ensures !IsArchive(index) ==> out.None?
    ensures IsArchive(index) ==> news == NewEntries(title, account, device, high, low, top) && last == top + |news|
    ensures IsArchive(index) ==> forall id: nat {:trigger PastAll(index, counter, folders, id)} :: id > top ==>
      PastAll(index, counter, folders, id)
    ensures IsArchive(index) ==> top == 0 || InUse(index, counter, folders, top)
    ensures IsArchive(index) && last < TWO64 ==> Numbered(news, top)
    ensures IsArchive(index) && out.None? ==>
      forall all {:trigger Publishable(index, news, all)} :: !Publishable(index, news, all)
    ensures out.Some? ==> Publishable(index, news, olds) && out.value == Archive(index, Merged(Rank, olds, news))
  {
    olds, news, top, last := [], [], 0, 0;
    if !IsArchive(index) {
      return None, top, last, olds, news;
    }
    top := HighestId(index, counter, folders);
    var es := NewEntries(title, account, device, high, low, top);
    news, last := es, top + |es|;
    if last < TWO64 {
      NewEntriesNumbered(title, account, device, high, low, top);
    }
    out, olds := IndexWith(index, es);
  }
}
