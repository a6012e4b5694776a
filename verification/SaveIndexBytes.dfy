/** The save index byte by byte: what an archive and its entries are, and what a publish adds. */
module SaveIndexBytes {
  import opened Bytes
  import opened Status
  import opened Text
  import opened SaveIndex

  /** Four bytes, the lowest first, as a number. */
  function Number(s: seq<u8>, at: nat): nat
    requires at + 4 <= |s|
  {
    s[at] as int + 0x100 * s[at + 1] as int + 0x1_0000 * s[at + 2] as int + 0x100_0000 * s[at + 3] as int
  }

  lemma MagicIs(s: seq<u8>, at: nat)
    requires at + 4 <= |s|
    ensures Le32(s, at) == MAGIC <==> s[at..at + 4] == Letters("IMKV")
    ensures Le32(s, at) == ENTRY_MAGIC <==> s[at..at + 4] == Letters("IMEN")
  {
    var b := s[at..at + 4];
    assert Letters("IMKV") == [0x49, 0x4D, 0x4B, 0x56] && Letters("IMEN") == [0x49, 0x4D, 0x45, 0x4E];
    assert b == [s[at], s[at + 1], s[at + 2], s[at + 3]];
  }

  /** An archive begins with "IMKV" and twelve bytes in all before its entries, the last four their count. */
  lemma ArchiveIff(index: seq<u8>)
    ensures IsArchive(index) <==> |index| >= 12 && index[..4] == Letters("IMKV")
    ensures |index| >= 12 ==> Count(index) == Number(index, 8)
  {
    hide Letters;
    if |index| >= 12 {
      MagicIs(index, 0);
      assert index[0..4] == index[..4];
    }
  }

  /** An entry is "IMEN", the sizes of its key and of its value, and then both. */
  lemma EntryIff(s: seq<u8>, at: nat, e: Entry)
    ensures Next(s, at) == Some(e) <==>
      && at + 12 + |e.key| + |e.value| <= |s| && s[at..at + 4] == Letters("IMEN")
      && Number(s, at + 4) == |e.key| && Number(s, at + 8) == |e.value|
      && s[at + 12..at + 12 + |e.key|] == e.key
      && s[at + 12 + |e.key|..at + 12 + |e.key| + |e.value|] == e.value
  {
    hide Letters;
    if at + 12 <= |s| {
      MagicIs(s, at);
      assert Le32(s, at + 4) == Number(s, at + 4) && Le32(s, at + 8) == Number(s, at + 8);
    }
  }

  /** An entry has a folder's id in the first eight bytes of its value, and one with fewer has none. */
  lemma IdIff(e: Entry, id: nat)
    ensures IdOf(e) == Some(id) <==>
      |e.value| >= 8 && id == Number(e.value, 0) + 0x1_0000_0000 * Number(e.value, 4)
  {
  }

  /** What a publish adds: for the account an entry of type 1 under the user, for the device one of type 3 under none,
      each with its id in the user space. */
  lemma AddedAre(title: nat, account: bool, device: bool, high: nat, low: nat, top: nat)
    requires title < TWO64 && high < TWO64 && low < TWO64 && top + 2 < TWO64
    ensures var es := NewEntries(title, account, device, high, low, top);
      && |es| == (if account then 1 else 0) + (if device then 1 else 0)
      && forall i {:trigger es[i]} :: 0 <= i < |es| ==>
           && |es[i].key| == 64 == |es[i].value| && Le64(es[i].key, 0) == title
           && Le64(es[i].value, 0) == top + 1 + i && es[i].value[0x18] == 1
           && if i == 0 && account then es[i].key[32] == 1 && User(es[i].key) == TWO64 * high + low
              else es[i].key[32] == 3 && User(es[i].key) == 0
  {
    hide KeyOf, ValueOf, Le64, User;
    KeyHolds(title, ACCOUNT, high, low);
    KeyHolds(title, DEVICE, 0, 0);
    ValueHolds(top + 1);
    ValueHolds(top + 2);
  }
}
