/** The operations on a VMU image: inject, delete, extract and list change the
    image in place, each proved against the volume the image holds. */
module DreamcastCard {
  import opened Bytes
  import opened Status
  import opened Chains
  import opened FatVolume
  import opened DreamcastImage

  /* ---- .dci units ------------------------------------------------------------------ */

  /** Each 4-byte group with its bytes in the other order. */
  function Reversed(src: seq<u8>): (dst: seq<u8>)
    requires |src| % 4 == 0
    ensures |dst| == |src|
    ensures forall i :: 0 <= i < |src| ==> dst[i] == src[Mirror(i)]
  {
    seq(|src|, i requires 0 <= i < |src| => src[Mirror(i)])
  }

  function Mirror(i: nat): nat {
    i / 4 * 4 + 3 - i % 4
  }

  lemma ReversedTwice(src: seq<u8>)
    requires |src| % 4 == 0
    ensures Reversed(Reversed(src)) == src
  {
    forall i | 0 <= i < |src| ensures Mirror(i) < |src| && Mirror(Mirror(i)) == i {
    }
  }

  /** Blocks of the single save `dci` holds, or 0 when it isn't one. */
  function DciBlocks(dci: seq<u8>): (n: nat)
    ensures n > 0 ==> |dci| == ENTRY_SIZE + n * BLOCK_SIZE && n <= 256 && IsFile(dci) && Le16(dci, ENTRY_LENGTH) == n
  {
    if |dci| < ENTRY_SIZE + BLOCK_SIZE || (|dci| - ENTRY_SIZE) % BLOCK_SIZE != 0 then 0
    else
      var blocks := (|dci| - ENTRY_SIZE) / BLOCK_SIZE;
      if blocks > 256 || !IsFile(dci) || Le16(dci, ENTRY_LENGTH) != blocks then 0 else blocks
  }

  function DciChunk(dci: seq<u8>, i: nat): (d: seq<u8>)
    requires ENTRY_SIZE + (i + 1) * BLOCK_SIZE <= |dci|
    ensures |d| == BLOCK_SIZE
  {
    dci[ENTRY_SIZE + i * BLOCK_SIZE..ENTRY_SIZE + (i + 1) * BLOCK_SIZE]
  }

  /** The save a .dci carries: its entry without the first block, its blocks in order. */
  function SaveOf(dci: seq<u8>): (s: Save)
    requires DciBlocks(dci) > 0
    ensures |s.data| == DciBlocks(dci) && forall i :: 0 <= i < |s.data| ==> |s.data[i]| == BLOCK_SIZE
  {
    Save(Masked(dci[..ENTRY_SIZE]),
         seq(DciBlocks(dci), i requires 0 <= i < DciBlocks(dci) => Reversed(DciChunk(dci, i))))
  }

  /** The .dci form of a save. */
  function DciOf(save: Save): (dci: seq<u8>)
    requires forall i :: 0 <= i < |save.data| ==> |save.data[i]| == BLOCK_SIZE
  {
    save.rest + Packed(save.data)
  }

  ghost predicate IsDciOf(out: seq<u8>, save: Save) {
    (forall i :: 0 <= i < |save.data| ==> |save.data[i]| == BLOCK_SIZE) && out == DciOf(save)
  }

  function Packed(data: seq<seq<u8>>): (s: seq<u8>)
    requires forall i :: 0 <= i < |data| ==> |data[i]| == BLOCK_SIZE
    ensures |s| == |data| * BLOCK_SIZE
  {
    if data == [] then [] else Packed(data[..|data| - 1]) + Reversed(data[|data| - 1])
  }

  lemma PackedSnoc(data: seq<seq<u8>>, d: seq<u8>)
    requires |d| == BLOCK_SIZE && forall i :: 0 <= i < |data| ==> |data[i]| == BLOCK_SIZE
    ensures Packed(data + [d]) == Packed(data) + Reversed(d)
  {
    assert (data + [d])[..|data|] == data;
  }

  lemma {:induction false} PackedChunks(dci: seq<u8>, n: nat)
    requires DciBlocks(dci) > 0 && n <= DciBlocks(dci)
    ensures Packed(SaveOf(dci).data[..n]) == dci[ENTRY_SIZE..ENTRY_SIZE + n * BLOCK_SIZE]
  {
    if n > 0 {
      var data, chunk := SaveOf(dci).data, DciChunk(dci, n - 1);
      PackedChunks(dci, n - 1);
      assert data[..n] == data[..n - 1] + [Reversed(chunk)];
      PackedSnoc(data[..n - 1], Reversed(chunk));
      ReversedTwice(chunk);
      ChunkJoin(dci, n - 1);
    }
  }

  lemma ChunkJoin(dci: seq<u8>, n: nat)
    requires ENTRY_SIZE + (n + 1) * BLOCK_SIZE <= |dci|
    ensures dci[ENTRY_SIZE..ENTRY_SIZE + n * BLOCK_SIZE] + DciChunk(dci, n)
      == dci[ENTRY_SIZE..ENTRY_SIZE + (n + 1) * BLOCK_SIZE]
  {
  }

  /** A unit's save, put back in .dci form, is the unit with its first-block field zero. */
  lemma DciRoundTrip(dci: seq<u8>)
    requires DciBlocks(dci) > 0
    ensures DciOf(SaveOf(dci)) == Masked(dci)
  {
    var data := SaveOf(dci).data;
    PackedChunks(dci, |data|);
    assert data[..|data|] == data;
    MaskedSplit(dci);
  }

  lemma MaskedSplit(dci: seq<u8>)
    requires |dci| >= ENTRY_SIZE
    ensures Masked(dci) == Masked(dci[..ENTRY_SIZE]) + dci[ENTRY_SIZE..]
  {
  }

  /* ---- Chains ---------------------------------------------------------------------- */

  method FatSet(image: array<u8>, l: Layout, block: nat, value: nat)
    requires image.Length == CARD_SIZE && ReadLayout(image[..]) == Some(l)
    requires block < l.userBlocks && value < 0x1_0000
    modifies image
    ensures image[..] == Splice(old(image[..]), l.CellOffset(block), Le16Bytes(value))
    ensures ReadLayout(image[..]) == Some(l)
    ensures View(image[..], l) == old(View(image[..], l).(fat := View(image[..], l).fat[block := LinkOf(value)]))
    ensures SameElsewhere(old(image[..]), image[..], l)
  {
    CellWrite(image[..], l, block, value);
    WriteBytes(image, l.CellOffset(block), Le16Bytes(value));
  }

  /** Follows the table from `first`: the chain's length and blocks when it is
      intact, 0 when a link leaves the user area or revisits a block. */
  method WalkChain(image: array<u8>, l: Layout, first: nat) returns (count: nat, order: seq<nat>)
    requires image.Length == CARD_SIZE && l.Valid()
    ensures count == |ChainOf(FatView(image[..], l), first)|
    ensures count > 0 ==> order == ChainOf(FatView(image[..], l), first)
  {
    ghost var fat := FatView(image[..], l);
    var seen := new bool[256](_ => false);
    var block: nat := first;
    count, order := 0, [];
    while true
      invariant |order| == count && IsPath(fat, order) && Distinct(order)
      invariant count == 0 ==> block == first
      invariant count > 0 ==> order[0] == first
      invariant count > 0 ==>
        fat[order[count - 1]] == Next(block) || (block == FAT_FREE && fat[order[count - 1]] == Free)
      invariant forall b: nat :: b < 256 ==> (seen[b] == (b in order))
      invariant fresh(seen) && image[..] == old(image[..])
      decreases l.userBlocks - count
    {
      if block >= l.userBlocks || seen[block] {
        if count > 0 && fat[order[count - 1]] == Free {
          StuckEndsPath(fat, order);
        } else {
          DeadEnd(fat, order, block);
        }
        return 0, [];
      }
      seen[block] := true;
      PathExtends(fat, order, block);
      order := order + [block];
      count := count + 1;
      DistinctBound(order, l.userBlocks);
      var next := Le16(image[..], l.CellOffset(block));
      if next == FAT_END {
        ChainOfUnique(fat, order);
        return;
      }
      block := next;
    }
  }

  /** The chain of slot `s` when the listing would show the entry, else 0. */
  method EntryChain(image: array<u8>, l: Layout, s: nat) returns (count: nat, order: seq<nat>)
    requires image.Length == CARD_SIZE && l.Valid() && s < l.SlotCount() && IsFile(Entry(image[..], l, s))
    ensures var v := View(image[..], l);
      && (count > 0 <==> Whole(v, s))
      && (count > 0 ==> order == ChainAt(v, s) && count == v.dir[s].size == |order|)
  {
    var entry := Entry(image[..], l, s);
    count, order := WalkChain(image, l, Le16(entry, ENTRY_FIRST_BLOCK));
    assert View(image[..], l).dir[s] == SlotOf(entry);
    if count != Le16(entry, ENTRY_LENGTH) {
      count := 0;
    }
  }

  /** `s` is the first entry, in directory order, that starts at `first` with an
      intact chain. */
  ghost predicate StartsAt(v: Volume, first: nat, s: nat) {
    Whole(v, s) && v.dir[s].first == first
  }

  /** The entry a first block names: the first one, in directory order, that
      starts there with an intact chain. */
  ghost predicate FirstStartsAt(v: Volume, first: nat, s: nat) {
    StartsAt(v, first, s) && forall t: nat :: t < s ==> !StartsAt(v, first, t)
  }

  method FindByBlock(image: array<u8>, l: Layout, first: nat) returns (found: Option<nat>)
    requires image.Length == CARD_SIZE && l.Valid()
    ensures found.Some? ==> FirstStartsAt(View(image[..], l), first, found.value)
    ensures found.None? ==> forall s: nat :: !StartsAt(View(image[..], l), first, s)
  {
    hide View, StartsAt, Layout.Valid;
    ghost var v := View(image[..], l);
    ViewSizes(image[..], l);
    for s := 0 to l.SlotCount()
      invariant forall t: nat :: t < s ==> !StartsAt(v, first, t)
    {
      var starts := EntryStartsAt(image, l, first, s, v);
      if starts {
        return Some(s);
      }
    }
    forall s: nat ensures !StartsAt(v, first, s) {
      StartsBelow(v, first, s);
    }
    return None;
  }

  lemma ViewSizes(image: Image, l: Layout)
    requires l.Valid()
    ensures |View(image, l).dir| == l.SlotCount() && |View(image, l).fat| == l.userBlocks
  {
  }

  lemma StartsBelow(v: Volume, first: nat, s: nat)
    ensures StartsAt(v, first, s) ==> s < |v.dir|
  {
  }

  method EntryStartsAt(image: array<u8>, l: Layout, first: nat, s: nat, ghost v: Volume) returns (yes: bool)
    requires image.Length == CARD_SIZE && l.Valid() && s < l.SlotCount() && v == View(image[..], l)
    ensures yes <==> StartsAt(v, first, s)
  {
    var entry := Entry(image[..], l, s);
    assert View(image[..], l).dir[s] == SlotOf(entry);
    yes := false;
    if IsFile(entry) && Le16(entry, ENTRY_FIRST_BLOCK) == first {
      var count, _ := EntryChain(image, l, s);
      yes := count != 0;
    }
  }

  /* ---- Inject ------------------------------------------------------------------------ */

  ghost predicate NameTaken(v: Volume, name: seq<u8>) {
    exists s: nat :: Live(v, s) && v.dir[s].id == name
  }

  method EntryNamed(image: array<u8>, l: Layout, s: nat, name: seq<u8>) returns (yes: bool)
    requires image.Length == CARD_SIZE && l.Valid() && s < l.SlotCount()
    ensures yes <==> Live(View(image[..], l), s) && View(image[..], l).dir[s].id == name
  {
    var entry := Entry(image[..], l, s);
    assert View(image[..], l).dir[s] == SlotOf(entry);
    yes := IsFile(entry) && EntryName(entry) == name;
  }

  method CheckName(image: array<u8>, l: Layout, name: seq<u8>) returns (taken: bool)
    requires image.Length == CARD_SIZE && l.Valid()
    ensures taken <==> NameTaken(View(image[..], l), name)
  {
    ghost var v := View(image[..], l);
    for s := 0 to l.SlotCount()
      invariant forall t: nat :: t < s ==> !(Live(v, t) && v.dir[t].id == name)
    {
      var named := EntryNamed(image, l, s, name);
      if named {
        return true;
      }
    }
    return false;
  }

  /** A game file takes the blocks from 0 up; a data file the highest free ones,
      highest first. */
  function Chosen(fat: Fat, game: bool, blocks: nat): (r: Option<seq<nat>>)
    ensures r.Some? ==> |r.value| == blocks && Distinct(r.value)
    ensures r.Some? ==> forall i :: 0 <= i < blocks ==> r.value[i] < |fat| && fat[r.value[i]] == Free
  {
    if blocks > |fat| then None
    else if game then
      if forall b :: 0 <= b < blocks ==> fat[b] == Free then Some(seq(blocks, i => i)) else None
    else
      FreeDownDistinct(fat, 0);
      var free := FreeDown(fat, 0);
      if blocks <= |free| then Some(free[..blocks]) else None
  }

  method CellIsFree(image: array<u8>, l: Layout, block: nat) returns (free: bool)
    requires image.Length == CARD_SIZE && l.Valid() && block < l.userBlocks
    ensures free <==> FatView(image[..], l)[block] == Free
  {
    free := FatGet(image[..], l, block) == FAT_FREE;
  }

  method ChooseGame(image: array<u8>, l: Layout, blocks: nat) returns (ok: bool, chosen: seq<nat>)
    requires image.Length == CARD_SIZE && l.Valid() && 0 < blocks <= l.userBlocks
    ensures ok <==> Chosen(FatView(image[..], l), true, blocks).Some?
    ensures ok ==> chosen == Chosen(FatView(image[..], l), true, blocks).value
  {
    ghost var fat := FatView(image[..], l);
    chosen := [];
    for b := 0 to blocks
      invariant chosen == seq(b, i => i)
      invariant forall c :: 0 <= c < b ==> fat[c] == Free
    {
      var free := CellIsFree(image, l, b);
      if !free {
        return false, [];
      }
      chosen := chosen + [b];
    }
    return true, chosen;
  }

  method ChooseData(image: array<u8>, l: Layout, blocks: nat) returns (ok: bool, chosen: seq<nat>)
    requires image.Length == CARD_SIZE && l.Valid() && 0 < blocks <= l.userBlocks
    ensures ok <==> Chosen(FatView(image[..], l), false, blocks).Some?
    ensures ok ==> chosen == Chosen(FatView(image[..], l), false, blocks).value
  {
    ghost var fat := FatView(image[..], l);
    chosen := [];
    var b := l.userBlocks;
    while b > 0 && |chosen| < blocks
      invariant 0 <= b <= l.userBlocks && |chosen| <= blocks
      invariant chosen == FreeDown(fat, b)
    {
      b := b - 1;
      var free := CellIsFree(image, l, b);
      if free {
        chosen := chosen + [b];
      }
    }
    FreeDownPrefix(fat, 0, b);
    ok := |chosen| == blocks;
  }

  method ChooseBlocks(image: array<u8>, l: Layout, game: bool, blocks: nat) returns (ok: bool, chosen: seq<nat>)
    requires image.Length == CARD_SIZE && l.Valid() && blocks > 0
    ensures ok <==> Chosen(FatView(image[..], l), game, blocks).Some?
    ensures ok ==> chosen == Chosen(FatView(image[..], l), game, blocks).value
  {
    if blocks > l.userBlocks {
      return false, [];
    }
    if game {
      ok, chosen := ChooseGame(image, l, blocks);
    } else {
      ok, chosen := ChooseData(image, l, blocks);
    }
  }

  method SlotIsEmpty(image: array<u8>, l: Layout, s: nat) returns (empty: bool)
    requires image.Length == CARD_SIZE && l.Valid() && s < l.SlotCount()
    ensures empty <==> DirView(image[..], l)[s] == Vacant
  {
    assert DirView(image[..], l)[s] == SlotOf(Entry(image[..], l, s));
    empty := Entry(image[..], l, s)[0] == TYPE_EMPTY;
  }

  method FirstEmptySlot(image: array<u8>, l: Layout) returns (slot: Option<nat>)
    requires image.Length == CARD_SIZE && l.Valid()
    ensures slot == FirstVacant(View(image[..], l).dir)
  {
    ghost var dir := DirView(image[..], l);
    for s := 0 to l.SlotCount()
      invariant FirstVacantFrom(dir, s) == FirstVacant(dir)
    {
      var empty := SlotIsEmpty(image, l, s);
      if empty {
        return Some(s);
      }
    }
    return None;
  }

  /** What an inject returns, decided before anything is written. */
  ghost function InjectStatus(image: Image, dci: seq<u8>): Status {
    if DciBlocks(dci) == 0 then Unsupported
    else if ReadLayout(image).None? then InvalidArg
    else
      var v := View(image, ReadLayout(image).value);
      if NameTaken(v, EntryName(dci)) then Exists
      else if Chosen(v.fat, dci[0] == TYPE_GAME, DciBlocks(dci)).None? then NoSpace
      else if FirstVacant(v.dir).None? then NoSpace
      else Ok
  }

  /** One inject: an error leaves every byte as it was; success writes exactly the
      unit's save, to the chosen blocks and the first empty slot. */
  ghost predicate InjectStep(before: Image, dci: seq<u8>, rc: Status, after: Image) {
    && rc == InjectStatus(before, dci)
    && (rc != Ok ==> after == before)
    && (rc == Ok ==>
          var l := ReadLayout(before).value;
          var v := View(before, l);
          var slot, cells := FirstVacant(v.dir).value, Chosen(v.fat, dci[0] == TYPE_GAME, DciBlocks(dci)).value;
          ReadLayout(after) == Some(l) && SameElsewhere(before, after, l)
          && Writes(v, slot, EntryName(dci), SaveOf(dci), cells, View(after, l)))
  }

  lemma ReversedGroup(src: seq<u8>, i: nat)
    requires |src| % 4 == 0 && i % 4 == 0 && i + 4 <= |src|
    ensures Reversed(src)[..i + 4] == Reversed(src)[..i] + [src[i + 3], src[i + 2], src[i + 1], src[i]]
  {
    assert Mirror(i) == i + 3 && Mirror(i + 1) == i + 2 && Mirror(i + 2) == i + 1 && Mirror(i + 3) == i;
  }

  /** Turns each four-byte group around, as a .dci stores them. */
  method ReverseGroups(src: seq<u8>) returns (dst: seq<u8>)
    requires |src| % 4 == 0
    ensures dst == Reversed(src)
  {
    var i := 0;
    dst := [];
    while i + 4 <= |src|
      invariant 0 <= i <= |src| && i % 4 == 0
      invariant dst == Reversed(src)[..i]
    {
      ReversedGroup(src, i);
      dst := dst + [src[i + 3], src[i + 2], src[i + 1], src[i]];
      i := i + 4;
    }
    assert Reversed(src)[..i] == Reversed(src);
  }

  method WriteBlock(image: array<u8>, l: Layout, block: nat, src: seq<u8>)
    requires image.Length == CARD_SIZE && ReadLayout(image[..]) == Some(l)
    requires block < l.userBlocks && |src| == BLOCK_SIZE
    modifies image
    ensures ReadLayout(image[..]) == Some(l) && SameElsewhere(old(image[..]), image[..], l)
    ensures View(image[..], l) == old(View(image[..], l).(blocks := View(image[..], l).blocks[block := Reversed(src)]))
  {
    BlockWrite(image[..], l, block, Reversed(src));
    var data := ReverseGroups(src);
    WriteBytes(image, block * BLOCK_SIZE, data);
  }

  method WriteEntry(image: array<u8>, l: Layout, slot: nat, entry: seq<u8>)
    requires image.Length == CARD_SIZE && ReadLayout(image[..]) == Some(l)
    requires slot < l.SlotCount() && |entry| == ENTRY_SIZE
    modifies image
    ensures ReadLayout(image[..]) == Some(l) && SameElsewhere(old(image[..]), image[..], l)
    ensures View(image[..], l) == old(View(image[..], l).(dir := View(image[..], l).dir[slot := SlotOf(entry)]))
  {
    SlotWrite(image[..], l, slot, entry);
    WriteBytes(image, l.SlotOffset(slot), entry);
  }

  /** Fills one block and links it. */
  method WriteLink(image: array<u8>, l: Layout, block: nat, src: seq<u8>, value: nat)
    requires image.Length == CARD_SIZE && ReadLayout(image[..]) == Some(l)
    requires block < l.userBlocks && |src| == BLOCK_SIZE && value < 0x1_0000
    modifies image
    ensures ReadLayout(image[..]) == Some(l) && SameElsewhere(old(image[..]), image[..], l)
    ensures View(image[..], l) == old(Volume(View(image[..], l).fat[block := LinkOf(value)],
                                             View(image[..], l).blocks[block := Reversed(src)], View(image[..], l).dir))
  {
    WriteBlock(image, l, block, src);
    FatSet(image, l, block, value);
  }

  /** Fills the chosen blocks with the unit's data and links them. */
  method WriteChain(image: array<u8>, l: Layout, dci: seq<u8>, chosen: seq<nat>)
    requires image.Length == CARD_SIZE && ReadLayout(image[..]) == Some(l)
    requires 0 < |chosen| == DciBlocks(dci) && Distinct(chosen)
    requires forall i :: 0 <= i < |chosen| ==> chosen[i] < l.userBlocks
    modifies image
    ensures ReadLayout(image[..]) == Some(l) && SameElsewhere(old(image[..]), image[..], l)
    ensures WritingAt(old(View(image[..], l)), chosen, SaveOf(dci).data, |chosen|, View(image[..], l))
  {
    ghost var v := View(image[..], l);
    for i := 0 to |chosen|
      invariant ReadLayout(image[..]) == Some(l) && SameElsewhere(old(image[..]), image[..], l)
      invariant WritingAt(v, chosen, SaveOf(dci).data, i, View(image[..], l))
    {
      ghost var w := View(image[..], l);
      var value := if i + 1 == |chosen| then FAT_END else chosen[i + 1];
      assert LinkOf(value) == LinkAt(chosen, i);
      WriteLink(image, l, chosen[i], DciChunk(dci, i), value);
      WritingStep(v, chosen, SaveOf(dci).data, i, w, View(image[..], l));
    }
  }

  function NewEntry(dci: seq<u8>, first: nat): (entry: seq<u8>)
    requires |dci| >= ENTRY_SIZE
    ensures |entry| == ENTRY_SIZE
  {
    Splice(dci[..ENTRY_SIZE], ENTRY_FIRST_BLOCK, Le16Bytes(first))
  }

  lemma NewEntrySlot(dci: seq<u8>, first: nat)
    requires DciBlocks(dci) > 0 && first < 0x1_0000
    ensures SlotOf(NewEntry(dci, first)) == File(EntryName(dci), first, DciBlocks(dci), SaveOf(dci).rest)
  {
    var entry := NewEntry(dci, first);
    Le16Written(dci[..ENTRY_SIZE], ENTRY_FIRST_BLOCK, first);
    Le16Frame(dci[..ENTRY_SIZE], ENTRY_FIRST_BLOCK, Le16Bytes(first), ENTRY_LENGTH);
    assert Masked(entry) == Masked(dci[..ENTRY_SIZE]);
    assert EntryName(entry) == EntryName(dci);
  }

  /** Writes the file's save in the first empty slot: a game from block 0 up, data in the highest free blocks.
      A refused file leaves the card as it was. */
  method Inject(image: array<u8>, dci: seq<u8>) returns (rc: Status)
    requires image.Length == CARD_SIZE
    modifies image
    ensures InjectStep(old(image[..]), dci, rc, image[..])
  {
    var blocks := DciBlocks(dci);
    if blocks == 0 {
      return Unsupported;
    }
    var layout := ReadLayout(image[..]);
    if layout.None? {
      return InvalidArg;
    }
    var l := layout.value;
    var taken := CheckName(image, l, EntryName(dci));
    if taken {
      return Exists;
    }
    var ok, chosen := ChooseBlocks(image, l, dci[0] == TYPE_GAME, blocks);
    if !ok {
      return NoSpace;
    }
    var slot := FirstEmptySlot(image, l);
    if slot.None? {
      return NoSpace;
    }
    ghost var v := View(image[..], l);
    WriteChain(image, l, dci, chosen);
    WritingDone(v, chosen, SaveOf(dci).data, View(image[..], l));
    NewEntrySlot(dci, chosen[0]);
    WriteEntry(image, l, slot.value, NewEntry(dci, chosen[0]));
    return Ok;
  }

  /* ---- Delete and extract --------------------------------------------------------------- */

  /** One delete: an error changes nothing; success frees exactly the chain of
      the named entry, clears the entry and leaves every block's bytes. */
  ghost predicate DeleteStep(before: Image, first: nat, rc: Status, after: Image) {
    match ReadLayout(before)
    case None => rc == InvalidArg && after == before
    case Some(l) => (
      var v := View(before, l);
      if rc == Ok then
        && ReadLayout(after) == Some(l) && SameElsewhere(before, after, l)
        && View(after, l).blocks == v.blocks
        && exists s: nat :: FirstStartsAt(v, first, s) && Erases(v, s, View(after, l))
      else
        && rc == InvalidArg && after == before
        && forall s: nat :: !StartsAt(v, first, s))
  }

  method FreeChain(image: array<u8>, l: Layout, order: seq<nat>)
    requires image.Length == CARD_SIZE && ReadLayout(image[..]) == Some(l)
    requires forall i :: 0 <= i < |order| ==> order[i] < l.userBlocks
    modifies image
    ensures ReadLayout(image[..]) == Some(l) && SameElsewhere(old(image[..]), image[..], l)
    ensures var v := old(View(image[..], l));
      FreedFrom(v.fat, order, View(image[..], l).fat) && View(image[..], l) == v.(fat := View(image[..], l).fat)
  {
    ghost var v := View(image[..], l);
    for i := 0 to |order|
      invariant ReadLayout(image[..]) == Some(l) && SameElsewhere(old(image[..]), image[..], l)
      invariant FreeingAt(v.fat, order, i, View(image[..], l).fat)
      invariant View(image[..], l) == v.(fat := View(image[..], l).fat)
    {
      FreeingStep(v.fat, order, i, View(image[..], l).fat);
      FatSet(image, l, order[i], FAT_FREE);
    }
    assert order[..|order|] == order;
  }

  method Lookup(image: array<u8>, l: Layout, first: nat) returns (found: Option<nat>, count: nat, order: seq<nat>)
    requires image.Length == CARD_SIZE && l.Valid()
    ensures found.None? ==> forall s: nat :: !StartsAt(View(image[..], l), first, s)
    ensures found.Some? ==> FirstStartsAt(View(image[..], l), first, found.value)
    ensures found.Some? ==> order == ChainAt(View(image[..], l), found.value) && count == |order|
  {
    count, order := 0, [];
    found := FindByBlock(image, l, first);
    if found.Some? {
      assert Live(View(image[..], l), found.value);
      assert View(image[..], l).dir[found.value] == SlotOf(Entry(image[..], l, found.value));
      count, order := EntryChain(image, l, found.value);
    }
  }

  method ClearEntry(image: array<u8>, l: Layout, slot: nat)
    requires image.Length == CARD_SIZE && ReadLayout(image[..]) == Some(l) && slot < l.SlotCount()
    modifies image
    ensures ReadLayout(image[..]) == Some(l) && SameElsewhere(old(image[..]), image[..], l)
    ensures View(image[..], l) == old(View(image[..], l).(dir := View(image[..], l).dir[slot := Vacant]))
  {
    assert SlotOf(Zeros(ENTRY_SIZE)) == Vacant;
    WriteEntry(image, l, slot, Zeros(ENTRY_SIZE));
  }

  /** Frees the chain of the file that starts at `first` and clears its slot. */
  method Delete(image: array<u8>, first: nat) returns (rc: Status)
    requires image.Length == CARD_SIZE
    modifies image
    ensures DeleteStep(old(image[..]), first, rc, image[..])
  {
    var layout := ReadLayout(image[..]);
    if layout.None? {
      return InvalidArg;
    }
    var l := layout.value;
    var found, count, order := Lookup(image, l, first);
    if found.None? {
      return InvalidArg;
    }
    ghost var v := View(image[..], l);
    FreeChain(image, l, order);
    ClearEntry(image, l, found.value);
    assert FirstStartsAt(v, first, found.value) && Erases(v, found.value, View(image[..], l));
    return Ok;
  }

  /** One extract: the .dci form of the save the first block names, when it has
      the block count the caller expects. */
  ghost predicate ExtractResult(image: Image, first: nat, blocks: nat, rc: Status, out: seq<u8>) {
    match ReadLayout(image)
    case None => rc == InvalidArg
    case Some(l) => (
      var v := View(image, l);
      if rc == Ok then exists s: nat ::
        FirstStartsAt(v, first, s) && v.dir[s].size == blocks && IsDciOf(out, SaveAt(v, s))
      else rc == InvalidArg && forall s: nat :: FirstStartsAt(v, first, s) ==> v.dir[s].size != blocks)
  }

  lemma BlocksSized(image: Image, l: Layout)
    requires l.Valid()
    ensures forall b :: 0 <= b < l.userBlocks ==> |BlockView(image, l)[b]| == BLOCK_SIZE
  {
  }

  method ReadChain(image: array<u8>, l: Layout, order: seq<nat>) returns (out: seq<u8>)
    requires image.Length == CARD_SIZE && l.Valid()
    requires forall i :: 0 <= i < |order| ==> order[i] < l.userBlocks
    requires forall b :: 0 <= b < l.userBlocks ==> |BlockView(image[..], l)[b]| == BLOCK_SIZE
    ensures out == Packed(Read(BlockView(image[..], l), order))
  {
    ghost var blocks := BlockView(image[..], l);
    out := [];
    for i := 0 to |order|
      invariant out == Packed(Read(blocks, order[..i]))
    {
      ReadSnoc(blocks, order, i);
      PackedSnoc(Read(blocks, order[..i]), blocks[order[i]]);
      var data := ReverseGroups(Block(image[..], order[i]));
      out := out + data;
    }
    assert order[..|order|] == order;
  }

  /** The .dci form of entry `s`, its blocks read along `order`. */
  method ReadEntry(image: array<u8>, l: Layout, s: nat, order: seq<nat>) returns (out: seq<u8>)
    requires image.Length == CARD_SIZE && l.Valid() && Whole(View(image[..], l), s)
    requires order == ChainAt(View(image[..], l), s)
    ensures IsDciOf(out, SaveAt(View(image[..], l), s))
  {
    assert View(image[..], l).dir[s] == SlotOf(Entry(image[..], l, s));
    BlocksSized(image[..], l);
    var data := ReadChain(image, l, order);
    out := Masked(Entry(image[..], l, s)) + data;
  }

  /** Copies the file that starts at `first` out as a .dci. */
  method Extract(image: array<u8>, first: nat, blocks: nat) returns (rc: Status, out: seq<u8>)
    requires image.Length == CARD_SIZE
    ensures ExtractResult(image[..], first, blocks, rc, out)
  {
    out := [];
    var layout := ReadLayout(image[..]);
    if layout.None? {
      return InvalidArg, [];
    }
    var l := layout.value;
    var found, count, order := Lookup(image, l, first);
    if found.None? || count != blocks {
      return InvalidArg, [];
    }
    out := ReadEntry(image, l, found.value, order);
    return Ok, out;
  }
}
