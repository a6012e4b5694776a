/** The operations on a GameCube card. Directory and table are edited in copies
    and committed, sealed, over both copies on the card. */
module GameCubeCard {
  import opened Bytes
  import opened Status
  import opened Chains
  import opened FatVolume
  import opened GameCubeImage

  /* ---- .gci units ------------------------------------------------------------------ */

  /** Blocks of the single save `gci` holds, or 0 when it isn't one. */
  function GciBlocks(gci: seq<u8>): (n: nat)
    ensures n > 0 ==> |gci| == DENTRY_SIZE + n * BLOCK_SIZE && n <= MAX_DATA_BLOCKS
    ensures n > 0 ==> DentryLive(gci) && Be16(gci, DENTRY_BLOCK_COUNT) == n
  {
    if |gci| < DENTRY_SIZE + BLOCK_SIZE || (|gci| - DENTRY_SIZE) % BLOCK_SIZE != 0 then 0
    else
      var blocks := (|gci| - DENTRY_SIZE) / BLOCK_SIZE;
      if blocks > MAX_DATA_BLOCKS || Be16(gci, DENTRY_BLOCK_COUNT) != blocks || !DentryLive(gci) then 0 else blocks
  }

  function GciChunk(gci: seq<u8>, i: nat): (d: seq<u8>)
    requires DENTRY_SIZE + (i + 1) * BLOCK_SIZE <= |gci|
    ensures |d| == BLOCK_SIZE
  {
    gci[DENTRY_SIZE + i * BLOCK_SIZE..DENTRY_SIZE + (i + 1) * BLOCK_SIZE]
  }

  /** The save a .gci carries: its entry without the first block, its blocks in order. */
  function SaveOf(gci: seq<u8>): (s: Save)
    requires GciBlocks(gci) > 0
    ensures |s.data| == GciBlocks(gci)
  {
    Save(Masked(gci[..DENTRY_SIZE]),
         seq(GciBlocks(gci), i requires 0 <= i < GciBlocks(gci) => GciChunk(gci, i)))
  }

  function Joined(data: seq<seq<u8>>): seq<u8> {
    if data == [] then [] else Joined(data[..|data| - 1]) + data[|data| - 1]
  }

  lemma {:induction false} JoinedChunks(data: seq<seq<u8>>, gci: seq<u8>)
    requires DENTRY_SIZE + |data| * BLOCK_SIZE <= |gci|
    requires forall i :: 0 <= i < |data| ==> data[i] == GciChunk(gci, i)
    ensures Joined(data) == gci[DENTRY_SIZE..DENTRY_SIZE + |data| * BLOCK_SIZE]
  {
    if data != [] {
      var n := |data| - 1;
      JoinedChunks(data[..n], gci);
      assert gci[DENTRY_SIZE..DENTRY_SIZE + n * BLOCK_SIZE] + GciChunk(gci, n)
          == gci[DENTRY_SIZE..DENTRY_SIZE + (n + 1) * BLOCK_SIZE];
    }
  }

  /** A unit's save, put back in .gci form, is the unit, first-block field aside. */
  lemma GciRoundTrip(gci: seq<u8>)
    requires GciBlocks(gci) > 0
    ensures SaveOf(gci).rest + Joined(SaveOf(gci).data) == Masked(gci)
  {
    JoinedChunks(SaveOf(gci).data, gci);
    assert Masked(gci) == Masked(gci[..DENTRY_SIZE]) + gci[DENTRY_SIZE..];
  }

  /* ---- Chains ---------------------------------------------------------------------- */

  /** Walks the table from block `first`: the chain's length and cells when it is
      intact, 0 when a link leaves the data area, comes back or lands on a free block. */
  method WalkChain(bat: Table, total: nat, first: nat) returns (count: nat, order: seq<nat>)
    requires SYSTEM_BLOCKS <= total <= 2048
    ensures count == |ChainOf(FatView(bat, total), CellOf(first))|
    ensures count > 0 ==> order == ChainOf(FatView(bat, total), CellOf(first))
  {
    hide IsChain, Intact, ChainOf, Steps, BatLink;
    ghost var fat := FatView(bat, total);
    if first < SYSTEM_BLOCKS || first >= total {
      DeadEnd(fat, [], CellOf(first));
      return 0, [];
    }
    var seen := new bool[2048](_ => false);
    var cell: nat := first - SYSTEM_BLOCKS;
    count, order := 0, [];
    while true
      invariant |order| == count && IsPath(fat, order) && Distinct(order)
      invariant cell < total - SYSTEM_BLOCKS && cell !in order
      invariant (order + [cell])[0] == first - SYSTEM_BLOCKS
      invariant count > 0 ==> fat[order[count - 1]] == Next(cell)
      invariant forall b: nat :: b < 2048 - SYSTEM_BLOCKS ==> seen[b + SYSTEM_BLOCKS] == (b in order)
      invariant fresh(seen)
      decreases total - count
    {
      seen[cell + SYSTEM_BLOCKS] := true;
      PathExtends(fat, order, cell);
      order := order + [cell];
      count := count + 1;
      DistinctBound(order, total - SYSTEM_BLOCKS);
      var next := BatLink(bat, cell);
      if next == BAT_CHAIN_END {
        ChainOfUnique(fat, order);
        return;
      }
      if next < SYSTEM_BLOCKS || next >= total {
        BadLinkEnds(fat, order, next);
        return 0, [];
      }
      if seen[next] {
        DeadEnd(fat, order, next - SYSTEM_BLOCKS);
        return 0, [];
      }
      cell := next - SYSTEM_BLOCKS;
    }
  }

  lemma BadLinkEnds(fat: Fat, p: seq<nat>, next: nat)
    requires IsPath(fat, p) && |p| > 0 && fat[p[|p| - 1]] == LinkOf(next)
    requires next != BAT_CHAIN_END && (next < SYSTEM_BLOCKS || next >= |fat| + SYSTEM_BLOCKS)
    ensures !Intact(fat, p[0])
  {
    if next >= SYSTEM_BLOCKS {
      DeadEnd(fat, p, next - SYSTEM_BLOCKS);
    } else {
      StuckEndsPath(fat, p);
    }
  }

  /* ---- Directory searches -------------------------------------------------------------- */

  /** `s` is a live entry that starts at block `first` and whose chain is as long
      as it records. */
  ghost predicate StartsAt(v: Volume, first: nat, s: nat) {
    Live(v, s) && v.dir[s].first == CellOf(first) && |ChainAt(v, s)| == v.dir[s].size
  }

  ghost predicate FirstStartsAt(v: Volume, first: nat, blocks: nat, s: nat) {
    StartsAt(v, first, s) && (blocks == 0 || v.dir[s].size == blocks)
    && forall t: nat :: t < s && StartsAt(v, first, t) ==> blocks != 0 && v.dir[t].size != blocks
  }

  method EntryStartsAt(dir: Table, bat: Table, total: nat, first: nat, blocks: nat, i: nat, ghost data: seq<seq<u8>>)
    returns (yes: bool)
    requires SYSTEM_BLOCKS <= total <= 2048 && first < 0x1_0000_0000 && i < DIR_ENTRIES
    ensures var v := Volume(FatView(bat, total), data, DirView(dir));
      yes <==> StartsAt(v, first, i) && (blocks == 0 || v.dir[i].size == blocks)
  {
    var d := Dentry(dir, i);
    assert DirView(dir)[i] == SlotOf(d);
    if !DentryLive(d) || Be16(d, DENTRY_FIRST_BLOCK) != first {
      return false;
    }
    var count := Be16(d, DENTRY_BLOCK_COUNT);
    if blocks != 0 && count != blocks {
      return false;
    }
    var walked, _ := WalkChain(bat, total, first);
    return walked == count;
  }

  /** The first entry that starts at block `first`, has an intact chain as long as it records and, unless
      `blocks` is 0, is that long. */
  method FindEntryAt(dir: Table, bat: Table, total: nat, first: nat, blocks: nat, ghost data: seq<seq<u8>>)
    returns (found: Option<nat>)
    requires SYSTEM_BLOCKS <= total <= 2048 && first < 0x1_0000_0000
    ensures var v := Volume(FatView(bat, total), data, DirView(dir));
      && (found.Some? ==> FirstStartsAt(v, first, blocks, found.value))
      && (found.None? ==> forall s: nat :: StartsAt(v, first, s) ==> blocks != 0 && v.dir[s].size != blocks)
  {
    ghost var v := Volume(FatView(bat, total), data, DirView(dir));
    for i := 0 to DIR_ENTRIES
      invariant forall t: nat :: t < i && StartsAt(v, first, t) ==> blocks != 0 && v.dir[t].size != blocks
    {
      var yes := EntryStartsAt(dir, bat, total, first, blocks, i, data);
      if yes {
        return Some(i);
      }
    }
    return None;
  }

  ghost predicate IdentityTaken(slots: seq<Slot>, id: seq<u8>) {
    exists s :: 0 <= s < |slots| && slots[s].File? && slots[s].id == id
  }

  method FindIdentity(dir: Table, gci: seq<u8>) returns (taken: bool)
    requires |gci| >= DENTRY_SIZE
    ensures taken <==> IdentityTaken(DirView(dir), Identity(gci))
  {
    for i := 0 to DIR_ENTRIES
      invariant forall s :: 0 <= s < i ==> !(DirView(dir)[s].File? && DirView(dir)[s].id == Identity(gci))
    {
      var d := Dentry(dir, i);
      assert DirView(dir)[i] == SlotOf(d);
      if DentryLive(d) && Identity(d) == Identity(gci) {
        return true;
      }
    }
    return false;
  }

  method FirstFreeSlot(dir: Table) returns (slot: Option<nat>)
    ensures slot == FirstVacant(DirView(dir))
  {
    for i := 0 to DIR_ENTRIES
      invariant FirstVacantFrom(DirView(dir), i) == FirstVacant(DirView(dir))
    {
      assert DirView(dir)[i] == SlotOf(Dentry(dir, i));
      if !DentryLive(Dentry(dir, i)) {
        return Some(i);
      }
    }
    return None;
  }

  /** The lowest free cells, as many as asked for. */
  function Chosen(fat: Fat, blocks: nat): (r: Option<seq<nat>>)
    ensures r.Some? ==> |r.value| == blocks && Distinct(r.value)
    ensures r.Some? ==> forall i :: 0 <= i < blocks ==> r.value[i] < |fat| && fat[r.value[i]] == Free
    ensures r.Some? <==> blocks <= FreeCount(fat)
  {
    FreeUpDistinct(fat, |fat|);
    var free := FreeUp(fat, |fat|);
    if blocks <= |free| then Some(free[..blocks]) else None
  }

  lemma FreeNext(fat: Fat, n: nat)
    requires n < |fat|
    ensures FreeUp(fat, n + 1) == FreeUp(fat, n) + if fat[n] == Free then [n] else []
  {
  }

  lemma NoneFree(fat: Fat)
    ensures FreeUp(fat, 0) == []
  {
  }

  lemma BatFree(bat: Table, total: nat, cell: nat)
    requires SYSTEM_BLOCKS <= total <= 2048 && cell < total - SYSTEM_BLOCKS
    ensures FatView(bat, total)[cell] == Free <==> BatLink(bat, cell) == BAT_FREE
  {
  }

  lemma ChosenUp(fat: Fat, blocks: nat, n: nat)
    requires n <= |fat| && |FreeUp(fat, n)| <= blocks && (n < |fat| ==> |FreeUp(fat, n)| == blocks)
    ensures Chosen(fat, blocks) == if |FreeUp(fat, n)| < blocks then None else Some(FreeUp(fat, n))
  {
    FreeUpPrefix(fat, n, |fat|);
    FreeUpDistinct(fat, |fat|);
    assert |FreeUp(fat, n)| == blocks ==> FreeUp(fat, |fat|)[..blocks] == FreeUp(fat, n);
  }

  method ChooseBlocks(bat: Table, total: nat, blocks: nat) returns (chosen: Option<seq<nat>>)
    requires SYSTEM_BLOCKS <= total <= 2048
    ensures chosen == Chosen(FatView(bat, total), blocks)
  {
    hide FatView, FreeUp, Chosen, BatLink;
    ghost var fat := FatView(bat, total);
    NoneFree(fat);
    var found: seq<nat> := [];
    var cell := 0;
    while cell < total - SYSTEM_BLOCKS && |found| < blocks
      invariant 0 <= cell <= total - SYSTEM_BLOCKS && |found| <= blocks
      invariant found == FreeUp(fat, cell)
    {
      FreeNext(fat, cell);
      BatFree(bat, total, cell);
      if BatLink(bat, cell) == BAT_FREE {
        found := found + [cell];
      }
      cell := cell + 1;
    }
    ChosenUp(fat, blocks, cell);
    return if |found| < blocks then None else Some(found);
  }

  method CountFree(bat: Table, total: nat) returns (n: nat)
    requires SYSTEM_BLOCKS <= total <= 2048
    ensures n == FreeCount(FatView(bat, total))
  {
    ghost var fat := FatView(bat, total);
    n := 0;
    for cell := 0 to total - SYSTEM_BLOCKS
      invariant n == FreeBelow(fat, cell)
    {
      if BatLink(bat, cell) == BAT_FREE {
        n := n + 1;
      }
    }
  }

  /* ---- Commit ----------------------------------------------------------------------------- */

  /** Both copies of both tables carry their checksums and describe the same
      volume, and the block tables record the free blocks there are. */
  ghost predicate Sealed(image: seq<u8>) {
    && OpenView(image).Some?
    && DirValid(Block(image, 1)) && DirValid(Block(image, 2)) && BatValid(Block(image, 3)) && BatValid(Block(image, 4))
    && DirView(Block(image, 1)) == DirView(Block(image, 2)) == CardOf(image).dir
    && FatView(Block(image, 3), TotalBlocks(|image|)) == FatView(Block(image, 4), TotalBlocks(|image|))
       == CardOf(image).fat
    && Be16(Block(image, 3), BAT_FREE_BLOCKS) == Be16(Block(image, 4), BAT_FREE_BLOCKS) == FreeCount(CardOf(image).fat)
  }

  function NextCount(count: nat): (n: nat)
    ensures n < 0x1_0000
  {
    (count + 1) % 0x1_0000
  }

  /** The directory as committed: one count past the mounted copy, sealed. */
  function CommittedDir(dir: Table, mounted: Table): Table {
    SealDir(Splice(dir, DIR_COUNTER, Be16Bytes(NextCount(Be16(mounted, DIR_COUNTER)))))
  }

  function CommittedBat(bat: Table, mounted: Table, total: nat): Table
    requires SYSTEM_BLOCKS <= total <= 2048
  {
    SealBat(Counted(bat, NextCount(Be16(mounted, BAT_COUNTER)), FreeCount(FatView(bat, total))))
  }

  lemma CommittedDirView(dir: Table, mounted: Table)
    ensures DirValid(CommittedDir(dir, mounted)) && DirView(CommittedDir(dir, mounted)) == DirView(dir)
    ensures Be16(CommittedDir(dir, mounted), DIR_COUNTER) == NextCount(Be16(mounted, DIR_COUNTER))
  {
    var count := Be16Bytes(NextCount(Be16(mounted, DIR_COUNTER)));
    var d: Table := Splice(dir, DIR_COUNTER, count);
    DirTrailerFrame(dir, DIR_COUNTER, count);
    DirTrailerFrame(d, DIR_CHECKSUM, SealBytes(d[..DIR_CHECKSUM]));
    Be16Written(dir, DIR_COUNTER, NextCount(Be16(mounted, DIR_COUNTER)));
    Be16Frame(d, DIR_CHECKSUM, SealBytes(d[..DIR_CHECKSUM]), DIR_COUNTER);
    SealedDirValid(d);
  }

  /** Sealing the table changes nothing past the checksum. */
  lemma SealBatKeeps(bat: Table, total: nat, field: nat)
    requires SYSTEM_BLOCKS <= total <= 2048 && BAT_COUNTER <= field && field + 2 <= BLOCK_SIZE
    ensures BatValid(SealBat(bat)) && FatView(SealBat(bat), total) == FatView(bat, total)
    ensures Be16(SealBat(bat), field) == Be16(bat, field)
  {
    SealedBatValid(bat);
    BatHeaderFrame(bat, total, BAT_CHECKSUM, SealBytes(bat[BAT_COUNTER..]));
    Be16Frame(bat, BAT_CHECKSUM, SealBytes(bat[BAT_COUNTER..]), field);
  }

  function Counted(bat: Table, count: nat, free: nat): Table {
    Splice(Splice(bat, BAT_COUNTER, Be16Bytes(count)), BAT_FREE_BLOCKS, Be16Bytes(free))
  }

  lemma CountedKeeps(bat: Table, total: nat, count: nat, free: nat)
    requires SYSTEM_BLOCKS <= total <= 2048 && count < 0x1_0000 && free < 0x1_0000
    ensures FatView(Counted(bat, count, free), total) == FatView(bat, total)
    ensures Be16(Counted(bat, count, free), BAT_COUNTER) == count
    ensures Be16(Counted(bat, count, free), BAT_FREE_BLOCKS) == free
  {
    var b: Table := Splice(bat, BAT_COUNTER, Be16Bytes(count));
    BatHeaderFrame(bat, total, BAT_COUNTER, Be16Bytes(count));
    BatHeaderFrame(b, total, BAT_FREE_BLOCKS, Be16Bytes(free));
    Be16Written(bat, BAT_COUNTER, count);
    Be16Frame(b, BAT_FREE_BLOCKS, Be16Bytes(free), BAT_COUNTER);
    Be16Written(b, BAT_FREE_BLOCKS, free);
  }

  lemma CommittedBatView(bat: Table, mounted: Table, total: nat)
    requires SYSTEM_BLOCKS <= total <= 2048
    ensures BatValid(CommittedBat(bat, mounted, total))
    ensures FatView(CommittedBat(bat, mounted, total), total) == FatView(bat, total)
    ensures Be16(CommittedBat(bat, mounted, total), BAT_FREE_BLOCKS) == FreeCount(FatView(bat, total))
    ensures Be16(CommittedBat(bat, mounted, total), BAT_COUNTER) == NextCount(Be16(mounted, BAT_COUNTER))
  {
    var count := NextCount(Be16(mounted, BAT_COUNTER));
    var free := FreeCount(FatView(bat, total));
    CountedKeeps(bat, total, count, free);
    SealBatKeeps(Counted(bat, count, free), total, BAT_COUNTER);
    SealBatKeeps(Counted(bat, count, free), total, BAT_FREE_BLOCKS);
  }

  method SealInto(a: array<u8>, at: nat, data: seq<u8>)
    requires at + 4 <= a.Length
    modifies a
    ensures a[..] == Splice(old(a[..]), at, SealBytes(data))
  {
    var sum, inverse := ComputeChecksum(data);
    WriteBytes(a, at, Be16Bytes(sum) + Be16Bytes(inverse));
  }

  /** What a commit leaves on the card: the edited tables sealed in both copies,
      the header and the data blocks as they were. */
  ghost predicate Committed(before: seq<u8>, dir: Table, bat: Table, after: seq<u8>)
    requires OpenView(before).Some?
  {
    var v := OpenView(before).value;
    var d := CommittedDir(dir, Block(before, v.dirBlock));
    var b := CommittedBat(bat, Block(before, v.batBlock), v.total);
    && |after| == |before| && Block(after, 0) == Block(before, 0)
    && BlockView(after, v.total) == BlockView(before, v.total)
    && Block(after, 1) == Block(after, 2) == d && Block(after, 3) == Block(after, 4) == b
  }

  /** The card after a commit mounts what was committed. */
  lemma CommittedReads(before: seq<u8>, dir: Table, bat: Table, after: seq<u8>)
    requires OpenView(before).Some? && Committed(before, dir, bat, after)
    ensures Sealed(after)
    ensures CardOf(after) == Volume(FatView(bat, OpenView(before).value.total), CardOf(before).blocks, DirView(dir))
  {
    var v := OpenView(before).value;
    CommittedDirView(dir, Block(before, v.dirBlock));
    CommittedBatView(bat, Block(before, v.batBlock), v.total);
  }

  /** The tables on the card, both copies: `dir` as the directory, one update on, and the block table one update on with
      `last` as the block last allocated. */
  ghost predicate TablesAfter(before: seq<u8>, dir: Table, last: nat, after: seq<u8>) {
    && OpenView(before).Some? && |after| == |before|
    && var v := OpenView(before).value;
       var edits, counts := NextCount(Be16(Block(before, v.dirBlock), DIR_COUNTER)),
         NextCount(Be16(Block(before, v.batBlock), BAT_COUNTER));
       && Block(after, 1)[..DIR_COUNTER] == Block(after, 2)[..DIR_COUNTER] == dir[..DIR_COUNTER]
       && Be16(Block(after, 1), DIR_COUNTER) == Be16(Block(after, 2), DIR_COUNTER) == edits
       && Be16(Block(after, 3), BAT_COUNTER) == Be16(Block(after, 4), BAT_COUNTER) == counts
       && Be16(Block(after, 3), BAT_LAST_ALLOCATED) == Be16(Block(after, 4), BAT_LAST_ALLOCATED) == last
  }

  lemma CommittedTables(before: seq<u8>, dir: Table, bat: Table, after: seq<u8>)
    requires OpenView(before).Some? && Committed(before, dir, bat, after)
    ensures TablesAfter(before, dir, Be16(bat, BAT_LAST_ALLOCATED), after)
  {
    hide OpenView, DirView, FatView, BlockView, DirValid, BatValid, NextCount, Be16, Block, SealBytes;
    var v := OpenView(before).value;
    var count := Be16Bytes(NextCount(Be16(Block(before, v.dirBlock), DIR_COUNTER)));
    CommittedDirView(dir, Block(before, v.dirBlock));
    CommittedBatView(bat, Block(before, v.batBlock), v.total);
    CommittedRest(dir, Block(before, v.dirBlock));
    CommittedLast(bat, Block(before, v.batBlock), v.total);
  }

  lemma CommittedRest(dir: Table, mounted: Table)
    ensures CommittedDir(dir, mounted)[..DIR_COUNTER] == dir[..DIR_COUNTER]
  {
    hide SealBytes, Be16, NextCount;
    var count := Be16Bytes(NextCount(Be16(mounted, DIR_COUNTER)));
    var d: Table := Splice(dir, DIR_COUNTER, count);
    SpliceFrame(dir, DIR_COUNTER, count, 0, DIR_COUNTER);
    SpliceFrame(d, DIR_CHECKSUM, SealBytes(d[..DIR_CHECKSUM]), 0, DIR_COUNTER);
  }

  lemma CommittedLast(bat: Table, mounted: Table, total: nat)
    requires SYSTEM_BLOCKS <= total <= 2048
    ensures Be16(CommittedBat(bat, mounted, total), BAT_LAST_ALLOCATED) == Be16(bat, BAT_LAST_ALLOCATED)
  {
    hide SealBytes, Be16, NextCount, FatView;
    var count, free := NextCount(Be16(mounted, BAT_COUNTER)), FreeCount(FatView(bat, total));
    var b: Table := Splice(bat, BAT_COUNTER, Be16Bytes(count));
    Be16Frame(bat, BAT_COUNTER, Be16Bytes(count), BAT_LAST_ALLOCATED);
    Be16Frame(b, BAT_FREE_BLOCKS, Be16Bytes(free), BAT_LAST_ALLOCATED);
    SealBatKeeps(Counted(bat, count, free), total, BAT_LAST_ALLOCATED);
  }

  method Commit(image: array<u8>, v: CardView, dir: array<u8>, bat: array<u8>)
    requires OpenView(image[..]) == Some(v) && dir.Length == BLOCK_SIZE == bat.Length
    requires image != dir && image != bat && dir != bat
    modifies image, dir, bat
    ensures Committed(old(image[..]), old(dir[..]), old(bat[..]), image[..])
  {
    ghost var before := image[..];
    WriteBytes(dir, DIR_COUNTER, Be16Bytes(NextCount(Be16(Block(image[..], v.dirBlock), DIR_COUNTER))));
    SealInto(dir, DIR_CHECKSUM, dir[..DIR_CHECKSUM]);
    WriteBytes(bat, BAT_COUNTER, Be16Bytes(NextCount(Be16(Block(image[..], v.batBlock), BAT_COUNTER))));
    BatHeaderFrame(old(bat[..]), v.total, BAT_COUNTER,
        Be16Bytes(NextCount(Be16(Block(image[..], v.batBlock), BAT_COUNTER))));
    var free := CountFree(bat[..], v.total);
    WriteBytes(bat, BAT_FREE_BLOCKS, Be16Bytes(free));
    SealInto(bat, BAT_CHECKSUM, bat[BAT_COUNTER..]);
    WriteCopies(image, v.total, dir[..], bat[..]);
  }

  method WriteCopies(image: array<u8>, total: nat, dir: Table, bat: Table)
    requires SYSTEM_BLOCKS <= total && image.Length == total * BLOCK_SIZE
    modifies image
    ensures BlockView(image[..], total) == BlockView(old(image[..]), total)
    ensures Block(image[..], 0) == Block(old(image[..]), 0)
    ensures Block(image[..], 1) == Block(image[..], 2) == dir && Block(image[..], 3) == Block(image[..], 4) == bat
  {
    for copy := 0 to 2
      invariant BlockView(image[..], total) == BlockView(old(image[..]), total)
      invariant Block(image[..], 0) == Block(old(image[..]), 0)
      invariant copy > 0 ==> Block(image[..], 1) == dir && Block(image[..], 3) == bat
      invariant copy > 1 ==> Block(image[..], 2) == dir && Block(image[..], 4) == bat
    {
      PutCopy(image, total, copy, dir, bat);
    }
  }

  /* ---- Inject ------------------------------------------------------------------------------ */

  ghost function InjectStatus(image: seq<u8>, gci: seq<u8>): Status {
    if OpenView(image).None? || GciBlocks(gci) == 0 then Unsupported
    else
      var v := CardOf(image);
      if IdentityTaken(v.dir, Identity(gci)) then Exists
      else if FirstVacant(v.dir).None? || Chosen(v.fat, GciBlocks(gci)).None? then NoSpace
      else Ok
  }

  /** One inject: a failure leaves the card unchanged; success writes exactly the
      unit's save and seals both copies. */
  ghost predicate InjectStep(before: seq<u8>, gci: seq<u8>, rc: Status, after: seq<u8>) {
    && rc == InjectStatus(before, gci)
    && (rc != Ok ==> after == before)
    && (rc == Ok ==> |after| == |before| && Sealed(after) && Block(after, 0) == Block(before, 0))
    && (rc == Ok ==> Writes(CardOf(before), FirstVacant(CardOf(before).dir).value, Identity(gci), SaveOf(gci),
                            Chosen(CardOf(before).fat, GciBlocks(gci)).value, CardOf(after)))
  }

  /** And the tables' own bytes: the unit's entry, its first block filled in, in the first vacant place. */
  ghost predicate InjectedTables(before: seq<u8>, gci: seq<u8>, after: seq<u8>) {
    && OpenView(before).Some? && GciBlocks(gci) > 0
    && var v := CardOf(before);
       && FirstVacant(v.dir).Some? && Chosen(v.fat, GciBlocks(gci)).Some?
       && var slot, cells := FirstVacant(v.dir).value, Chosen(v.fat, GciBlocks(gci)).value;
          && |cells| > 0 && slot < DIR_ENTRIES
          && TablesAfter(before, Splice(Block(before, OpenView(before).value.dirBlock), slot * DENTRY_SIZE,
                                        NewDentry(gci, cells[0])),
                         cells[|cells| - 1] + SYSTEM_BLOCKS, after)
  }

  method SetBatLink(bat: array<u8>, total: nat, cell: nat, value: nat)
    requires SYSTEM_BLOCKS <= total <= 2048 && cell < total - SYSTEM_BLOCKS && value < 0x1_0000
      && bat.Length == BLOCK_SIZE
    modifies bat
    ensures FatView(bat[..], total) == old(FatView(bat[..], total))[cell := LinkOf(value)]
    ensures Be16(bat[..], BAT_LAST_ALLOCATED) == old(Be16(bat[..], BAT_LAST_ALLOCATED))
  {
    Be16Frame(bat[..], BAT_MAP + cell * 2, Be16Bytes(value), BAT_LAST_ALLOCATED);
    LinkWrite(bat[..], total, cell, value);
    WriteBytes(bat, BAT_MAP + cell * 2, Be16Bytes(value));
  }

  method WriteData(image: array<u8>, total: nat, cell: nat, data: seq<u8>)
    requires SYSTEM_BLOCKS <= total <= 2048 && image.Length == total * BLOCK_SIZE
    requires cell < total - SYSTEM_BLOCKS && |data| == BLOCK_SIZE
    modifies image
    ensures BlockView(image[..], total) == old(BlockView(image[..], total))[cell := data]
    ensures forall b :: 0 <= b < SYSTEM_BLOCKS ==> Block(image[..], b) == Block(old(image[..]), b)
  {
    DataWrite(image[..], total, cell, data);
    WriteBytes(image, (cell + SYSTEM_BLOCKS) * BLOCK_SIZE, data);
  }

  /** Links the chosen blocks in the table copy and fills them on the card. */
  method WriteChain(image: array<u8>, bat: array<u8>, total: nat, gci: seq<u8>, chosen: seq<nat>, ghost dir: seq<Slot>)
    requires SYSTEM_BLOCKS <= total <= 2048 && image.Length == total * BLOCK_SIZE && bat.Length == BLOCK_SIZE
      && image != bat
    requires 0 < |chosen| == GciBlocks(gci) && Distinct(chosen)
    requires forall i :: 0 <= i < |chosen| ==> chosen[i] < total - SYSTEM_BLOCKS
    modifies image, bat
    ensures forall b :: 0 <= b < SYSTEM_BLOCKS ==> Block(image[..], b) == Block(old(image[..]), b)
    ensures WritingAt(old(Volume(FatView(bat[..], total), BlockView(image[..], total), dir)), chosen, SaveOf(gci).data,
                      |chosen|, Volume(FatView(bat[..], total), BlockView(image[..], total), dir))
  {
    ghost var v := Volume(FatView(bat[..], total), BlockView(image[..], total), dir);
    for i := 0 to |chosen|
      invariant forall b :: 0 <= b < SYSTEM_BLOCKS ==> Block(image[..], b) == Block(old(image[..]), b)
      invariant WritingAt(v, chosen, SaveOf(gci).data, i,
          Volume(FatView(bat[..], total), BlockView(image[..], total), dir))
    {
      ghost var w := Volume(FatView(bat[..], total), BlockView(image[..], total), dir);
      var link := if i + 1 == |chosen| then BAT_CHAIN_END else chosen[i + 1] + SYSTEM_BLOCKS;
      assert LinkOf(link) == LinkAt(chosen, i);
      SetBatLink(bat, total, chosen[i], link);
      WriteData(image, total, chosen[i], GciChunk(gci, i));
      WritingStep(v, chosen, SaveOf(gci).data, i, w, Volume(FatView(bat[..], total), BlockView(image[..], total), dir));
    }
  }

  function NewDentry(gci: seq<u8>, cell: nat): (d: seq<u8>)
    requires |gci| >= DENTRY_SIZE
    ensures |d| == DENTRY_SIZE
  {
    Splice(gci[..DENTRY_SIZE], DENTRY_FIRST_BLOCK, Be16Bytes(cell + SYSTEM_BLOCKS))
  }

  lemma NewDentrySlot(gci: seq<u8>, cell: nat)
    requires GciBlocks(gci) > 0 && cell < MAX_DATA_BLOCKS
    ensures SlotOf(NewDentry(gci, cell)) == File(Identity(gci), cell, GciBlocks(gci), SaveOf(gci).rest)
  {
    var d := NewDentry(gci, cell);
    var head := gci[..DENTRY_SIZE];
    Be16Written(head, DENTRY_FIRST_BLOCK, cell + SYSTEM_BLOCKS);
    Be16Frame(head, DENTRY_FIRST_BLOCK, Be16Bytes(cell + SYSTEM_BLOCKS), DENTRY_BLOCK_COUNT);
    assert Masked(d) == Masked(head);
    assert d[..DENTRY_MAKERCODE_END] == gci[..DENTRY_MAKERCODE_END];
    assert d[DENTRY_FILENAME..DENTRY_FILENAME + FILENAME_LEN] == gci[DENTRY_FILENAME..DENTRY_FILENAME + FILENAME_LEN];
  }

  method WriteDentry(dir: array<u8>, slot: nat, d: seq<u8>)
    requires dir.Length == BLOCK_SIZE && slot < DIR_ENTRIES && |d| == DENTRY_SIZE
    modifies dir
    ensures DirView(dir[..]) == old(DirView(dir[..]))[slot := SlotOf(d)]
    ensures dir[..] == Splice(old(dir[..]), slot * DENTRY_SIZE, d)
  {
    DentryWrite(dir[..], slot, d);
    WriteBytes(dir, slot * DENTRY_SIZE, d);
  }

  method CopyTable(table: Table) returns (a: array<u8>)
    ensures fresh(a) && a.Length == BLOCK_SIZE && a[..] == table
  {
    a := new u8[BLOCK_SIZE](i requires 0 <= i < BLOCK_SIZE => table[i]);
    assert a[..] == table;
  }

  /** Enters the save in the table copies' directory slot and commits them. */
  method EnterAndCommit(image: array<u8>, v: CardView, dir: array<u8>, bat: array<u8>, gci: seq<u8>, slot: nat,
                        chosen: seq<nat>)
    requires OpenView(image[..]) == Some(v) && dir.Length == BLOCK_SIZE == bat.Length
    requires image != dir && image != bat && dir != bat
    requires 0 < |chosen| == GciBlocks(gci) && slot < DIR_ENTRIES
    requires forall i :: 0 <= i < |chosen| ==> chosen[i] < v.total - SYSTEM_BLOCKS
    modifies image, dir, bat
    ensures Sealed(image[..]) && Block(image[..], 0) == Block(old(image[..]), 0)
    ensures CardOf(image[..]) == old(Volume(FatView(bat[..], v.total), BlockView(image[..], v.total),
        DirView(dir[..])[slot := File(Identity(gci), chosen[0], GciBlocks(gci), SaveOf(gci).rest)]))
    ensures TablesAfter(old(image[..]), Splice(old(dir[..]), slot * DENTRY_SIZE, NewDentry(gci, chosen[0])),
                        chosen[|chosen| - 1] + SYSTEM_BLOCKS, image[..])
  {
    hide FatView, DirView, BlockView, Committed, TablesAfter, NewDentry, Identity, SaveOf, Be16, Be16Bytes, SlotOf;
    var last := chosen[|chosen| - 1] + SYSTEM_BLOCKS;
    BatHeaderFrame(bat[..], v.total, BAT_LAST_ALLOCATED, Be16Bytes(last));
    Be16Written(bat[..], BAT_LAST_ALLOCATED, last);
    WriteBytes(bat, BAT_LAST_ALLOCATED, Be16Bytes(last));
    NewDentrySlot(gci, chosen[0]);
    WriteDentry(dir, slot, NewDentry(gci, chosen[0]));
    ghost var newDir, newBat := dir[..], bat[..];
    Commit(image, v, dir, bat);
    CommittedReads(old(image[..]), newDir, newBat, image[..]);
    CommittedTables(old(image[..]), newDir, newBat, image[..]);
  }

  method WriteSave(image: array<u8>, v: CardView, dir: array<u8>, bat: array<u8>, gci: seq<u8>, slot: nat,
                   chosen: seq<nat>)
    requires OpenView(image[..]) == Some(v) && dir.Length == BLOCK_SIZE == bat.Length
    requires image != dir && image != bat && dir != bat
    requires dir[..] == Block(image[..], v.dirBlock) && bat[..] == Block(image[..], v.batBlock)
    requires 0 < |chosen| == GciBlocks(gci) && Distinct(chosen) && slot < DIR_ENTRIES
    requires CardOf(image[..]).dir[slot] == Vacant
    requires forall i :: 0 <= i < |chosen| ==>
      chosen[i] < v.total - SYSTEM_BLOCKS && CardOf(image[..]).fat[chosen[i]] == Free
    modifies image, dir, bat
    ensures Sealed(image[..]) && Block(image[..], 0) == Block(old(image[..]), 0)
    ensures Writes(old(CardOf(image[..])), slot, Identity(gci), SaveOf(gci), chosen, CardOf(image[..]))
    ensures TablesAfter(old(image[..]), Splice(old(dir[..]), slot * DENTRY_SIZE, NewDentry(gci, chosen[0])),
                        chosen[|chosen| - 1] + SYSTEM_BLOCKS, image[..])
  {
    ghost var card := CardOf(image[..]);
    WriteChain(image, bat, v.total, gci, chosen, card.dir);
    WritingDone(card, chosen, SaveOf(gci).data,
        Volume(FatView(bat[..], v.total), BlockView(image[..], v.total), card.dir));
    SystemBlocksOpen(old(image[..]), image[..]);
    EnterAndCommit(image, v, dir, bat, gci, slot, chosen);
  }

  /** Writes the unit's save in the first vacant entry and the lowest free blocks, and seals both copies. */
  method Inject(image: array<u8>, gci: seq<u8>) returns (rc: Status)
    modifies image
    ensures InjectStep(old(image[..]), gci, rc, image[..])
    ensures rc == Ok ==> InjectedTables(old(image[..]), gci, image[..])
  {
    var view := OpenView(image[..]);
    if view.None? {
      return Unsupported;
    }
    var v := view.value;
    var blocks := GciBlocks(gci);
    if blocks == 0 {
      return Unsupported;
    }
    var dir := CopyTable(Block(image[..], v.dirBlock));
    var bat := CopyTable(Block(image[..], v.batBlock));
    var taken := FindIdentity(dir[..], gci);
    if taken {
      return Exists;
    }
    var slot := FirstFreeSlot(dir[..]);
    var chosen := ChooseBlocks(bat[..], v.total, blocks);
    if slot.None? || chosen.None? {
      return NoSpace;
    }
    WriteSave(image, v, dir, bat, gci, slot.value, chosen.value);
    return Ok;
  }

  /** The view depends on the system blocks only. */
  lemma SystemBlocksOpen(image: seq<u8>, image': seq<u8>)
    requires |image'| == |image| && OpenView(image).Some?
    requires forall b :: 0 <= b < SYSTEM_BLOCKS ==> Block(image', b) == Block(image, b)
    ensures OpenView(image') == OpenView(image)
  {
  }

  /* ---- Delete and extract --------------------------------------------------------------------- */

  /** One delete: an error changes nothing; success frees and erases exactly the
      named entry's chain, clears the entry and seals both copies. An entry that
      records no blocks and has no chain is cleared alone. */
  ghost predicate DeleteStep(before: seq<u8>, first: nat, rc: Status, after: seq<u8>) {
    if OpenView(before).None? then rc == Unsupported && after == before
    else
      var v := CardOf(before);
      if rc == Ok then
        && |after| == |before| && Sealed(after) && Block(after, 0) == Block(before, 0)
        && exists s: nat :: FirstStartsAt(v, first, 0, s) && Removes(v, s, CardOf(after))
      else
        && rc == InvalidArg && after == before && forall s: nat :: !StartsAt(v, first, s)
  }

  /** And the tables' own bytes: the entry all 0xFF, the block last allocated as it was. */
  ghost predicate DeletedTables(before: seq<u8>, first: nat, after: seq<u8>) {
    && OpenView(before).Some?
    && var v := OpenView(before).value;
       exists s: nat {:trigger FirstStartsAt(CardOf(before), first, 0, s)} ::
         && FirstStartsAt(CardOf(before), first, 0, s) && s < DIR_ENTRIES
         && TablesAfter(before, Splice(Block(before, v.dirBlock), s * DENTRY_SIZE, Filled(DENTRY_SIZE, DENTRY_EMPTY)),
                        Be16(Block(before, v.batBlock), BAT_LAST_ALLOCATED), after)
  }

  ghost predicate Removes(v: Volume, s: nat, w: Volume)
    requires Live(v, s)
  {
    && |w.blocks| == |v.blocks| == |v.fat|
    && FreedFrom(v.fat, ChainAt(v, s), w.fat)
    && w.dir == v.dir[s := Vacant]
    && (forall b :: 0 <= b < |v.blocks| && b !in ChainAt(v, s) ==> w.blocks[b] == v.blocks[b])
    && (forall b :: 0 <= b < |v.blocks| && b in ChainAt(v, s) ==> w.blocks[b] == Filled(BLOCK_SIZE, 0xFF))
  }

  ghost predicate ErasingAt(blocks: seq<seq<u8>>, cells: seq<nat>, n: nat, after: seq<seq<u8>>) {
    && n <= |cells| && |after| == |blocks|
    && forall b :: 0 <= b < |blocks| ==> after[b] == if b in cells[..n] then Filled(BLOCK_SIZE, 0xFF) else blocks[b]
  }

  method EraseChain(image: array<u8>, bat: array<u8>, total: nat, order: seq<nat>)
    requires SYSTEM_BLOCKS <= total <= 2048 && image.Length == total * BLOCK_SIZE && bat.Length == BLOCK_SIZE
      && image != bat
    requires forall i :: 0 <= i < |order| ==> order[i] < total - SYSTEM_BLOCKS
    modifies image, bat
    ensures forall b :: 0 <= b < SYSTEM_BLOCKS ==> Block(image[..], b) == Block(old(image[..]), b)
    ensures FreedFrom(old(FatView(bat[..], total)), order, FatView(bat[..], total))
    ensures ErasingAt(old(BlockView(image[..], total)), order, |order|, BlockView(image[..], total))
    ensures Be16(bat[..], BAT_LAST_ALLOCATED) == old(Be16(bat[..], BAT_LAST_ALLOCATED))
  {
    ghost var fat, blocks := FatView(bat[..], total), BlockView(image[..], total);
    for i := 0 to |order|
      invariant forall b :: 0 <= b < SYSTEM_BLOCKS ==> Block(image[..], b) == Block(old(image[..]), b)
      invariant FreeingAt(fat, order, i, FatView(bat[..], total))
      invariant ErasingAt(blocks, order, i, BlockView(image[..], total))
      invariant Be16(bat[..], BAT_LAST_ALLOCATED) == old(Be16(bat[..], BAT_LAST_ALLOCATED))
    {
      FreeingStep(fat, order, i, FatView(bat[..], total));
      assert order[..i + 1] == order[..i] + [order[i]];
      SetBatLink(bat, total, order[i], BAT_FREE);
      WriteData(image, total, order[i], Filled(BLOCK_SIZE, 0xFF));
    }
    assert order[..|order|] == order;
  }

  method ClearAndCommit(image: array<u8>, v: CardView, dir: array<u8>, bat: array<u8>, slot: nat)
    requires OpenView(image[..]) == Some(v) && dir.Length == BLOCK_SIZE == bat.Length && slot < DIR_ENTRIES
    requires image != dir && image != bat && dir != bat
    modifies image, dir, bat
    ensures Sealed(image[..]) && Block(image[..], 0) == Block(old(image[..]), 0)
    ensures CardOf(image[..])
      == old(Volume(FatView(bat[..], v.total), BlockView(image[..], v.total), DirView(dir[..])[slot := Vacant]))
    ensures TablesAfter(old(image[..]), Splice(old(dir[..]), slot * DENTRY_SIZE, Filled(DENTRY_SIZE, DENTRY_EMPTY)),
                        old(Be16(bat[..], BAT_LAST_ALLOCATED)), image[..])
  {
    assert SlotOf(Filled(DENTRY_SIZE, DENTRY_EMPTY)) == Vacant;
    WriteDentry(dir, slot, Filled(DENTRY_SIZE, DENTRY_EMPTY));
    ghost var newDir, newBat := dir[..], bat[..];
    Commit(image, v, dir, bat);
    CommittedReads(old(image[..]), newDir, newBat, image[..]);
    CommittedTables(old(image[..]), newDir, newBat, image[..]);
  }

  method RemoveEntry(image: array<u8>, v: CardView, dir: array<u8>, bat: array<u8>, order: seq<nat>, s: nat)
    requires OpenView(image[..]) == Some(v) && dir.Length == BLOCK_SIZE == bat.Length
    requires image != dir && image != bat && dir != bat && s < DIR_ENTRIES
    requires dir[..] == Block(image[..], v.dirBlock) && bat[..] == Block(image[..], v.batBlock)
    requires Live(CardOf(image[..]), s) && order == ChainAt(CardOf(image[..]), s)
    modifies image, dir, bat
    ensures Sealed(image[..]) && Block(image[..], 0) == Block(old(image[..]), 0)
    ensures Removes(old(CardOf(image[..])), s, CardOf(image[..]))
    ensures TablesAfter(old(image[..]), Splice(old(dir[..]), s * DENTRY_SIZE, Filled(DENTRY_SIZE, DENTRY_EMPTY)),
                        old(Be16(bat[..], BAT_LAST_ALLOCATED)), image[..])
  {
    hide OpenView, CardOf, FatView, BlockView, DirView, Block, Removes, ErasingAt, FreedFrom, Sealed, ChainOf;
    CardParts(image[..], v);
    LiveBelow(CardOf(image[..]), s, order);
    EraseChain(image, bat, v.total, order);
    SystemBlocksOpen(old(image[..]), image[..]);
    ghost var fat, blocks := FatView(bat[..], v.total), BlockView(image[..], v.total);
    ClearAndCommit(image, v, dir, bat, s);
    IsRemoval(old(CardOf(image[..])), s, fat, blocks);
  }

  lemma CardParts(image: seq<u8>, v: CardView)
    requires OpenView(image) == Some(v)
    ensures 64 <= v.total <= 2048 && |image| == v.total * BLOCK_SIZE
    ensures CardOf(image)
      == Volume(FatView(Block(image, v.batBlock), v.total), BlockView(image, v.total),
          DirView(Block(image, v.dirBlock)))
    ensures |CardOf(image).fat| == v.total - SYSTEM_BLOCKS
  {
  }

  lemma LiveBelow(v: Volume, s: nat, order: seq<nat>)
    requires Live(v, s) && order == ChainAt(v, s)
    ensures forall i :: 0 <= i < |order| ==> order[i] < |v.fat|
  {
  }

  lemma IsRemoval(v: Volume, s: nat, fat: Fat, blocks: seq<seq<u8>>)
    requires Live(v, s) && |v.blocks| == |v.fat| && FreedFrom(v.fat, ChainAt(v, s), fat)
    requires ErasingAt(v.blocks, ChainAt(v, s), |ChainAt(v, s)|, blocks)
    ensures Removes(v, s, Volume(fat, blocks, v.dir[s := Vacant]))
  {
    assert ChainAt(v, s)[..|ChainAt(v, s)|] == ChainAt(v, s);
  }

  /** Frees and erases the chain of the save that starts at `first`, clears its entry and seals both copies. */
  method Delete(image: array<u8>, first: nat) returns (rc: Status)
    requires first < 0x1_0000_0000
    modifies image
    ensures DeleteStep(old(image[..]), first, rc, image[..])
    ensures rc == Ok ==> DeletedTables(old(image[..]), first, image[..])
  {
    var view := OpenView(image[..]);
    if view.None? {
      return Unsupported;
    }
    var v := view.value;
    ghost var card := CardOf(image[..]);
    var dir := CopyTable(Block(image[..], v.dirBlock));
    var bat := CopyTable(Block(image[..], v.batBlock));
    var found := FindEntryAt(dir[..], bat[..], v.total, first, 0, card.blocks);
    if found.None? {
      return InvalidArg;
    }
    var count, order := WalkChain(bat[..], v.total, first);
    if count == 0 {
      order := [];
    }
    RemoveEntry(image, v, dir, bat, order, found.value);
    assert FirstStartsAt(card, first, 0, found.value);
    return Ok;
  }

  /** One extract: the named entry as the card holds it, then its blocks in chain order. */
  ghost predicate ExtractResult(image: seq<u8>, first: nat, blocks: nat, rc: Status, out: seq<u8>) {
    if blocks == 0 then rc == InvalidArg
    else if OpenView(image).None? then rc == Unsupported
    else
      var v := CardOf(image);
      if rc == Ok then exists s: nat :: FirstStartsAt(v, first, blocks, s) && Whole(v, s) && IsGciOf(out, SaveAt(v, s))
      else rc == InvalidArg && forall s: nat :: StartsAt(v, first, s) ==> v.dir[s].size != blocks
  }

  /** `out` is the save in .gci form, whatever its first-block field says. */
  ghost predicate IsGciOf(out: seq<u8>, save: Save) {
    |out| >= DENTRY_SIZE && Masked(out) == save.rest + Joined(save.data)
  }

  method CopyChain(image: array<u8>, total: nat, order: seq<nat>) returns (out: seq<u8>)
    requires SYSTEM_BLOCKS <= total <= 2048 && image.Length == total * BLOCK_SIZE
    requires forall i :: 0 <= i < |order| ==> order[i] < total - SYSTEM_BLOCKS
    ensures out == Joined(Read(BlockView(image[..], total), order))
  {
    ghost var blocks := BlockView(image[..], total);
    out := [];
    for i := 0 to |order|
      invariant out == Joined(Read(blocks, order[..i]))
    {
      assert order[..i + 1][..i] == order[..i];
      out := out + Block(image[..], order[i] + SYSTEM_BLOCKS);
    }
    assert order[..|order|] == order;
  }

  /** The .gci form of a live entry. */
  method ReadEntry(image: array<u8>, total: nat, d: seq<u8>, order: seq<nat>) returns (out: seq<u8>)
    requires SYSTEM_BLOCKS <= total <= 2048 && image.Length == total * BLOCK_SIZE && |d| == DENTRY_SIZE
    requires forall i :: 0 <= i < |order| ==> order[i] < total - SYSTEM_BLOCKS
    ensures IsGciOf(out, Save(Masked(d), Read(BlockView(image[..], total), order)))
  {
    var data := CopyChain(image, total, order);
    out := d + data;
    assert Masked(out) == Masked(d) + data;
  }

  /** Copies out the save that starts at `first` and has `blocks` blocks, as a .gci. */
  method Extract(image: array<u8>, first: nat, blocks: nat) returns (rc: Status, out: seq<u8>)
    requires first < 0x1_0000_0000
    ensures ExtractResult(image[..], first, blocks, rc, out)
  {
    out := [];
    if blocks == 0 {
      return InvalidArg, [];
    }
    var view := OpenView(image[..]);
    if view.None? {
      return Unsupported, [];
    }
    var v := view.value;
    ghost var card := CardOf(image[..]);
    var dir, bat := Block(image[..], v.dirBlock), Block(image[..], v.batBlock);
    var found := FindEntryAt(dir, bat, v.total, first, blocks, card.blocks);
    if found.None? {
      return InvalidArg, [];
    }
    var count, order := WalkChain(bat, v.total, first);
    var d := Dentry(dir, found.value);
    assert card.dir[found.value] == SlotOf(d);
    out := ReadEntry(image, v.total, d, order);
    assert FirstStartsAt(card, first, blocks, found.value) && Whole(card, found.value);
    assert SaveAt(card, found.value) == Save(Masked(d), Read(card.blocks, order));
    return Ok, out;
  }

  /* ---- Repair -------------------------------------------------------------------------------- */

  /** Copies the passing copy of a table over the failing one. */
  method RestoreCopy(image: array<u8>, total: nat, first: nat, valid0: bool, valid1: bool) returns (changed: bool)
    requires 64 <= total <= 2048 && image.Length == total * BLOCK_SIZE && 1 <= first < SYSTEM_BLOCKS - 1
    modifies image
    ensures changed <==> valid0 != valid1
    ensures !changed ==> image[..] == old(image[..])
    ensures BlockView(image[..], total) == old(BlockView(image[..], total))
    ensures forall b :: 0 <= b < SYSTEM_BLOCKS ==>
      Block(image[..], b) == if changed && b == first + 1 && valid0 then old(Block(image[..], first))
                             else if changed && b == first && valid1 then old(Block(image[..], first + 1))
                             else Block(old(image[..]), b)
  {
    if valid0 == valid1 {
      return false;
    }
    var good := if valid0 then first else first + 1;
    var bad := if valid0 then first + 1 else first;
    SystemWrite(image[..], total, bad, Block(image[..], good));
    WriteBytes(image, bad * BLOCK_SIZE, Block(image[..], good));
    return true;
  }

  /** A repaired table: its two copies both pass, and the one mounted is the one
      mounted before. */
  ghost predicate Restored(before: seq<u8>, after: seq<u8>) {
    && OpenView(before).Some? && OpenView(after).Some?
    && CardOf(after) == CardOf(before) && Block(after, 0) == Block(before, 0)
    && DirValid(Block(after, 1)) && DirValid(Block(after, 2)) && BatValid(Block(after, 3)) && BatValid(Block(after, 4))
  }

  /** Block `b` is a copy of a table that fails its checksum while the other copy passes. */
  ghost predicate Damaged(image: seq<u8>, b: nat)
    requires OpenView(image).Some?
  {
    || (b == 1 && !DirValid(Block(image, 1)) && DirValid(Block(image, 2)))
    || (b == 2 && DirValid(Block(image, 1)) && !DirValid(Block(image, 2)))
    || (b == 3 && !BatValid(Block(image, 3)) && BatValid(Block(image, 4)))
    || (b == 4 && BatValid(Block(image, 3)) && !BatValid(Block(image, 4)))
  }

  /** The other copy of the same table. */
  function Twin(b: nat): nat {
    if b % 2 == 1 then b + 1 else if b > 0 then b - 1 else 0
  }

  /** A damaged copy becomes its twin; every other system block, a copy that passes but is not mounted included, is as
      it was. */
  ghost predicate BlockRepaired(before: seq<u8>, after: seq<u8>, b: nat)
    requires OpenView(before).Some? && OpenView(after).Some?
  {
    && |after| == |before|
    && (b < SYSTEM_BLOCKS ==>
        Block(after, b) == if Damaged(before, b) then Block(before, Twin(b)) else Block(before, b))
  }

  /** Copies the passing copy of a table over a failing one, noting the block: the card's saves are exactly what they
      were, both copies of both tables pass their checksums, and a change is reported exactly when there was one. */
  method Repair(image: array<u8>) returns (rc: Status, changed: bool, notes: seq<nat>)
    modifies image
    ensures rc == if OpenView(old(image[..])).Some? then Ok else Unsupported
    ensures changed <==> image[..] != old(image[..])
    ensures rc == Ok ==> Restored(old(image[..]), image[..])
    ensures rc == Ok ==>
      forall b: nat {:trigger BlockRepaired(old(image[..]), image[..], b)} ::
        BlockRepaired(old(image[..]), image[..], b)
    ensures rc == Ok ==> forall b {:trigger b in notes} :: b in notes <==> Damaged(old(image[..]), b)
    ensures changed <==> notes != []
  {
    hide DirValid, BatValid, FatView, BlockView, DirView, HeaderValid, TotalBlocks, Block;
    notes := [];
    var view := OpenView(image[..]);
    if view.None? {
      return Unsupported, false, [];
    }
    var v := view.value;
    var dir0, dir1 := DirValid(Block(image[..], 1)), DirValid(Block(image[..], 2));
    var bat0, bat1 := BatValid(Block(image[..], 3)), BatValid(Block(image[..], 4));
    var dirChanged := RestoreCopy(image, v.total, DIR_BLOCK_FIRST, dir0, dir1);
    if dirChanged {
      notes := [if dir0 then DIR_BLOCK_FIRST + 1 else DIR_BLOCK_FIRST];
    }
    var batChanged := RestoreCopy(image, v.total, BAT_BLOCK_FIRST, bat0, bat1);
    if batChanged {
      notes := notes + [if bat0 then BAT_BLOCK_FIRST + 1 else BAT_BLOCK_FIRST];
    }
    changed := dirChanged || batChanged;
    assert dirChanged ==> DirValid(Block(image[..], 1)) && DirValid(Block(image[..], 2));
    assert batChanged ==> BatValid(Block(image[..], 3)) && BatValid(Block(image[..], 4));
    return Ok, changed, notes;
  }

  /* ---- Format -------------------------------------------------------------------------------- */

  function FormatHeader(total: nat, shiftJis: bool): Table {
    var h := Zeros(HEADER_SIZE_MBITS) + Be16Bytes(total / 16) + Be16Bytes(if shiftJis then 1 else 0)
             + Filled(BLOCK_SIZE - HEADER_ENCODING - 2, 0xFF);
    Splice(h, HEADER_CHECKSUM, SealBytes(h[..HEADER_CHECKSUM]))
  }

  function FormatDir(copy: nat): Table {
    SealDir(Splice(Filled(BLOCK_SIZE, 0xFF), DIR_COUNTER, Be16Bytes(copy)))
  }

  function FormatBat(total: nat, copy: nat): Table
    requires SYSTEM_BLOCKS <= total <= 2048
  {
    SealBat(Splice(Counted(Zeros(BLOCK_SIZE), copy, total - SYSTEM_BLOCKS), BAT_LAST_ALLOCATED,
        Be16Bytes(SYSTEM_BLOCKS - 1)))
  }

  method PutCopy(image: array<u8>, total: nat, copy: nat, dir: Table, bat: Table)
    requires SYSTEM_BLOCKS <= total && image.Length == total * BLOCK_SIZE && copy < 2
    modifies image
    ensures BlockView(image[..], total) == BlockView(old(image[..]), total)
    ensures Block(image[..], DIR_BLOCK_FIRST + copy) == dir && Block(image[..], BAT_BLOCK_FIRST + copy) == bat
    ensures forall b :: 0 <= b < SYSTEM_BLOCKS && b != DIR_BLOCK_FIRST + copy && b != BAT_BLOCK_FIRST + copy ==>
      Block(image[..], b) == Block(old(image[..]), b)
  {
    SystemWrite(image[..], total, DIR_BLOCK_FIRST + copy, dir);
    WriteBytes(image, (DIR_BLOCK_FIRST + copy) * BLOCK_SIZE, dir);
    SystemWrite(image[..], total, BAT_BLOCK_FIRST + copy, bat);
    WriteBytes(image, (BAT_BLOCK_FIRST + copy) * BLOCK_SIZE, bat);
  }

  /** Writes an empty card: the header, and both copies of an empty directory and table. */
  method Format(image: array<u8>, shiftJis: bool) returns (rc: Status)
    modifies image
    ensures rc == if TotalBlocks(image.Length) > 0 then Ok else InvalidArg
    ensures rc != Ok ==> image[..] == old(image[..])
    ensures rc == Ok ==> Formatted(image[..], TotalBlocks(image.Length), shiftJis)
  {
    var total := TotalBlocks(image.Length);
    if total == 0 {
      return InvalidArg;
    }
    forall i | 0 <= i < image.Length {
      image[i] := 0xFF;
    }
    ghost var blocks := BlockView(image[..], total);
    assert forall c :: 0 <= c < total - SYSTEM_BLOCKS ==> blocks[c] == Filled(BLOCK_SIZE, 0xFF);
    SystemWrite(image[..], total, 0, FormatHeader(total, shiftJis));
    WriteBytes(image, 0, FormatHeader(total, shiftJis));
    for copy := 0 to 2
      invariant BlockView(image[..], total) == blocks
      invariant Block(image[..], 0) == FormatHeader(total, shiftJis)
      invariant copy > 0 ==> Block(image[..], 1) == FormatDir(0) && Block(image[..], 3) == FormatBat(total, 0)
      invariant copy > 1 ==> Block(image[..], 2) == FormatDir(1) && Block(image[..], 4) == FormatBat(total, 1)
    {
      PutCopy(image, total, copy, FormatDir(copy), FormatBat(total, copy));
    }
    return Ok;
  }

  ghost predicate Formatted(image: seq<u8>, total: nat, shiftJis: bool) {
    && total == TotalBlocks(|image|) > 0
    && Block(image, 0) == FormatHeader(total, shiftJis)
    && Block(image, 1) == FormatDir(0) && Block(image, 2) == FormatDir(1)
    && Block(image, 3) == FormatBat(total, 0) && Block(image, 4) == FormatBat(total, 1)
    && forall c :: 0 <= c < total - SYSTEM_BLOCKS ==> BlockView(image, total)[c] == Filled(BLOCK_SIZE, 0xFF)
  }

  lemma FormatHeaderReads(total: nat, shiftJis: bool)
    requires total in {64, 128, 256, 512, 1024, 2048}
    ensures HeaderValid(FormatHeader(total, shiftJis), total)
  {
    hide WordSum, Checksum;
    var h := Zeros(HEADER_SIZE_MBITS) + Be16Bytes(total / 16) + Be16Bytes(if shiftJis then 1 else 0)
             + Filled(BLOCK_SIZE - HEADER_ENCODING - 2, 0xFF);
    var r := FormatHeader(total, shiftJis);
    SpliceFrame(h, HEADER_CHECKSUM, SealBytes(h[..HEADER_CHECKSUM]), 0, HEADER_CHECKSUM);
    assert r[HEADER_CHECKSUM..HEADER_CHECKSUM + 4] == SealBytes(h[..HEADER_CHECKSUM]);
    Be16Frame(h, HEADER_CHECKSUM, SealBytes(h[..HEADER_CHECKSUM]), HEADER_SIZE_MBITS);
    assert h[HEADER_SIZE_MBITS] == Be16Bytes(total / 16)[0] && h[HEADER_SIZE_MBITS + 1] == Be16Bytes(total / 16)[1];
  }

  lemma FormatDirReads(copy: nat)
    requires copy < 2
    ensures DirValid(FormatDir(copy)) && Be16(FormatDir(copy), DIR_COUNTER) == copy
    ensures forall s :: 0 <= s < DIR_ENTRIES ==> DirView(FormatDir(copy))[s] == Vacant
  {
    var empty: Table := Filled(BLOCK_SIZE, 0xFF);
    var d: Table := Splice(empty, DIR_COUNTER, Be16Bytes(copy));
    DirTrailerFrame(empty, DIR_COUNTER, Be16Bytes(copy));
    DirTrailerFrame(d, DIR_CHECKSUM, SealBytes(d[..DIR_CHECKSUM]));
    Be16Written(empty, DIR_COUNTER, copy);
    Be16Frame(d, DIR_CHECKSUM, SealBytes(d[..DIR_CHECKSUM]), DIR_COUNTER);
    SealedDirValid(d);
    EmptyDir();
  }

  lemma EmptyDir()
    ensures forall s :: 0 <= s < DIR_ENTRIES ==> DirView(Filled(BLOCK_SIZE, 0xFF))[s] == Vacant
  {
    var empty: Table := Filled(BLOCK_SIZE, 0xFF);
    forall s | 0 <= s < DIR_ENTRIES ensures DirView(empty)[s] == Vacant {
      assert Dentry(empty, s)[0] == 0xFF;
    }
  }

  lemma EmptyBat(total: nat)
    requires SYSTEM_BLOCKS <= total <= 2048
    ensures forall c :: 0 <= c < total - SYSTEM_BLOCKS ==> FatView(Zeros(BLOCK_SIZE), total)[c] == Free
  {
  }

  lemma FormatBatReads(total: nat, copy: nat)
    requires SYSTEM_BLOCKS <= total <= 2048 && copy < 2
    ensures BatValid(FormatBat(total, copy)) && Be16(FormatBat(total, copy), BAT_COUNTER) == copy
    ensures Be16(FormatBat(total, copy), BAT_FREE_BLOCKS) == total - SYSTEM_BLOCKS
    ensures FatView(FormatBat(total, copy), total) == FatView(Zeros(BLOCK_SIZE), total)
  {
    var b: Table := Counted(Zeros(BLOCK_SIZE), copy, total - SYSTEM_BLOCKS);
    var last := Be16Bytes(SYSTEM_BLOCKS - 1);
    CountedKeeps(Zeros(BLOCK_SIZE), total, copy, total - SYSTEM_BLOCKS);
    BatHeaderFrame(b, total, BAT_LAST_ALLOCATED, last);
    Be16Frame(b, BAT_LAST_ALLOCATED, last, BAT_COUNTER);
    Be16Frame(b, BAT_LAST_ALLOCATED, last, BAT_FREE_BLOCKS);
    SealBatKeeps(Splice(b, BAT_LAST_ALLOCATED, last), total, BAT_COUNTER);
    SealBatKeeps(Splice(b, BAT_LAST_ALLOCATED, last), total, BAT_FREE_BLOCKS);
  }
}
