/** Which of the two copies of each table a console mounts, told from the card's bytes. */
module GameCubeMount {
  import opened Bytes
  import opened FatVolume
  import opened GameCubeCard
  import opened GameCubeImage

  /** The two bytes at `at` as a signed number, the high byte first. */
  function Signed16(s: seq<u8>, at: nat): int
    requires at + 2 <= |s|
  {
    256 * (if s[at] >= 128 then s[at] as int - 256 else s[at] as int) + s[at + 1] as int
  }

  /** Block `b`'s update count: at its end but six in a directory, at its fifth byte in a block table. */
  function CountAt(image: seq<u8>, b: nat): int
    requires (b + 1) * 0x2000 <= |image|
  {
    Signed16(image, b * 0x2000 + if b <= 2 then 0x1FFA else 4)
  }

  /** The checksums of copy `b` agree with it. */
  predicate Passes(image: seq<u8>, b: nat)
    requires (b + 1) * BLOCK_SIZE <= |image|
  {
    if b <= 2 then DirValid(Block(image, b)) else BatValid(Block(image, b))
  }

  /** Of the copies in blocks `first` and the next, `b` is the one to mount: it passes, and when both do its count is
      not below the other's, the first copy's on a tie. */
  predicate Mounts(image: seq<u8>, first: nat, b: nat)
    requires (first + 2) * BLOCK_SIZE <= |image| && first <= b <= first + 1
  {
    && Passes(image, b)
    && (b == first && Passes(image, first + 1) ==> CountAt(image, first + 1) <= CountAt(image, first))
    && (b == first + 1 && Passes(image, first) ==> CountAt(image, first) < CountAt(image, first + 1))
  }

  lemma SignedIs(image: seq<u8>, b: nat, at: nat)
    requires (b + 1) * BLOCK_SIZE <= |image| && at + 2 <= BLOCK_SIZE
    ensures Signed16(image, b * 0x2000 + at) == SignedCounter(Be16(Block(image, b), at))
  {
  }

  /** Every readable card mounts so, and a card of a right size and header is readable exactly when each table has a
      copy to mount. */
  lemma MountedIff(image: seq<u8>)
    requires TotalBlocks(|image|) != 0
    ensures OpenView(image).Some? <==>
      && HeaderValid(Block(image, 0), TotalBlocks(|image|))
      && (Passes(image, 1) || Passes(image, 2)) && (Passes(image, 3) || Passes(image, 4))
    ensures OpenView(image).Some? ==>
      && Mounts(image, 1, OpenView(image).value.dirBlock) && Mounts(image, 3, OpenView(image).value.batBlock)
  {
    hide DirValid, BatValid, Block, HeaderValid;
    SignedIs(image, 1, 0x1FFA);
    SignedIs(image, 2, 0x1FFA);
    SignedIs(image, 3, 4);
    SignedIs(image, 4, 4);
  }

  /** There is one copy to mount. */
  lemma MountsOnce(image: seq<u8>, first: nat, a: nat, b: nat)
    requires (first + 2) * BLOCK_SIZE <= |image| && first <= a <= first + 1 && first <= b <= first + 1
    requires Mounts(image, first, a) && Mounts(image, first, b)
    ensures a == b
  {
  }

  /** The sizes a card can have: 64 blocks of 8 KiB, doubled up to five times. */
  lemma SizesIff(size: nat)
    ensures TotalBlocks(size) != 0 <==>
      size in {0x8_0000, 0x10_0000, 0x20_0000, 0x40_0000, 0x80_0000, 0x100_0000}
    ensures TotalBlocks(size) != 0 ==> TotalBlocks(size) * 0x2000 == size
  {
  }

  /** Where the table that block `b` holds a copy of is mounted. */
  function MountedOf(image: seq<u8>, b: nat): nat
    requires OpenView(image).Some?
  {
    if b <= 2 then OpenView(image).value.dirBlock else OpenView(image).value.batBlock
  }

  /** A console rewrote block `b`, a copy not mounted, with the next count; the rest of the card is as it was. */
  ghost predicate Rewritten(before: seq<u8>, after: seq<u8>, b: nat) {
    && OpenView(before).Some? && |after| == |before| && 1 <= b <= 4 && b != MountedOf(before, b)
    && (forall k: nat {:trigger Block(after, k)} :: k < OpenView(before).value.total && k != b ==>
        Block(after, k) == Block(before, k))
    && Passes(after, b)
    && var last := CountAt(before, MountedOf(before, b));
       CountAt(after, b) == if last == 0x7FFF then -0x8000 else last + 1
  }

  lemma CountKept(before: seq<u8>, after: seq<u8>, k: nat)
    requires |after| == |before| && (k + 1) * BLOCK_SIZE <= |before| && Block(after, k) == Block(before, k)
    ensures CountAt(after, k) == CountAt(before, k) && (Passes(after, k) <==> Passes(before, k))
  {
    var at := if k <= 2 then 0x1FFA else 4;
    SignedIs(before, k, at);
    SignedIs(after, k, at);
  }

  /** Such a card reads as the copy rewritten exactly while the count before was not the last, 0x7FFF; after that
      one it goes on reading as it did. The other table stays mounted where it was. */
  lemma RewrittenMounts(before: seq<u8>, after: seq<u8>, b: nat)
    requires Rewritten(before, after, b)
    ensures OpenView(after).Some? && OpenView(after).value.total == OpenView(before).value.total
    ensures var m := MountedOf(before, b);
            MountedOf(after, b) == if CountAt(before, m) != 0x7FFF then b else m
    ensures var other := if b <= 2 then 3 else 1; MountedOf(after, other) == MountedOf(before, other)
  {
    hide OpenView, Block, DirValid, BatValid, HeaderValid, CountAt;
    MountedIff(before);
    MountedIff(after);
    assert Block(after, 0) == Block(before, 0);
    forall k: nat | 1 <= k <= 4 && k != b
      ensures CountAt(after, k) == CountAt(before, k) && (Passes(after, k) <==> Passes(before, k))
    {
      CountKept(before, after, k);
    }
  }

  lemma TablesRead(image: seq<u8>, d: nat, t: nat)
    requires OpenView(image).Some? && MountedOf(image, 1) == d && MountedOf(image, 3) == t
    ensures 1 <= d <= 2 && 3 <= t <= 4
    ensures var total := OpenView(image).value.total;
      CardOf(image) == Volume(FatView(Block(image, t), total), BlockView(image, total), DirView(Block(image, d)))
  {
  }

  lemma DataKept(before: seq<u8>, after: seq<u8>, b: nat)
    requires Rewritten(before, after, b)
    ensures BlockView(after, OpenView(before).value.total) == BlockView(before, OpenView(before).value.total)
  {
    hide OpenView;
    var total := OpenView(before).value.total;
    forall c: nat | c < total - SYSTEM_BLOCKS ensures BlockView(after, total)[c] == BlockView(before, total)[c] {
      assert Block(after, c + SYSTEM_BLOCKS) == Block(before, c + SYSTEM_BLOCKS);
    }
  }

  /** What is on the card then: what the console wrote, in the table that block holds a copy of. */
  lemma RewrittenReads(before: seq<u8>, after: seq<u8>, b: nat)
    requires Rewritten(before, after, b) && CountAt(before, MountedOf(before, b)) != 0x7FFF
    ensures OpenView(after).Some?
    ensures CardOf(after) == if b <= 2 then CardOf(before).(dir := DirView(Block(after, b)))
                             else CardOf(before).(fat := FatView(Block(after, b), OpenView(before).value.total))
  {
    hide OpenView, CardOf, BlockView, FatView, DirView, CountAt, Passes;
    RewrittenMounts(before, after, b);
    var d, t := MountedOf(before, 1), MountedOf(before, 3);
    TablesRead(before, d, t);
    TablesRead(after, MountedOf(after, 1), MountedOf(after, 3));
    DataKept(before, after, b);
    if b <= 2 {
      assert Block(after, t) == Block(before, t);
    } else {
      assert Block(after, d) == Block(before, d);
    }
  }

  lemma NextSigned(c: nat)
    requires c < 0x1_0000
    ensures SignedCounter(NextCount(c)) == if SignedCounter(c) == 0x7FFF then -0x8000 else SignedCounter(c) + 1
  {
  }

  lemma CommittedAt(before: seq<u8>, dir: Table, bat: Table, after: seq<u8>, b: nat)
    requires OpenView(before).Some? && Committed(before, dir, bat, after) && 1 <= b <= 4
    ensures var at := if b <= 2 then DIR_COUNTER else BAT_COUNTER;
            Be16(Block(after, b), at) == NextCount(Be16(Block(before, MountedOf(before, b)), at))
  {
    hide DirView, FatView, BlockView, DirValid, BatValid, CommittedDir, CommittedBat, NextCount, Be16;
    var v := OpenView(before).value;
    if b <= 2 {
      CommittedDirView(dir, Block(before, v.dirBlock));
    } else {
      CommittedBatView(bat, Block(before, v.batBlock), v.total);
    }
  }

  /** A commit counts one on in all four copies, wrapping round as the bytes do. */
  lemma CommittedCounts(before: seq<u8>, dir: Table, bat: Table, after: seq<u8>, b: nat)
    requires OpenView(before).Some? && Committed(before, dir, bat, after) && 1 <= b <= 4
    ensures var last := CountAt(before, MountedOf(before, b));
            CountAt(after, b) == if last == 0x7FFF then -0x8000 else last + 1
  {
    hide DirView, FatView, BlockView, CommittedDir, CommittedBat, NextCount, Be16, Signed16, SignedCounter, Block;
    var m, at := MountedOf(before, b), if b <= 2 then 0x1FFA else 4;
    CommittedAt(before, dir, bat, after, b);
    SignedIs(after, b, at);
    SignedIs(before, m, at);
    NextSigned(Be16(Block(before, m), at));
  }

  /** And changes nothing else in them but the checksums and, in the block tables, the count of free blocks. */
  lemma CommittedRest(before: seq<u8>, dir: Table, bat: Table, after: seq<u8>)
    requires OpenView(before).Some? && Committed(before, dir, bat, after)
    ensures Block(after, 1)[..0x1FFA] == dir[..0x1FFA] == Block(after, 2)[..0x1FFA]
    ensures Block(after, 3)[8..] == bat[8..] == Block(after, 4)[8..]
  {
    hide DirView, FatView, BlockView;
  }
}
