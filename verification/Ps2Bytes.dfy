/** PS2 cards byte by byte: what the bytes of a table cell and of a directory entry say, what an inject and a delete
    write to an entry, and what a formatted card holds. */
module Ps2Bytes {
  import opened Bytes
  import opened Status
  import opened Chains
  import opened Division
  import opened Ps2Fat
  import opened Ps2Read
  import opened Ps2Save
  import opened Ps2Grow
  import opened Ps2Build
  import opened Ps2Delete
  import opened Ps2Format

  /** A cluster's four bytes from `at`, the lowest first, as a number. */
  function Number(s: seq<u8>, at: nat): nat
    requires at + 4 <= |s|
  {
    s[at] as int + 0x100 * s[at + 1] as int + 0x1_0000 * s[at + 2] as int + 0x100_0000 * s[at + 3] as int
  }

  /** What the four bytes of a cell say: below 0x8000_0000 it is free, 0xFFFF_FFFF ends a chain, and any other number
      is the next cell with the top bit set. */
  ghost predicate Says(b: seq<u8>, at: nat, link: Link)
    requires at + 4 <= |b|
  {
    && (link == Free <==> b[at + 3] < 0x80)
    && (link == End <==> b[at] == 0xFF && b[at + 1] == 0xFF && b[at + 2] == 0xFF && b[at + 3] == 0xFF)
    && (forall n: nat {:trigger Next(n)} :: link == Next(n) ==> Number(b, at) == 0x8000_0000 + n)
    && link != Broken
  }

  lemma NumberIs(b: seq<u8>, at: nat)
    requires at + 4 <= |b|
    ensures Number(b, at) == Le32(b, at)
  {
  }

  lemma LinkSays(b: seq<u8>, at: nat)
    requires at + 4 <= |b|
    ensures Says(b, at, LinkOf(Le32(b, at)))
  {
    assert Le32(b, at) == Number(b, at);
  }

  lemma Parts(n: nat, q: nat, r: nat, per: nat)
    requires r < per && n == q * per + r
    ensures Div(n, per) == q && Mod(n, per) == r
  {
    DivIsDivision(n, per);
    OneDivision(n / per, n % per, q, r, per);
  }

  /** A cell reads through two tables, each `per` numbers a cluster: the superblock's table `slot` gives at place `t`
      the cluster of the table that has the cell at place `p`. It is broken exactly when the superblock lists no such
      table, or a table lies past the card. */
  lemma CellReads(c: Card, g: Geometry, per: nat, slot: nat, t: nat, p: nat)
    requires Shaped(c, g) && g.cs == 4 * per && t < per && p < per
    ensures var link := CellLink(c, g, (slot * per + t) * per + p);
      if slot >= 32 || g.ifc[slot] >= g.clusters || Number(c[g.ifc[slot]], 4 * t) >= g.clusters
      then link == Broken
      else Says(c[Number(c[g.ifc[slot]], 4 * t)], 4 * p, link)
  {
    hide Says, LinkOf, Number, Le32;
    assert per == PerTable(g);
    Parts((slot * per + t) * per + p, slot * per + t, p, per);
    Parts(slot * per + t, slot, t, per);
    if slot < 32 && g.ifc[slot] < g.clusters {
      NumberIs(c[g.ifc[slot]], 4 * t);
      var table := Number(c[g.ifc[slot]], 4 * t);
      if table < g.clusters {
        LinkSays(c[table], 4 * p);
      }
    }
  }

  /** Where an entry's fields lie: live, folder and file are one bit each of its first two bytes. */
  lemma EntryIs(e: Entry)
    ensures Live(e) <==> e[1] >= 0x80
    ensures IsDir(e) <==> e[0] as int / 0x20 % 2 == 1
    ensures IsFile(e) <==> e[0] as int / 0x10 % 2 == 1
    ensures Length(e) == Number(e, 4) && Cluster(e) == Number(e, 0x10) && Name(e) == e[0x40..0x60]
  {
    assert Mode(e) == e[0] as int + 0x100 * e[1] as int;
    assert Mode(e) / 0x20 == e[0] as int / 0x20 + 8 * e[1] as int;
    assert Mode(e) / 0x10 == e[0] as int / 0x10 + 0x10 * e[1] as int;
  }

  /** `now` is `was` with the number `n` written at `at`. */
  ghost predicate Put(was: Entry, now: Entry, at: nat, n: nat)
    requires at + 4 <= 512
  {
    Number(now, at) == n % 0x1_0000_0000 && forall k {:trigger now[k]} :: 0 <= k < 512 && !(at <= k < at + 4) ==>
      now[k] == was[k]
  }

  lemma Le32Put(e: Entry, at: nat, n: nat)
    requires at + 4 <= 512
    ensures Put(e, WithLe32(e, at, n), at, n)
  {
    var now := WithLe32(e, at, n);
    assert now[at..at + 4] == Le32Bytes(n);
    assert forall k :: 0 <= k < 4 ==> now[at + k] == Le32Bytes(n)[k];
    assert Number(now, at) == Le32(Le32Bytes(n), 0);
  }

  /** What an inject writes to the folder's entry in the root: how many entries it has, the cluster it starts at, and no
      place in a parent. */
  lemma RootEntryIs(save: Save, first: nat)
    ensures var e := RootEntry(save, first);
      && Number(e, 4) == (|save.files| + 2) % 0x1_0000_0000 && Number(e, 0x10) == first % 0x1_0000_0000
      && Number(e, 0x14) == 0
      && forall k {:trigger e[k]} :: 0 <= k < 512 && !(4 <= k < 8) && !(0x10 <= k < 0x18) ==> e[k] == save.entry[k]
  {
    hide WithLe32;
    var counted := WithLe32(save.entry, LENGTH, |save.files| + 2);
    var placed := WithLe32(counted, CLUSTER, first);
    Le32Put(save.entry, LENGTH, |save.files| + 2);
    Le32Put(counted, CLUSTER, first);
    Le32Put(placed, PARENT_INDEX, 0);
  }

  /** The folder's own first entry gets its slot in the root, and a file's entry the cluster its bytes start at. */
  lemma InnerEntriesAre(save: Save, slot: nat, f: File, first: nat)
    ensures Put(save.self, SelfEntry(save, slot), 0x14, slot) && Put(f.entry, FileEntry(f, first), 0x10, first)
  {
    Le32Put(save.self, PARENT_INDEX, slot);
    Le32Put(f.entry, CLUSTER, first);
  }

  /** What a delete writes to the folder's entry: it clears the live bit, and changes nothing else. */
  lemma ClearedIs(e: Entry)
    requires e[1] >= 0x80
    ensures Live(e) && Cleared(e) == e[1 := (e[1] as int - 0x80) as u8]
  {
    assert Mode(e) == e[0] as int + 0x100 * e[1] as int;
    var mode := Le16Bytes(Mode(e) - 0x8000);
    assert mode == [e[0], (e[1] as int - 0x80) as u8];
  }

  /** Byte `i` of cluster `k` of a file: the file's own, and 0xFF where it has ended. */
  lemma {:induction false} ChunkIs(bytes: seq<u8>, cs: nat, k: nat, i: nat)
    requires cs >= 1 && k < |Chunks(bytes, cs, PAD)| && i < cs
    ensures Chunks(bytes, cs, PAD)[k][i] == if k * cs + i < |bytes| then bytes[k * cs + i] else 0xFF
    decreases k
  {
    if k > 0 && |bytes| > cs {
      assert Chunks(bytes, cs, PAD)[k] == Chunks(bytes[cs..], cs, PAD)[k - 1];
      ChunkIs(bytes[cs..], cs, k - 1, i);
      assert k * cs == (k - 1) * cs + cs;
    }
  }

  /** The card a format lays out: 8192 clusters of 1024 bytes, the table of tables at cluster 8, 8135 data clusters from
      cluster 41 on, the first of them the root's. */
  lemma LayoutIs()
    ensures var g := Layout();
      && g.cs == 1024 && g.clusters == 8192 && g.offset == 41 && g.end == 8135 && g.root == 0
      && g.ifc[0] == 8 && forall k {:trigger g.ifc[k]} :: 1 <= k < 32 ==> g.ifc[k] == 0
  {
  }

  /** The tables are clusters 9 on, and every cell but the first and those past the data is 0x7FFF_FFFF, which is
      free. */
  lemma TablesAre(c: Ps2Fat.Card, t: nat, n: nat)
    requires Tables(c) && t < 32 && n < 8192
    ensures |c[8]| == 1024 && Number(c[8], 4 * t) == 9 + t
    ensures |c[9 + n / 256]| == 1024
    ensures Number(c[9 + n / 256], 4 * (n % 256)) == if n == 0 || n >= 8135 then 0xFFFF_FFFF else 0x7FFF_FFFF
  {
    NumberIs(c[8], 4 * t);
    var k := 9 + n / 256;
    assert TableCluster(c[k], k);
    NumberIs(c[k], 4 * (n % 256));
    assert 256 * (k - 9) + n % 256 == n;
    assert CellValue(256 * (k - 9) + n % 256) == CellValue(n);
  }

  /** An entry a format writes, byte for byte: its kind, its length, the date twice, its name, and zeros. */
  lemma DirEntryIs(mode: nat, length: nat, tod: seq<u8>, name: seq<u8>)
    requires |tod| == 8 && |name| <= 32 && mode < 0x1_0000 && length < 0x1_0000_0000
    ensures var e := Ps2Format.DirEntry(mode, length, tod, name);
      && e[0] as int + 0x100 * e[1] as int == mode && Number(e, 4) == length && e[8..16] == tod == e[24..32]
      && e[64..64 + |name|] == name
      && forall k {:trigger e[k]} :: 2 <= k < 4 || 16 <= k < 24 || 32 <= k < 64 || 64 + |name| <= k < 512 ==> e[k] == 0
  {
    var e0 := Splice(Zeros(512), 0, Le16Bytes(mode));
    var e1 := Splice(e0, 8, tod);
    var e2 := Splice(e1, 24, tod);
    var e3 := Splice(e2, 64, name);
    var e := Ps2Format.DirEntry(mode, length, tod, name);
    Le32Put(e3, 4, length);
    assert e0[0..2] == Le16Bytes(mode) && e0[0] == Le16Bytes(mode)[0] && e0[1] == Le16Bytes(mode)[1];
    assert e[8..16] == e1[8..16] && e[24..32] == e2[24..32] && e[64..64 + |name|] == e3[64..64 + |name|];
  }

  /** The root as a format leaves it: a live folder of two entries named ".", and its parent named "..". */
  lemma RootIs(tod: seq<u8>)
    requires |tod| == 8
    ensures RootCluster(tod)[..512] == Ps2Format.DirEntry(0x8427, 2, tod, [0x2E])
    ensures RootCluster(tod)[512..] == Ps2Format.DirEntry(0xA426, 0, tod, [0x2E, 0x2E])
  {
  }
}
