/** Saturn saves byte by byte: which files are single saves, what extraction writes, and how a save's blocks begin. */
module SaturnBytes {
  import opened Bytes
  import opened Status
  import opened SaturnVolume
  import opened SaturnScan
  import opened SaturnCard
  import opened Text
  import SaturnRuns
  import Chains

  function Number(s: seq<u8>, at: nat): nat
    requires at + 4 <= |s|
  {
    0x100_0000 * s[at] as int + 0x1_0000 * s[at + 1] as int + 0x100 * s[at + 2] as int + s[at + 3] as int
  }

  /** Which bytes are a .BUP of one save: "Vmem", a name, and as much data after 64 bytes as byte 44 says. */
  lemma BupIff(bup: seq<u8>, s: Save)
    ensures BupSave(bup) == Some(s) <==>
      && |bup| >= 64 && bup[0] == 0x56 && bup[1] == 0x6D && bup[2] == 0x65 && bup[3] == 0x6D && bup[16] != 0
      && |bup| == 64 + Number(bup, 44)
      && s == Save(bup[16..27], bup[39], bup[28..38], bup[40..44], bup[64..])
  {
    if |bup| >= 64 {
      assert bup[..4] == BUP_MAGIC <==> bup[0] == 0x56 && bup[1] == 0x6D && bup[2] == 0x65 && bup[3] == 0x6D by {
        assert forall k :: 0 <= k < 4 ==> bup[..4][k] == bup[k];
      }
    }
  }

  /** The header extraction writes, byte for byte: the date stands twice, the block count once, and what is between is
      zero. */
  lemma BupIs(s: Save, blocks: nat)
    requires SaveShaped(s)
    ensures var b := BupOf(s, blocks);
      && |b| == 64 + |s.data| && b[..4] == [0x56, 0x6D, 0x65, 0x6D]
      && b[16..27] == s.name && b[28..38] == s.comment && b[39] == s.language
      && b[40..44] == s.date == b[52..56] && Number(b, 44) == |s.data|
      && 256 * b[48] as int + b[49] as int == blocks % 0x1_0000 && b[64..] == s.data
      && forall k {:trigger b[k]} :: 4 <= k < 16 || k in {27, 38, 50, 51} || 56 <= k < 64 ==> b[k] == 0
  {
    var b, size, count := BupOf(s, blocks), Be32Bytes(|s.data|), Be16Bytes(blocks);
    assert b[..4] == BUP_MAGIC && b[16..27] == s.name && b[28..38] == s.comment && b[64..] == s.data;
    assert b[40..44] == s.date && b[52..56] == s.date;
    assert b[44] == size[0] && b[45] == size[1] && b[46] == size[2] && b[47] == size[3];
    assert b[48] == count[0] && b[49] == count[1];
    assert Number(b, 44) == Be32(size, 0);
  }

  /** The bytes of a save on a volume, from its name on: the fields, two bytes for every block but the first, two zeros,
      and the data. */
  lemma StreamIs(s: Save, list: seq<nat>)
    requires SaveShaped(s)
    ensures var t := StreamOf(s, list);
      && |t| == 32 + 2 * |list| + |s.data| && t[..11] == s.name && t[11] == s.language && t[12..22] == s.comment
      && t[22..26] == s.date && Number(t, 26) == |s.data|
      && t[30 + 2 * |list|] == 0 == t[31 + 2 * |list|] && t[32 + 2 * |list|..] == s.data
    ensures forall i {:trigger list[i]} :: 0 <= i < |list| && list[i] < 0x1_0000 ==>
      256 * StreamOf(s, list)[30 + 2 * i] as int + StreamOf(s, list)[31 + 2 * i] as int == list[i]
  {
    var f, e, size := Fields(s), Entries(list), Be32Bytes(|s.data|);
    var t := StreamOf(s, list);
    assert t == f + e + [0, 0] + s.data;
    assert t[..30] == f && f[..11] == s.name && f[11] == s.language && f[12..22] == s.comment && f[22..26] == s.date;
    assert t[..11] == f[..11] && t[12..22] == f[12..22] && t[22..26] == f[22..26];
    assert t[26] == size[0] && t[27] == size[1] && t[28] == size[2] && t[29] == size[3];
    assert Number(t, 26) == Be32(size, 0);
    forall i | 0 <= i < |list| && list[i] < 0x1_0000
      ensures 256 * t[30 + 2 * i] as int + t[31 + 2 * i] as int == list[i]
    {
      EntryOf(list, i);
      assert t[30 + 2 * i] == e[2 * i] && t[31 + 2 * i] == e[2 * i + 1];
    }
  }

  lemma {:induction false} RestIs(stream: seq<u8>, w: nat, i: nat)
    requires w >= 1
    ensures Rest(stream, w, i) == if i * w <= |stream| then stream[i * w..] else []
  {
    if i > 0 {
      RestIs(stream, w, i - 1);
      assert i * w == (i - 1) * w + w;
    }
  }

  lemma BlockAt(i: nat, rest: seq<u8>, bs: nat, k: nat)
    requires bs >= 64 && k < bs
    ensures BlockOf(MarkOf(i), rest, bs)[k] == if k < 4 then (if i == 0 && k == 0 then 0x80 else 0)
                                               else if k - 4 < |rest| then rest[k - 4] else 0
  {
    assert Be32Bytes(MARK) == [0x80, 0, 0, 0] && Be32Bytes(0) == [0, 0, 0, 0];
  }

  /** Block `i` of a save: its mark, 0x80 in the first byte of the first block and zeros in every other, and the bytes
      of the stream that are its turn, with zeros where the stream has ended. */
  lemma BlockIs(stream: seq<u8>, bs: nat, i: nat, at: nat, k: nat)
    requires bs >= 64 && k < bs && at == i * (bs - 4)
    ensures BlockOf(MarkOf(i), Rest(stream, bs - 4, i), bs)[k]
         == if k < 4 then (if i == 0 && k == 0 then 0x80 else 0)
            else if at + k - 4 < |stream| then stream[at + k - 4] else 0
  {
    hide BlockOf, MarkOf, Rest;
    RestIs(stream, bs - 4, i);
    BlockAt(i, Rest(stream, bs - 4, i), bs, k);
  }

  /** Where a save's fields lie in its archive block, the first of its blocks. */
  lemma ArchiveIs(v: seq<seq<u8>>, bs: nat, a: nat, list: seq<nat>)
    requires Shaped(v, bs) && IsList(v, bs, a, list)
    ensures var s, b := SaveIn(v, bs, a, list), v[a];
      && s.name == b[4..15] && s.language == b[15] && s.comment == b[16..26] && s.date == b[26..30]
      && |s.data| == Number(b, 30)
    ensures forall x: nat {:trigger IsArchive(v, bs, x)} :: 2 <= x < |v| ==>
      (IsArchive(v, bs, x) <==> v[x][0] == 0x80 && v[x][1] == 0 && v[x][2] == 0 && v[x][3] == 0)
  {
    hide Stream;
  }
  /** The volumes there are: internal memory of 32 KiB or 4 MiB in blocks of 64 bytes, carts of half, one or two MiB in
      blocks of 512, and of 4 MiB in blocks of 1024. */
  lemma GeometryIff(bs: nat, blocks: nat)
    ensures Geometry(bs, blocks) <==>
      || (bs == 64 && bs * blocks in {0x8000, 0x40_0000})
      || (bs == 512 && bs * blocks in {0x8_0000, 0x10_0000, 0x20_0000})
      || (bs == 1024 && bs * blocks == 0x40_0000)
  {
  }

  /** What a format fills the first block with, over and over. */
  lemma FormatMagicIs()
    ensures SaturnRuns.FORMAT_MAGIC == Letters("BackUpRam Format")
  {
  }
}
