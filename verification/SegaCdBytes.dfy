/** A Sega CD volume byte by byte: where its counts, entries and saves lie, what a format writes, and which files are
    single saves. */
module SegaCdBytes {
  import opened Bytes
  import opened Status
  import opened Text
  import opened SegaCdBlock
  import opened SegaCdVolume
  import opened SegaCdUnit
  import opened SegaCdLayout
  import opened SegaCdCard
  import opened SegaCdExtract

  function Number(s: seq<u8>, at: nat): nat
    requires at + 2 <= |s|
  {
    256 * s[at] as int + s[at + 1] as int
  }

  /** Three of the four numbers at `at` are `x`. */
  predicate Agreed(s: seq<u8>, at: nat, x: nat)
    requires at + 8 <= |s|
  {
    var a, b, c, d := Number(s, at) == x, Number(s, at + 2) == x, Number(s, at + 4) == x, Number(s, at + 6) == x;
    (a && b && c) || (a && b && d) || (a && c && d) || (b && c && d)
  }

  lemma CountIff(s: seq<u8>, at: nat, x: nat)
    requires at + 8 <= |s|
    ensures Count(s, at) == Some(x) <==> Agreed(s, at, x)
  {
    CountStands(s, at, x);
    AgreeFour(s, at, x);
    assert Copy(s, at, 0) == Number(s, at) && Copy(s, at, 1) == Number(s, at + 2);
    assert Copy(s, at, 2) == Number(s, at + 4) && Copy(s, at, 3) == Number(s, at + 6);
  }

  /** The sizes of a volume: 8 KiB, doubled up to six times. */
  predicate HasSize(v: Volume) {
    |v| in {0x2000, 0x4000, 0x8000, 0x1_0000, 0x2_0000, 0x4_0000, 0x8_0000}
  }

  /** The last block but 48 bytes holds the free count four times, and then the count of files. */
  lemma CountsIff(v: Volume, files: nat, free: nat)
    ensures Counts(v) == Some((files, free)) <==>
      && HasSize(v) && Agreed(v, |v| - 48, free) && Agreed(v, |v| - 40, files) && (files + 1) / 2 + 2 <= |v| / 64
  {
    hide Count;
    CountIff(v, |v| - 48, free);
    CountIff(v, |v| - 40, files);
  }

  /** Entry `i` of the directory: blocks down from the last but one decode to two entries each, the second first. */
  lemma SlotIs(code: Code, v: Volume, i: nat, raw: seq<u8>)
    requires 64 * (i / 2) + 128 <= |v|
    ensures var at := |v| - 128 - 64 * (i / 2);
      var p := code.decode(v[at..at + 64]);
      Slot(code, v, i) == Some(raw) <==> p.Some? && raw == if i % 2 == 0 then p.value[16..] else p.value[..16]
  {
    var at := |v| - 128 - 64 * (i / 2);
    assert v[at..at + 64] == DirBlock(v, i / 2);
    match code.decode(v[at..at + 64]) {
      case None =>
      case Some(p) => assert p[16..32] == p[16..] && p[0..16] == p[..16];
    }
  }

  /** An entry gives the name, whether the save is protected, its first block and its blocks. */
  predicate Names(raw: seq<u8>, s: Save, start: nat) {
    && |raw| == 16 && raw[..11] == s.name && raw[11] == s.flag && Number(raw, 12) == start
    && 64 * Number(raw, 14) == |s.data|
  }

  ghost predicate SaveLies(code: Code, v: Volume, saves: seq<Save>, i: nat) {
    && i < |saves| && 64 * (i / 2) + 128 <= |v| && 64 * Start(saves, i) + |saves[i].data| <= |v|
    && Slot(code, v, i).Some? && Names(Slot(code, v, i).value, saves[i], Start(saves, i))
    && saves[i].data == v[64 * Start(saves, i)..64 * Start(saves, i) + |saves[i].data|]
    && saves[i].data != [] && (saves[i].flag != 0 ==> AllDecode(code, saves[i].data))
  }

  /** What it takes for a volume to hold saves: a size, counts that agree, as many saves as the file count, named and
      one after another from block 1, and room left for the directory and, when it is full, a block more. */
  ghost predicate IsVolume(code: Code, v: Volume, saves: seq<Save>) {
    && HasSize(v) && Agreed(v, |v| - 40, |saves|)
    && (exists free {:trigger Agreed(v, |v| - 48, free)} :: Agreed(v, |v| - 48, free))
    && (|saves| + 1) / 2 + 2 <= |v| / 64
    && (forall i: nat {:trigger SaveLies(code, v, saves, i)} :: i < |saves| ==> SaveLies(code, v, saves, i))
    && End(saves) + (if |saves| % 2 == 0 then 1 else 0) + (|saves| + 1) / 2 + 1 <= |v| / 64
  }

  lemma LiesIff(code: Code, v: Volume, saves: seq<Save>, i: nat)
    requires i < |saves| && (|saves| + 1) / 2 + 2 <= |v| / 64
    ensures SaveLies(code, v, saves, i) <==>
      Sound(code, saves[i]) && SlotHolds(code, v, saves, i) && DataAt(v, saves, i)
  {
    assert Start(saves, i + 1) == Start(saves, i) + Len(saves[i]);
  }

  lemma HoldsIff(code: Code, v: Volume, saves: seq<Save>)
    ensures Holds(code, v, saves) <==> IsVolume(code, v, saves)
  {
    hide SaveLies, Sound, SlotHolds, DataAt, Agreed, Start, Counts;
    if Holds(code, v, saves) {
      CountsIff(v, |saves|, Counts(v).value.1);
      forall i: nat | i < |saves| ensures SaveLies(code, v, saves, i) {
        assert Sound(code, saves[i]) && SlotHolds(code, v, saves, i) && DataAt(v, saves, i);
        LiesIff(code, v, saves, i);
      }
    }
    if IsVolume(code, v, saves) {
      var free :| Agreed(v, |v| - 48, free);
      CountsIff(v, |saves|, free);
      forall i: nat | i < |saves|
        ensures Sound(code, saves[i]) && SlotHolds(code, v, saves, i) && DataAt(v, saves, i)
      {
        assert SaveLies(code, v, saves, i);
        LiesIff(code, v, saves, i);
      }
    }
  }

  /* ---- Units ------------------------------------------------------------------------------------- */

  /** Which bytes are the unit of a save: "SCDU", the name, whether it is protected, its blocks, two bytes, and the
      blocks, at least one, which decode when it is protected. */
  lemma UnitIff(code: Code, unit: seq<u8>, s: Save)
    ensures UnitSave(code, unit) == Some(s) <==>
      && |unit| >= 84 && unit[0] == 0x53 && unit[1] == 0x43 && unit[2] == 0x44 && unit[3] == 0x55
      && |unit| == 20 + 64 * Number(unit, 16) && s == Save(unit[4..15], unit[15], unit[20..])
      && (unit[15] != 0 ==> AllDecode(code, unit[20..]))
  {
    if |unit| >= 84 {
      assert unit[..4] == MAGIC <==> unit[0] == 0x53 && unit[1] == 0x43 && unit[2] == 0x44 && unit[3] == 0x55 by {
        assert forall k :: 0 <= k < 4 ==> unit[..4][k] == unit[k];
      }
    }
  }

  /* ---- A formatted volume -------------------------------------------------------------------------- */

  /** A canonical volume with no saves: zeros, and in the last block eleven underscores, 64, the counts and the
      signature. */
  lemma FormatIs(code: Code, v: Volume)
    requires Canonical(code, v, [])
    ensures forall p {:trigger v[p]} :: 0 <= p < |v| - 64 ==> v[p] == 0
    ensures forall p {:trigger v[p]} :: |v| - 64 <= p < |v| - 53 ==> v[p] == '_' as int
    ensures v[|v| - 53] == v[|v| - 52] == v[|v| - 51] == v[|v| - 50] == 0 && v[|v| - 49] == 64
    ensures Agreed(v, |v| - 48, |v| / 64 - 3) && Agreed(v, |v| - 40, 0)
    ensures v[|v| - 32..] == SIGNATURE
  {
    hide Holds;
    var f := |v| - 64;
    assert Stamped(v, |v| / 64 - 3, 0) && FormatBlock(v);
    forall p | 0 <= p < |v| - 64 ensures v[p] == 0 {
      if p < 64 {
        assert v[0..64][p] == 0;
      } else {
        assert v[64 * 1..64 * (Blocks(v) - 1)][p - 64] == 0;
      }
    }
    var head := v[f..f + 0x10];
    forall p | |v| - 64 <= p < |v| - 48 ensures v[p] == FORMAT_HEAD[p - f] {
      assert v[p] == head[p - f];
    }
    StampedAgreed(v, |v| - 48, |v| / 64 - 3);
    StampedAgreed(v, |v| - 40, 0);
  }

  lemma StampedAgreed(v: seq<u8>, at: nat, x: nat)
    requires at + 8 <= |v| && AllCopies(v, at, x)
    ensures Agreed(v, at, x)
  {
    assert Copy(v, at, 0) == x && Copy(v, at, 1) == x && Copy(v, at, 2) == x && Copy(v, at, 3) == x;
  }

  lemma FirstLetters()
    ensures Letters("SEGA_CD_ROM") == [0x53, 0x45, 0x47, 0x41, 0x5F, 0x43, 0x44, 0x5F, 0x52, 0x4F, 0x4D]
  {
  }

  lemma LastLetters()
    ensures Letters("RAM_CARTRIDGE___")
         == [0x52, 0x41, 0x4D, 0x5F, 0x43, 0x41, 0x52, 0x54, 0x52, 0x49, 0x44, 0x47, 0x45, 0x5F, 0x5F, 0x5F]
  {
  }

  /** The signature, in letters. */
  lemma SignatureIs()
    ensures SIGNATURE == Letters("SEGA_CD_ROM") + [0, 1, 0, 0, 0] + Letters("RAM_CARTRIDGE___")
  {
    hide Letters;
    FirstLetters();
    LastLetters();
  }
}
