/** The .scd unit, sigil's single-save form for Sega CD backup RAM. */
module SegaCdUnit {
  import opened Bytes
  import opened Status
  import opened SegaCdBlock
  import opened SegaCdVolume
  import opened SegaCdDirectory

  const HEADER_SIZE := 20
  const MAGIC: seq<u8> := [0x53, 0x43, 0x44, 0x55]

  /** A save in unit form; the last two header bytes are zero. */
  function UnitOf(s: Save): (unit: seq<u8>)
    requires |s.name| == NAME_LEN
    ensures |unit| == HEADER_SIZE + |s.data|
  {
    MAGIC + s.name + [s.flag] + Be16Bytes(Len(s)) + [0, 0] + s.data
  }

  /** The save a unit holds, when it is exactly one. */
  function UnitSave(code: Code, unit: seq<u8>): (r: Option<Save>)
    ensures r.Some? ==> Sound(code, r.value)
  {
    if |unit| < HEADER_SIZE + 64 || unit[..4] != MAGIC then None
    else
      var blocks := Be16(unit, 0x10);
      if blocks == 0 || |unit| != HEADER_SIZE + 64 * blocks then None
      else if unit[0x0F] != 0 && !AllDecode(code, unit[HEADER_SIZE..]) then None
      else Some(Save(unit[4..0x0F], unit[0x0F], unit[HEADER_SIZE..]))
  }

  /** A unit gives back the save it was made from. */
  lemma UnitKeepsSave(code: Code, s: Save)
    requires Sound(code, s)
    ensures UnitSave(code, UnitOf(s)) == Some(s)
  {
    var u := UnitOf(s);
    assert u[..4] == MAGIC && u[4..0x0F] == s.name && u[0x0F] == s.flag && u[HEADER_SIZE..] == s.data;
    assert u[0x10] == Be16Bytes(Len(s))[0] && u[0x11] == Be16Bytes(Len(s))[1];
  }

  /** And a save gives back the unit it was read from, but for the two reserved bytes,
      which extraction writes as zeros. */
  lemma SaveKeepsUnit(code: Code, unit: seq<u8>)
    requires UnitSave(code, unit).Some?
    ensures UnitOf(UnitSave(code, unit).value) == unit[..0x12] + [0, 0] + unit[HEADER_SIZE..]
  {
    var s := UnitSave(code, unit).value;
    Be16Back(unit, 0x10);
    assert unit[..0x12] == MAGIC + unit[4..0x0F] + [unit[0x0F]] + unit[0x10..0x12];
    assert Len(s) == Be16(unit, 0x10);
  }

  /** The block count of a unit, or 0 when it is not exactly one save. */
  method UnitBlocks(ghost code: Code, unit: seq<u8>) returns (blocks: nat)
    requires IsBlockCode(code)
    ensures blocks == match UnitSave(code, unit) case None => 0 case Some(s) => Len(s)
  {
    if |unit| < HEADER_SIZE + 64 || unit[..4] != MAGIC {
      return 0;
    }
    blocks := Be16(unit, 0x10);
    if blocks == 0 || |unit| != HEADER_SIZE + 64 * blocks {
      return 0;
    }
    if unit[0x0F] != 0 {
      var ok := BlocksDecode(code, unit[HEADER_SIZE..]);
      if !ok {
        return 0;
      }
    }
  }
}
