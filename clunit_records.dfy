/**
 * The two record types of a cluster unit database
 * (ClusterUnitDatabase.DatabaseClusterUnit and UnitType) and their binary
 * form: a unit is six big-endian ints, a unit type a length-prefixed name
 * followed by two ints.
 */
module ClusterUnitRecords {
  import opened Wrappers
  import opened JavaLang
  import opened Streams
  import opened Utilities

  /** One unit: its type index, phone, sample range and neighbouring units. */
  datatype DatabaseClusterUnit = DatabaseClusterUnit(
    unitType: Int32, phone: Int32, start: Int32, end: Int32, prev: Int32, next: Int32)

  /** A unit type: the units `start .. start + count - 1` carry this name. */
  datatype UnitType = UnitType(name: JString, start: Int32, count: Int32)

  // ---------------------------------------------------------------------
  // DatabaseClusterUnit

  /** The bytes `DatabaseClusterUnit.dumpBinary` writes. */
  function UnitBytes(u: DatabaseClusterUnit): (r: seq<Byte>)
    ensures |r| == 24
  {
    IntBytes(u.unitType) + IntBytes(u.phone) + IntBytes(u.start)
      + IntBytes(u.end) + IntBytes(u.prev) + IntBytes(u.next)
  }

  /** What the stream constructor of DatabaseClusterUnit reads. */
  function UnitItem(bs: seq<Byte>): Result<(DatabaseClusterUnit, nat), JavaError> {
    if |bs| < 24 then Err(EndOfStream)
    else
      Ok((DatabaseClusterUnit(
        BytesInt(bs[0..4]), BytesInt(bs[4..8]), BytesInt(bs[8..12]),
        BytesInt(bs[12..16]), BytesInt(bs[16..20]), BytesInt(bs[20..24])), 24))
  }

  /** A dumped unit reads back as itself. */
  lemma UnitItemDecodes()
    ensures Decodes(UnitItem, UnitBytes, _ => true)
  {
    forall u: DatabaseClusterUnit, rest: seq<Byte>
      ensures UnitItem(UnitBytes(u) + rest) == Ok((u, |UnitBytes(u)|))
    {
      var bs := UnitBytes(u) + rest;
      assert bs[0..4] == IntBytes(u.unitType);
      assert bs[4..8] == IntBytes(u.phone);
      assert bs[8..12] == IntBytes(u.start);
      assert bs[12..16] == IntBytes(u.end);
      assert bs[16..20] == IntBytes(u.prev);
      assert bs[20..24] == IntBytes(u.next);
      BytesIntOfIntBytes(u.unitType);
      BytesIntOfIntBytes(u.phone);
      BytesIntOfIntBytes(u.start);
      BytesIntOfIntBytes(u.end);
      BytesIntOfIntBytes(u.prev);
      BytesIntOfIntBytes(u.next);
    }
  }

  /** `DatabaseClusterUnit.dumpBinary(os)`. */
  method DumpUnit(os: DataOutput, u: DatabaseClusterUnit)
    modifies os
    ensures os.bytes == old(os.bytes) + UnitBytes(u)
  {
    os.WriteInt(u.unitType);
    os.WriteInt(u.phone);
    os.WriteInt(u.start);
    os.WriteInt(u.end);
    os.WriteInt(u.prev);
    os.WriteInt(u.next);
  }

  /** `new DatabaseClusterUnit(is)` (and its ByteBuffer twin). */
  method ReadUnit(dis: DataInput) returns (r: Result<DatabaseClusterUnit, JavaError>)
    requires dis.Valid()
    modifies dis
    ensures dis.Valid()
    ensures match Step(UnitItem, old(dis.Remaining()))
      case Ok((u, n)) => r == Ok(u) && dis.pos == old(dis.pos) + n
      case Err(e) => r == Err(e)
  {
    ghost var p := dis.pos;
    if |dis.data| - dis.pos < 24 {
      return Err(EndOfStream);
    }
    ghost var bs := dis.data[p..];
    var unitType := dis.ReadInt();
    assert dis.data[p..][..4] == bs[0..4];
    var phone := dis.ReadInt();
    assert dis.data[p + 4..][..4] == bs[4..8];
    var start := dis.ReadInt();
    assert dis.data[p + 8..][..4] == bs[8..12];
    var end := dis.ReadInt();
    assert dis.data[p + 12..][..4] == bs[12..16];
    var prev := dis.ReadInt();
    assert dis.data[p + 16..][..4] == bs[16..20];
    var next := dis.ReadInt();
    assert dis.data[p + 20..][..4] == bs[20..24];
    r := Ok(DatabaseClusterUnit(
      unitType.value, phone.value, start.value, end.value, prev.value, next.value));
  }

  // ---------------------------------------------------------------------
  // UnitType

  /** The bytes `UnitType.dumpBinary` writes. */
  function UnitTypeBytes(t: UnitType): (r: seq<Byte>)
    ensures |r| == 10 + 2 * |t.name|
  {
    StringBytes(t.name) + IntBytes(t.start) + IntBytes(t.count)
  }

  /** What the stream constructor of UnitType reads. */
  function UnitTypeItem(bs: seq<Byte>): Result<(UnitType, nat), JavaError> {
    match ParseString(bs)
    case Err(e) => Err(e)
    case Ok((name, k)) =>
      if |bs| - k < 8 then Err(EndOfStream)
      else Ok((UnitType(name, BytesInt(bs[k..k + 4]), BytesInt(bs[k + 4..k + 8])), k + 8))
  }

  /** A name the string codec carries unchanged: at most 32767 code units. */
  predicate ShortName(t: UnitType) {
    |t.name| <= 0x7FFF
  }

  /** A dumped unit type with a short enough name reads back as itself. */
  lemma UnitTypeItemDecodes()
    ensures Decodes(UnitTypeItem, UnitTypeBytes, ShortName)
  {
    forall t: UnitType, rest: seq<Byte> | ShortName(t)
      ensures UnitTypeItem(UnitTypeBytes(t) + rest) == Ok((t, |UnitTypeBytes(t)|))
    {
      UnitTypeReadsBack(t, rest);
    }
  }

  /** One dumped unit type, whatever follows it, reads back as itself. */
  lemma UnitTypeReadsBack(t: UnitType, rest: seq<Byte>)
    requires ShortName(t)
    ensures UnitTypeItem(UnitTypeBytes(t) + rest) == Ok((t, |UnitTypeBytes(t)|))
  {
    var i1, i2 := IntBytes(t.start), IntBytes(t.count);
    assert UnitTypeBytes(t) + rest == StringBytes(t.name) + (i1 + (i2 + rest));
    FieldsAfterName(t.name, i1, i2, rest);
    BytesIntOfIntBytes(t.start);
    BytesIntOfIntBytes(t.count);
  }

  /** A short name followed by two ints reads back as a unit type. */
  lemma FieldsAfterName(name: JString, i1: seq<Byte>, i2: seq<Byte>, rest: seq<Byte>)
    requires |name| <= 0x7FFF && |i1| == 4 && |i2| == 4
    ensures UnitTypeItem(StringBytes(name) + (i1 + (i2 + rest)))
      == Ok((UnitType(name, BytesInt(i1), BytesInt(i2)), 10 + 2 * |name|))
  {
    var tail := i1 + (i2 + rest);
    var bs := StringBytes(name) + tail;
    ParseStringBytes(name, tail);
    var k := 2 + 2 * |name|;
    assert bs[k..] == tail;
    assert bs[k..k + 4] == tail[..4] == i1;
    assert bs[k + 4..k + 8] == tail[4..8] == i2;
  }

  /** `UnitType.dumpBinary(os)`. */
  method DumpUnitType(os: DataOutput, t: UnitType)
    modifies os
    ensures os.bytes == old(os.bytes) + UnitTypeBytes(t)
  {
    OutString(os, t.name);
    os.WriteInt(t.start);
    os.WriteInt(t.count);
  }

  /** `new UnitType(is)` (and its ByteBuffer twin). */
  method ReadUnitType(dis: DataInput) returns (r: Result<UnitType, JavaError>)
    requires dis.Valid()
    modifies dis
    ensures dis.Valid()
    ensures match Step(UnitTypeItem, old(dis.Remaining()))
      case Ok((t, n)) => r == Ok(t) && dis.pos == old(dis.pos) + n
      case Err(e) => r == Err(e)
  {
    ghost var p := dis.pos;
    ghost var bs := dis.data[p..];
    var name := GetString(dis);
    if name.Err? {
      return Err(name.error);
    }
    ghost var k := dis.pos - p;
    var start := dis.ReadInt();
    if start.None? {
      return Err(EndOfStream);
    }
    assert dis.data[p + k..][..4] == bs[k..k + 4];
    var count := dis.ReadInt();
    if count.None? {
      return Err(EndOfStream);
    }
    assert dis.data[p + k + 4..][..4] == bs[k + 4..k + 8];
    r := Ok(UnitType(name.value, start.value, count.value));
  }
}
