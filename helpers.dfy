/**
 * The UUID <-> byte-array conversions of helpers.cpp. A UUID travels on the
 * wire in 2, 4 or 16 little-endian bytes.
 *
 * GatoUUID(gatouint128) and GatoUUID::toUInt128 are declared but have no
 * body in the repository, so they are parameters here (`from128`, `to128`);
 * so is the host byte order that the gatouint128 conversions depend on.
 */
module Helpers {
  import opened Types
  import opened Uuid

  /** bytearray_to_gatouuid: the length of the array selects the kind of UUID. */
  function ByteArrayToUuid(ba: seq<Byte>, hostLittleEndian: bool, from128: GatoUInt128 -> GatoUuid): (u: GatoUuid)
    ensures |ba| !in {2, 4, 16} ==> IsNull(u)
    ensures |ba| == 2 ==> MinimumSize(u) == 2 && ToUInt16(u) == Converted(true, LeValue(ba))
    ensures |ba| == 4 ==> MinimumSize(u) in {2, 4} && ToUInt32(u) == Converted(true, LeValue(ba))
    ensures |ba| == 16 ==> u == from128(FromLittleEndian128(ba, hostLittleEndian))
  {
    if |ba| == 2 then
      assert Pow256(2) == 0x1_0000;
      FromUInt16(LeValue(ba))
    else if |ba| == 4 then
      assert Pow256(4) == 0x1_0000_0000;
      FromUInt32(LeValue(ba))
    else if |ba| == 16 then
      from128(FromLittleEndian128(ba, hostLittleEndian))
    else
      Null
  }

  /**
   * gatouuid_to_bytearray: 2 bytes when asked for a 16-bit form (which
   * toUInt16 always grants), else 4 bytes when asked for a 32-bit form and
   * one exists, else the 16 bytes of the 128-bit value.
   */
  function UuidToByteArray(u: GatoUuid, useUuid16: bool, useUuid32: bool,
                           hostLittleEndian: bool, to128: GatoUuid -> GatoUInt128): (ba: seq<Byte>)
    ensures |ba| in {2, 4, 16}
    ensures useUuid16 ==> ba == Le16Bytes(u.data1 % 0x1_0000)
    ensures !useUuid16 && useUuid32 && MinimumSize(u) <= 4 ==> ba == Le32Bytes(u.data1)
    ensures !useUuid16 && !(useUuid32 && MinimumSize(u) <= 4) ==>
              ba == ToLittleEndian128(to128(u), hostLittleEndian)
  {
    var r16 := ToUInt16(u);
    var r32 := ToUInt32(u);
    if useUuid16 && r16.ok then Le16Bytes(r16.value)
    else if useUuid32 && r32.ok then Le32Bytes(r32.value)
    else ToLittleEndian128(to128(u), hostLittleEndian)
  }

  /** A 16-bit UUID written as 2 bytes reads back as the same UUID. */
  lemma Uuid16RoundTrip(x: UInt16, useUuid32: bool, hostLittleEndian: bool,
                        from128: GatoUInt128 -> GatoUuid, to128: GatoUuid -> GatoUInt128)
    ensures ByteArrayToUuid(UuidToByteArray(FromUInt16(x), true, useUuid32, hostLittleEndian, to128),
                            hostLittleEndian, from128) == FromUInt16(x)
  {
    var ba := UuidToByteArray(FromUInt16(x), true, useUuid32, hostLittleEndian, to128);
    assert ba == LeBytes(x, 2);
    assert Pow256(2) == 0x1_0000;
    LeValueOfLeBytes(x, 2);
  }

  /** A 32-bit UUID written as 4 bytes reads back as the same UUID. */
  lemma Uuid32RoundTrip(x: UInt32, hostLittleEndian: bool,
                        from128: GatoUInt128 -> GatoUuid, to128: GatoUuid -> GatoUInt128)
    ensures ByteArrayToUuid(UuidToByteArray(FromUInt32(x), false, true, hostLittleEndian, to128),
                            hostLittleEndian, from128) == FromUInt32(x)
  {
    UInt32RoundTrip(x);
    var ba := UuidToByteArray(FromUInt32(x), false, true, hostLittleEndian, to128);
    assert ba == Le32Bytes(x);
  }

  /** Decoding 2 or 4 bytes and encoding the result again gives back the bytes. */
  lemma ShortBytesRoundTrip(ba: seq<Byte>, hostLittleEndian: bool,
                            from128: GatoUInt128 -> GatoUuid, to128: GatoUuid -> GatoUInt128)
    requires |ba| == 2 || |ba| == 4
    ensures UuidToByteArray(ByteArrayToUuid(ba, hostLittleEndian, from128), |ba| == 2, true,
                            hostLittleEndian, to128) == ba
  {
    var u := ByteArrayToUuid(ba, hostLittleEndian, from128);
    LeBytesOfLeValue(ba);
    if |ba| == 2 {
      assert Le16Bytes(u.data1 % 0x1_0000) == LeBytes(LeValue(ba), 2);
    }
  }

  /** write_le<quint16> into a 2-byte array. */
  method WriteLe16(x: UInt16, dest: array<Byte>)
    requires dest.Length == 2
    modifies dest
    ensures dest[..] == Le16Bytes(x)
  {
    dest[0] := x % 256;
    dest[1] := x / 256;
  }

  /** write_le<quint32> into a 4-byte array. */
  method WriteLe32(x: UInt32, dest: array<Byte>)
    requires dest.Length == 4
    modifies dest
    ensures dest[..] == Le32Bytes(x)
  {
    var bytes := Le32Bytes(x);
    dest[0], dest[1], dest[2], dest[3] := bytes[0], bytes[1], bytes[2], bytes[3];
    assert dest[..] == bytes;
  }

  /** gatouuid_to_bytearray: resizes the array and writes the chosen form into it. */
  method GatoUuidToByteArray(u: GatoUuid, useUuid16: bool, useUuid32: bool,
                             hostLittleEndian: bool, to128: GatoUuid -> GatoUInt128) returns (ba: seq<Byte>)
    ensures ba == UuidToByteArray(u, useUuid16, useUuid32, hostLittleEndian, to128)
  {
    if useUuid16 {
      var r := ToUInt16(u);
      if r.ok {
        var a := new Byte[2](_ => 0);
        WriteLe16(r.value, a);
        return a[..];
      }
    }
    if useUuid32 {
      var r := ToUInt32(u);
      if r.ok {
        var a := new Byte[4](_ => 0);
        assert r.value < 0x1_0000_0000;
        WriteLe32(r.value, a);
        return a[..];
      }
    }
    var a := new Byte[16](_ => 0);
    QToLittleEndian(to128(u), a, 0, hostLittleEndian);
    assert a[..] == a[0..16];
    return a[..];
  }
}
