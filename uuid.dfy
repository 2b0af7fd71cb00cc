/**
 * GatoUUID as gatouuid.cpp sees it: the four QUuid fields
 * data1 (32 bits), data2 (16), data3 (16) and data4 (8 bytes), with the
 * Bluetooth Base UUID 00000000-0000-1000-8000-00805F9B34FB as the template
 * for 16- and 32-bit short forms, and the 16-byte gatouint128 with its
 * host-dependent little-endian conversions (gatouuid.h).
 */
module Uuid {
  import opened Types

  datatype GatoUuid = GatoUuid(data1: UInt32, data2: UInt16, data3: UInt16, data4: Bytes8)

  // The part of the Base UUID that follows data1.
  const BaseData2: UInt16 := 0x0000
  const BaseData3: UInt16 := 0x1000
  const BaseData4: Bytes8 := [0x80, 0x00, 0x00, 0x80, 0x5F, 0x9B, 0x34, 0xFB]

  /** GatoUUID(): the QUuid default, every field zero. */
  const Null: GatoUuid := GatoUuid(0, 0, 0, [0, 0, 0, 0, 0, 0, 0, 0])

  /** QUuid::isNull: every field is zero. */
  predicate IsNull(u: GatoUuid) {
    u == Null
  }

  /** data2, data3 and data4 are those of the Base UUID. */
  predicate MatchesBase(u: GatoUuid) {
    u.data2 == BaseData2 && u.data3 == BaseData3 && u.data4 == BaseData4
  }

  /** GatoUUID(quint16): the value goes into data1 of the Base UUID. */
  function FromUInt16(x: UInt16): (u: GatoUuid)
    ensures u.data1 == x && MatchesBase(u) && !IsNull(u)
  {
    GatoUuid(x, BaseData2, BaseData3, BaseData4)
  }

  /** GatoUUID(quint32): the value goes into data1 of the Base UUID. */
  function FromUInt32(x: UInt32): (u: GatoUuid)
    ensures u.data1 == x && MatchesBase(u) && !IsNull(u)
  {
    GatoUuid(x, BaseData2, BaseData3, BaseData4)
  }

  /** The GattUuid enumeration of gatouuid.h. */
  datatype GattUuid =
    | GenericAccessProfile
    | GenericAttributeProfile
    | PrimaryService
    | SecondaryService
    | Include
    | Characteristic
    | CharacteristicExtendedProperties
    | CharacteristicUserDescription
    | ClientCharacteristicConfiguration
    | ServerCharacteristicConfiguration
    | CharacteristicFormat
    | CharacteristicAggregateFormat
    | DeviceName
    | Appearance
    | PeripheralPrivacyFlag
    | ReconnectionAddress
    | PeripheralPreferredConnectionParameters
    | ServiceChanged
  {
    /** The 16-bit number each enumerator stands for. */
    function Value(): UInt16 {
      match this
      case GenericAccessProfile => 0x1800
      case GenericAttributeProfile => 0x1801
      case PrimaryService => 0x2800
      case SecondaryService => 0x2801
      case Include => 0x2802
      case Characteristic => 0x2803
      case CharacteristicExtendedProperties => 0x2900
      case CharacteristicUserDescription => 0x2901
      case ClientCharacteristicConfiguration => 0x2902
      case ServerCharacteristicConfiguration => 0x2903
      case CharacteristicFormat => 0x2904
      case CharacteristicAggregateFormat => 0x2905
      case DeviceName => 0x2A00
      case Appearance => 0x2A01
      case PeripheralPrivacyFlag => 0x2A02
      case ReconnectionAddress => 0x2A03
      case PeripheralPreferredConnectionParameters => 0x2A04
      case ServiceChanged => 0x2A05
    }
  }

  /** GatoUUID(GattUuid): the enumerator's value goes into data1 of the Base UUID. */
  function FromGatt(g: GattUuid): (u: GatoUuid)
    ensures u.data1 == g.Value() && MatchesBase(u)
  {
    GatoUuid(g.Value(), BaseData2, BaseData3, BaseData4)
  }

  /**
   * minimumSize: 0 for the null UUID, 2 or 4 when the UUID is the Base UUID
   * with a 16- or 32-bit data1 (the upper half of data1 decides), 16 otherwise.
   */
  function MinimumSize(u: GatoUuid): (r: nat)
    ensures r == 0 <==> IsNull(u)
    ensures r == 2 <==> u.data1 < 0x1_0000 && u == FromUInt16(u.data1)
    ensures r == 4 <==> u.data1 >= 0x1_0000 && u == FromUInt32(u.data1)
    ensures r == 16 <==> !IsNull(u) && u != FromUInt32(u.data1)
  {
    if IsNull(u) then 0
    else if MatchesBase(u) then
      // data1 & 0xFFFF0000
      if (u.data1 / 0x1_0000) % 0x1_0000 != 0 then 4 else 2
    else 16
  }

  /** The (ok, value) pair of toUInt16(bool *ok) / toUInt32(bool *ok). */
  datatype Converted = Converted(ok: bool, value: nat)

  /**
   * toUInt16: the size check is commented out in the source, so `ok` is
   * always set and the result is data1 truncated to 16 bits.
   */
  function ToUInt16(u: GatoUuid): (r: Converted)
    ensures r.ok
    ensures r.value < 0x1_0000
    ensures u.data1 < 0x1_0000 ==> r.value == u.data1
    ensures r.value == u.data1 % 0x1_0000
  {
    // the conversion of data1 to quint16 keeps its low 16 bits
    Converted(true, u.data1 % 0x1_0000)
  }

  /** toUInt32: data1 with ok exactly when a short form of at most 4 bytes exists. */
  function ToUInt32(u: GatoUuid): (r: Converted)
    ensures r.ok <==> IsNull(u) || u == FromUInt32(u.data1)
    ensures r.ok ==> r.value == u.data1
    ensures !r.ok ==> r.value == 0
  {
    if MinimumSize(u) <= 4 then Converted(true, u.data1) else Converted(false, 0)
  }

  lemma UInt16RoundTrip(x: UInt16)
    ensures ToUInt16(FromUInt16(x)) == Converted(true, x)
    ensures MinimumSize(FromUInt16(x)) == 2
  {
  }

  lemma UInt32RoundTrip(x: UInt32)
    ensures ToUInt32(FromUInt32(x)) == Converted(true, x)
    ensures MinimumSize(FromUInt32(x)) == if x < 0x1_0000 then 2 else 4
  {
  }

  /** A UUID has a short form exactly when it is the embedding of its data1. */
  lemma ShortFormIsEmbedding(u: GatoUuid, x: UInt32)
    ensures u == FromUInt32(x) <==> (MinimumSize(u) in {2, 4} && ToUInt32(u) == Converted(true, x))
  {
  }

  /** Every GattUuid constant is a 16-bit UUID whose short form is the constant. */
  lemma GattUuidsAreShort(g: GattUuid)
    ensures FromGatt(g) == FromUInt16(g.Value())
    ensures MinimumSize(FromGatt(g)) == 2
    ensures ToUInt16(FromGatt(g)) == Converted(true, g.Value())
  {
  }

  /** The attribute types that GATT discovery is built on. */
  lemma DiscoveryUuids()
    ensures PrimaryService.Value() == 0x2800
    ensures Characteristic.Value() == 0x2803
    ensures ClientCharacteristicConfiguration.Value() == 0x2902
    ensures DeviceName.Value() == 0x2A00
  {
  }

  // ---------------------------------------------------------------------
  // gatouint128 and its little-endian conversions

  datatype GatoUInt128 = GatoUInt128(data: Bytes16)

  /** qFromLittleEndian<gatouint128>: a copy on a little-endian host, a reversal otherwise. */
  function FromLittleEndian128(src: Bytes16, hostLittleEndian: bool): (v: GatoUInt128)
    ensures forall i :: 0 <= i < 16 ==>
              v.data[i] == if hostLittleEndian then src[i] else src[15 - i]
  {
    if hostLittleEndian then GatoUInt128(src)
    else
      var reversed: seq<Byte> := seq(16, i requires 0 <= i < 16 => src[15 - i]);
      assert |reversed| == 16;
      GatoUInt128(reversed)
  }

  /** qToLittleEndian<gatouint128>: a copy on a little-endian host, a reversal otherwise. */
  function ToLittleEndian128(v: GatoUInt128, hostLittleEndian: bool): (dest: Bytes16)
    ensures forall i :: 0 <= i < 16 ==>
              dest[i] == if hostLittleEndian then v.data[i] else v.data[15 - i]
  {
    if hostLittleEndian then v.data
    else
      var reversed: seq<Byte> := seq(16, i requires 0 <= i < 16 => v.data[15 - i]);
      assert |reversed| == 16;
      reversed
  }

  /** Each conversion undoes the other, on either host. */
  lemma LittleEndian128RoundTrip(src: Bytes16, v: GatoUInt128, hostLittleEndian: bool)
    ensures ToLittleEndian128(FromLittleEndian128(src, hostLittleEndian), hostLittleEndian) == src
    ensures FromLittleEndian128(ToLittleEndian128(v, hostLittleEndian), hostLittleEndian) == v
  {
    var back := ToLittleEndian128(FromLittleEndian128(src, hostLittleEndian), hostLittleEndian);
    assert forall i :: 0 <= i < 16 ==> back[i] == src[i];
    var w := FromLittleEndian128(ToLittleEndian128(v, hostLittleEndian), hostLittleEndian);
    assert forall i :: 0 <= i < 16 ==> w.data[i] == v.data[i];
  }

  /** qFromLittleEndian<gatouint128>(src): reads src[0..16] one byte at a time. */
  method QFromLittleEndian(src: array<Byte>, pos: nat, hostLittleEndian: bool) returns (dest: GatoUInt128)
    requires pos + 16 <= src.Length
    ensures dest == FromLittleEndian128(src[pos..pos + 16], hostLittleEndian)
  {
    var d := new Byte[16](_ => 0);
    if hostLittleEndian {
      for i := 0 to 16
        invariant forall k :: 0 <= k < i ==> d[k] == src[pos + k]
      {
        d[i] := src[pos + i];
      }
    } else {
      for i := 0 to 16
        invariant forall k :: 0 <= k < i ==> d[k] == src[pos + 15 - k]
      {
        d[i] := src[pos + 15 - i];
      }
    }
    dest := GatoUInt128(d[..]);
    assert forall k :: 0 <= k < 16 ==> dest.data[k] == FromLittleEndian128(src[pos..pos + 16], hostLittleEndian).data[k];
  }

  /** qToLittleEndian<gatouint128>(src, dest): writes dest[0..16] and nothing else. */
  method QToLittleEndian(src: GatoUInt128, dest: array<Byte>, pos: nat, hostLittleEndian: bool)
    requires pos + 16 <= dest.Length
    modifies dest
    ensures dest[pos..pos + 16] == ToLittleEndian128(src, hostLittleEndian)
    ensures forall k :: 0 <= k < dest.Length && !(pos <= k < pos + 16) ==> dest[k] == old(dest[k])
  {
    if hostLittleEndian {
      for i := 0 to 16
        invariant forall k :: pos <= k < pos + i ==> dest[k] == src.data[k - pos]
        invariant forall k :: 0 <= k < dest.Length && !(pos <= k < pos + i) ==> dest[k] == old(dest[k])
      {
        dest[pos + i] := src.data[i];
      }
    } else {
      for i := 0 to 16
        invariant forall k :: pos <= k < pos + i ==> dest[k] == src.data[15 - (k - pos)]
        invariant forall k :: 0 <= k < dest.Length && !(pos <= k < pos + i) ==> dest[k] == old(dest[k])
      {
        dest[pos + i] := src.data[15 - i];
      }
    }
    ghost var expected := ToLittleEndian128(src, hostLittleEndian);
    assert forall k :: 0 <= k < 16 ==> dest[pos..pos + 16][k] == dest[pos + k] == expected[k];
  }
}
