/**
 * GatoAddress (gatoaddress.cpp): a Bluetooth device address. The record
 * is a union of a 6-byte bdaddr_t and a quint64, so it is modelled as
 * the union's eight bytes of memory. Which end of the quint64 those bytes
 * are depends on the host's byte order, which is a parameter here.
 * Equality and hashing compare the quint64.
 */
module Address {
  import opened Types

  /** The eight bytes of the union, in memory order. */
  datatype GatoAddress = GatoAddress(memory: Bytes8)

  function Reverse(s: seq<Byte>): (r: seq<Byte>)
    ensures |r| == |s|
    ensures forall i :: 0 <= i < |s| ==> r[i] == s[|s| - 1 - i]
  {
    if s == [] then [] else Reverse(s[1..]) + [s[0]]
  }

  lemma {:induction false} ReverseReverse(s: seq<Byte>)
    ensures Reverse(Reverse(s)) == s
  {
    var r := Reverse(s);
    assert forall i :: 0 <= i < |s| ==> Reverse(r)[i] == s[i];
  }

  /** The memory image of a quint64 stored on a host of the given byte order. */
  function HostBytes(x: UInt64, hostLittleEndian: bool): (m: Bytes8)
  {
    if hostLittleEndian then LeBytes(x, 8) else Reverse(LeBytes(x, 8))
  }

  /** The quint64 that a host of the given byte order reads from the memory image. */
  function HostValue(m: Bytes8, hostLittleEndian: bool): (x: UInt64)
  {
    assert Pow256(8) == 0x1_0000_0000_0000_0000;
    if hostLittleEndian then LeValue(m) else LeValue(Reverse(m))
  }

  /** Storing a quint64 and reading it back is the identity, on either host. */
  lemma HostValueOfHostBytes(x: UInt64, hostLittleEndian: bool)
    ensures HostValue(HostBytes(x, hostLittleEndian), hostLittleEndian) == x
  {
    assert Pow256(8) == 0x1_0000_0000_0000_0000;
    LeValueOfLeBytes(x, 8);
    ReverseReverse(LeBytes(x, 8));
  }

  /** Reading eight bytes as a quint64 and storing it again gives back the bytes. */
  lemma HostBytesOfHostValue(m: Bytes8, hostLittleEndian: bool)
    ensures HostBytes(HostValue(m, hostLittleEndian), hostLittleEndian) == m
  {
    if hostLittleEndian {
      LeBytesOfLeValue(m);
    } else {
      LeBytesOfLeValue(Reverse(m));
      ReverseReverse(m);
    }
  }

  const ZeroMemory: Bytes8 := [0, 0, 0, 0, 0, 0, 0, 0]

  /** GatoAddress(): u64 = 0, which clears all eight bytes. */
  const NullAddress: GatoAddress := GatoAddress(ZeroMemory)

  /** GatoAddress(quint64): the stored value reads back unchanged. */
  function FromUInt64(x: UInt64, hostLittleEndian: bool): (a: GatoAddress)
    ensures ToUInt64(a, hostLittleEndian) == x
  {
    HostValueOfHostBytes(x, hostLittleEndian);
    GatoAddress(HostBytes(x, hostLittleEndian))
  }

  /** toUInt64: the quint64 member of the union. */
  function ToUInt64(a: GatoAddress, hostLittleEndian: bool): UInt64 {
    HostValue(a.memory, hostLittleEndian)
  }

  /** isNull. */
  predicate IsNull(a: GatoAddress, hostLittleEndian: bool) {
    ToUInt64(a, hostLittleEndian) == 0
  }

  /** operator==. */
  predicate Equal(a: GatoAddress, b: GatoAddress, hostLittleEndian: bool) {
    ToUInt64(a, hostLittleEndian) == ToUInt64(b, hostLittleEndian)
  }

  /** Comparing the quint64s is comparing all eight bytes, whatever the host's byte order. */
  lemma EqualIffSameMemory(a: GatoAddress, b: GatoAddress, hostLittleEndian: bool)
    ensures Equal(a, b, hostLittleEndian) <==> a == b
  {
    if Equal(a, b, hostLittleEndian) {
      HostBytesOfHostValue(a.memory, hostLittleEndian);
      HostBytesOfHostValue(b.memory, hostLittleEndian);
    }
  }

  /** toUInt64 then GatoAddress(quint64) rebuilds the same address. */
  lemma UInt64RoundTrip(a: GatoAddress, hostLittleEndian: bool)
    ensures FromUInt64(ToUInt64(a, hostLittleEndian), hostLittleEndian) == a
  {
    HostBytesOfHostValue(a.memory, hostLittleEndian);
  }

  /** A little-endian number is zero exactly when all its bytes are. */
  lemma {:induction false} LeValueZeroIff(s: seq<Byte>)
    ensures LeValue(s) == 0 <==> forall i :: 0 <= i < |s| ==> s[i] == 0
  {
    if s != [] {
      LeValueZeroIff(s[1..]);
      assert forall i :: 1 <= i < |s| ==> s[i] == s[1..][i - 1];
    }
  }

  /** An address is null exactly when all eight bytes are zero, on either host. */
  lemma NullIffZeroMemory(a: GatoAddress, hostLittleEndian: bool)
    ensures IsNull(a, hostLittleEndian) <==> forall i :: 0 <= i < 8 ==> a.memory[i] == 0
  {
    if hostLittleEndian {
      LeValueZeroIff(a.memory);
    } else {
      var r := Reverse(a.memory);
      LeValueZeroIff(r);
      assert (forall i :: 0 <= i < 8 ==> r[i] == 0) <==> (forall i :: 0 <= i < 8 ==> a.memory[i] == 0) by {
        assert forall i :: 0 <= i < 8 ==> r[7 - i] == a.memory[i];
      }
    }
  }

  /** The default address is null on either host. */
  lemma NullAddressIsNull(hostLittleEndian: bool)
    ensures IsNull(NullAddress, hostLittleEndian)
  {
    NullIffZeroMemory(NullAddress, hostLittleEndian);
  }

  lemma {:induction false} LeValueOfZeroPadding(s: seq<Byte>)
    ensures LeValue(s + [0, 0]) == LeValue(s)
  {
    if s == [] {
      assert LeValue([0, 0]) == 0;
    } else {
      assert (s + [0, 0])[1..] == s[1..] + [0, 0];
      LeValueOfZeroPadding(s[1..]);
    }
  }

  /**
   * An address built from six bytes on a little-endian host is a 48-bit
   * number whose least significant byte is the first array element.
   */
  lemma {:induction false} ArrayAddressIs48Bit(b: seq<Byte>)
    requires |b| == 6
    ensures ToUInt64(GatoAddress(b + [0, 0]), true) == LeValue(b)
    ensures LeValue(b) < 0x1_0000_0000_0000
  {
    LeValueOfZeroPadding(b);
    assert Pow256(6) == 0x1_0000_0000_0000;
  }

  /** An address built from six bytes is null exactly when all six are zero, on either host. */
  lemma ArrayAddressNullIffZero(b: seq<Byte>, hostLittleEndian: bool)
    requires |b| == 6
    ensures IsNull(GatoAddress(b + [0, 0]), hostLittleEndian) <==> forall i :: 0 <= i < 6 ==> b[i] == 0
  {
    var m: Bytes8 := b + [0, 0];
    NullIffZeroMemory(GatoAddress(m), hostLittleEndian);
    assert forall i :: 0 <= i < 6 ==> m[i] == b[i];
    assert m[6] == 0 && m[7] == 0;
  }

  /** GatoAddress(quint8[]): clear the union, then copy six bytes into bdaddr_t. */
  method FromUInt8Array(addr: array<Byte>) returns (a: GatoAddress)
    requires addr.Length >= 6
    ensures a.memory == addr[..6] + [0, 0]
  {
    var memory := new Byte[8](_ => 0);
    for i := 0 to 6
      invariant forall j :: 0 <= j < i ==> memory[j] == addr[j]
      invariant forall j :: i <= j < 8 ==> memory[j] == 0
    {
      memory[i] := addr[i];
    }
    assert memory[..] == addr[..6] + [0, 0];
    a := GatoAddress(memory[..]);
  }

  /** toUInt8Array: copy the six bytes of bdaddr_t out. */
  method ToUInt8Array(a: GatoAddress, addr: array<Byte>)
    requires addr.Length >= 6
    modifies addr
    ensures addr[..6] == a.memory[..6]
    ensures addr[6..] == old(addr[6..])
  {
    for i := 0 to 6
      invariant forall j :: 0 <= j < i ==> addr[j] == a.memory[j]
      invariant forall j :: 6 <= j < addr.Length ==> addr[j] == old(addr[j])
    {
      addr[i] := a.memory[i];
    }
  }

  /**
   * Six bytes copied in and out again come back unchanged, also when the
   * two arrays are the same one.
   */
  method ArrayRoundTrip(input: array<Byte>, output: array<Byte>)
    requires input.Length >= 6 && output.Length >= 6
    modifies output
    ensures output[..6] == input[..6]
    ensures output[..6] == old(input[..6])
  {
    var a := FromUInt8Array(input);
    ToUInt8Array(a, output);
    assert a.memory[..6] == input[..6];
  }
}
