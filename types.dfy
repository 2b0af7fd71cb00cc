/**
 * Fixed-width integers, the attribute handle type, an Option wrapper and
 * the little-endian integer <-> byte conversions that Qt's
 * qFromLittleEndian / qToLittleEndian perform for the built-in integer
 * types (helpers.h wraps them as read_le / write_le).
 */
module Types {

  type Byte = x: int | 0 <= x < 0x100
  type UInt16 = x: int | 0 <= x < 0x1_0000
  type UInt32 = x: int | 0 <= x < 0x1_0000_0000
  type UInt64 = x: int | 0 <= x < 0x1_0000_0000_0000_0000

  type Bytes8 = s: seq<Byte> | |s| == 8 witness [0, 0, 0, 0, 0, 0, 0, 0]
  type Bytes16 = s: seq<Byte> | |s| == 16
    witness [0, 0, 0, 0, 0, 0, 0, 0, 0, 0, 0, 0, 0, 0, 0, 0]

  /** GatoHandle is a quint16 (libgato_global.h). */
  type Handle = UInt16

  datatype Option<T> = None | Some(value: T)

  /** The value of a `char` read from a QByteArray where `char` is signed. */
  function SignedChar(b: Byte): (c: int)
    ensures -0x80 <= c < 0x80
    ensures c % 0x100 == b
  {
    if b < 0x80 then b else b - 0x100
  }

  /**
   * QByteArray's operator[] in a release build: the array keeps a zero byte
   * after its data, so reading index |s| yields 0.
   */
  function ByteAt(s: seq<Byte>, i: nat): (b: Byte)
    requires i <= |s|
    ensures i < |s| ==> b == s[i]
    ensures i == |s| ==> b == 0
  {
    if i < |s| then s[i] else 0
  }

  /**
   * QByteArray::mid(pos, len) for a position that is not negative: empty
   * past the end, the rest of the array when len is negative or reaches
   * beyond the end, and len bytes from pos otherwise.
   */
  function Mid(s: seq<Byte>, pos: nat, len: int): (r: seq<Byte>)
    ensures pos > |s| ==> r == []
    ensures pos <= |s| && (len < 0 || pos + len > |s|) ==> r == s[pos..]
    ensures pos <= |s| && 0 <= len && pos + len <= |s| ==> r == s[pos .. pos + len]
  {
    if pos > |s| then []
    else if len < 0 || pos + len > |s| then s[pos..]
    else s[pos .. pos + len]
  }

  /** C++ integer division, which truncates toward zero. */
  function TruncDiv(a: int, b: int): (q: int)
    requires b != 0
    ensures a >= 0 && b > 0 ==> q == a / b
    ensures a >= 0 && b < 0 ==> q <= 0
  {
    if (a >= 0) == (b > 0) then (if a >= 0 then a / b else (-a) / (-b))
    else -((if a >= 0 then a else -a) / (if b > 0 then b else -b))
  }

  function Pow256(n: nat): (p: nat)
    ensures p >= 1
  {
    if n == 0 then 1 else 256 * Pow256(n - 1)
  }

  /** The number whose little-endian encoding is `s` (least significant byte first). */
  function LeValue(s: seq<Byte>): (v: nat)
    ensures v < Pow256(|s|)
  {
    if s == [] then 0
    else
      var rest := LeValue(s[1..]);
      assert rest <= Pow256(|s| - 1) - 1;
      s[0] + 256 * rest
  }

  /** The `n` least significant bytes of `x`, least significant first. */
  function LeBytes(x: nat, n: nat): (s: seq<Byte>)
    ensures |s| == n
  {
    if n == 0 then [] else [x % 256] + LeBytes(x / 256, n - 1)
  }

  lemma {:induction false} LeValueOfLeBytes(x: nat, n: nat)
    requires x < Pow256(n)
    ensures LeValue(LeBytes(x, n)) == x
  {
    if n > 0 {
      LeValueOfLeBytes(x / 256, n - 1);
      assert LeBytes(x, n)[1..] == LeBytes(x / 256, n - 1);
    }
  }

  lemma {:induction false} LeBytesOfLeValue(s: seq<Byte>)
    ensures LeBytes(LeValue(s), |s|) == s
  {
    if s != [] {
      LeBytesOfLeValue(s[1..]);
      assert LeValue(s) % 256 == s[0];
      assert LeValue(s) / 256 == LeValue(s[1..]);
    }
  }

  /** Two different numbers below 256^n have different encodings. */
  lemma LeBytesInjective(x: nat, y: nat, n: nat)
    requires x < Pow256(n) && y < Pow256(n)
    requires LeBytes(x, n) == LeBytes(y, n)
    ensures x == y
  {
    LeValueOfLeBytes(x, n);
    LeValueOfLeBytes(y, n);
  }

  /** read_le<quint16> of two bytes. */
  function Le16(lo: Byte, hi: Byte): (v: UInt16)
    ensures v % 256 == lo && v / 256 == hi
  {
    lo + 256 * hi
  }

  /** read_le<quint16> at offset `pos`. */
  function Le16At(s: seq<Byte>, pos: nat): (v: UInt16)
    requires pos + 2 <= |s|
    ensures v as int == s[pos] as int + 256 * (s[pos + 1] as int)
  {
    Le16(s[pos], s[pos + 1])
  }

  /** write_le<quint16>: the two bytes of `x`, least significant first. */
  function Le16Bytes(x: UInt16): (s: seq<Byte>)
    ensures |s| == 2 && s[0] == x % 256 && s[1] == x / 256
    ensures Le16(s[0], s[1]) == x
  {
    assert LeBytes(x, 2) == [x % 256, (x / 256) % 256];
    LeBytes(x, 2)
  }

  /** write_le<quint32>: the four bytes of `x`, least significant first. */
  function Le32Bytes(x: UInt32): (s: seq<Byte>)
    ensures |s| == 4 && LeValue(s) == x
    ensures s[0] == x % 256
  {
    assert Pow256(4) == 0x1_0000_0000;
    LeValueOfLeBytes(x, 4);
    LeBytes(x, 4)
  }
}
