/**
 * Attribute Protocol PDU formats as gatoatt.cpp writes and reads them
 * (Bluetooth Core Specification, Vol 3 Part F, section 3.4): byte 0 is the
 * opcode and multi-byte fields are little-endian. This module holds the
 * opcodes, the request payload encoders and the four response list
 * decoders; the request queue is in AttClient.
 */
module AttPdu {
  import opened Types
  import opened Uuid

  // The AttOpcode enumeration of gatoatt.cpp.
  const OpNone: Byte := 0x00
  const ErrorResponse: Byte := 0x01
  const ExchangeMtuRequest: Byte := 0x02
  const ExchangeMtuResponse: Byte := 0x03
  const FindInformationRequest: Byte := 0x04
  const FindInformationResponse: Byte := 0x05
  const FindByTypeValueRequest: Byte := 0x06
  const FindByTypeValueResponse: Byte := 0x07
  const ReadByTypeRequest: Byte := 0x08
  const ReadByTypeResponse: Byte := 0x09
  const ReadRequest: Byte := 0x0A
  const ReadResponse: Byte := 0x0B
  const ReadBlobRequest: Byte := 0x0C
  const ReadBlobResponse: Byte := 0x0D
  const ReadMultipleRequest: Byte := 0x0E
  const ReadMultipleResponse: Byte := 0x0F
  const ReadByGroupTypeRequest: Byte := 0x10
  const ReadByGroupTypeResponse: Byte := 0x11
  const WriteRequest: Byte := 0x12
  const WriteResponse: Byte := 0x13
  const WriteCommand: Byte := 0x52
  const PrepareWriteRequest: Byte := 0x16
  const PrepareWriteResponse: Byte := 0x17
  const ExecuteWriteRequest: Byte := 0x18
  const ExecuteWriteResponse: Byte := 0x19
  const HandleValueNotification: Byte := 0x1B
  const HandleValueIndication: Byte := 0x1D
  const HandleValueConfirmation: Byte := 0x1E
  const SignedWriteCommand: Byte := 0xD2

  /** ATT_DEFAULT_LE_MTU. */
  const DefaultLeMtu: Byte := 23

  // The decoded list records of gatoattclient.h.
  datatype InformationData = InformationData(handle: Handle, uuid: GatoUuid)
  datatype HandleInformation = HandleInformation(start: Handle, end: Handle)
  datatype AttributeData = AttributeData(handle: Handle, value: seq<Byte>)
  datatype AttributeGroupData = AttributeGroupData(start: Handle, end: Handle, value: seq<Byte>)

  // ---------------------------------------------------------------------
  // Request payloads (everything after the opcode byte)

  /** requestExchangeMTU: the client MTU as one byte. */
  function ExchangeMtuPayload(clientMtu: Byte): (p: seq<Byte>)
    ensures |p| == 1 && p[0] == clientMtu
  {
    [clientMtu]
  }

  /** requestFindInformation: start and end handle. */
  function FindInformationPayload(start: Handle, end: Handle): (p: seq<Byte>)
    ensures |p| == 4 && Le16At(p, 0) == start && Le16At(p, 2) == end
  {
    Le16Bytes(start) + Le16Bytes(end)
  }

  /**
   * writeUuid16or128: toUInt16 always reports ok, so the 16-bit branch is
   * the only one taken and the UUID is always written as 2 bytes.
   */
  function WriteUuid16or128(u: GatoUuid): (p: seq<Byte>)
    ensures |p| == 2 && Le16At(p, 0) == u.data1 % 0x1_0000
  {
    var r := ToUInt16(u);
    if r.ok then Le16Bytes(r.value) else assert false; []
  }

  /**
   * requestFindByTypeValue: start, end, the 16-bit attribute type, and the
   * value as QDataStream's operator<< writes a QByteArray (`streamed`,
   * whose format is outside this model). None stands for the -1 return
   * of a UUID without a 16-bit form, which toUInt16 never reports.
   */
  function FindByTypeValuePayload(start: Handle, end: Handle, u: GatoUuid, value: seq<Byte>,
                                  streamed: seq<Byte> -> seq<Byte>): (p: Option<seq<Byte>>)
    ensures p.Some?
    ensures |p.value| == 6 + |streamed(value)|
    ensures Le16At(p.value, 0) == start && Le16At(p.value, 2) == end
    ensures Le16At(p.value, 4) == u.data1 % 0x1_0000
    ensures p.value[6..] == streamed(value)
  {
    var r := ToUInt16(u);
    if r.ok then Some(Le16Bytes(start) + Le16Bytes(end) + Le16Bytes(r.value) + streamed(value))
    else None
  }

  /** requestReadByType: start, end and the attribute type. */
  function ReadByTypePayload(start: Handle, end: Handle, u: GatoUuid): (p: seq<Byte>)
    ensures |p| == 6 && Le16At(p, 0) == start && Le16At(p, 2) == end
    ensures p[4..] == WriteUuid16or128(u)
  {
    Le16Bytes(start) + Le16Bytes(end) + WriteUuid16or128(u)
  }

  /** requestRead: the attribute handle. */
  function ReadPayload(handle: Handle): (p: seq<Byte>)
    ensures |p| == 2 && Le16At(p, 0) == handle
  {
    Le16Bytes(handle)
  }

  /** requestReadByGroupType: start, end and the group type. */
  function ReadByGroupTypePayload(start: Handle, end: Handle, u: GatoUuid): (p: seq<Byte>)
    ensures |p| == 6 && Le16At(p, 0) == start && Le16At(p, 2) == end
    ensures p[4..] == WriteUuid16or128(u)
  {
    Le16Bytes(start) + Le16Bytes(end) + WriteUuid16or128(u)
  }

  /** requestWrite: the attribute handle followed by the raw value. */
  function WritePayload(handle: Handle, value: seq<Byte>): (p: seq<Byte>)
    ensures |p| == 2 + |value| && Le16At(p, 0) == handle && p[2..] == value
  {
    Le16Bytes(handle) + value
  }

  // ---------------------------------------------------------------------
  // Fixed-width records

  lemma MulAtLeast(a: int, b: int)
    requires a >= 1 && b > 0
    ensures a * b >= b
  {
    if a > 1 {
      MulAtLeast(a - 1, b);
      assert a * b == (a - 1) * b + b;
    }
  }

  /** Division is determined by a quotient and a remainder below the divisor. */
  lemma DivUnique(n: int, d: int, q: int, r: int)
    requires d > 0 && 0 <= r < d && n == q * d + r
    ensures n / d == q
  {
    var q' := n / d;
    var r' := n % d;
    assert n == q' * d + r';
    assert (q' - q) * d == r - r';
    if q' - q >= 1 { MulAtLeast(q' - q, d); }
    if q - q' >= 1 { MulAtLeast(q - q', d); }
  }

  lemma DivStep(n: nat, len: nat)
    requires len > 0
    ensures n < len ==> n / len == 0
    ensures n >= len ==> n / len == (n - len) / len + 1
  {
    if n < len {
      DivUnique(n, len, 0, n);
    } else {
      var q := (n - len) / len;
      var r := (n - len) % len;
      assert n - len == q * len + r;
      assert n == (q + 1) * len + r;
      DivUnique(n, len, q + 1, r);
    }
  }

  /** Records laid end to end, each encoded by `enc`. */
  function Concat<T>(xs: seq<T>, enc: T -> seq<Byte>): seq<Byte>
  {
    if xs == [] then [] else enc(xs[0]) + Concat(xs[1..], enc)
  }

  // ---------------------------------------------------------------------
  // Information data (Find Information response)

  /** Record length for a Find Information format byte: 1 = 16-bit UUIDs, 2 = 128-bit UUIDs. */
  function InformationRecordLength(format: Byte): nat
    requires format == 1 || format == 2
  {
    if format == 1 then 2 + 2 else 2 + 16
  }

  function InformationRecord(rec: seq<Byte>, format: Byte, hostLittleEndian: bool,
                             from128: GatoUInt128 -> GatoUuid): InformationData
    requires format == 1 || format == 2
    requires |rec| == InformationRecordLength(format)
  {
    InformationData(Le16(rec[0], rec[1]),
                    if format == 1 then FromUInt16(Le16(rec[2], rec[3]))
                    else from128(FromLittleEndian128(rec[2..18], hostLittleEndian)))
  }

  /** The records of `body`, cut every InformationRecordLength(format) bytes; a partial last record is dropped. */
  function InformationRecords(body: seq<Byte>, format: Byte, hostLittleEndian: bool,
                              from128: GatoUInt128 -> GatoUuid): seq<InformationData>
    requires format == 1 || format == 2
    decreases |body|
  {
    var len := InformationRecordLength(format);
    if |body| < len then []
    else [InformationRecord(body[..len], format, hostLittleEndian, from128)] +
         InformationRecords(body[len..], format, hostLittleEndian, from128)
  }

  /**
   * parseInformationData: a format byte followed by handle/UUID records.
   * An empty array reads its terminating zero as the format, which is unknown.
   */
  function InformationDataList(data: seq<Byte>, hostLittleEndian: bool,
                               from128: GatoUInt128 -> GatoUuid): seq<InformationData>
  {
    var format := ByteAt(data, 0);
    if format == 1 || format == 2 then InformationRecords(data[1..], format, hostLittleEndian, from128)
    else []
  }

  /** One record per whole InformationRecordLength(format) bytes. */
  lemma {:induction false} InformationRecordsCount(body: seq<Byte>, format: Byte, hostLittleEndian: bool,
                                                   from128: GatoUInt128 -> GatoUuid)
    requires format == 1 || format == 2
    ensures |InformationRecords(body, format, hostLittleEndian, from128)| == |body| / InformationRecordLength(format)
    decreases |body|
  {
    var len := InformationRecordLength(format);
    DivStep(|body|, len);
    if |body| >= len {
      InformationRecordsCount(body[len..], format, hostLittleEndian, from128);
    }
  }

  /** The record at offset `pos` reads as the handle there and the UUID right after it. */
  lemma InformationRecordAt(data: seq<Byte>, pos: nat, format: Byte, hostLittleEndian: bool,
                            from128: GatoUInt128 -> GatoUuid)
    requires format == 1 || format == 2
    requires pos + InformationRecordLength(format) <= |data|
    ensures InformationRecord(data[pos .. pos + InformationRecordLength(format)], format, hostLittleEndian, from128) ==
            InformationData(Le16At(data, pos),
                            if format == 1 then FromUInt16(Le16At(data, pos + 2))
                            else from128(FromLittleEndian128(data[pos + 2 .. pos + 18], hostLittleEndian)))
  {
    var rec := data[pos .. pos + InformationRecordLength(format)];
    assert rec[0] == data[pos] && rec[1] == data[pos + 1];
    if format == 1 {
      assert rec[2] == data[pos + 2] && rec[3] == data[pos + 3];
    } else {
      assert rec[2..18] == data[pos + 2 .. pos + 18];
    }
  }

  /** The records still to be read at offset `pos`: the one there, then those after it. */
  lemma InformationRecordsFrom(data: seq<Byte>, pos: nat, format: Byte, hostLittleEndian: bool,
                               from128: GatoUInt128 -> GatoUuid)
    requires format == 1 || format == 2
    requires pos <= |data| && InformationRecords(data[pos..], format, hostLittleEndian, from128) != []
    ensures pos + InformationRecordLength(format) <= |data|
    ensures InformationRecords(data[pos..], format, hostLittleEndian, from128) ==
            [InformationRecord(data[pos .. pos + InformationRecordLength(format)], format, hostLittleEndian, from128)] +
            InformationRecords(data[pos + InformationRecordLength(format)..], format, hostLittleEndian, from128)
  {
    var len := InformationRecordLength(format);
    assert data[pos..][..len] == data[pos .. pos + len];
    assert data[pos..][len..] == data[pos + len..];
  }

  /** One iteration of parseInformationData: the handle at `pos` and the UUID right after it. */
  method ReadInformationRecord(data: seq<Byte>, pos: nat, format: Byte, hostLittleEndian: bool,
                               from128: GatoUInt128 -> GatoUuid) returns (d: InformationData)
    requires format == 1 || format == 2
    requires pos + InformationRecordLength(format) <= |data|
    ensures d == InformationRecord(data[pos .. pos + InformationRecordLength(format)], format, hostLittleEndian, from128)
  {
    InformationRecordAt(data, pos, format, hostLittleEndian, from128);
    var handle := Le16At(data, pos);
    var uuid;
    if format == 1 {
      uuid := FromUInt16(Le16At(data, pos + 2));
    } else {
      uuid := from128(FromLittleEndian128(data[pos + 2 .. pos + 18], hostLittleEndian));
    }
    d := InformationData(handle, uuid);
  }

  /** One iteration of the parse keeps "read so far, then still to read" equal to the whole list. */
  lemma InformationStep(data: seq<Byte>, pos: nat, format: Byte, hostLittleEndian: bool,
                        from128: GatoUInt128 -> GatoUuid, list: seq<InformationData>, spec: seq<InformationData>)
    requires format == 1 || format == 2
    requires pos <= |data| && InformationRecords(data[pos..], format, hostLittleEndian, from128) != []
    requires list + InformationRecords(data[pos..], format, hostLittleEndian, from128) == spec
    ensures pos + InformationRecordLength(format) <= |data|
    ensures var next := pos + InformationRecordLength(format);
      var d := InformationRecord(data[pos .. next], format, hostLittleEndian, from128);
      && |InformationRecords(data[next..], format, hostLittleEndian, from128)| ==
         |InformationRecords(data[pos..], format, hostLittleEndian, from128)| - 1
      && (list + [d]) + InformationRecords(data[next..], format, hostLittleEndian, from128) == spec
  {
    InformationRecordsFrom(data, pos, format, hostLittleEndian, from128);
    var next := pos + InformationRecordLength(format);
    var d := InformationRecord(data[pos .. next], format, hostLittleEndian, from128);
    var after := InformationRecords(data[next..], format, hostLittleEndian, from128);
    assert (list + [d]) + after == list + ([d] + after);
  }

  /** parseInformationData, record by record. */
  method ParseInformationData(data: seq<Byte>, hostLittleEndian: bool, from128: GatoUInt128 -> GatoUuid)
    returns (list: seq<InformationData>)
    ensures list == InformationDataList(data, hostLittleEndian, from128)
  {
    var format := ByteAt(data, 0);
    var itemLen;
    if format == 1 {
      itemLen := 2 + 2;
    } else if format == 2 {
      itemLen := 2 + 16;
    } else {
      return [];
    }
    assert itemLen == InformationRecordLength(format);
    InformationRecordsCount(data[1..], format, hostLittleEndian, from128);
    ghost var spec := InformationDataList(data, hostLittleEndian, from128);
    var items := (|data| - 1) / itemLen;
    list := [];
    var pos := 1;
    var i := 0;
    while i < items
      invariant 0 <= i <= items && 1 <= pos <= |data|
      invariant |InformationRecords(data[pos..], format, hostLittleEndian, from128)| == items - i
      invariant list + InformationRecords(data[pos..], format, hostLittleEndian, from128) == spec
    {
      InformationStep(data, pos, format, hostLittleEndian, from128, list, spec);
      var d := ReadInformationRecord(data, pos, format, hostLittleEndian, from128);
      list := list + [d];
      pos := pos + itemLen;
      i := i + 1;
    }
    assert list + [] == list;
  }

  /** Records laid end to end are read back one by one. */
  lemma {:induction false} InformationRecordsOfConcat<T>(xs: seq<T>, enc: T -> seq<Byte>, format: Byte,
                                                         hostLittleEndian: bool, from128: GatoUInt128 -> GatoUuid)
    requires format == 1 || format == 2
    requires forall k :: 0 <= k < |xs| ==> |enc(xs[k])| == InformationRecordLength(format)
    ensures InformationRecords(Concat(xs, enc), format, hostLittleEndian, from128) ==
            seq(|xs|, k requires 0 <= k < |xs| => InformationRecord(enc(xs[k]), format, hostLittleEndian, from128))
  {
    if xs != [] {
      var len := InformationRecordLength(format);
      var first := enc(xs[0]);
      var rest := Concat(xs[1..], enc);
      InformationRecordsOfConcat(xs[1..], enc, format, hostLittleEndian, from128);
      assert (first + rest)[..len] == first;
      assert (first + rest)[len..] == rest;
    }
  }

  /** A format-1 record as a server lays it out: handle, then the 16-bit UUID. */
  function EncodeInformation16(r: (Handle, UInt16)): seq<Byte> {
    Le16Bytes(r.0) + Le16Bytes(r.1)
  }

  /** A format-2 record as a server lays it out: handle, then the 128-bit UUID. */
  function EncodeInformation128(r: (Handle, GatoUInt128), hostLittleEndian: bool): seq<Byte> {
    Le16Bytes(r.0) + ToLittleEndian128(r.1, hostLittleEndian)
  }

  lemma Information16Record(r: (Handle, UInt16), hostLittleEndian: bool, from128: GatoUInt128 -> GatoUuid)
    ensures |EncodeInformation16(r)| == 4
    ensures InformationRecord(EncodeInformation16(r), 1, hostLittleEndian, from128) ==
            InformationData(r.0, FromUInt16(r.1))
  {
    var bytes := EncodeInformation16(r);
    assert bytes[0..2] == Le16Bytes(r.0) && bytes[2..4] == Le16Bytes(r.1);
  }

  /** A format byte followed by laid-out records reads back as the records' own decodings. */
  lemma InformationListOfConcat<T>(xs: seq<T>, enc: T -> seq<Byte>, format: Byte, hostLittleEndian: bool,
                                   from128: GatoUInt128 -> GatoUuid, want: seq<InformationData>)
    requires format == 1 || format == 2
    requires |want| == |xs|
    requires forall k :: 0 <= k < |xs| ==> |enc(xs[k])| == InformationRecordLength(format)
    requires forall k :: 0 <= k < |xs| ==> InformationRecord(enc(xs[k]), format, hostLittleEndian, from128) == want[k]
    ensures InformationDataList([format] + Concat(xs, enc), hostLittleEndian, from128) == want
  {
    var body := Concat(xs, enc);
    assert ([format] + body)[1..] == body;
    InformationRecordsOfConcat(xs, enc, format, hostLittleEndian, from128);
  }

  /** Format 1: every laid-out (handle, 16-bit UUID) record is read back. */
  lemma InformationData16RoundTrip(recs: seq<(Handle, UInt16)>, hostLittleEndian: bool,
                                   from128: GatoUInt128 -> GatoUuid)
    ensures InformationDataList([1] + Concat(recs, EncodeInformation16), hostLittleEndian, from128) ==
            seq(|recs|, k requires 0 <= k < |recs| => InformationData(recs[k].0, FromUInt16(recs[k].1)))
  {
    var want := seq(|recs|, k requires 0 <= k < |recs| => InformationData(recs[k].0, FromUInt16(recs[k].1)));
    forall k | 0 <= k < |recs|
      ensures |EncodeInformation16(recs[k])| == 4
      ensures InformationRecord(EncodeInformation16(recs[k]), 1, hostLittleEndian, from128) == want[k]
    {
      Information16Record(recs[k], hostLittleEndian, from128);
    }
    InformationListOfConcat(recs, EncodeInformation16, 1, hostLittleEndian, from128, want);
  }

  lemma Information128Record(r: (Handle, GatoUInt128), hostLittleEndian: bool, from128: GatoUInt128 -> GatoUuid)
    ensures |EncodeInformation128(r, hostLittleEndian)| == 18
    ensures InformationRecord(EncodeInformation128(r, hostLittleEndian), 2, hostLittleEndian, from128) ==
            InformationData(r.0, from128(r.1))
  {
    var bytes := EncodeInformation128(r, hostLittleEndian);
    assert bytes[2..18] == ToLittleEndian128(r.1, hostLittleEndian);
    LittleEndian128RoundTrip(ToLittleEndian128(r.1, hostLittleEndian), r.1, hostLittleEndian);
  }

  /** Format 2: every laid-out (handle, 128-bit UUID) record is read back, on either host. */
  lemma InformationData128RoundTrip(recs: seq<(Handle, GatoUInt128)>, hostLittleEndian: bool,
                                    from128: GatoUInt128 -> GatoUuid)
    ensures InformationDataList([2] + Concat(recs, r => EncodeInformation128(r, hostLittleEndian)),
                                hostLittleEndian, from128) ==
            seq(|recs|, k requires 0 <= k < |recs| => InformationData(recs[k].0, from128(recs[k].1)))
  {
    var enc := r => EncodeInformation128(r, hostLittleEndian);
    var want := seq(|recs|, k requires 0 <= k < |recs| => InformationData(recs[k].0, from128(recs[k].1)));
    forall k | 0 <= k < |recs|
      ensures |enc(recs[k])| == 18
      ensures InformationRecord(enc(recs[k]), 2, hostLittleEndian, from128) == want[k]
    {
      Information128Record(recs[k], hostLittleEndian, from128);
    }
    InformationListOfConcat(recs, enc, 2, hostLittleEndian, from128, want);
  }

  // ---------------------------------------------------------------------
  // Handles information (Find By Type Value response)

  function HandleInformationRecord(rec: seq<Byte>): HandleInformation
    requires |rec| == 4
  {
    HandleInformation(Le16(rec[0], rec[1]), Le16(rec[2], rec[3]))
  }

  /**
   * The Handles Information List of section 3.4.3.4 of the ATT chapter:
   * 4-byte records of a found handle and its group end handle. This
   * corrects the loop of gatoatt.cpp, which steps by 2 (see
   * HandleInformationAsWritten).
   */
  function HandleInformationList(data: seq<Byte>): seq<HandleInformation>
    decreases |data|
  {
    if |data| < 4 then []
    else [HandleInformationRecord(data[..4])] + HandleInformationList(data[4..])
  }

  /** One record per whole 4 bytes. */
  lemma {:induction false} HandleInformationCount(data: seq<Byte>)
    ensures |HandleInformationList(data)| == |data| / 4
    decreases |data|
  {
    DivStep(|data|, 4);
    if |data| >= 4 {
      HandleInformationCount(data[4..]);
    }
  }

  /** Record i holds the two handles at offset 4 * i. */
  lemma {:induction false} HandleInformationAt(data: seq<Byte>, i: nat)
    requires i < |HandleInformationList(data)|
    ensures 4 * i + 4 <= |data|
    ensures HandleInformationList(data)[i] == HandleInformation(Le16At(data, 4 * i), Le16At(data, 4 * i + 2))
    decreases i
  {
    var rec := data[..4];
    assert rec[0] == data[0] && rec[1] == data[1] && rec[2] == data[2] && rec[3] == data[3];
    if i > 0 {
      var rest := data[4..];
      HandleInformationAt(rest, i - 1);
      var p := 4 * (i - 1);
      assert rest[p] == data[4 * i] && rest[p + 1] == data[4 * i + 1];
      assert rest[p + 2] == data[4 * i + 2] && rest[p + 3] == data[4 * i + 3];
    }
  }

  /** One iteration of the corrected parse keeps "read so far, then still to read" equal to the whole list. */
  lemma HandleInformationStep(data: seq<Byte>, pos: nat, list: seq<HandleInformation>, spec: seq<HandleInformation>)
    requires pos <= |data| && HandleInformationList(data[pos..]) != []
    requires list + HandleInformationList(data[pos..]) == spec
    ensures pos + 4 <= |data|
    ensures |HandleInformationList(data[pos + 4..])| == |HandleInformationList(data[pos..])| - 1
    ensures (list + [HandleInformation(Le16At(data, pos), Le16At(data, pos + 2))]) +
            HandleInformationList(data[pos + 4..]) == spec
  {
    var rest := data[pos..];
    assert rest[..4][0] == data[pos] && rest[..4][1] == data[pos + 1];
    assert rest[..4][2] == data[pos + 2] && rest[..4][3] == data[pos + 3];
    assert rest[4..] == data[pos + 4..];
    var d := HandleInformation(Le16At(data, pos), Le16At(data, pos + 2));
    var after := HandleInformationList(data[pos + 4..]);
    assert (list + [d]) + after == list + ([d] + after);
  }

  /** parseHandleInformation with the record length of the protocol. */
  method ParseHandleInformation(data: seq<Byte>) returns (list: seq<HandleInformation>)
    ensures list == HandleInformationList(data)
  {
    HandleInformationCount(data);
    ghost var spec := HandleInformationList(data);
    var itemLen := 4;
    var items := |data| / itemLen;
    list := [];
    var pos := 0;
    var i := 0;
    while i < items
      invariant 0 <= i <= items && pos <= |data|
      invariant |HandleInformationList(data[pos..])| == items - i
      invariant list + HandleInformationList(data[pos..]) == spec
    {
      HandleInformationStep(data, pos, list, spec);
      list := list + [HandleInformation(Le16At(data, pos), Le16At(data, pos + 2))];
      pos := pos + itemLen;
      i := i + 1;
    }
    assert list + [] == list;
  }

  /** A Handles Information record as a server lays it out. */
  function EncodeHandleInformation(r: HandleInformation): seq<Byte> {
    Le16Bytes(r.start) + Le16Bytes(r.end)
  }

  lemma HandleInformationRecordOf(r: HandleInformation)
    ensures |EncodeHandleInformation(r)| == 4
    ensures HandleInformationRecord(EncodeHandleInformation(r)) == r
  {
    var bytes := EncodeHandleInformation(r);
    var s, e := Le16Bytes(r.start), Le16Bytes(r.end);
    assert bytes[0] == s[0] && bytes[1] == s[1] && bytes[2] == e[0] && bytes[3] == e[1];
  }

  /** Every laid-out record is read back by the corrected parser. */
  lemma {:induction false} HandleInformationRoundTrip(recs: seq<HandleInformation>)
    ensures HandleInformationList(Concat(recs, EncodeHandleInformation)) == recs
  {
    if recs != [] {
      var first := EncodeHandleInformation(recs[0]);
      var rest := Concat(recs[1..], EncodeHandleInformation);
      HandleInformationRecordOf(recs[0]);
      HandleInformationRoundTrip(recs[1..]);
      assert (first + rest)[..4] == first;
      assert (first + rest)[4..] == rest;
      assert recs == [recs[0]] + recs[1..];
    }
  }

  /**
   * parseHandleInformation as written: size / 2 entries, entry i reading
   * the 4 bytes at offset 2 * i, so the entries overlap and the last one
   * reads the 2 bytes after the data. `memory` is the data followed by
   * what those reads see: the terminating zero of the QByteArray, then a
   * byte beyond the array whose value is not known.
   */
  function HandleInformationAsWritten(memory: seq<Byte>, size: nat): (r: seq<HandleInformation>)
    requires size + 2 <= |memory| && memory[size] == 0
    ensures |r| == size / 2
  {
    seq(size / 2, i requires 0 <= i < size / 2 =>
          HandleInformation(Le16At(memory, 2 * i), Le16At(memory, 2 * i + 2)))
  }

  /** The loop of parseHandleInformation as written, with its record length of 2. */
  method ParseHandleInformationAsWritten(memory: seq<Byte>, size: nat) returns (list: seq<HandleInformation>)
    requires size + 2 <= |memory| && memory[size] == 0
    ensures list == HandleInformationAsWritten(memory, size)
  {
    ghost var spec := HandleInformationAsWritten(memory, size);
    var itemLen := 2;
    var items := size / itemLen;
    list := [];
    var pos := 0;
    var i := 0;
    while i < items
      invariant 0 <= i <= items && pos == 2 * i && |spec| == items
      invariant list == spec[..i]
    {
      var entry := HandleInformation(Le16At(memory, pos), Le16At(memory, pos + 2));
      assert entry == spec[i];
      assert spec[..i + 1] == spec[..i] + [entry];
      list := list + [entry];
      pos := pos + itemLen;
      i := i + 1;
    }
    assert spec[..i] == spec;
  }

  /**
   * Entry 2k of the loop as written is record k of the protocol's list; the
   * entries in between straddle two records, and there are twice as many entries.
   */
  lemma HandleInformationAsWrittenOverlaps(memory: seq<Byte>, size: nat)
    requires size + 2 <= |memory| && memory[size] == 0
    ensures var w := HandleInformationAsWritten(memory, size);
            var c := HandleInformationList(memory[..size]);
      && |w| == size / 2 && |c| == size / 4
      && forall k :: 0 <= k < |c| ==> w[2 * k] == c[k]
  {
    var w := HandleInformationAsWritten(memory, size);
    var c := HandleInformationList(memory[..size]);
    HandleInformationCount(memory[..size]);
    forall k | 0 <= k < |c|
      ensures w[2 * k] == c[k]
    {
      HandleInformationAt(memory[..size], k);
      var m := memory[..size];
      assert m[4 * k] == memory[4 * k] && m[4 * k + 1] == memory[4 * k + 1];
      assert m[4 * k + 2] == memory[4 * k + 2] && m[4 * k + 3] == memory[4 * k + 3];
      assert 2 * k < size / 2;
      assert 2 * (2 * k) == 4 * k;
    }
  }

  /**
   * One well-formed record [1, 0, 5, 0] comes out as two entries; the
   * second one's end handle is the terminating zero and the byte `beyond`
   * after it.
   */
  lemma HandleInformationAsWrittenExample(beyond: Byte)
    ensures HandleInformationList([1, 0, 5, 0]) == [HandleInformation(1, 5)]
    ensures HandleInformationAsWritten([1, 0, 5, 0, 0, beyond], 4) ==
            [HandleInformation(1, 5), HandleInformation(5, 256 * beyond)]
  {
    ExampleRecord([1, 0, 5, 0]);
    AsWrittenExampleEntries([1, 0, 5, 0, 0, beyond], beyond);
  }

  lemma ExampleRecord(rec: seq<Byte>)
    requires rec == [1, 0, 5, 0]
    ensures HandleInformationList(rec) == [HandleInformation(1, 5)]
  {
    assert rec[..4] == rec && rec[4..] == [];
    var a, b := Le16(rec[0], rec[1]), Le16(rec[2], rec[3]);
    assert a == 1 && b == 5;
    assert HandleInformationRecord(rec) == HandleInformation(a, b);
  }

  lemma AsWrittenExampleEntries(m: seq<Byte>, beyond: Byte)
    requires m == [1, 0, 5, 0, 0, beyond]
    ensures HandleInformationAsWritten(m, 4) == [HandleInformation(1, 5), HandleInformation(5, 256 * beyond)]
  {
    var w := HandleInformationAsWritten(m, 4);
    var a, b, c := Le16At(m, 0), Le16At(m, 2), Le16At(m, 4);
    assert a == 1 && b == 5 && c == 256 * beyond;
    assert w[0] == HandleInformation(a, b);
    assert w[1] == HandleInformation(b, c);
    assert w == [HandleInformation(a, b), HandleInformation(b, c)];
  }

  // ---------------------------------------------------------------------
  // Attribute data (Read By Type response) and attribute group data
  // (Read By Group Type response): a length byte L, then records of L bytes
  // from offset 1. The decoders read through QByteArray's operator[] and
  // mid(), so index |data| yields the terminating zero (ByteAt) and a value
  // that runs past the end is cut short (Mid).

  /**
   * The length byte as the decoders read it into an int. Whether `char` is
   * signed is up to the platform, so a byte of 0x80 or more is negative only
   * where `signedChar` holds. An empty array reads the terminating zero.
   */
  function ItemLength(data: seq<Byte>, signedChar: bool): (len: int)
    ensures len % 0x100 == ByteAt(data, 0)
    ensures signedChar ==> -0x80 <= len < 0x80
    ensures !signedChar ==> len == ByteAt(data, 0)
  {
    var b := ByteAt(data, 0);
    if signedChar then SignedChar(b) else b
  }

  /** The (handle, value) record at pos: two handle bytes, then mid(pos + 2, len - 2). */
  function AttributeRecordAt(data: seq<Byte>, pos: nat, len: int): AttributeData
    requires pos + 1 <= |data|
  {
    AttributeData(Le16(ByteAt(data, pos), ByteAt(data, pos + 1)), Mid(data, pos + 2, len - 2))
  }

  /** A record of at least two bytes inside the data is its handle and the bytes after it. */
  lemma AttributeRecordInside(data: seq<Byte>, pos: nat, len: int)
    requires len >= 2 && pos + len <= |data|
    ensures AttributeRecordAt(data, pos, len) == AttributeData(Le16At(data, pos), data[pos + 2 .. pos + len])
  {
  }

  /** The records from pos on, one for every whole len bytes left; a partial last record is dropped. */
  function AttributeRecords(data: seq<Byte>, pos: nat, len: nat): seq<AttributeData>
    requires len >= 1 && pos <= |data|
    decreases |data| - pos
  {
    if |data| - pos < len then []
    else [AttributeRecordAt(data, pos, len)] + AttributeRecords(data, pos + len, len)
  }

  /**
   * parseAttributeData divides by the length byte, so a length of 0 (or an
   * empty array) is excluded. Every other length is defined: a record's two
   * handle bytes end at the terminating zero at the latest.
   */
  predicate AttributeListDefined(data: seq<Byte>, signedChar: bool) {
    ItemLength(data, signedChar) != 0
  }

  /** parseAttributeData; a negative length gives items <= 0 and so no record. */
  function AttributeDataList(data: seq<Byte>, signedChar: bool): seq<AttributeData>
    requires AttributeListDefined(data, signedChar)
  {
    var len := ItemLength(data, signedChar);
    if len < 0 then [] else AttributeRecords(data, 1, len)
  }

  /** One record per whole len bytes from pos. */
  lemma {:induction false} AttributeRecordsCount(data: seq<Byte>, pos: nat, len: nat)
    requires len >= 1 && pos <= |data|
    ensures |AttributeRecords(data, pos, len)| == (|data| - pos) / len
    decreases |data| - pos
  {
    DivStep(|data| - pos, len);
    if |data| - pos >= len {
      AttributeRecordsCount(data, pos + len, len);
    }
  }

  /** With a whole record left, the list is that record, then the records after it. */
  lemma AttributeRecordsCons(data: seq<Byte>, pos: nat, len: nat)
    requires len >= 1 && pos + len <= |data|
    ensures AttributeRecords(data, pos, len) ==
            [AttributeRecordAt(data, pos, len)] + AttributeRecords(data, pos + len, len)
  {
  }

  /** Where record i starts when records of len bytes start at pos. */
  function Offset(pos: nat, len: nat, i: nat): nat
    decreases i
  {
    if i == 0 then pos else Offset(pos + len, len, i - 1)
  }

  /** Record i starts i * len bytes after the first. */
  lemma {:induction false} OffsetIsProduct(pos: nat, len: nat, i: nat)
    ensures Offset(pos, len, i) == pos + i * len
    decreases i
  {
    if i > 0 {
      OffsetIsProduct(pos + len, len, i - 1);
      assert (i - 1) * len + len == i * len;
    }
  }

  /** The record after record i starts len bytes after it. */
  lemma OffsetNext(pos: nat, len: nat, i: nat)
    ensures Offset(pos, len, i + 1) == Offset(pos, len, i) + len
  {
    OffsetIsProduct(pos, len, i);
    OffsetIsProduct(pos, len, i + 1);
    assert (i + 1) * len == i * len + len;
  }

  /** Record i from pos sits at Offset(pos, len, i) and ends inside the data. */
  lemma {:induction false} AttributeRecordsAt(data: seq<Byte>, pos: nat, len: nat, i: nat)
    requires len >= 1 && pos <= |data| && i < |AttributeRecords(data, pos, len)|
    ensures Offset(pos, len, i) + len <= |data|
    ensures AttributeRecords(data, pos, len)[i] == AttributeRecordAt(data, Offset(pos, len, i), len)
    decreases i
  {
    assert |data| - pos >= len;
    AttributeRecordsCons(data, pos, len);
    if i > 0 {
      AttributeRecordsAt(data, pos + len, len, i - 1);
    }
  }

  /** The list holds (|data| - 1) / L records for a positive length L and none for a negative one. */
  lemma AttributeDataCount(data: seq<Byte>, signedChar: bool)
    requires AttributeListDefined(data, signedChar)
    ensures ItemLength(data, signedChar) > 0 ==>
              |AttributeDataList(data, signedChar)| == (|data| - 1) / ItemLength(data, signedChar)
    ensures ItemLength(data, signedChar) < 0 ==> AttributeDataList(data, signedChar) == []
  {
    if ItemLength(data, signedChar) > 0 {
      AttributeRecordsCount(data, 1, ItemLength(data, signedChar));
    }
  }

  /**
   * Record i of the list is read at 1 + i * L; for L >= 2 it is the handle
   * there and the L - 2 bytes after it.
   */
  lemma AttributeDataAt(data: seq<Byte>, signedChar: bool, i: nat)
    requires AttributeListDefined(data, signedChar) && i < |AttributeDataList(data, signedChar)|
    ensures ItemLength(data, signedChar) > 0
    ensures 1 + i * ItemLength(data, signedChar) + ItemLength(data, signedChar) <= |data|
    ensures AttributeDataList(data, signedChar)[i] ==
            AttributeRecordAt(data, 1 + i * ItemLength(data, signedChar), ItemLength(data, signedChar))
    ensures ItemLength(data, signedChar) >= 2 ==>
              var len := ItemLength(data, signedChar);
              AttributeDataList(data, signedChar)[i] ==
              AttributeData(Le16At(data, 1 + i * len), data[1 + i * len + 2 .. 1 + i * len + len])
  {
    var len := ItemLength(data, signedChar);
    AttributeRecordsAt(data, 1, len, i);
    OffsetIsProduct(1, len, i);
    if len >= 2 {
      AttributeRecordInside(data, 1 + i * len, len);
    }
  }

  /** parseAttributeData, record by record. */
  method ParseAttributeData(data: seq<Byte>, signedChar: bool) returns (list: seq<AttributeData>)
    requires AttributeListDefined(data, signedChar)
    ensures list == AttributeDataList(data, signedChar)
  {
    ghost var spec := AttributeDataList(data, signedChar);
    var itemLen := ItemLength(data, signedChar);
    var items := TruncDiv(|data| - 1, itemLen);
    AttributeDataCount(data, signedChar);
    assert itemLen > 0 ==> spec == AttributeRecords(data, 1, itemLen) && items == |spec|;
    assert itemLen < 0 ==> items <= 0;
    list := [];
    var pos := 1;
    var i := 0;
    while i < items
      invariant 0 <= i && 1 <= pos
      invariant itemLen < 0 ==> i == 0
      invariant itemLen > 0 ==> i <= items && pos == Offset(1, itemLen, i)
      invariant list == spec[..i]
    {
      assert itemLen > 0;
      AttributeRecordsAt(data, 1, itemLen, i);
      var d := AttributeData(Le16(ByteAt(data, pos), ByteAt(data, pos + 1)), Mid(data, pos + 2, itemLen - 2));
      assert d == spec[i];
      list := list + [d];
      OffsetNext(1, itemLen, i);
      pos := pos + itemLen;
      i := i + 1;
    }
    assert spec[..i] == spec;
  }

  /** A Read By Type record as a server lays it out: handle, then the value. */
  function EncodeAttributeData(r: AttributeData): seq<Byte> {
    Le16Bytes(r.handle) + r.value
  }

  /** The bytes from pos on are the first part, then the second. */
  lemma SuffixParts(data: seq<Byte>, pos: nat, first: seq<Byte>, rest: seq<Byte>)
    requires pos <= |data| && data[pos..] == first + rest
    ensures pos + |first| <= |data|
    ensures data[pos .. pos + |first|] == first
    ensures data[pos + |first|..] == rest
  {
    assert data[pos .. pos + |first|] == data[pos..][..|first|];
    assert data[pos + |first|..] == data[pos..][|first|..];
  }

  /** The first laid-out record is read at pos, and the others follow len bytes later. */
  lemma AttributeConcatHead(data: seq<Byte>, pos: nat, len: nat, recs: seq<AttributeData>)
    requires len >= 2 && pos <= |data| && recs != [] && |recs[0].value| == len - 2
    requires data[pos..] == Concat(recs, EncodeAttributeData)
    ensures pos + len <= |data|
    ensures AttributeRecordAt(data, pos, len) == recs[0]
    ensures data[pos + len..] == Concat(recs[1..], EncodeAttributeData)
  {
    var first := EncodeAttributeData(recs[0]);
    var h := Le16Bytes(recs[0].handle);
    SuffixParts(data, pos, first, Concat(recs[1..], EncodeAttributeData));
    assert data[pos] == first[0] == h[0] && data[pos + 1] == first[1] == h[1];
    assert data[pos + 2 .. pos + len] == first[2..] == recs[0].value;
    AttributeRecordInside(data, pos, len);
  }

  /** Laid-out records whose values all have length len - 2 are read back from where they start. */
  lemma {:induction false} AttributeRecordsOfConcat(data: seq<Byte>, pos: nat, len: nat, recs: seq<AttributeData>)
    requires len >= 2 && pos <= |data| && data[pos..] == Concat(recs, EncodeAttributeData)
    requires forall k :: 0 <= k < |recs| ==> |recs[k].value| == len - 2
    ensures AttributeRecords(data, pos, len) == recs
    decreases |recs|
  {
    if recs != [] {
      AttributeConcatHead(data, pos, len, recs);
      AttributeRecordsCons(data, pos, len);
      AttributeRecordsOfConcat(data, pos + len, len, recs[1..]);
      assert AttributeRecords(data, pos, len) == [recs[0]] + recs[1..];
    } else {
      assert |data[pos..]| == 0;
      assert AttributeRecords(data, pos, len) == [];
    }
  }

  /** Records whose values all have length len - 2, behind the length byte len, are read back. */
  lemma AttributeDataRoundTrip(len: Byte, recs: seq<AttributeData>, signedChar: bool)
    requires 2 <= len < 0x80
    requires forall k :: 0 <= k < |recs| ==> |recs[k].value| == len - 2
    ensures AttributeListDefined([len] + Concat(recs, EncodeAttributeData), signedChar)
    ensures AttributeDataList([len] + Concat(recs, EncodeAttributeData), signedChar) == recs
  {
    var data := [len] + Concat(recs, EncodeAttributeData);
    assert data[1..] == Concat(recs, EncodeAttributeData);
    AttributeRecordsOfConcat(data, 1, len, recs);
  }

  /**
   * A length of 1 is defined behaviour: each record reads its handle up to
   * the terminating zero, and mid() with length -1 gives nothing once the
   * position is past the end.
   */
  lemma ShortAttributeLengthExample(signedChar: bool)
    ensures AttributeListDefined([0x01, 0xAA, 0xBB], signedChar)
    ensures AttributeDataList([0x01, 0xAA, 0xBB], signedChar) ==
            [AttributeData(0xBBAA, []), AttributeData(0x00BB, [])]
  {
    var a: seq<Byte> := [0x01, 0xAA, 0xBB];
    assert ItemLength(a, signedChar) == 1;
    assert ByteAt(a, 1) == 0xAA && ByteAt(a, 2) == 0xBB && ByteAt(a, 3) == 0;
    assert Mid(a, 3, -1) == [] && Mid(a, 4, -1) == [];
    assert AttributeRecords(a, 3, 1) == [];
    assert AttributeRecords(a, 2, 1) == [AttributeData(0x00BB, [])];
  }

  /** With a length of 1, mid() with length -1 takes the rest of the array as the value. */
  lemma ShortAttributeValueExample(signedChar: bool)
    ensures AttributeListDefined([0x01, 0x01, 0x00, 0x02], signedChar)
    ensures AttributeDataList([0x01, 0x01, 0x00, 0x02], signedChar) ==
            [AttributeData(0x0001, [0x02]), AttributeData(0x0200, []), AttributeData(0x0002, [])]
  {
    var b: seq<Byte> := [0x01, 0x01, 0x00, 0x02];
    assert ItemLength(b, signedChar) == 1;
    assert ByteAt(b, 1) == 1 && ByteAt(b, 2) == 0 && ByteAt(b, 3) == 2 && ByteAt(b, 4) == 0;
    assert Mid(b, 3, -1) == [0x02] && Mid(b, 4, -1) == [] && Mid(b, 5, -1) == [];
    assert AttributeRecords(b, 4, 1) == [];
    assert AttributeRecords(b, 3, 1) == [AttributeData(0x0002, [])];
    assert AttributeRecords(b, 2, 1) == [AttributeData(0x0200, []), AttributeData(0x0002, [])];
  }

  /** The (start, end, value) record at pos: four handle bytes, then mid(pos + 4, len - 4). */
  function AttributeGroupRecordAt(data: seq<Byte>, pos: nat, len: int): AttributeGroupData
    requires pos + 3 <= |data|
  {
    AttributeGroupData(Le16(ByteAt(data, pos), ByteAt(data, pos + 1)),
                       Le16(ByteAt(data, pos + 2), ByteAt(data, pos + 3)),
                       Mid(data, pos + 4, len - 4))
  }

  /** A group record of at least four bytes inside the data is its two handles and the bytes after them. */
  lemma AttributeGroupRecordInside(data: seq<Byte>, pos: nat, len: int)
    requires len >= 4 && pos + len <= |data|
    ensures AttributeGroupRecordAt(data, pos, len) ==
            AttributeGroupData(Le16At(data, pos), Le16At(data, pos + 2), data[pos + 4 .. pos + len])
  {
  }

  /**
   * Every group record read from pos on has its four handle bytes no
   * further than the terminating zero. Only lengths 1 and 2 can break this.
   */
  predicate GroupReadsFit(data: seq<Byte>, pos: nat, len: nat)
    requires len >= 1 && pos <= |data|
    decreases |data| - pos
  {
    |data| - pos < len || (pos + 3 <= |data| && GroupReadsFit(data, pos + len, len))
  }

  /** The group records from pos on, one for every whole len bytes left; a partial last record is dropped. */
  function AttributeGroupRecords(data: seq<Byte>, pos: nat, len: nat): seq<AttributeGroupData>
    requires len >= 1 && pos <= |data| && GroupReadsFit(data, pos, len)
    decreases |data| - pos
  {
    if |data| - pos < len then []
    else [AttributeGroupRecordAt(data, pos, len)] + AttributeGroupRecords(data, pos + len, len)
  }

  /**
   * parseAttributeGroupData divides by the length byte, so a length of 0 is
   * excluded, and a record's end handle is read at pos + 2 and pos + 3, so a
   * length of 1 or 2 is defined only where no such read passes the
   * terminating zero.
   */
  predicate AttributeGroupListDefined(data: seq<Byte>, signedChar: bool) {
    var len := ItemLength(data, signedChar);
    len != 0 && (len < 0 || GroupReadsFit(data, 1, len))
  }

  /** parseAttributeGroupData; a negative length gives items <= 0 and so no record. */
  function AttributeGroupDataList(data: seq<Byte>, signedChar: bool): seq<AttributeGroupData>
    requires AttributeGroupListDefined(data, signedChar)
  {
    var len := ItemLength(data, signedChar);
    if len < 0 then [] else AttributeGroupRecords(data, 1, len)
  }

  /** A length of 3 or more never reads past the terminating zero. */
  lemma {:induction false} LongGroupRecordsFit(data: seq<Byte>, pos: nat, len: nat)
    requires len >= 3 && pos <= |data|
    ensures GroupReadsFit(data, pos, len)
    decreases |data| - pos
  {
    if |data| - pos >= len {
      LongGroupRecordsFit(data, pos + len, len);
    }
  }

  /** A length byte of 3 or more, or a negative one, makes parseAttributeGroupData defined. */
  lemma GroupListDefinedByLength(data: seq<Byte>, signedChar: bool)
    requires ItemLength(data, signedChar) < 0 || ItemLength(data, signedChar) >= 3
    ensures AttributeGroupListDefined(data, signedChar)
  {
    if ItemLength(data, signedChar) >= 3 {
      LongGroupRecordsFit(data, 1, ItemLength(data, signedChar));
    }
  }

  /** One group record per whole len bytes from pos. */
  lemma {:induction false} AttributeGroupRecordsCount(data: seq<Byte>, pos: nat, len: nat)
    requires len >= 1 && pos <= |data| && GroupReadsFit(data, pos, len)
    ensures |AttributeGroupRecords(data, pos, len)| == (|data| - pos) / len
    decreases |data| - pos
  {
    DivStep(|data| - pos, len);
    if |data| - pos >= len {
      AttributeGroupRecordsCount(data, pos + len, len);
    }
  }

  /** With a whole group record left, the list is that record, then the records after it. */
  lemma AttributeGroupRecordsCons(data: seq<Byte>, pos: nat, len: nat)
    requires len >= 1 && pos + len <= |data| && GroupReadsFit(data, pos, len)
    ensures pos + 3 <= |data| && GroupReadsFit(data, pos + len, len)
    ensures AttributeGroupRecords(data, pos, len) ==
            [AttributeGroupRecordAt(data, pos, len)] + AttributeGroupRecords(data, pos + len, len)
  {
  }

  /** Group record i from pos sits at Offset(pos, len, i) and ends inside the data. */
  lemma {:induction false} AttributeGroupRecordsAt(data: seq<Byte>, pos: nat, len: nat, i: nat)
    requires len >= 1 && pos <= |data| && GroupReadsFit(data, pos, len)
    requires i < |AttributeGroupRecords(data, pos, len)|
    ensures Offset(pos, len, i) + len <= |data| && Offset(pos, len, i) + 3 <= |data|
    ensures AttributeGroupRecords(data, pos, len)[i] == AttributeGroupRecordAt(data, Offset(pos, len, i), len)
    decreases i
  {
    assert |data| - pos >= len;
    AttributeGroupRecordsCons(data, pos, len);
    if i > 0 {
      AttributeGroupRecordsAt(data, pos + len, len, i - 1);
    }
  }

  /** The group list holds (|data| - 1) / L records for a positive length L and none for a negative one. */
  lemma AttributeGroupDataCount(data: seq<Byte>, signedChar: bool)
    requires AttributeGroupListDefined(data, signedChar)
    ensures ItemLength(data, signedChar) > 0 ==>
              |AttributeGroupDataList(data, signedChar)| == (|data| - 1) / ItemLength(data, signedChar)
    ensures ItemLength(data, signedChar) < 0 ==> AttributeGroupDataList(data, signedChar) == []
  {
    if ItemLength(data, signedChar) > 0 {
      AttributeGroupRecordsCount(data, 1, ItemLength(data, signedChar));
    }
  }

  /**
   * Group record i of the list is read at 1 + i * L; for L >= 4 it is the
   * start and end handles there and the L - 4 bytes after them.
   */
  lemma AttributeGroupDataAt(data: seq<Byte>, signedChar: bool, i: nat)
    requires AttributeGroupListDefined(data, signedChar) && i < |AttributeGroupDataList(data, signedChar)|
    ensures ItemLength(data, signedChar) > 0
    ensures 1 + i * ItemLength(data, signedChar) + ItemLength(data, signedChar) <= |data|
    ensures 1 + i * ItemLength(data, signedChar) + 3 <= |data|
    ensures AttributeGroupDataList(data, signedChar)[i] ==
            AttributeGroupRecordAt(data, 1 + i * ItemLength(data, signedChar), ItemLength(data, signedChar))
    ensures ItemLength(data, signedChar) >= 4 ==>
              var len := ItemLength(data, signedChar);
              AttributeGroupDataList(data, signedChar)[i] ==
              AttributeGroupData(Le16At(data, 1 + i * len), Le16At(data, 1 + i * len + 2),
                                 data[1 + i * len + 4 .. 1 + i * len + len])
  {
    var len := ItemLength(data, signedChar);
    AttributeGroupRecordsAt(data, 1, len, i);
    OffsetIsProduct(1, len, i);
    if len >= 4 {
      AttributeGroupRecordInside(data, 1 + i * len, len);
    }
  }

  /** parseAttributeGroupData, record by record. */
  method ParseAttributeGroupData(data: seq<Byte>, signedChar: bool) returns (list: seq<AttributeGroupData>)
    requires AttributeGroupListDefined(data, signedChar)
    ensures list == AttributeGroupDataList(data, signedChar)
  {
    ghost var spec := AttributeGroupDataList(data, signedChar);
    var itemLen := ItemLength(data, signedChar);
    var items := TruncDiv(|data| - 1, itemLen);
    AttributeGroupDataCount(data, signedChar);
    assert itemLen > 0 ==> spec == AttributeGroupRecords(data, 1, itemLen) && items == |spec|;
    assert itemLen < 0 ==> items <= 0;
    list := [];
    var pos := 1;
    var i := 0;
    while i < items
      invariant 0 <= i && 1 <= pos
      invariant itemLen < 0 ==> i == 0
      invariant itemLen > 0 ==> i <= items && pos == Offset(1, itemLen, i)
      invariant list == spec[..i]
    {
      assert itemLen > 0;
      AttributeGroupRecordsAt(data, 1, itemLen, i);
      var d := AttributeGroupData(Le16(ByteAt(data, pos), ByteAt(data, pos + 1)),
                                  Le16(ByteAt(data, pos + 2), ByteAt(data, pos + 3)),
                                  Mid(data, pos + 4, itemLen - 4));
      assert d == spec[i];
      list := list + [d];
      OffsetNext(1, itemLen, i);
      pos := pos + itemLen;
      i := i + 1;
    }
    assert spec[..i] == spec;
  }

  /** A Read By Group Type record as a server lays it out: start, end, then the value. */
  function EncodeAttributeGroupData(r: AttributeGroupData): seq<Byte> {
    Le16Bytes(r.start) + Le16Bytes(r.end) + r.value
  }

  /** The first laid-out group record is read at pos, and the others follow len bytes later. */
  lemma AttributeGroupConcatHead(data: seq<Byte>, pos: nat, len: nat, recs: seq<AttributeGroupData>)
    requires len >= 4 && pos <= |data| && recs != [] && |recs[0].value| == len - 4
    requires data[pos..] == Concat(recs, EncodeAttributeGroupData)
    ensures pos + len <= |data|
    ensures AttributeGroupRecordAt(data, pos, len) == recs[0]
    ensures data[pos + len..] == Concat(recs[1..], EncodeAttributeGroupData)
  {
    var first := EncodeAttributeGroupData(recs[0]);
    var s, e := Le16Bytes(recs[0].start), Le16Bytes(recs[0].end);
    SuffixParts(data, pos, first, Concat(recs[1..], EncodeAttributeGroupData));
    assert data[pos] == first[0] == s[0] && data[pos + 1] == first[1] == s[1];
    assert data[pos + 2] == first[2] == e[0] && data[pos + 3] == first[3] == e[1];
    assert data[pos + 4 .. pos + len] == first[4..] == recs[0].value;
    AttributeGroupRecordInside(data, pos, len);
  }

  /** Laid-out group records whose values all have length len - 4 are read back from where they start. */
  lemma {:induction false} AttributeGroupRecordsOfConcat(data: seq<Byte>, pos: nat, len: nat,
                                                         recs: seq<AttributeGroupData>)
    requires len >= 4 && pos <= |data| && data[pos..] == Concat(recs, EncodeAttributeGroupData)
    requires forall k :: 0 <= k < |recs| ==> |recs[k].value| == len - 4
    ensures GroupReadsFit(data, pos, len)
    ensures AttributeGroupRecords(data, pos, len) == recs
    decreases |recs|
  {
    LongGroupRecordsFit(data, pos, len);
    if recs != [] {
      AttributeGroupConcatHead(data, pos, len, recs);
      AttributeGroupRecordsCons(data, pos, len);
      AttributeGroupRecordsOfConcat(data, pos + len, len, recs[1..]);
      assert AttributeGroupRecords(data, pos, len) == [recs[0]] + recs[1..];
    } else {
      assert |data[pos..]| == 0;
      assert AttributeGroupRecords(data, pos, len) == [];
    }
  }

  /** Records whose values all have length len - 4, behind the length byte len, are read back. */
  lemma AttributeGroupDataRoundTrip(len: Byte, recs: seq<AttributeGroupData>, signedChar: bool)
    requires 4 <= len < 0x80
    requires forall k :: 0 <= k < |recs| ==> |recs[k].value| == len - 4
    ensures AttributeGroupListDefined([len] + Concat(recs, EncodeAttributeGroupData), signedChar)
    ensures AttributeGroupDataList([len] + Concat(recs, EncodeAttributeGroupData), signedChar) == recs
  {
    var data := [len] + Concat(recs, EncodeAttributeGroupData);
    assert data[1..] == Concat(recs, EncodeAttributeGroupData);
    AttributeGroupRecordsOfConcat(data, 1, len, recs);
  }

  /**
   * Short group lengths: with length 3 the end handle's high byte is the
   * terminating zero and the value is empty; with length 2 the last record
   * of [0x02, 1, 0, 2, 0] would read two bytes past the data.
   */
  lemma ShortGroupLengthExample(signedChar: bool)
    ensures AttributeGroupListDefined([0x03, 0x01, 0x00, 0x02], signedChar)
    ensures AttributeGroupDataList([0x03, 0x01, 0x00, 0x02], signedChar) ==
            [AttributeGroupData(0x0001, 0x0002, [])]
    ensures !AttributeGroupListDefined([0x02, 0x01, 0x00, 0x02, 0x00], signedChar)
  {
    var a: seq<Byte> := [0x03, 0x01, 0x00, 0x02];
    assert ItemLength(a, signedChar) == 3;
    LongGroupRecordsFit(a, 1, 3);
    assert ByteAt(a, 1) == 1 && ByteAt(a, 2) == 0 && ByteAt(a, 3) == 2 && ByteAt(a, 4) == 0;
    assert Mid(a, 5, -1) == [];
    assert AttributeGroupRecords(a, 4, 3) == [];
    var b: seq<Byte> := [0x02, 0x01, 0x00, 0x02, 0x00];
    assert ItemLength(b, signedChar) == 2;
    assert !GroupReadsFit(b, 3, 2);
    assert !GroupReadsFit(b, 1, 2);
  }

  /**
   * A length byte of 0x80 or more reads as negative where `char` is signed,
   * and then both lists are empty.
   */
  lemma NegativeLengthGivesNoRecords(data: seq<Byte>)
    requires |data| >= 1 && data[0] >= 0x80
    ensures AttributeListDefined(data, true) && AttributeDataList(data, true) == []
    ensures AttributeGroupListDefined(data, true) && AttributeGroupDataList(data, true) == []
  {
  }

  /**
   * Where `char` is unsigned the same byte is a length of 128 or more: a
   * Read By Type list of 0x80 and 128 bytes is one record.
   */
  lemma UnsignedLengthReadsRecords(data: seq<Byte>)
    requires |data| == 0x81 && data[0] == 0x80
    ensures AttributeListDefined(data, false)
    ensures AttributeDataList(data, false) == [AttributeData(Le16At(data, 1), data[3..])]
  {
    AttributeRecordsCount(data, 1, 0x80);
    var list := AttributeDataList(data, false);
    assert |list| == 1;
    AttributeDataAt(data, false, 0);
    assert data[3 .. 1 + 0x80] == data[3..];
    assert list == [list[0]];
  }

  /**
   * A Read By Type payload of ten bytes with length byte 7 holds one record
   * (handle 0x0001, five value bytes); the two bytes after it are ignored.
   */
  lemma ReadByTypeExample(signedChar: bool)
    ensures AttributeListDefined([0x07, 0x01, 0x00, 0x02, 0x03, 0x00, 0x28, 0x01, 0x00, 0x28], signedChar)
    ensures AttributeDataList([0x07, 0x01, 0x00, 0x02, 0x03, 0x00, 0x28, 0x01, 0x00, 0x28], signedChar) ==
            [AttributeData(0x0001, [0x02, 0x03, 0x00, 0x28, 0x01])]
  {
    var data: seq<Byte> := [0x07, 0x01, 0x00, 0x02, 0x03, 0x00, 0x28, 0x01, 0x00, 0x28];
    assert AttributeRecords(data, 8, 7) == [];
    assert data[3..8] == [0x02, 0x03, 0x00, 0x28, 0x01];
  }
}
