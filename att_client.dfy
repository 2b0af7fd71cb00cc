/**
 * The ATT client engine of gatoatt.cpp: a FIFO of pending requests whose
 * head is the one sent to the server, the dispatch of incoming packets to
 * events or to the head request, and the MTU bookkeeping. The sequential
 * protocol of section 3.3.2 of the ATT chapter allows one request on the
 * air at a time; cancelling the head that was sent breaks that (see
 * GatoAtt.Sequential).
 *
 * The socket is replaced by `sent`, the log of packets handed to it, and by
 * the packet given to HandleSocketReadyRead. Qt's invokeMethod and signals
 * become returned values (Invocation, Signal).
 */
module AttClient {
  import opened Types
  import opened Uuid
  import opened AttPdu

  /** The QObject a request reports to: none, the engine itself, or a client object. */
  datatype Receiver = NoReceiver | Engine | Client(id: nat)

  /** Request of gatoattclient.h: the packet is the opcode byte followed by the payload. */
  datatype Request = PendingRequest(id: UInt32, opcode: Byte, pkt: seq<Byte>, receiver: Receiver, member: seq<char>)

  /** The decoded answer handed to the receiver's slot. */
  datatype Completion =
    | MtuExchanged(id: UInt32, serverMtu: Byte)
    | InformationFound(id: UInt32, information: seq<InformationData>)
    | HandlesFound(id: UInt32, handles: seq<HandleInformation>)
    | AttributesRead(id: UInt32, attributes: seq<AttributeData>)
    | ValueRead(id: UInt32, value: seq<Byte>)
    | GroupsRead(id: UInt32, groups: seq<AttributeGroupData>)
    | Written(id: UInt32, ok: bool)
    | RawResponse(response: seq<Byte>)

  /** An invokeMethod call: the slot `member` of `receiver` with the completion's arguments. */
  datatype Invocation = Invocation(receiver: Receiver, member: seq<char>, completion: Completion)

  /** The signals of the engine. */
  datatype Signal = Connected | Disconnected | AttributeUpdated(handle: Handle, value: seq<Byte>, confirmed: bool)

  // ---------------------------------------------------------------------
  // remove_method_signature

  function FirstIndex(s: seq<char>, c: char): (i: nat)
    requires c in s
    ensures i < |s| && s[i] == c && c !in s[..i]
  {
    if s[0] == c then 0
    else
      var j := FirstIndex(s[1..], c);
      assert s[..j + 1] == [s[0]] + s[1..][..j];
      j + 1
  }

  /** What the SLOT and SIGNAL macros produce: a code digit 0-3, then the name and its parameter list. */
  predicate IsMethodSignature(sig: seq<char>) {
    |sig| > 0 && '0' <= sig[0] <= '3' && '(' in sig
  }

  /**
   * remove_method_signature: the characters between the code digit and the
   * first '(', or nothing when `sig` is not a method signature.
   */
  function RemoveMethodSignature(sig: seq<char>): (name: seq<char>)
    ensures !IsMethodSignature(sig) ==> name == []
    ensures IsMethodSignature(sig) ==>
              |name| + 2 <= |sig| && sig[..|name| + 2] == [sig[0]] + name + ['('] && '(' !in name
  {
    if IsMethodSignature(sig) then
      var p := FirstIndex(sig, '(');
      assert p > 0 by {
        assert sig[0] != '(';
      }
      assert sig[..p + 1] == [sig[0]] + sig[1..p] + ['('];
      assert forall x :: x in sig[1..p] ==> x in sig[..p];
      sig[1..p]
    else []
  }

  /** The first occurrence is the index where `c` occurs and does not occur before. */
  lemma {:induction false} FirstIndexIs(s: seq<char>, c: char, i: nat)
    requires i < |s| && s[i] == c && c !in s[..i]
    ensures FirstIndex(s, c) == i
  {
    if i > 0 {
      assert s[0] in s[..i];
      assert s[1..][..i - 1] == s[1..i];
      assert forall x :: x in s[1..i] ==> x in s[..i];
      FirstIndexIs(s[1..], c, i - 1);
    }
  }

  /** The name inside SLOT(name(params)) is recovered. */
  lemma MethodSignatureRoundTrip(code: char, name: seq<char>, params: seq<char>)
    requires '0' <= code <= '3' && '(' !in name
    ensures RemoveMethodSignature([code] + name + ['('] + params) == name
  {
    var sig := [code] + name + ['('] + params;
    assert sig[..|name| + 1] == [code] + name;
    FirstIndexIs(sig, '(', |name| + 1);
    assert sig[1..|name| + 1] == name;
  }

  // ---------------------------------------------------------------------
  // handleEvent

  /** The fixed offsets read by handleEvent exist (reading index |pkt| sees the terminating zero). */
  predicate EventDefined(pkt: seq<Byte>) {
    |pkt| >= 1 && (pkt[0] == HandleValueNotification || pkt[0] == HandleValueIndication ==> |pkt| >= 2)
  }

  /**
   * handleEvent: a notification or an indication carries a handle and the
   * value after it; any other opcode is not an event.
   */
  function EventOf(pkt: seq<Byte>): (s: Option<Signal>)
    requires EventDefined(pkt)
    ensures s.Some? <==> pkt[0] == HandleValueNotification || pkt[0] == HandleValueIndication
    ensures s.Some? ==> s.value.AttributeUpdated? && s.value.confirmed == (pkt[0] == HandleValueIndication)
  {
    if pkt[0] == HandleValueNotification || pkt[0] == HandleValueIndication then
      Some(AttributeUpdated(Le16(pkt[1], ByteAt(pkt, 2)),
                            if |pkt| >= 3 then pkt[3..] else [],
                            pkt[0] == HandleValueIndication))
    else None
  }

  /** A Handle Value Notification (confirmed false) or Indication (confirmed true) as a server sends it. */
  function UpdatePdu(handle: Handle, value: seq<Byte>, confirmed: bool): seq<Byte> {
    [if confirmed then HandleValueIndication else HandleValueNotification] + Le16Bytes(handle) + value
  }

  /** An update sent by a server is reported with its handle, value and kind. */
  lemma UpdateRoundTrip(handle: Handle, value: seq<Byte>, confirmed: bool)
    ensures EventDefined(UpdatePdu(handle, value, confirmed))
    ensures EventOf(UpdatePdu(handle, value, confirmed)) == Some(AttributeUpdated(handle, value, confirmed))
  {
    var pkt := UpdatePdu(handle, value, confirmed);
    assert pkt[3..] == value;
  }

  /** Every reported update of a packet of three bytes or more is the packet that a server would send for it. */
  lemma UpdateIsPdu(pkt: seq<Byte>)
    requires |pkt| >= 3 && EventOf(pkt).Some?
    ensures var u := EventOf(pkt).value; pkt == UpdatePdu(u.handle, u.value, u.confirmed)
  {
    var u := EventOf(pkt).value;
    assert Le16Bytes(u.handle) == pkt[1..3];
  }

  // ---------------------------------------------------------------------
  // handleResponse

  /** The seven requests whose answers handleResponse decodes. */
  predicate Known(op: Byte) {
    op == ExchangeMtuRequest || op == FindInformationRequest || op == FindByTypeValueRequest ||
    op == ReadByTypeRequest || op == ReadRequest || op == ReadByGroupTypeRequest || op == WriteRequest
  }

  /** The answer opcode of each known request is the request opcode plus one. */
  lemma ResponseOpcodes()
    ensures ExchangeMtuResponse == ExchangeMtuRequest + 1
    ensures FindInformationResponse == FindInformationRequest + 1
    ensures FindByTypeValueResponse == FindByTypeValueRequest + 1
    ensures ReadByTypeResponse == ReadByTypeRequest + 1
    ensures ReadResponse == ReadRequest + 1
    ensures ReadByGroupTypeResponse == ReadByGroupTypeRequest + 1
    ensures WriteResponse == WriteRequest + 1
  {
  }

  /**
   * A packet answers a request of opcode `op` when it is its response, or an
   * Error Response naming `op`; a request of any other opcode takes any packet.
   */
  predicate Answers(op: Byte, pkt: seq<Byte>)
    requires |pkt| >= 1
  {
    !Known(op) || pkt[0] == op + 1 || (pkt[0] == ErrorResponse && ByteAt(pkt, 1) == op)
  }

  /**
   * The two attribute list decoders neither divide by zero nor read past the
   * terminating zero (see AttributeListDefined, AttributeGroupListDefined).
   */
  predicate ResponseDefined(op: Byte, pkt: seq<Byte>, signedChar: bool)
    requires |pkt| >= 1
  {
    && (op == ReadByTypeRequest && pkt[0] == ReadByTypeResponse ==> AttributeListDefined(pkt[1..], signedChar))
    && (op == ReadByGroupTypeRequest && pkt[0] == ReadByGroupTypeResponse ==>
          AttributeGroupListDefined(pkt[1..], signedChar))
  }

  /** The callback arguments on an Error Response: an empty result, or write failure. */
  function ErrorCompletion(req: Request): Completion
    requires Known(req.opcode)
  {
    if req.opcode == ExchangeMtuRequest then MtuExchanged(req.id, ExchangeMtuRequest)
    else if req.opcode == FindInformationRequest then InformationFound(req.id, [])
    else if req.opcode == FindByTypeValueRequest then HandlesFound(req.id, [])
    else if req.opcode == ReadByTypeRequest then AttributesRead(req.id, [])
    else if req.opcode == ReadRequest then ValueRead(req.id, [])
    else if req.opcode == ReadByGroupTypeRequest then GroupsRead(req.id, [])
    else Written(req.id, false)
  }

  /**
   * handleResponse: the typed completion of the request `req` by the
   * packet `pkt`, or None when `pkt` does not answer it.
   */
  function HandleResponse(req: Request, pkt: seq<Byte>, hostLittleEndian: bool, signedChar: bool,
                          from128: GatoUInt128 -> GatoUuid): (c: Option<Completion>)
    requires |pkt| >= 1 && ResponseDefined(req.opcode, pkt, signedChar)
    ensures c.Some? <==> Answers(req.opcode, pkt)
    ensures c.Some? && !Known(req.opcode) ==> c.value == RawResponse(pkt)
    ensures c.Some? && Known(req.opcode) && pkt[0] == ErrorResponse ==> c.value == ErrorCompletion(req)
    ensures Known(req.opcode) && pkt[0] == req.opcode + 1 ==> c.Some? && !c.value.RawResponse? && c.value.id == req.id
    ensures req.opcode == ExchangeMtuRequest && pkt[0] == ExchangeMtuResponse ==>
              c == Some(MtuExchanged(req.id, ByteAt(pkt, 1)))
    ensures req.opcode == FindInformationRequest && pkt[0] == FindInformationResponse ==>
              c == Some(InformationFound(req.id, InformationDataList(pkt[1..], hostLittleEndian, from128)))
    ensures req.opcode == FindByTypeValueRequest && pkt[0] == FindByTypeValueResponse ==>
              c == Some(HandlesFound(req.id, HandleInformationList(pkt[1..])))
    ensures req.opcode == ReadByTypeRequest && pkt[0] == ReadByTypeResponse ==>
              c == Some(AttributesRead(req.id, AttributeDataList(pkt[1..], signedChar)))
    ensures req.opcode == ReadRequest && pkt[0] == ReadResponse ==> c == Some(ValueRead(req.id, pkt[1..]))
    ensures req.opcode == ReadByGroupTypeRequest && pkt[0] == ReadByGroupTypeResponse ==>
              c == Some(GroupsRead(req.id, AttributeGroupDataList(pkt[1..], signedChar)))
    ensures req.opcode == WriteRequest && pkt[0] == WriteResponse ==> c == Some(Written(req.id, true))
  {
    var op := req.opcode;
    var r1 := ByteAt(pkt, 1);
    var isError := pkt[0] == ErrorResponse && r1 == op;
    if op == ExchangeMtuRequest then
      if pkt[0] == ExchangeMtuResponse then Some(MtuExchanged(req.id, r1))
      else if isError then Some(MtuExchanged(req.id, r1))
      else None
    else if op == FindInformationRequest then
      if pkt[0] == FindInformationResponse then
        Some(InformationFound(req.id, InformationDataList(pkt[1..], hostLittleEndian, from128)))
      else if isError then Some(InformationFound(req.id, []))
      else None
    else if op == FindByTypeValueRequest then
      if pkt[0] == FindByTypeValueResponse then Some(HandlesFound(req.id, HandleInformationList(pkt[1..])))
      else if isError then Some(HandlesFound(req.id, []))
      else None
    else if op == ReadByTypeRequest then
      if pkt[0] == ReadByTypeResponse then Some(AttributesRead(req.id, AttributeDataList(pkt[1..], signedChar)))
      else if isError then Some(AttributesRead(req.id, []))
      else None
    else if op == ReadRequest then
      if pkt[0] == ReadResponse then Some(ValueRead(req.id, pkt[1..]))
      else if isError then Some(ValueRead(req.id, []))
      else None
    else if op == ReadByGroupTypeRequest then
      if pkt[0] == ReadByGroupTypeResponse then
        Some(GroupsRead(req.id, AttributeGroupDataList(pkt[1..], signedChar)))
      else if isError then Some(GroupsRead(req.id, []))
      else None
    else if op == WriteRequest then
      if pkt[0] == WriteResponse then Some(Written(req.id, true))
      else if isError then Some(Written(req.id, false))
      else None
    else
      Some(RawResponse(pkt))
  }

  /**
   * An Error Response to an MTU exchange hands the callback the request
   * opcode found in byte 1, so the engine takes 2 as the server MTU.
   */
  lemma MtuErrorReportsTwo(req: Request, pkt: seq<Byte>, hostLittleEndian: bool, signedChar: bool,
                           from128: GatoUInt128 -> GatoUuid)
    requires req.opcode == ExchangeMtuRequest && |pkt| >= 2 && pkt[0] == ErrorResponse && pkt[1] == ExchangeMtuRequest
    ensures HandleResponse(req, pkt, hostLittleEndian, signedChar, from128) == Some(MtuExchanged(req.id, 2))
  {
  }

  /** A Find By Type Value answer is decoded with 4-byte Handles Information records. */
  lemma FindByTypeValueAnswer(req: Request, recs: seq<HandleInformation>, hostLittleEndian: bool, signedChar: bool,
                              from128: GatoUInt128 -> GatoUuid)
    requires req.opcode == FindByTypeValueRequest
    ensures var pkt := [FindByTypeValueResponse] + Concat(recs, EncodeHandleInformation);
      HandleResponse(req, pkt, hostLittleEndian, signedChar, from128) == Some(HandlesFound(req.id, recs))
  {
    var pkt := [FindByTypeValueResponse] + Concat(recs, EncodeHandleInformation);
    assert pkt[1..] == Concat(recs, EncodeHandleInformation);
    HandleInformationRoundTrip(recs);
  }

  /** The slot call made for a completed request: only a client object is called back here. */
  function Delivery(req: Request, c: Completion): (inv: Option<Invocation>)
    ensures inv.Some? <==> req.receiver.Client?
    ensures inv.Some? ==> inv.value == Invocation(req.receiver, req.member, c)
  {
    if req.receiver.Client? then Some(Invocation(req.receiver, req.member, c)) else None
  }

  /** The engine's own slot for the MTU answer, and SLOT(handleServerMTU(quint8)). */
  const ServerMtuSlot: seq<char> := "handleServerMTU"
  const ServerMtuSignature: seq<char> := ['1'] + ServerMtuSlot + ['('] + "quint8)"

  lemma ServerMtuSlotName()
    ensures RemoveMethodSignature(ServerMtuSignature) == ServerMtuSlot
  {
    assert forall k :: 0 <= k < |ServerMtuSlot| ==> ServerMtuSlot[k] != '(';
    MethodSignatureRoundTrip('1', ServerMtuSlot, "quint8)");
  }

  /** The MTU after the engine's own handleServerMTU slot has received `c`. */
  function MtuAfter(mtu: Byte, req: Request, c: Completion): (m: Byte)
    ensures m != mtu ==> req.receiver == Engine && c.MtuExchanged? && m == c.serverMtu && m != 0
  {
    if req.receiver == Engine && req.member == ServerMtuSlot && c.MtuExchanged? && c.serverMtu != 0
    then c.serverMtu else mtu
  }

  /**
   * The Server Rx MTU of an Exchange MTU Response is two little-endian bytes
   * (section 3.4.2.2 of the ATT chapter), but handleResponse hands on byte 1
   * alone: the low byte of the server's MTU.
   */
  lemma MtuResponseAsWrittenTruncates(req: Request, serverMtu: UInt16, hostLittleEndian: bool, signedChar: bool,
                                      from128: GatoUInt128 -> GatoUuid)
    requires req.opcode == ExchangeMtuRequest
    ensures HandleResponse(req, [ExchangeMtuResponse] + Le16Bytes(serverMtu), hostLittleEndian, signedChar, from128) ==
            Some(MtuExchanged(req.id, serverMtu % 256))
  {
    var pkt := [ExchangeMtuResponse] + Le16Bytes(serverMtu);
    assert ByteAt(pkt, 1) == Le16Bytes(serverMtu)[0];
  }

  /** A server MTU of 261 (0x0105) reaches handleServerMTU as 5, below the default of 23. */
  lemma MtuResponseAsWrittenExample(req: Request, hostLittleEndian: bool, signedChar: bool,
                                    from128: GatoUInt128 -> GatoUuid)
    requires req.opcode == ExchangeMtuRequest
    ensures HandleResponse(req, [ExchangeMtuResponse, 0x05, 0x01], hostLittleEndian, signedChar, from128) ==
            Some(MtuExchanged(req.id, 5))
    ensures MtuAfter(DefaultLeMtu, req.(receiver := Engine, member := ServerMtuSlot), MtuExchanged(req.id, 5)) == 5
  {
  }

  /** The Server Rx MTU of an Exchange MTU Response: the two bytes after the opcode, little-endian. */
  function ServerRxMtu(pkt: seq<Byte>): (m: Option<UInt16>)
    ensures m.Some? <==> |pkt| >= 3 && pkt[0] == ExchangeMtuResponse
    ensures m.Some? ==> m.value % 256 == pkt[1] && m.value / 256 == pkt[2]
  {
    if |pkt| >= 3 && pkt[0] == ExchangeMtuResponse then Some(Le16At(pkt, 1)) else None
  }

  /**
   * The server MTU as the exchange intends it: a response sets it to the
   * server's 16-bit value (0 is still ignored), and anything else, an Error
   * Response in particular, leaves it as it was.
   */
  function CorrectedMtuAfter(mtu: UInt16, pkt: seq<Byte>): UInt16 {
    match ServerRxMtu(pkt)
    case Some(m) => if m != 0 then m else mtu
    case None => mtu
  }

  /** Every server MTU a server can send is taken whole. */
  lemma ServerRxMtuRoundTrip(mtu: UInt16, serverMtu: UInt16)
    requires serverMtu != 0
    ensures ServerRxMtu([ExchangeMtuResponse] + Le16Bytes(serverMtu)) == Some(serverMtu)
    ensures CorrectedMtuAfter(mtu, [ExchangeMtuResponse] + Le16Bytes(serverMtu)) == serverMtu
  {
    var pkt := [ExchangeMtuResponse] + Le16Bytes(serverMtu);
    assert pkt[1..3] == Le16Bytes(serverMtu);
  }

  /** An Error Response leaves the MTU unchanged. */
  lemma CorrectedMtuIgnoresError(mtu: UInt16, pkt: seq<Byte>)
    requires |pkt| >= 1 && pkt[0] == ErrorResponse
    ensures CorrectedMtuAfter(mtu, pkt) == mtu
  {
  }

  // ---------------------------------------------------------------------
  // cancelRequest's filter

  /** The queue without the entries of identifier `id`, in their original order. */
  function WithoutId(s: seq<Request>, id: UInt32): (r: seq<Request>)
    ensures |r| <= |s|
  {
    if s == [] then []
    else if s[0].id == id then WithoutId(s[1..], id)
    else [s[0]] + WithoutId(s[1..], id)
  }

  /** An entry survives exactly when it was queued and has another identifier. */
  lemma {:induction false} WithoutIdMembers(s: seq<Request>, id: UInt32, x: Request)
    ensures x in WithoutId(s, id) <==> x in s && x.id != id
  {
    if s != [] {
      WithoutIdMembers(s[1..], id, x);
      assert x in s <==> x == s[0] || x in s[1..];
    }
  }

  lemma {:induction false} WithoutIdAppend(a: seq<Request>, b: seq<Request>, id: UInt32)
    ensures WithoutId(a + b, id) == WithoutId(a, id) + WithoutId(b, id)
  {
    if a == [] {
      assert a + b == b;
    } else {
      assert (a + b)[0] == a[0];
      assert (a + b)[1..] == a[1..] + b;
      WithoutIdAppend(a[1..], b, id);
    }
  }

  /** One step of the erase loop: entry i of the rest is dropped or kept. */
  lemma EraseStep(p: seq<Request>, i: nat, original: seq<Request>, j: nat, id: UInt32)
    requires i < |p| && j < |original|
    requires p[..i] == WithoutId(original[..j], id) && p[i..] == original[j..]
    ensures p[i] == original[j]
    ensures p[i].id == id ==>
              var q := p[..i] + p[i + 1..];
              q[..i] == WithoutId(original[..j + 1], id) && q[i..] == original[j + 1..]
    ensures p[i].id != id ==>
              p[..i + 1] == WithoutId(original[..j + 1], id) && p[i + 1..] == original[j + 1..]
  {
    assert p[i] == p[i..][0] == original[j];
    assert original[..j + 1] == original[..j] + [original[j]];
    WithoutIdAppend(original[..j], [original[j]], id);
    assert p[i + 1..] == p[i..][1..];
    assert original[j + 1..] == original[j..][1..];
    if p[i].id != id {
      assert p[..i + 1] == p[..i] + [p[i]];
    } else {
      var q := p[..i] + p[i + 1..];
      assert q[..i] == p[..i];
      assert q[i..] == p[i + 1..];
    }
  }

  /** Erasing a flag keeps "no flag but the first is set"; the new first flag is the old one or unset. */
  lemma EraseFlag(t: seq<bool>, i: nat)
    requires i < |t| && forall k :: 0 < k < |t| ==> !t[k]
    ensures var u := t[..i] + t[i + 1..];
      && (forall k :: 0 < k < |u| ==> !u[k])
      && (i > 0 ==> u[0] == t[0])
      && (i == 0 && |u| > 0 ==> !u[0])
  {
    var u := t[..i] + t[i + 1..];
    assert forall k :: 0 <= k < |u| ==> u[k] == if k < i then t[k] else t[k + 1];
  }

  /** Without an entry of that identifier the queue is unchanged. */
  lemma {:induction false} WithoutAbsentId(s: seq<Request>, id: UInt32)
    requires forall k :: 0 <= k < |s| ==> s[k].id != id
    ensures WithoutId(s, id) == s
  {
    if s != [] {
      WithoutAbsentId(s[1..], id);
    }
  }

  // ---------------------------------------------------------------------
  // The engine

  /** handleSocketReadyRead reads no undefined byte of `pkt`. */
  predicate PacketDefined(pkt: seq<Byte>, pending: seq<Request>, signedChar: bool) {
    pkt != [] ==>
      EventDefined(pkt) &&
      (EventOf(pkt).None? && pending != [] ==> ResponseDefined(pending[0].opcode, pkt, signedChar))
  }

  class GatoAtt {
    /** pending_requests, head first. */
    var pending: seq<Request>
    /** next_id: the identifier of the next request. */
    var nextId: UInt32
    var mtu: Byte
    /** Every packet handed to socket->send, oldest first. */
    var sent: seq<seq<Byte>>
    /** transmitted[k]: pending[k] has been handed to the socket. */
    ghost var transmitted: seq<bool>
    /**
     * The requests handed to the socket whose response has not come back:
     * each one sent adds one, and each packet from the server that is not
     * an event is the response to the oldest of them.
     */
    ghost var onAir: nat

    const hostLittleEndian: bool
    /** Whether `char` is signed on the platform (it decides the attribute list length byte). */
    const signedChar: bool
    const from128: GatoUInt128 -> GatoUuid

    /** Only the head can have been handed to the socket. */
    ghost predicate Valid()
      reads this
    {
      |transmitted| == |pending| && forall k :: 0 < k < |pending| ==> !transmitted[k]
    }

    /**
     * The sequential protocol (section 3.3.2 of the ATT chapter): the head
     * is on the air whenever there is one, and no other request is.
     */
    ghost predicate Sequential()
      reads this
    {
      |transmitted| == |pending| && (pending != [] ==> transmitted[0]) &&
      onAir == (if pending == [] then 0 else 1)
    }

    constructor(hostLittleEndian: bool, signedChar: bool, from128: GatoUInt128 -> GatoUuid)
      ensures Valid() && Sequential()
      ensures pending == [] && nextId == 1 && mtu == DefaultLeMtu && sent == [] && onAir == 0
      ensures this.hostLittleEndian == hostLittleEndian && this.signedChar == signedChar
      ensures this.from128 == from128
    {
      pending := [];
      nextId := 1;
      mtu := DefaultLeMtu;
      sent := [];
      transmitted := [];
      onAir := 0;
      this.hostLittleEndian := hostLittleEndian;
      this.signedChar := signedChar;
      this.from128 := from128;
    }

    /** sendARequest: hands the head's packet to the socket, if there is a head. */
    method SendARequest()
      requires Valid()
      modifies this
      ensures Valid()
      ensures pending == old(pending) && nextId == old(nextId) && mtu == old(mtu)
      ensures sent == old(sent) + (if pending != [] then [pending[0].pkt] else [])
      ensures pending != [] ==> transmitted == old(transmitted)[0 := true]
      ensures pending == [] ==> transmitted == old(transmitted)
      ensures onAir == old(onAir) + (if pending != [] then 1 else 0)
    {
      if pending == [] {
        return;
      }
      sent := sent + [pending[0].pkt];
      transmitted := transmitted[0 := true];
      onAir := onAir + 1;
    }

    /** command: sends a packet outside the request queue. */
    method Command(opcode: int, data: seq<Byte>)
      modifies this
      ensures sent == old(sent) + [[opcode % 0x100] + data]
      ensures pending == old(pending) && transmitted == old(transmitted) && onAir == old(onAir)
      ensures nextId == old(nextId) && mtu == old(mtu)
    {
      sent := sent + [[opcode % 0x100] + data];
    }

    /**
     * What `request` does for a packet of opcode `op` and payload `payload`:
     * it gets the current identifier, is queued last, and is sent at once
     * exactly when the queue was empty.
     */
    twostate predicate Submitted(op: Byte, payload: seq<Byte>, receiver: Receiver, member: seq<char>, id: UInt32)
      reads this
    {
      && id == old(nextId)
      && nextId == (old(nextId) + 1) % 0x1_0000_0000
      && pending == old(pending) + [PendingRequest(id, op, [op] + payload, receiver, RemoveMethodSignature(member))]
      && sent == old(sent) + (if old(pending) == [] then [[op] + payload] else [])
      && (old(pending) == [] ==> transmitted == [true])
      && (old(pending) != [] ==> transmitted == old(transmitted) + [false])
      && onAir == old(onAir) + (if old(pending) == [] then 1 else 0)
      && mtu == old(mtu)
    }

    /**
     * request: queues a request; the opcode is truncated to a byte. It is
     * sent at once when the queue was empty, even if a cancelled request is
     * still on the air.
     */
    method Request(opcode: int, data: seq<Byte>, receiver: Receiver, member: seq<char>) returns (id: UInt32)
      requires Valid()
      modifies this
      ensures Valid()
      ensures Submitted(opcode % 0x100, data, receiver, member, id)
      ensures old(Sequential()) ==> Sequential()
    {
      var op: Byte := opcode % 0x100;
      id := nextId;
      nextId := (nextId + 1) % 0x1_0000_0000;
      var req := PendingRequest(id, op, [op] + data, receiver, RemoveMethodSignature(member));
      pending := pending + [req];
      transmitted := transmitted + [false];
      if |pending| == 1 {
        SendARequest();
      }
    }

    method RequestExchangeMtu(clientMtu: Byte, receiver: Receiver, member: seq<char>) returns (id: UInt32)
      requires Valid()
      modifies this
      ensures Valid()
      ensures Submitted(ExchangeMtuRequest, ExchangeMtuPayload(clientMtu), receiver, member, id)
    {
      id := Request(ExchangeMtuRequest as int, ExchangeMtuPayload(clientMtu), receiver, member);
    }

    method RequestFindInformation(start: Handle, end: Handle, receiver: Receiver, member: seq<char>)
      returns (id: UInt32)
      requires Valid()
      modifies this
      ensures Valid()
      ensures Submitted(FindInformationRequest, FindInformationPayload(start, end), receiver, member, id)
    {
      id := Request(FindInformationRequest as int, FindInformationPayload(start, end), receiver, member);
    }

    /** requestFindByTypeValue: the payload always exists, since toUInt16 always succeeds. */
    method RequestFindByTypeValue(start: Handle, end: Handle, u: GatoUuid, value: seq<Byte>,
                                  streamed: seq<Byte> -> seq<Byte>, receiver: Receiver, member: seq<char>)
      returns (id: UInt32)
      requires Valid()
      modifies this
      ensures Valid()
      ensures Submitted(FindByTypeValueRequest, FindByTypeValuePayload(start, end, u, value, streamed).value,
                        receiver, member, id)
    {
      var payload := FindByTypeValuePayload(start, end, u, value, streamed);
      id := Request(FindByTypeValueRequest as int, payload.value, receiver, member);
    }

    method RequestReadByType(start: Handle, end: Handle, u: GatoUuid, receiver: Receiver, member: seq<char>)
      returns (id: UInt32)
      requires Valid()
      modifies this
      ensures Valid()
      ensures Submitted(ReadByTypeRequest, ReadByTypePayload(start, end, u), receiver, member, id)
    {
      id := Request(ReadByTypeRequest as int, ReadByTypePayload(start, end, u), receiver, member);
    }

    method RequestRead(handle: Handle, receiver: Receiver, member: seq<char>) returns (id: UInt32)
      requires Valid()
      modifies this
      ensures Valid()
      ensures Submitted(ReadRequest, ReadPayload(handle), receiver, member, id)
    {
      id := Request(ReadRequest as int, ReadPayload(handle), receiver, member);
    }

    method RequestReadByGroupType(start: Handle, end: Handle, u: GatoUuid, receiver: Receiver, member: seq<char>)
      returns (id: UInt32)
      requires Valid()
      modifies this
      ensures Valid()
      ensures Submitted(ReadByGroupTypeRequest, ReadByGroupTypePayload(start, end, u), receiver, member, id)
    {
      id := Request(ReadByGroupTypeRequest as int, ReadByGroupTypePayload(start, end, u), receiver, member);
    }

    method RequestWrite(handle: Handle, value: seq<Byte>, receiver: Receiver, member: seq<char>)
      returns (id: UInt32)
      requires Valid()
      modifies this
      ensures Valid()
      ensures Submitted(WriteRequest, WritePayload(handle, value), receiver, member, id)
    {
      id := Request(WriteRequest as int, WritePayload(handle, value), receiver, member);
    }

    /**
     * cancelRequest: erases every entry of identifier `id` and sends
     * nothing, even when the head goes and the next entry has not been sent.
     */
    method CancelRequest(id: UInt32)
      requires Valid()
      modifies this
      ensures Valid()
      ensures pending == WithoutId(old(pending), id)
      ensures sent == old(sent) && nextId == old(nextId) && mtu == old(mtu) && onAir == old(onAir)
      ensures old(pending) != [] && old(pending)[0].id != id ==> transmitted[0] == old(transmitted)[0]
      ensures old(pending) != [] && old(pending)[0].id == id && pending != [] ==> !transmitted[0]
      // cancelling anything but the head keeps the protocol sequential
      ensures old(Sequential()) && (old(pending) == [] || old(pending)[0].id != id) ==> Sequential()
      // cancelling the head leaves its request on the air with nothing pending for its response
      ensures old(Sequential()) && old(pending) != [] && old(pending)[0].id == id ==> onAir == 1 && !Sequential()
    {
      ghost var original := pending;
      ghost var flags := transmitted;
      ghost var j := 0;
      var p := pending;
      ghost var t := transmitted;
      var i := 0;
      while i < |p|
        invariant 0 <= i <= j <= |original| && i <= |p| && |t| == |p| && |flags| == |original|
        invariant forall k :: 0 < k < |t| ==> !t[k]
        invariant p[..i] == WithoutId(original[..j], id)
        invariant p[i..] == original[j..]
        invariant j == 0 ==> t == flags
        invariant i > 0 && original[0].id != id ==> t[0] == flags[0]
        invariant j > 0 && original[0].id == id && p != [] ==> !t[0]
        invariant sent == old(sent) && nextId == old(nextId) && mtu == old(mtu) && onAir == old(onAir)
        decreases |p| - i
      {
        EraseStep(p, i, original, j, id);
        if p[i].id == id {
          EraseFlag(t, i);
          p := p[..i] + p[i + 1..];
          t := t[..i] + t[i + 1..];
        } else {
          i := i + 1;
        }
        j := j + 1;
      }
      assert original[..j] == original;
      pending := p;
      transmitted := t;
      if original != [] && original[0].id != id {
        assert pending == [original[0]] + WithoutId(original[1..], id);
      }
    }

    /**
     * A cancelRequest that keeps the protocol sequential: the head has been
     * sent, so when it is cancelled it stays queued without a receiver and
     * its response is taken and dropped; every other entry of that
     * identifier is erased.
     */
    method CancelRequestKeepingHead(id: UInt32)
      requires Valid()
      modifies this
      ensures Valid()
      ensures old(pending) != [] && old(pending)[0].id == id ==>
                pending == [old(pending)[0].(receiver := NoReceiver)] + WithoutId(old(pending)[1..], id)
      ensures old(pending) == [] || old(pending)[0].id != id ==> pending == WithoutId(old(pending), id)
      ensures sent == old(sent) && nextId == old(nextId) && mtu == old(mtu) && onAir == old(onAir)
      ensures old(Sequential()) ==> Sequential()
    {
      if pending != [] && pending[0].id == id {
        var head := pending[0];
        ghost var headSent := transmitted[0];
        pending := pending[1..];
        transmitted := transmitted[1..];
        CancelRequest(id);
        pending := [head.(receiver := NoReceiver)] + pending;
        transmitted := [headSent] + transmitted;
      } else {
        CancelRequest(id);
      }
    }

    /** handleServerMTU: a server MTU of 0 is ignored. */
    method HandleServerMtu(req: UInt32, serverMtu: Byte)
      modifies this
      ensures mtu == if serverMtu != 0 then serverMtu else old(mtu)
      ensures pending == old(pending) && transmitted == old(transmitted) && onAir == old(onAir)
      ensures sent == old(sent) && nextId == old(nextId)
    {
      if serverMtu != 0 {
        mtu := serverMtu;
      }
    }

    /** handleSocketConnected: asks the server for its MTU, offering the default, then reports the connection. */
    method HandleSocketConnected() returns (s: Signal)
      requires Valid()
      modifies this
      ensures Valid()
      ensures s == Connected
      ensures Submitted(ExchangeMtuRequest, [DefaultLeMtu], Engine, ServerMtuSignature, old(nextId))
      ensures old(Sequential()) ==> Sequential()
    {
      var _ := RequestExchangeMtu(DefaultLeMtu, Engine, ServerMtuSignature);
      s := Connected;
    }

    /** handleSocketDisconnected: reports the disconnection and keeps the queue as it is. */
    method HandleSocketDisconnected() returns (s: Signal)
      ensures s == Disconnected
    {
      s := Disconnected;
    }

    /**
     * handleSocketReadyRead for the received packet `pkt`: an event is
     * reported (an indication confirmed first); otherwise a packet that
     * answers the head completes and dequeues it and sends the next
     * request; anything else is dropped.
     */
    method HandleSocketReadyRead(pkt: seq<Byte>) returns (update: Option<Signal>, invoked: Option<Invocation>)
      requires Valid() && PacketDefined(pkt, pending, signedChar)
      modifies this
      ensures Valid()
      ensures nextId == old(nextId)
      // the server's response to the oldest request on the air, whichever request the engine takes it for
      ensures pkt == [] || EventOf(pkt).Some? ==> onAir == old(onAir)
      ensures pkt != [] && EventOf(pkt).None? ==>
                onAir == (if old(onAir) > 0 then old(onAir) - 1 else 0) + (|sent| - |old(sent)|)
      // with the head on the air and a server that answers it, the protocol stays sequential
      ensures old(Sequential()) &&
              (pkt != [] && EventOf(pkt).None? && old(pending) != [] ==> Answers(old(pending)[0].opcode, pkt))
              ==> Sequential()
      // an empty read
      ensures pkt == [] ==>
                update.None? && invoked.None? &&
                pending == old(pending) && sent == old(sent) && mtu == old(mtu)
      // an event
      ensures pkt != [] && EventOf(pkt).Some? ==>
                update == EventOf(pkt) && invoked.None? && pending == old(pending) && mtu == old(mtu) &&
                sent == old(sent) + (if pkt[0] == HandleValueIndication then [[HandleValueConfirmation]] else [])
      // the answer to the head
      ensures pkt != [] && EventOf(pkt).None? && old(pending) != [] && Answers(old(pending)[0].opcode, pkt) ==>
                var c := HandleResponse(old(pending)[0], pkt, hostLittleEndian, signedChar, from128).value;
                update.None? && invoked == Delivery(old(pending)[0], c) &&
                mtu == MtuAfter(old(mtu), old(pending)[0], c) &&
                pending == old(pending)[1..] &&
                sent == old(sent) + (if pending != [] then [pending[0].pkt] else []) &&
                (pending != [] ==> transmitted[0])
      // anything else
      ensures pkt != [] && EventOf(pkt).None? && (old(pending) == [] || !Answers(old(pending)[0].opcode, pkt)) ==>
                update.None? && invoked.None? &&
                pending == old(pending) && sent == old(sent) && mtu == old(mtu)
    {
      update, invoked := None, None;
      if pkt == [] {
        return;
      }
      var event := EventOf(pkt);
      if event.Some? {
        update := HandleEventPacket(pkt);
        return;
      }
      onAir := if onAir > 0 then onAir - 1 else 0;
      if pending != [] {
        var req := pending[0];
        var answer := HandleResponse(req, pkt, hostLittleEndian, signedChar, from128);
        if answer.Some? {
          invoked := Delivery(req, answer.value);
          CompleteHead(answer.value);
        }
      }
    }

    /** handleEvent's effect: an indication is confirmed with [0x1E], and the event is reported. */
    method HandleEventPacket(pkt: seq<Byte>) returns (update: Option<Signal>)
      requires Valid() && pkt != [] && EventDefined(pkt) && EventOf(pkt).Some?
      modifies this
      ensures Valid() && update == EventOf(pkt)
      ensures pending == old(pending) && transmitted == old(transmitted) && onAir == old(onAir)
      ensures nextId == old(nextId) && mtu == old(mtu)
      ensures sent == old(sent) + (if pkt[0] == HandleValueIndication then [[HandleValueConfirmation]] else [])
    {
      if pkt[0] == HandleValueIndication {
        Command(HandleValueConfirmation as int, []);
        assert [HandleValueConfirmation as int % 0x100] + [] == [HandleValueConfirmation];
      }
      update := EventOf(pkt);
    }

    /**
     * The head has been answered with `c`: the engine's own MTU slot takes
     * the server MTU, the head is dequeued and the next request is sent.
     */
    method CompleteHead(c: Completion)
      requires Valid() && pending != []
      modifies this
      ensures Valid()
      ensures mtu == MtuAfter(old(mtu), old(pending)[0], c)
      ensures pending == old(pending)[1..] && nextId == old(nextId)
      ensures sent == old(sent) + (if pending != [] then [pending[0].pkt] else [])
      ensures pending != [] ==> transmitted[0]
      ensures onAir == old(onAir) + (if pending != [] then 1 else 0)
    {
      var req := pending[0];
      if req.receiver == Engine && req.member == ServerMtuSlot && c.MtuExchanged? {
        HandleServerMtu(c.id, c.serverMtu);
      }
      pending := pending[1..];
      transmitted := transmitted[1..];
      if pending != [] {
        SendARequest();
      }
    }
  }

  // ---------------------------------------------------------------------
  // Scenarios

  /** The packet of a Read Request for a handle below 256. */
  lemma ReadPacket(handle: Handle)
    requires handle < 0x100
    ensures [ReadRequest] + ReadPayload(handle) == [ReadRequest, handle, 0x00]
  {
    var p := ReadPayload(handle);
    assert p[0] == handle && p[1] == 0;
  }

  /**
   * A Read Response [0x0B, value] to the read at the head of the queue
   * completes that read with the value, dequeues it and sends the next
   * request.
   */
  method AnswerHeadRead(att: GatoAtt, value: Byte) returns (invoked: Option<Invocation>)
    requires att.Valid() && att.pending != [] && att.pending[0].opcode == ReadRequest
    modifies att
    ensures att.Valid()
    ensures invoked == Delivery(old(att.pending[0]), ValueRead(old(att.pending[0].id), [value]))
    ensures att.pending == old(att.pending[1..])
    ensures att.mtu == old(att.mtu) && att.nextId == old(att.nextId)
    ensures att.sent == old(att.sent) + (if att.pending != [] then [att.pending[0].pkt] else [])
    ensures att.onAir == (if old(att.onAir) > 0 then old(att.onAir) - 1 else 0) + (if att.pending != [] then 1 else 0)
    ensures old(att.Sequential()) ==> att.Sequential()
  {
    var pkt: seq<Byte> := [ReadResponse, value];
    assert pkt[1..] == [value];
    assert EventOf(pkt).None? && Answers(ReadRequest, pkt);
    var update;
    update, invoked := att.HandleSocketReadyRead(pkt);
  }

  /** A new engine after a read of handle 3 for the client object 7: it is sent at once. */
  method OneReadQueued(slot: seq<char>) returns (att: GatoAtt)
    ensures fresh(att) && att.Valid() && att.Sequential()
    ensures att.nextId == 2 && att.onAir == 1
    ensures att.pending == [PendingRequest(1, ReadRequest, [ReadRequest, 0x03, 0x00], Client(7), RemoveMethodSignature(slot))]
    ensures att.sent == [[ReadRequest, 0x03, 0x00]]
  {
    att := new GatoAtt(true, true, _ => Null);
    var first := att.RequestRead(3, Client(7), slot);
    ReadPacket(3);
  }

  /** A new engine after two reads, of handles 3 and 5, for the client object 7. */
  method QueueTwoReads(slot: seq<char>) returns (att: GatoAtt, first: UInt32, second: UInt32)
    ensures fresh(att) && att.Valid() && att.Sequential()
    ensures first == 1 && second == 2 && att.nextId == 3 && att.onAir == 1
    ensures att.pending == [PendingRequest(1, ReadRequest, [ReadRequest, 0x03, 0x00], Client(7), RemoveMethodSignature(slot)),
                            PendingRequest(2, ReadRequest, [ReadRequest, 0x05, 0x00], Client(7), RemoveMethodSignature(slot))]
    ensures att.sent == [[ReadRequest, 0x03, 0x00]]
  {
    att := OneReadQueued(slot);
    first := 1;
    second := att.RequestRead(5, Client(7), slot);
    ReadPacket(5);
  }

  /**
   * Two reads queued back to back: only the first goes on the air, the
   * identifiers are consecutive, and the answer to the first completes it
   * and sends the second.
   */
  method PipelineScenario(slot: seq<char>) returns (first: UInt32, second: UInt32, packets: seq<seq<Byte>>,
                                                    invoked: Option<Invocation>)
    ensures first == 1 && second == 2
    ensures packets == [[ReadRequest, 0x03, 0x00], [ReadRequest, 0x05, 0x00]]
    ensures invoked == Some(Invocation(Client(7), RemoveMethodSignature(slot), ValueRead(1, [0x42])))
  {
    var att;
    att, first, second := QueueTwoReads(slot);
    ReadPacket(5);
    assert att.pending[1..] == [att.pending[1]];
    invoked := AnswerHeadRead(att, 0x42);
    packets := att.sent;
  }

  /**
   * Cancelling the request on the air does not send the next one, and the
   * late answer to the cancelled request then completes the next one.
   */
  method CancelledHeadScenario(slot: seq<char>) returns (packets: seq<seq<Byte>>, invoked: Option<Invocation>)
    ensures packets == [[ReadRequest, 0x03, 0x00]]
    ensures invoked == Some(Invocation(Client(7), RemoveMethodSignature(slot), ValueRead(2, [0x42])))
  {
    var att, first, second := QueueTwoReads(slot);
    var r1, r2 := att.pending[0], att.pending[1];
    assert att.pending == [r1, r2];
    assert WithoutId([r1, r2], 1) == [r2] by {
      assert [r1, r2][1..] == [r2];
      assert [r2][1..] == [];
    }
    att.CancelRequest(first);
    assert [r2][1..] == [];
    invoked := AnswerHeadRead(att, 0x42);
    packets := att.sent;
  }

  /** After connecting, an Error Response to the MTU exchange leaves the engine with an MTU of 2. */
  method MtuErrorScenario() returns (mtu: Byte, packets: seq<seq<Byte>>)
    ensures packets == [[ExchangeMtuRequest, DefaultLeMtu]]
    ensures mtu == 2
  {
    var att := new GatoAtt(true, true, _ => Null);
    var s := att.HandleSocketConnected();
    ServerMtuSlotName();
    var req := PendingRequest(1, ExchangeMtuRequest, [ExchangeMtuRequest] + [DefaultLeMtu], Engine, ServerMtuSlot);
    assert [ExchangeMtuRequest] + [DefaultLeMtu] == [ExchangeMtuRequest, DefaultLeMtu];
    assert att.pending == [req] && att.mtu == DefaultLeMtu;
    var pkt: seq<Byte> := [ErrorResponse, ExchangeMtuRequest, 0x00, 0x00, 0x06];
    assert EventOf(pkt).None? && Answers(ExchangeMtuRequest, pkt);
    MtuErrorReportsTwo(req, pkt, true, true, _ => Null);
    assert MtuAfter(DefaultLeMtu, req, MtuExchanged(1, 2)) == 2;
    var update, invoked := att.HandleSocketReadyRead(pkt);
    mtu := att.mtu;
    packets := att.sent;
  }
  /**
   * Cancelling the only request on the air and queueing another sends the
   * second one at once: two requests are then on the air together.
   */
  method TwoOnTheAirScenario(slot: seq<char>) returns (packets: seq<seq<Byte>>, ghost onAir: nat)
    ensures packets == [[ReadRequest, 0x03, 0x00], [ReadRequest, 0x05, 0x00]]
    ensures onAir == 2
  {
    var att := OneReadQueued(slot);
    att.CancelRequest(1);
    var second := att.RequestRead(5, Client(7), slot);
    ReadPacket(5);
    packets := att.sent;
    onAir := att.onAir;
  }

  /**
   * A new engine after a read of handle 3 whose sent request is then
   * cancelled with CancelRequestKeepingHead: it stays queued, without a
   * receiver, and on the air.
   */
  method ReadThenKeepHeadCancelled(slot: seq<char>) returns (att: GatoAtt)
    ensures fresh(att) && att.Valid() && att.Sequential()
    ensures att.nextId == 2 && att.onAir == 1
    ensures att.pending == [PendingRequest(1, ReadRequest, [ReadRequest, 0x03, 0x00], NoReceiver,
                                           RemoveMethodSignature(slot))]
    ensures att.sent == [[ReadRequest, 0x03, 0x00]]
  {
    att := OneReadQueued(slot);
    att.CancelRequestKeepingHead(1);
  }

  /**
   * The same calls with CancelRequestKeepingHead: the second read waits for
   * the late answer to the first, which is dropped, and is sent after it.
   */
  method CorrectedCancelScenario(slot: seq<char>) returns (before: seq<seq<Byte>>, packets: seq<seq<Byte>>,
                                                           invoked: Option<Invocation>, ghost onAir: nat)
    ensures before == [[ReadRequest, 0x03, 0x00]]
    ensures packets == [[ReadRequest, 0x03, 0x00], [ReadRequest, 0x05, 0x00]]
    ensures invoked.None? && onAir == 1
  {
    var att := ReadThenKeepHeadCancelled(slot);
    var second := att.RequestRead(5, Client(7), slot);
    ReadPacket(5);
    before := att.sent;
    assert att.pending[1..] == [att.pending[1]];
    invoked := AnswerHeadRead(att, 0x42);
    packets := att.sent;
    onAir := att.onAir;
  }
}
