# libgato in Dafny

A model of the core of libgato. libgato is a Qt library for Bluetooth Low
Energy that talks to devices through BlueZ. The model covers four parts, and
proves properties of each.

- **The ATT client engine.** `GatoAtt` is a FIFO of pending requests. It
  sends the head of the FIFO, and it sends the next request only when the
  head is answered. This aims at the sequential protocol of section 3.3.2
  of the Attribute Protocol chapter (Vol 3 Part F of the Bluetooth Core
  Specification), which allows one request on the air at a time.
  Cancelling a head that has already been sent breaks the rule (see
  "## Findings"). The engine also covers:
  - the request encoders;
  - the handling of notifications and indications;
  - the matching of responses and error responses against the head;
  - the four response-list decoders;
  - the MTU bookkeeping.
- **`GatoUUID` and its byte forms.** The UUID is the four QUuid fields
  (`data1` .. `data4`). The 16- and 32-bit UUIDs are embedded into the
  Bluetooth Base UUID `00000000-0000-1000-8000-00805F9B34FB`. The model
  covers `minimumSize`, `toUInt16` and `toUInt32`, the 2/4/16-byte
  little-endian array conversions, and the host-dependent `gatouint128`
  conversions.
- **The attribute-tree value types.** These are `GatoDescriptor`,
  `GatoCharacteristic` and `GatoService`. A characteristic keeps its
  descriptors in a map keyed by handle, next to an index from UUID to
  handle. A service keeps its characteristics keyed by start handle.
- **`GatoAddress`.** Six address bytes are overlaid on a `quint64`.

Module layout, one file each:

- `Types`: machine integers, little-endian bytes, QByteArray's indexing and
  `mid`, a signed `char`, and C's truncating division.
- `Uuid`: `gatouuid.cpp` and `gatouuid.h`.
- `Helpers`: `helpers.cpp`.
- `AttPdu`: opcodes, payload encoders and list decoders of `gatoatt.cpp`.
- `AttClient`: the `GatoAtt` engine.
- `OrderedMap`: the two `QMap` behaviours relied on.
- `Descriptor`, `Characteristic`, `Service` and `Address`: one module per
  value type.

Modelling choices:

- **Value semantics of the tree types.** The Qt classes hold a
  copy-on-write `QSharedDataPointer`, so they behave as values. Each Dafny
  class holds its whole record in one field `d` of a datatype. The
  operations are functions on that record, with contracts in terms of the
  class's own queries. The class methods update `d` through them.
- **The socket.** `GatoAtt` replaces the socket with `sent`, the log of
  every packet handed to it. `HandleSocketReadyRead` takes the received
  packet as an argument.
- **Qt dispatch.** `QMetaObject::invokeMethod` and the signals become
  returned values (`Invocation`, `Signal`).
- **Requests on the air.** `GatoAtt.Valid` keeps a ghost flag per pending
  request, recording whether it has been transmitted. Only the head may
  carry the flag.
  - The ghost counter `onAir` counts the requests sent and not yet
    answered. Cancelled requests are counted too.
  - `GatoAtt.Sequential` is the protocol's rule: the head, and nothing
    else, is on the air.
  - Every operation keeps `Sequential`, given a server that answers the
    request on the air. The one exception is `CancelRequest` of a head that
    has been sent.
  - `GatoAtt.CancelRequestKeepingHead` is the corrected cancellation, and it
    keeps `Sequential` always.
- **Character signedness.** Whether `char` is signed decides how the
  attribute-list decoders read their length byte. It is a parameter
  (`signedChar`), like the host byte order.

## Model

| member | source | states |
|---|---|---|
| Types.LeValueOfLeBytes | helpers.h:8-30 | reading back the n little-endian bytes written for a value below 256^n gives the value |
| Types.LeBytesOfLeValue | helpers.h:8-30 | writing the little-endian value of a byte string gives back the byte string |
| Uuid.FromUInt16 | gatouuid.cpp:50-54 | the 16-bit value is data1, the other fields are those of the Base UUID, and the UUID is not null |
| Uuid.FromUInt32 | gatouuid.cpp:56-59 | the 32-bit value is data1, the other fields are those of the Base UUID, and the UUID is not null |
| Uuid.FromGatt | gatouuid.cpp:45-48 | the enumerator's number is data1 of the Base UUID |
| Uuid.MinimumSize | gatouuid.cpp:83-99 | 0 exactly for the null UUID; 2 exactly for a Base UUID with data1 below 0x10000; 4 exactly for a Base UUID with data1 of 0x10000 or more; 16 exactly for a non-null UUID that is no Base UUID |
| Uuid.ToUInt16 | gatouuid.cpp:101-112 | ok is always set, and the value is data1 mod 2^16 (the size check is disabled) |
| Uuid.ToUInt32 | gatouuid.cpp:114-123 | ok exactly for the null UUID or a Base UUID; the value is then data1, and otherwise 0 |
| Uuid.UInt16RoundTrip | gatouuid.cpp:50-112 | a UUID built from x converts back to (true, x) and has minimum size 2 |
| Uuid.UInt32RoundTrip | gatouuid.cpp:56-123 | a UUID built from x converts back to (true, x) and has minimum size 2 below 0x10000, 4 otherwise |
| Uuid.ShortFormIsEmbedding | gatouuid.cpp:83-123 | a UUID is the embedding of x exactly when its minimum size is 2 or 4 and toUInt32 yields (true, x) |
| Uuid.GattUuidsAreShort | gatouuid.h:53-72 | every GattUuid constant is a 16-bit UUID that converts back to its number |
| Uuid.DiscoveryUuids | gatouuid.h:53-72 | PrimaryService 0x2800, Characteristic 0x2803, ClientCharacteristicConfiguration 0x2902, DeviceName 0x2A00 |
| Uuid.FromLittleEndian128 | gatouuid.h:17-31 | byte i comes from source byte i on a little-endian host, and from source byte 15-i otherwise |
| Uuid.ToLittleEndian128 | gatouuid.h:33-45 | byte i of the output is data[i] on a little-endian host, and data[15-i] otherwise |
| Uuid.LittleEndian128RoundTrip | gatouuid.h:17-45 | each conversion undoes the other, on either host |
| Uuid.QFromLittleEndian | gatouuid.h:17-31 | the byte loop reads exactly 16 bytes and computes FromLittleEndian128 of them |
| Uuid.QToLittleEndian | gatouuid.h:33-45 | the byte loop writes ToLittleEndian128 into exactly 16 bytes, and every other byte is unchanged |
| Helpers.ByteArrayToUuid | helpers.cpp:23-35 | 2 bytes give a 16-bit UUID of their little-endian value; 4 bytes give a UUID of at most 4 bytes with that value; 16 bytes go through the 128-bit conversion; any other length gives the null UUID |
| Helpers.UuidToByteArray | helpers.cpp:37-64 | always 2, 4 or 16 bytes; with use_uuid16, always the 2 little-endian bytes of data1's low half; else with use_uuid32 and minimum size at most 4, the 4 little-endian bytes of data1; else the 16 bytes of the 128-bit value |
| Helpers.Uuid16RoundTrip | helpers.cpp:23-48 | decoding the 2-byte form of a 16-bit UUID gives it back |
| Helpers.Uuid32RoundTrip | helpers.cpp:23-56 | decoding the 4-byte form of a 32-bit UUID gives it back |
| Helpers.ShortBytesRoundTrip | helpers.cpp:23-56 | encoding the UUID decoded from 2 or 4 bytes gives back the same bytes |
| Helpers.WriteLe16 | helpers.cpp:41-48 | the 2-byte array holds the value least significant byte first |
| Helpers.WriteLe32 | helpers.cpp:49-56 | the 4-byte array holds the value least significant byte first |
| Helpers.GatoUuidToByteArray | helpers.cpp:37-64 | the resize-and-write procedure yields exactly UuidToByteArray |
| AttPdu.ExchangeMtuPayload | gatoatt.cpp:134-138 | one byte, the client MTU |
| AttPdu.FindInformationPayload | gatoatt.cpp:140-148 | 4 bytes: start and end handle, little-endian |
| AttPdu.WriteUuid16or128 | gatoatt.cpp:410-421 | always 2 bytes, the little-endian low half of data1, because toUInt16 always reports ok |
| AttPdu.FindByTypeValuePayload | gatoatt.cpp:150-169 | always defined (the -1 path cannot be taken); start, end and the 16-bit type, then the streamed value |
| AttPdu.ReadByTypePayload | gatoatt.cpp:171-180 | start and end handle, then the 2-byte type |
| AttPdu.ReadPayload | gatoatt.cpp:182-190 | the 2-byte little-endian handle |
| AttPdu.ReadByGroupTypePayload | gatoatt.cpp:192-201 | start and end handle, then the 2-byte group type |
| AttPdu.WritePayload | gatoatt.cpp:203-212 | the 2-byte handle followed by the value |
| AttPdu.InformationRecordsCount | gatoatt.cpp:423-464 | one record per whole 4-byte (format 1) or 18-byte (format 2) slice; a partial last record is dropped |
| AttPdu.ParseInformationData | gatoatt.cpp:423-464 | the loop computes InformationDataList: format 1 gives (handle, uuid16) records, format 2 gives (handle, uuid128) records, any other format gives nothing |
| AttPdu.InformationData16RoundTrip | gatoatt.cpp:423-464 | every laid-out list of (handle, 16-bit UUID) records is read back in order |
| AttPdu.InformationData128RoundTrip | gatoatt.cpp:423-464 | every laid-out list of (handle, 128-bit UUID) records is read back in order, on either host |
| AttPdu.HandleInformationCount | gatoatt.cpp:466-485 | the corrected decoder yields one (start, end) record per whole 4 bytes |
| AttPdu.HandleInformationAt | gatoatt.cpp:466-485 | record i of the corrected decoder is the two little-endian handles at offset 4i |
| AttPdu.ParseHandleInformation | gatoatt.cpp:466-485 | the loop, with the record length corrected to 4, computes HandleInformationList |
| AttPdu.HandleInformationRoundTrip | gatoatt.cpp:466-485 | the corrected decoder reads back every laid-out list of (start, end) records |
| AttPdu.HandleInformationAsWritten | gatoatt.cpp:466-485 | the loop as written yields size/2 entries, entry i reading the 4 bytes at offset 2i |
| AttPdu.ParseHandleInformationAsWritten | gatoatt.cpp:466-485 | the loop as written, with its record length of 2, computes HandleInformationAsWritten |
| AttPdu.HandleInformationAsWrittenOverlaps | gatoatt.cpp:466-485 | as written there are twice as many entries as records, and only entry 2k is record k |
| AttPdu.HandleInformationAsWrittenExample | gatoatt.cpp:468-469 | the single record [1,0,5,0] comes out as two entries, (1,5) and (5, 256*b) for the byte b beyond the terminating zero, where the protocol has one |
| AttPdu.AttributeRecordsCount | gatoatt.cpp:487-506 | one (handle, value) record per whole L bytes after the length byte L |
| AttPdu.ItemLength | gatoatt.cpp:489 | the length byte as an int: the byte itself where `char` is unsigned, and the same value mod 256 in -128..127 where it is signed; an empty array gives the terminating 0 |
| AttPdu.AttributeDataCount | gatoatt.cpp:487-506 | for a positive length L the list has (size-1)/L records, and for a negative L it is empty |
| AttPdu.AttributeDataAt | gatoatt.cpp:487-506 | record i is read at 1+iL, inside the data; for L of 2 or more it is the little-endian handle there and the L-2 bytes after it |
| AttPdu.ParseAttributeData | gatoatt.cpp:487-506 | defined for every length byte but 0 (a division by zero); the loop computes AttributeDataList, including lengths of 1 and negative lengths |
| AttPdu.ShortAttributeLengthExample | gatoatt.cpp:487-506 | with length 1, [0x01,0xAA,0xBB] gives (0xBBAA, []) and (0x00BB, []), the second handle reading the terminating zero |
| AttPdu.ShortAttributeValueExample | gatoatt.cpp:487-506 | with length 1, [0x01,0x01,0x00,0x02] gives (1,[2]), (0x200,[]) and (2,[]): mid with length -1 takes the rest |
| AttPdu.AttributeDataRoundTrip | gatoatt.cpp:487-506 | a length byte L followed by records of L bytes is read back record for record |
| AttPdu.AttributeGroupRecordsCount | gatoatt.cpp:508-528 | one (start, end, value) record per whole L bytes after the length byte L |
| AttPdu.LongGroupRecordsFit | gatoatt.cpp:508-528 | with a length of 3 or more, no group record reads past the terminating zero |
| AttPdu.GroupListDefinedByLength | gatoatt.cpp:508-528 | a negative length byte, or one of 3 or more, makes parseAttributeGroupData defined |
| AttPdu.AttributeGroupDataCount | gatoatt.cpp:508-528 | for a positive length L the group list has (size-1)/L records, and for a negative L it is empty |
| AttPdu.AttributeGroupDataAt | gatoatt.cpp:508-528 | group record i is read at 1+iL, inside the data; for L of 4 or more it is the start and end handles there and the L-4 bytes after them |
| AttPdu.ParseAttributeGroupData | gatoatt.cpp:508-528 | defined whenever the length byte is not 0 and no record reads past the terminating zero; the loop computes AttributeGroupDataList |
| AttPdu.ShortGroupLengthExample | gatoatt.cpp:508-528 | with length 3, [0x03,1,0,2] gives (1, 2, []); with length 2, [0x02,1,0,2,0] would read past the data |
| AttPdu.AttributeGroupDataRoundTrip | gatoatt.cpp:508-528 | a length byte L followed by group records of L bytes is read back record for record |
| AttPdu.NegativeLengthGivesNoRecords | gatoatt.cpp:487-528 | where `char` is signed, a length byte of 0x80 or more is negative, and both decoders return nothing |
| AttPdu.UnsignedLengthReadsRecords | gatoatt.cpp:487-506 | where `char` is unsigned, a length byte of 0x80 is 128: 129 bytes give one record |
| AttPdu.ReadByTypeExample | gatoatt.cpp:487-506 | a ten-byte Read By Type list of length 7 yields one record, and its two trailing bytes are ignored |
| AttClient.RemoveMethodSignature | gatoatt.cpp:65-73 | for a code digit 0-3 and a '(', the characters between index 1 and the first '('; otherwise nothing |
| AttClient.MethodSignatureRoundTrip | gatoatt.cpp:65-73 | the slot name inside code + name + '(' + parameters is recovered |
| AttClient.EventOf | gatoatt.cpp:240-262 | an event exactly for a notification or an indication; `confirmed` is set exactly for an indication |
| AttClient.UpdateRoundTrip | gatoatt.cpp:240-262 | a notification or indication sent by a server is reported with its handle, value and kind |
| AttClient.UpdateIsPdu | gatoatt.cpp:240-262 | every reported update of three or more bytes is the packet a server would send for it |
| AttClient.ResponseOpcodes | gatoatt.cpp:33-63 | the response opcode of each of the seven requests is the request opcode plus one |
| AttClient.HandleResponse | gatoatt.cpp:264-408 | a completion exactly when the packet answers the request: its response opcode, an error naming its opcode, or any packet for an unknown request. Errors give empty results or a failed write. Each response gives its own decoding: byte 1 as the MTU, the Find Information list, the Handles Information list, the Read By Type list, the value, the Read By Group Type list, or a successful write |
| AttClient.MtuErrorReportsTwo | gatoatt.cpp:276-282 | an Error Response to an MTU exchange hands 2 (the request opcode in byte 1) to the callback as the server MTU |
| AttClient.FindByTypeValueAnswer | gatoatt.cpp:306-324 | a Find By Type Value Response of laid-out records completes the request with those records (corrected decoder) |
| AttClient.Delivery | gatoatt.cpp:264-408 | a slot is invoked, with the request's member and the completion, exactly when the request has a client receiver |
| AttClient.ServerMtuSlotName | gatoatt.cpp:530-534 | SLOT(handleServerMTU(quint8)) is reduced to the name handleServerMTU |
| AttClient.MtuAfter | gatoatt.cpp:570-576 | the MTU changes only through the engine's own slot, and only to a non-zero server MTU |
| AttClient.MtuResponseAsWrittenTruncates | gatoatt.cpp:268-275 | an Exchange MTU Response carrying the 16-bit server MTU m completes with m mod 256, its low byte |
| AttClient.MtuResponseAsWrittenExample | gatoatt.cpp:268-275 | a server MTU of 0x0105 reaches the engine as 5 and becomes its MTU |
| AttClient.ServerRxMtu | gatoatt.cpp:268-275 | the Server Rx MTU exactly for an Exchange MTU Response of three or more bytes: byte 1 is its low byte and byte 2 its high byte |
| AttClient.ServerRxMtuRoundTrip | gatoatt.cpp:268-275 | the corrected handling reads back every non-zero 16-bit server MTU and takes it whole |
| AttClient.CorrectedMtuIgnoresError | gatoatt.cpp:276-282 | in the corrected handling, an Error Response leaves the MTU as it was |
| AttClient.WithoutIdMembers | gatoatt.cpp:122-132 | an entry survives cancellation exactly when it was queued and has another id |
| AttClient.WithoutAbsentId | gatoatt.cpp:122-132 | cancelling an id that is not queued changes nothing |
| AttClient.GatoAtt.constructor | gatoatt.cpp:75-81 | empty queue, next id 1, MTU 23, nothing sent, nothing on the air, and Sequential |
| AttClient.GatoAtt.SendARequest | gatoatt.cpp:226-238 | the head's packet is appended to the sent log, if there is a head; the queue is unchanged |
| AttClient.GatoAtt.Command | gatoatt.cpp:214-224 | exactly one packet, the opcode byte followed by the data, is sent, and it bypasses the queue |
| AttClient.GatoAtt.Request | gatoatt.cpp:102-120 | returns the current next id and increments it mod 2^32; appends exactly one entry whose packet is the opcode byte then the payload; sends that packet exactly when the queue was empty, and adds it to the requests on the air; keeps Sequential |
| AttClient.GatoAtt.RequestExchangeMtu | gatoatt.cpp:134-138 | submits an Exchange MTU Request carrying the client MTU |
| AttClient.GatoAtt.RequestFindInformation | gatoatt.cpp:140-148 | submits a Find Information Request for the handle range |
| AttClient.GatoAtt.RequestFindByTypeValue | gatoatt.cpp:150-169 | submits a Find By Type Value Request; it always succeeds |
| AttClient.GatoAtt.RequestReadByType | gatoatt.cpp:171-180 | submits a Read By Type Request for the range and type |
| AttClient.GatoAtt.RequestRead | gatoatt.cpp:182-190 | submits a Read Request for the handle |
| AttClient.GatoAtt.RequestReadByGroupType | gatoatt.cpp:192-201 | submits a Read By Group Type Request for the range and group type |
| AttClient.GatoAtt.RequestWrite | gatoatt.cpp:203-212 | submits a Write Request of the value to the handle |
| AttClient.GatoAtt.CancelRequest | gatoatt.cpp:122-132 | the queue loses every entry with that id and keeps the rest in order; nothing is sent, even when the head goes, so the new head is not on the air. Cancelling anything but the head keeps Sequential; cancelling the head that was sent leaves it on the air and breaks Sequential |
| AttClient.GatoAtt.CancelRequestKeepingHead | gatoatt.cpp:122-132 | the corrected cancellation: a cancelled head stays queued without a receiver, every other entry with the id goes, and Sequential is kept |
| AttClient.GatoAtt.HandleServerMtu | gatoatt.cpp:570-576 | the MTU becomes the server MTU unless that is 0; nothing else changes |
| AttClient.GatoAtt.HandleSocketConnected | gatoatt.cpp:530-534 | submits an MTU exchange offering 23 to the engine's own handleServerMTU slot, then reports Connected |
| AttClient.GatoAtt.HandleSocketDisconnected | gatoatt.cpp:536-539 | reports Disconnected |
| AttClient.GatoAtt.HandleEventPacket | gatoatt.cpp:240-262 | an event is reported; an indication first sends exactly [0x1E]; the queue and the MTU are unchanged |
| AttClient.GatoAtt.CompleteHead | gatoatt.cpp:552-560 | the answered head is dequeued, the MTU follows the engine's slot, and the new head is sent and is on the air |
| AttClient.GatoAtt.HandleSocketReadyRead | gatoatt.cpp:541-568 | an empty read does nothing. A notification or indication is reported and leaves the queue alone; an indication first sends exactly [0x1E]. A packet that answers the head completes it, dequeues it, updates the MTU if it is the engine's MTU answer, and sends the new head. Anything else changes nothing. Every non-event packet answers the oldest request on the air; with a server that answers the head, Sequential is kept |
| AttClient.AnswerHeadRead | gatoatt.cpp:541-568 | a Read Response to the read at the head completes it with the value, dequeues it and sends the next request, keeping Sequential |
| AttClient.OneReadQueued | gatoatt.cpp:102-120 | on a new engine, one read is queued with id 1 and sent at once |
| AttClient.QueueTwoReads | gatoatt.cpp:102-120 | on a new engine, two reads get ids 1 and 2, and only the first is sent |
| AttClient.ReadThenKeepHeadCancelled | gatoatt.cpp:102-132 | a sent read cancelled with the corrected cancellation stays queued without a receiver and on the air |
| AttClient.PipelineScenario | gatoatt.cpp:102-568 | two queued reads get ids 1 and 2; only the first is sent until its answer arrives, which completes it and sends the second |
| AttClient.CancelledHeadScenario | gatoatt.cpp:122-132 | after the head is cancelled the next read is never sent, and the late answer completes it instead |
| AttClient.MtuErrorScenario | gatoatt.cpp:268-286 | connecting and then receiving an Error Response to the MTU exchange leaves the MTU at 2 |
| AttClient.TwoOnTheAirScenario | gatoatt.cpp:102-132 | reading handle 3, cancelling it and reading handle 5 sends both reads, so two requests are on the air |
| AttClient.CorrectedCancelScenario | gatoatt.cpp:122-132 | with the corrected cancellation the second read waits; the late answer to the first is dropped, and the second read is sent after it |
| OrderedMap.ValueOr | gatoservice.cpp:98-101 | QMap::value gives the stored entry, or the default-constructed value for a missing key |
| OrderedMap.ValuesAscendingByKey | gatocharacteristic.cpp:110-113 | when every value is stored under its own key, values() lists every stored value once, in strictly ascending key order |
| Descriptor.GatoDescriptor.constructor | gatodescriptor.cpp:31-35 | a default descriptor has a null UUID and handle 0 |
| Descriptor.GatoDescriptor.Copy | gatodescriptor.cpp:37-40 | a copy has the same UUID and handle |
| Descriptor.GatoDescriptor.SetUuid | gatodescriptor.cpp:46-54 | uuid() returns the new UUID and the handle is unchanged |
| Descriptor.GatoDescriptor.SetHandle | gatodescriptor.cpp:56-64 | handle() returns the new handle and the UUID is unchanged |
| Descriptor.GatoDescriptor.Assign | gatodescriptor.cpp:66-72 | takes the other descriptor's UUID and handle; self-assignment changes nothing |
| Characteristic.WriteFlagAsWrittenOverlaps | gatocharacteristic.h:18-28 | with Write declared as 0x5, a characteristic with only Broadcast and WriteWithoutResponse tests positive for Write |
| Characteristic.PropertyFlagsDistinct | gatocharacteristic.h:18-28 | with Write as 0x8, each of the eight property flags is tested exactly by itself |
| Characteristic.CharacteristicData.DescriptorAt | gatocharacteristic.cpp:130-133 | the descriptor at the handle, or a default descriptor when there is none |
| Characteristic.CharacteristicData.DescriptorOf | gatocharacteristic.cpp:125-128 | the descriptor at the handle indexed for the UUID; an unindexed UUID looks up handle 0 |
| Characteristic.CharacteristicData.WithDescriptor | gatocharacteristic.cpp:135-139 | afterwards the handle and the UUID are both contained and both look up the new descriptor; other handles and other UUID index entries are unchanged, and so are the other attributes |
| Characteristic.CharacteristicData.WithoutDescriptor | gatocharacteristic.cpp:141-145 | afterwards neither the handle nor the UUID is contained; other handles and other UUID index entries are unchanged |
| Characteristic.CharacteristicData.WithoutDescriptors | gatocharacteristic.cpp:147-151 | afterwards no handle and no UUID is contained, and every handle looks up a default descriptor |
| Characteristic.DefaultCharacteristicIsEmpty | gatocharacteristic.cpp:37-44 | a default characteristic is null and has no descriptors |
| Characteristic.KeyedByHandlePreserved | gatocharacteristic.cpp:135-151 | add, remove and clear keep every descriptor stored under its own handle |
| Characteristic.DescriptorsAscending | gatocharacteristic.cpp:110-113 | descriptors() lists each stored descriptor once, in strictly ascending handle order |
| Characteristic.AddKeepsIndexSound | gatocharacteristic.cpp:135-139 | adding keeps every indexed UUID pointing at a descriptor with that UUID, when the handle is free or holds the same UUID |
| Characteristic.RemoveKeepsIndexSound | gatocharacteristic.cpp:141-145 | removing the descriptor stored at its handle keeps the UUID index sound |
| Characteristic.ReplacedHandleLeavesStaleIndex | gatocharacteristic.cpp:135-139 | adding a descriptor of another UUID at a used handle leaves the old UUID indexed, and getDescriptor(old UUID) returns the new descriptor |
| Characteristic.GatoCharacteristic.constructor | gatocharacteristic.cpp:37-44 | null UUID, handles and properties 0, no descriptors |
| Characteristic.GatoCharacteristic.Copy | gatocharacteristic.cpp:46-49 | a copy has the same record |
| Characteristic.GatoCharacteristic.SetUuid | gatocharacteristic.cpp:60-68 | only the UUID changes |
| Characteristic.GatoCharacteristic.SetProperties | gatocharacteristic.cpp:70-78 | only the properties change |
| Characteristic.GatoCharacteristic.SetStartHandle | gatocharacteristic.cpp:80-88 | only the start handle changes |
| Characteristic.GatoCharacteristic.SetEndHandle | gatocharacteristic.cpp:90-98 | only the end handle changes |
| Characteristic.GatoCharacteristic.SetValueHandle | gatocharacteristic.cpp:100-108 | only the value handle changes |
| Characteristic.GatoCharacteristic.AddDescriptor | gatocharacteristic.cpp:135-139 | the record becomes WithDescriptor of the descriptor's record |
| Characteristic.GatoCharacteristic.RemoveDescriptor | gatocharacteristic.cpp:141-145 | the record becomes WithoutDescriptor of the descriptor's record |
| Characteristic.GatoCharacteristic.ClearDescriptors | gatocharacteristic.cpp:147-151 | the record becomes WithoutDescriptors |
| Characteristic.GatoCharacteristic.Assign | gatocharacteristic.cpp:153-159 | takes the other record; self-assignment changes nothing |
| Service.ServiceData.ContainsCharacteristic | gatoservice.cpp:83-91 | true exactly when an entry exists at the characteristic's start handle and has its UUID |
| Service.ServiceData.CharacteristicAt | gatoservice.cpp:98-101 | the entry at the handle, or a default characteristic, which is null |
| Service.ServiceData.WithCharacteristic | gatoservice.cpp:103-106 | the characteristic is stored at its start handle, replacing any there, and is contained; every other handle is unchanged |
| Service.ServiceData.WithoutCharacteristic | gatoservice.cpp:108-111 | the entry at the start handle is gone, whatever its UUID; every other handle is unchanged |
| Service.ServiceData.WithoutCharacteristics | gatoservice.cpp:113-116 | no handle is contained and every lookup gives a null characteristic |
| Service.KeyedByStartPreserved | gatoservice.cpp:103-116 | add, remove and clear keep every characteristic stored under its own start handle |
| Service.CharacteristicsAscending | gatoservice.cpp:78-81 | characteristics() lists each stored characteristic once, in strictly ascending start handle order |
| Service.ContainsIgnoresOtherAttributes | gatoservice.cpp:83-91 | containment compares only the start handle and the UUID |
| Service.GatoService.constructor | gatoservice.cpp:34-37 | a new service has a null UUID, start and end 0, and no characteristics |
| Service.GatoService.Copy | gatoservice.cpp:39-42 | a copy has the same record |
| Service.GatoService.SetUuid | gatoservice.cpp:48-56 | only the UUID changes |
| Service.GatoService.SetStartHandle | gatoservice.cpp:58-66 | only the start handle changes |
| Service.GatoService.SetEndHandle | gatoservice.cpp:68-76 | only the end handle changes |
| Service.GatoService.AddCharacteristic | gatoservice.cpp:103-106 | the record becomes WithCharacteristic of the characteristic's record |
| Service.GatoService.RemoveCharacteristic | gatoservice.cpp:108-111 | the record becomes WithoutCharacteristic of the characteristic's record |
| Service.GatoService.ClearCharacteristics | gatoservice.cpp:113-116 | the record becomes WithoutCharacteristics |
| Service.GatoService.Assign | gatoservice.cpp:118-124 | takes the other record; self-assignment changes nothing |
| Service.AddedCharacteristicIsACopy | gatoservice.cpp:103-106 | changing a characteristic after adding it leaves the service's stored copy as it was |
| Address.FromUInt64 | gatoaddress.cpp:42-46 | the stored quint64 reads back unchanged, on either host |
| Address.HostValueOfHostBytes | gatoaddress.cpp:28-46 | writing a quint64 into the union and reading it back is the identity |
| Address.HostBytesOfHostValue | gatoaddress.cpp:28-34 | reading the union's eight bytes as a quint64 and writing it back gives back the bytes |
| Address.EqualIffSameMemory | gatoaddress.cpp:105-108 | == holds exactly when the eight bytes are equal, so it is an equivalence |
| Address.UInt64RoundTrip | gatoaddress.cpp:42-89 | constructing from toUInt64() rebuilds the same address |
| Address.NullIffZeroMemory | gatoaddress.cpp:81-84 | isNull holds exactly when all eight bytes are zero, on either host |
| Address.NullAddressIsNull | gatoaddress.cpp:36-40 | the default address is null, so toUInt64() is 0 |
| Address.ArrayAddressIs48Bit | gatoaddress.cpp:48-55 | on a little-endian host an address built from six bytes is their little-endian value, below 2^48 |
| Address.ArrayAddressNullIffZero | gatoaddress.cpp:48-84 | an address built from six bytes is null exactly when all six are zero |
| Address.FromUInt8Array | gatoaddress.cpp:48-55 | the union is cleared and then receives the six bytes, so the two bytes beyond them are 0 |
| Address.ToUInt8Array | gatoaddress.cpp:91-96 | the first six bytes of the array are the address, and the rest are unchanged |
| Address.ArrayRoundTrip | gatoaddress.cpp:48-96 | six bytes copied into an address and out again come back unchanged, also into the same array |

## Left out

- Sockets: the L2CAP socket, `connectTo`, `close` and `state` are not
  modelled. `socket->send` is the `sent` log, and `socket->receive` is the
  argument of `HandleSocketReadyRead`.
- Qt dispatch: `invokeMethod` by slot name becomes the returned
  `Invocation`, and signals become the returned `Signal`. Debug and warning
  output is not modelled.
  - In the code the slot runs at once, inside `handleResponse`, before the
    head is dequeued (gatoatt.cpp:556-557).
  - A slot that calls `cancelRequest` with its own id would therefore make
    the dequeue drop the next request, which was never sent.
  - The model applies the call after the dequeue, so it does not capture
    that re-entrant case.
- AttClient.GatoAtt.HandleSocketReadyRead: the engine's own MTU slot is
  applied directly, because the slot is only ever called that way.
  `Delivery` reports only calls to client objects.
- Host byte order: it is a parameter (`hostLittleEndian`), since the code
  selects it at compile time.
- Character signedness: it is a parameter (`signedChar`), since the
  compiler decides it.
- AttClient.HandleResponse: a Find By Type Value Response is decoded with
  the corrected 4-byte `HandleInformationList`. The code's 2-byte-stepping
  `parseHandleInformation` reads two bytes past the data on its last entry,
  so its result is not defined (first row of "## Findings"). That decoder
  is modelled on its own as `ParseHandleInformationAsWritten`.
- Uuid.IsNull: `isNull` is declared without a body. The model takes QUuid's
  meaning, that all four fields are zero. `MinimumSize` and `ToUInt32`
  depend on that choice.
- `GatoUUID(gatouint128)` and `toUInt128`: they are declared but have no
  body, so they are the parameters `from128` and `to128`.
- QDataStream: the serialisers used by `requestFindByTypeValue` and by the
  128-bit path of `writeUuid16or128` have a format that is not visible. The
  value serialiser is the parameter `streamed`.
- AttPdu.WriteUuid16or128: the 128-bit branch is not modelled, because
  `toUInt16` always reports `ok` and the branch is never taken.
- AttPdu.FindByTypeValuePayload: for the same reason, the `-1` return is
  not reachable.
- Unchecked reads: `handleEvent`, `handleResponse` and the length-prefixed
  decoders index the packet without bounds checks.
  - Reads up to index |pkt| are modelled.
  - The undefined rest is excluded by the preconditions `EventDefined`,
    `ResponseDefined`, `AttributeListDefined`, `AttributeGroupListDefined`
    and `PacketDefined`.
  - `AttributeListDefined` rules out only a zero length, which is a
    division by zero.
  - `AttributeGroupListDefined` also rules out a length of 1 or 2 whose
    last record would read past the terminating zero.
- Reading byte |pkt|: it sees the terminating zero of the QByteArray
  (`ByteAt`). This is how a two-byte notification or indication, or a
  one-byte response, reads its missing byte. A one-byte notification or
  indication would also read the byte after the terminator, so
  `EventDefined` excludes it.
- AttPdu.ParseHandleInformationAsWritten: its precondition supplies the two
  bytes that the last entry reads past the data. The first is the
  terminating zero. The second lies beyond the array, and its value is left
  open.
- Disconnection: the pending queue is kept, as in the code. Nothing is
  added for timeouts or resynchronisation.
- MTU handling: the engine keeps the code's one-byte server MTU and its
  error path, which sets the MTU to 2. The corrected handling of both
  ("## Findings") is `CorrectedMtuAfter`, which the engine does not use.
- Text conversions: `GatoUUID` and `GatoAddress` constructors from
  `QString`, `toString`, and address formatting through BlueZ
  `str2ba`/`ba2str` are foreign calls, and `qHash` is hashing. None is
  modelled.
- Declared without a body: `containsDescriptor(const GatoDescriptor&)`,
  `commandWrite` and `write_gatouuid` are not modelled.
- The `QSharedDataPointer` of the tree types: it is modelled as value
  semantics, with one record per object. Reference counting and
  detach-on-write are not modelled, since they cannot be observed.
- `descriptors()` and `characteristics()`: they are ghost, defined through
  the sorted key list of the map.
- GATT discovery, scanning and the peripheral object: gatoperipheral.cpp
  and gatocentralmanager.cpp are not part of this model.

## Findings

| source | as written | input that shows it | evidently intended | confidence | as-written member | corrected member |
|---|---|---|---|---|---|---|
| gatoatt.cpp:466-485 | parseHandleInformation uses a record length of 2 but reads two handles (4 bytes) per record, so it yields size/2 overlapping entries, and the last one reads past the data | the list [1,0,5,0] (one record, start 1 and end 5) yields (1,5) and (5, 256*b), where b is the byte beyond the terminating zero | 4-byte Handles Information records (section 3.4.3.4 of the ATT chapter), one entry per record | high, not executed | AttPdu.HandleInformationAsWrittenExample | AttPdu.HandleInformationRoundTrip |
| gatocharacteristic.h:18-28 | PropertyWrite = 0x5, which is PropertyBroadcast \| PropertyWriteWithoutResponse | properties 0x05 (broadcast plus write without response) tests positive for PropertyWrite | PropertyWrite = 0x08, the Write bit of the characteristic properties (section 3.3.1.1 of Vol 3 Part G of the Bluetooth Core Specification) | high, not executed | Characteristic.WriteFlagAsWrittenOverlaps | Characteristic.PropertyFlagsDistinct |
| gatoatt.cpp:122-132 | cancelRequest erases the head even when it has been sent; the next request() to find the queue empty sends at once, though the cancelled request is unanswered | request a read of handle 3, cancel it, request a read of handle 5: both reads are on the air, and the late answer to the first completes the second | one request on the air at a time (section 3.3.2 of the ATT chapter): a sent head that is cancelled is kept without a receiver, and its answer is dropped | high, not executed | AttClient.TwoOnTheAirScenario | AttClient.GatoAtt.CancelRequestKeepingHead |
| gatoatt.cpp:268-275 | the Exchange MTU Response's server MTU is passed on as `response[1]`, a single byte | a server MTU of 0x0105 (261) makes the engine's MTU 5 | the 2-octet Server Rx MTU (section 3.4.2.2 of the ATT chapter), read little-endian | high, not executed | AttClient.MtuResponseAsWrittenExample | AttClient.ServerRxMtuRoundTrip |
| gatoatt.cpp:276-282 | an Error Response to the MTU exchange passes `response[1]`, the request opcode 0x02, as the server MTU | after connecting, the Error Response [0x01,0x02,0x00,0x00,0x06] makes the engine's MTU 2 | the MTU stays at its value (the default 23) when the server rejects the exchange | high, not executed | AttClient.MtuErrorScenario | AttClient.CorrectedMtuIgnoresError |
