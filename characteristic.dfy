/**
 * GatoCharacteristic (gatocharacteristic.cpp): a characteristic's UUID,
 * its handle range, its property flags, the handle of its value, and its
 * descriptors. The descriptors sit in a map from handle to descriptor,
 * next to an index from descriptor UUID to handle. As with GatoDescriptor
 * the object holds a shared record `d` that copies never alias.
 */
module Characteristic {
  import opened Types
  import opened Uuid
  import opened OrderedMap
  import opened Descriptor

  /** GatoCharacteristic::Properties, a QFlags over an `int`: its 32 bits. */
  type Properties = bv32

  // The Property enum as gatocharacteristic.h declares it.
  const PropertyBroadcast: Properties := 0x1
  const PropertyRead: Properties := 0x2
  const PropertyWriteWithoutResponse: Properties := 0x4
  /** The Write flag as declared: 0x5, which is Broadcast | WriteWithoutResponse. */
  const PropertyWriteAsWritten: Properties := 0x5
  /** The Write bit of the characteristic properties byte. */
  const PropertyWrite: Properties := 0x8
  const PropertyNotify: Properties := 0x10
  const PropertyIndicate: Properties := 0x20
  const PropertyAuthenticatedSignedWrites: Properties := 0x40
  const PropertyExtendedProperties: Properties := 0x80

  /** QFlags::testFlag: every bit of `flag` is set (and a zero flag only matches zero). */
  predicate TestFlag(props: Properties, flag: Properties) {
    props & flag == flag && (flag != 0 || props == flag)
  }

  /**
   * With the declared value, a characteristic that only broadcasts and
   * accepts writes without response reports the Write property.
   */
  lemma WriteFlagAsWrittenOverlaps()
    ensures var props := PropertyBroadcast | PropertyWriteWithoutResponse;
      TestFlag(props, PropertyWriteAsWritten) && !TestFlag(props, PropertyWrite)
  {
  }

  /** The eight property flags are distinct single bits, so no flag implies another. */
  lemma PropertyFlagsDistinct(p: Properties, q: Properties)
    requires p in {PropertyBroadcast, PropertyRead, PropertyWriteWithoutResponse, PropertyWrite,
                   PropertyNotify, PropertyIndicate, PropertyAuthenticatedSignedWrites,
                   PropertyExtendedProperties}
    requires q in {PropertyBroadcast, PropertyRead, PropertyWriteWithoutResponse, PropertyWrite,
                   PropertyNotify, PropertyIndicate, PropertyAuthenticatedSignedWrites,
                   PropertyExtendedProperties}
    ensures TestFlag(p, q) <==> p == q
  {
  }

  /** GatoCharacteristicPrivate: the record shared between copies. */
  datatype CharacteristicData = CharacteristicData(
    uuid: GatoUuid,
    start: Handle,
    end: Handle,
    properties: Properties,
    valueHandle: Handle,
    descriptors: map<Handle, DescriptorData>,
    descUuids: map<GatoUuid, Handle>)
  {
    /** isNull: no handle range or no UUID. */
    predicate IsNull() {
      start == 0 || end == 0 || Uuid.IsNull(uuid)
    }

    /** descriptors(): the descriptors in ascending handle order. */
    ghost function Descriptors(): seq<DescriptorData> {
      Values(descriptors)
    }

    /** containsDescriptor(GatoUUID): whether the UUID index has the UUID. */
    predicate ContainsUuid(u: GatoUuid) {
      u in descUuids
    }

    /** containsDescriptor(GatoHandle). */
    predicate ContainsHandle(h: Handle) {
      h in descriptors
    }

    /** getDescriptor(GatoHandle): the descriptor at `h`, or a default one. */
    function DescriptorAt(h: Handle): (r: DescriptorData)
      ensures ContainsHandle(h) ==> r == descriptors[h]
      ensures !ContainsHandle(h) ==> r == DefaultDescriptor
    {
      ValueOr(descriptors, h, DefaultDescriptor)
    }

    /**
     * getDescriptor(GatoUUID): the descriptor at the handle the index gives
     * for `u`; a UUID missing from the index looks up handle 0.
     */
    function DescriptorOf(u: GatoUuid): (r: DescriptorData)
      ensures ContainsUuid(u) ==> r == DescriptorAt(descUuids[u])
      ensures !ContainsUuid(u) ==> r == DescriptorAt(0)
    {
      DescriptorAt(ValueOr(descUuids, u, 0))
    }

    /** addDescriptor: store the descriptor at its handle and index its UUID to that handle. */
    function WithDescriptor(desc: DescriptorData): (r: CharacteristicData)
      ensures r.ContainsHandle(desc.handle) && r.DescriptorAt(desc.handle) == desc
      ensures r.ContainsUuid(desc.uuid) && r.DescriptorOf(desc.uuid) == desc
      ensures forall h :: h != desc.handle ==>
                (r.ContainsHandle(h) <==> ContainsHandle(h)) && r.DescriptorAt(h) == DescriptorAt(h)
      ensures forall u :: u != desc.uuid ==>
                (r.ContainsUuid(u) <==> ContainsUuid(u)) && (ContainsUuid(u) ==> r.descUuids[u] == descUuids[u])
      ensures SameAttributes(r)
    {
      this.(descriptors := descriptors[desc.handle := desc], descUuids := descUuids[desc.uuid := desc.handle])
    }

    /** removeDescriptor: drop the entry at the descriptor's handle and the index entry of its UUID. */
    function WithoutDescriptor(desc: DescriptorData): (r: CharacteristicData)
      ensures !r.ContainsHandle(desc.handle) && r.DescriptorAt(desc.handle) == DefaultDescriptor
      ensures !r.ContainsUuid(desc.uuid)
      ensures forall h :: h != desc.handle ==>
                (r.ContainsHandle(h) <==> ContainsHandle(h)) && r.DescriptorAt(h) == DescriptorAt(h)
      ensures forall u :: u != desc.uuid ==>
                (r.ContainsUuid(u) <==> ContainsUuid(u)) && (ContainsUuid(u) ==> r.descUuids[u] == descUuids[u])
      ensures SameAttributes(r)
    {
      this.(descriptors := descriptors - {desc.handle}, descUuids := descUuids - {desc.uuid})
    }

    /** clearDescriptors: no descriptor and no index entry remain. */
    function WithoutDescriptors(): (r: CharacteristicData)
      ensures forall h :: !r.ContainsHandle(h) && r.DescriptorAt(h) == DefaultDescriptor
      ensures forall u :: !r.ContainsUuid(u)
      ensures SameAttributes(r)
    {
      this.(descriptors := map[], descUuids := map[])
    }

    /** Everything but the descriptors agrees. */
    predicate SameAttributes(other: CharacteristicData) {
      other.uuid == uuid && other.start == start && other.end == end
      && other.properties == properties && other.valueHandle == valueHandle
    }

    /** Every descriptor is stored under its own handle. */
    ghost predicate KeyedByHandle() {
      forall h :: h in descriptors ==> descriptors[h].handle == h
    }

    /** Every UUID in the index leads to a stored descriptor with that UUID. */
    ghost predicate IndexSound() {
      forall u :: u in descUuids ==> descUuids[u] in descriptors && descriptors[descUuids[u]].uuid == u
    }
  }

  /** The record of a default-constructed characteristic. */
  const DefaultCharacteristic: CharacteristicData :=
    CharacteristicData(Null, 0, 0, 0, 0, map[], map[])

  /** A default characteristic is null and has no descriptors; its maps trivially keep both invariants. */
  lemma DefaultCharacteristicIsEmpty()
    ensures DefaultCharacteristic.IsNull()
    ensures DefaultCharacteristic.Descriptors() == []
    ensures DefaultCharacteristic.KeyedByHandle() && DefaultCharacteristic.IndexSound()
  {
  }

  /** Adding, removing and clearing keep every descriptor under its own handle. */
  lemma KeyedByHandlePreserved(c: CharacteristicData, desc: DescriptorData)
    requires c.KeyedByHandle()
    ensures c.WithDescriptor(desc).KeyedByHandle()
    ensures c.WithoutDescriptor(desc).KeyedByHandle()
    ensures c.WithoutDescriptors().KeyedByHandle()
  {
  }

  /**
   * descriptors() lists every stored descriptor exactly once, in strictly
   * ascending handle order.
   */
  lemma {:induction false} DescriptorsAscending(c: CharacteristicData)
    requires c.KeyedByHandle()
    ensures |c.Descriptors()| == |c.descriptors.Keys|
    ensures forall i, j :: 0 <= i < j < |c.Descriptors()| ==> c.Descriptors()[i].handle < c.Descriptors()[j].handle
    ensures forall h :: h in c.descriptors ==> c.descriptors[h] in c.Descriptors()
    ensures forall x :: x in c.Descriptors() ==> c.ContainsHandle(x.handle) && c.DescriptorAt(x.handle) == x
  {
    ValuesAscendingByKey(c.descriptors, (x: DescriptorData) => x.handle);
  }

  /**
   * Adding keeps the UUID index sound when the handle is free or already
   * holds a descriptor with the same UUID.
   */
  lemma {:induction false} AddKeepsIndexSound(c: CharacteristicData, desc: DescriptorData)
    requires c.IndexSound()
    requires desc.handle in c.descriptors ==> c.descriptors[desc.handle].uuid == desc.uuid
    ensures c.WithDescriptor(desc).IndexSound()
  {
    var r := c.WithDescriptor(desc);
    forall u | u in r.descUuids
      ensures r.descUuids[u] in r.descriptors && r.descriptors[r.descUuids[u]].uuid == u
    {
      if u != desc.uuid {
        var h := c.descUuids[u];
        assert h != desc.handle;
      }
    }
  }

  /**
   * Removing keeps the UUID index sound when the descriptor removed is the
   * one stored at its handle (or nothing is stored there).
   */
  lemma {:induction false} RemoveKeepsIndexSound(c: CharacteristicData, desc: DescriptorData)
    requires c.IndexSound()
    requires desc.handle in c.descriptors ==> c.descriptors[desc.handle].uuid == desc.uuid
    ensures c.WithoutDescriptor(desc).IndexSound()
  {
    var r := c.WithoutDescriptor(desc);
    forall u | u in r.descUuids
      ensures r.descUuids[u] in r.descriptors && r.descriptors[r.descUuids[u]].uuid == u
    {
      var h := c.descUuids[u];
      assert h != desc.handle;
    }
  }

  /**
   * Replacing the descriptor at a handle with one of another UUID leaves the
   * old UUID indexed: containsDescriptor(old UUID) stays true and
   * getDescriptor(old UUID) answers with the new descriptor.
   */
  lemma ReplacedHandleLeavesStaleIndex(a: GatoUuid, b: GatoUuid, h: Handle)
    requires a != b
    ensures var c := DefaultCharacteristic.WithDescriptor(DescriptorData(a, h))
                                          .WithDescriptor(DescriptorData(b, h));
      && c.ContainsUuid(a) && c.DescriptorOf(a) == DescriptorData(b, h)
      && !c.IndexSound()
  {
    var c1 := DefaultCharacteristic.WithDescriptor(DescriptorData(a, h));
    var c := c1.WithDescriptor(DescriptorData(b, h));
    assert c.descUuids[a] == h;
  }

  class GatoCharacteristic {
    var d: CharacteristicData

    constructor()
      ensures d == DefaultCharacteristic
    {
      d := DefaultCharacteristic;
    }

    /** The copy constructor: the new characteristic starts with `o`'s record. */
    constructor Copy(o: GatoCharacteristic)
      ensures d == o.d
    {
      d := o.d;
    }

    method SetUuid(uuid: GatoUuid)
      modifies this
      ensures d == old(d).(uuid := uuid)
    {
      d := d.(uuid := uuid);
    }

    method SetProperties(props: Properties)
      modifies this
      ensures d == old(d).(properties := props)
    {
      d := d.(properties := props);
    }

    method SetStartHandle(handle: Handle)
      modifies this
      ensures d == old(d).(start := handle)
    {
      d := d.(start := handle);
    }

    method SetEndHandle(handle: Handle)
      modifies this
      ensures d == old(d).(end := handle)
    {
      d := d.(end := handle);
    }

    method SetValueHandle(handle: Handle)
      modifies this
      ensures d == old(d).(valueHandle := handle)
    {
      d := d.(valueHandle := handle);
    }

    /** addDescriptor stores a copy of the descriptor's record. */
    method AddDescriptor(descriptor: GatoDescriptor)
      modifies this
      ensures d == old(d).WithDescriptor(descriptor.d)
    {
      d := d.WithDescriptor(descriptor.d);
    }

    method RemoveDescriptor(descriptor: GatoDescriptor)
      modifies this
      ensures d == old(d).WithoutDescriptor(descriptor.d)
    {
      d := d.WithoutDescriptor(descriptor.d);
    }

    method ClearDescriptors()
      modifies this
      ensures d == old(d).WithoutDescriptors()
    {
      d := d.WithoutDescriptors();
    }

    /** operator=: take `o`'s record; assigning a characteristic to itself changes nothing. */
    method Assign(o: GatoCharacteristic)
      modifies this
      ensures d == old(o.d)
      ensures o == this ==> d == old(d)
    {
      if o != this {
        d := o.d;
      }
    }
  }
}
