/**
 * GatoService (gatoservice.cpp): a primary service's UUID, its handle
 * range and its characteristics, kept in a map keyed by each
 * characteristic's start handle. The object holds a shared record `d`;
 * a characteristic added to a service is copied, so changing the
 * original afterwards does not change the service.
 */
module Service {
  import opened Types
  import opened Uuid
  import opened OrderedMap
  import opened Characteristic

  /** GatoServicePrivate: the record shared between copies. */
  datatype ServiceData = ServiceData(
    uuid: GatoUuid,
    start: Handle,
    end: Handle,
    characteristics: map<Handle, CharacteristicData>)
  {
    /** characteristics(): the characteristics in ascending key order. */
    ghost function Characteristics(): seq<CharacteristicData> {
      Values(characteristics)
    }

    /**
     * containsCharacteristic(GatoCharacteristic): something is stored at the
     * characteristic's start handle and it has the same UUID.
     */
    function ContainsCharacteristic(c: CharacteristicData): (r: bool)
      ensures r <==> c.start in characteristics && characteristics[c.start].uuid == c.uuid
    {
      if c.start in characteristics then characteristics[c.start].uuid == c.uuid else false
    }

    /** containsCharacteristic(GatoHandle). */
    predicate ContainsHandle(h: Handle) {
      h in characteristics
    }

    /** getCharacteristic: the characteristic at `h`, or a default (null) one. */
    function CharacteristicAt(h: Handle): (r: CharacteristicData)
      ensures ContainsHandle(h) ==> r == characteristics[h]
      ensures !ContainsHandle(h) ==> r == DefaultCharacteristic && r.IsNull()
    {
      ValueOr(characteristics, h, DefaultCharacteristic)
    }

    /** addCharacteristic: store the characteristic at its start handle, replacing any there. */
    function WithCharacteristic(c: CharacteristicData): (r: ServiceData)
      ensures r.ContainsHandle(c.start) && r.CharacteristicAt(c.start) == c
      ensures r.ContainsCharacteristic(c)
      ensures forall h :: h != c.start ==>
                (r.ContainsHandle(h) <==> ContainsHandle(h)) && r.CharacteristicAt(h) == CharacteristicAt(h)
      ensures r.uuid == uuid && r.start == start && r.end == end
    {
      this.(characteristics := characteristics[c.start := c])
    }

    /** removeCharacteristic: drop whatever is stored at the characteristic's start handle. */
    function WithoutCharacteristic(c: CharacteristicData): (r: ServiceData)
      ensures !r.ContainsHandle(c.start) && !r.ContainsCharacteristic(c)
      ensures forall h :: h != c.start ==>
                (r.ContainsHandle(h) <==> ContainsHandle(h)) && r.CharacteristicAt(h) == CharacteristicAt(h)
      ensures r.uuid == uuid && r.start == start && r.end == end
    {
      this.(characteristics := characteristics - {c.start})
    }

    /** clearCharacteristics. */
    function WithoutCharacteristics(): (r: ServiceData)
      ensures forall h :: !r.ContainsHandle(h) && r.CharacteristicAt(h).IsNull()
      ensures r.uuid == uuid && r.start == start && r.end == end
    {
      this.(characteristics := map[])
    }

    /** Every characteristic is stored under its own start handle. */
    ghost predicate KeyedByStart() {
      forall h :: h in characteristics ==> characteristics[h].start == h
    }
  }

  /** The record of a default-constructed service: a null UUID, handles 0, no characteristics. */
  const DefaultService: ServiceData := ServiceData(Null, 0, 0, map[])

  /** Adding, removing and clearing keep every characteristic under its own start handle. */
  lemma KeyedByStartPreserved(s: ServiceData, c: CharacteristicData)
    requires s.KeyedByStart()
    ensures s.WithCharacteristic(c).KeyedByStart()
    ensures s.WithoutCharacteristic(c).KeyedByStart()
    ensures s.WithoutCharacteristics().KeyedByStart()
  {
  }

  /**
   * characteristics() lists every stored characteristic exactly once, in
   * strictly ascending start-handle order.
   */
  lemma {:induction false} CharacteristicsAscending(s: ServiceData)
    requires s.KeyedByStart()
    ensures |s.Characteristics()| == |s.characteristics.Keys|
    ensures forall i, j :: 0 <= i < j < |s.Characteristics()| ==>
              s.Characteristics()[i].start < s.Characteristics()[j].start
    ensures forall h :: h in s.characteristics ==> s.characteristics[h] in s.Characteristics()
    ensures forall x :: x in s.Characteristics() ==> s.ContainsHandle(x.start) && s.CharacteristicAt(x.start) == x
  {
    ValuesAscendingByKey(s.characteristics, (x: CharacteristicData) => x.start);
  }

  /**
   * Membership is by start handle and UUID only: a characteristic with the
   * same start handle and UUID but other attributes is reported as
   * contained, and so is one with other descriptors.
   */
  lemma ContainsIgnoresOtherAttributes(s: ServiceData, c: CharacteristicData, other: CharacteristicData)
    requires s.ContainsCharacteristic(c)
    requires other.start == c.start && other.uuid == c.uuid
    ensures s.ContainsCharacteristic(other)
  {
  }

  class GatoService {
    var d: ServiceData

    constructor()
      ensures d == DefaultService
    {
      d := DefaultService;
    }

    /** The copy constructor: the new service starts with `o`'s record. */
    constructor Copy(o: GatoService)
      ensures d == o.d
    {
      d := o.d;
    }

    method SetUuid(uuid: GatoUuid)
      modifies this
      ensures d == old(d).(uuid := uuid)
    {
      d := d.(uuid := uuid);
    }

    method SetStartHandle(handle: Handle)
      modifies this
      ensures d == old(d).(start := handle)
    {
      d := d.(start := handle);
    }

    method SetEndHandle(handle: Handle)
      modifies this
      ensures d == old(d).(end := handle)
    {
      d := d.(end := handle);
    }

    /** addCharacteristic stores a copy of the characteristic's record. */
    method AddCharacteristic(characteristic: GatoCharacteristic)
      modifies this
      ensures d == old(d).WithCharacteristic(characteristic.d)
    {
      d := d.WithCharacteristic(characteristic.d);
    }

    method RemoveCharacteristic(characteristic: GatoCharacteristic)
      modifies this
      ensures d == old(d).WithoutCharacteristic(characteristic.d)
    {
      d := d.WithoutCharacteristic(characteristic.d);
    }

    method ClearCharacteristics()
      modifies this
      ensures d == old(d).WithoutCharacteristics()
    {
      d := d.WithoutCharacteristics();
    }

    /** operator=: take `o`'s record; assigning a service to itself changes nothing. */
    method Assign(o: GatoService)
      modifies this
      ensures d == old(o.d)
      ensures o == this ==> d == old(d)
    {
      if o != this {
        d := o.d;
      }
    }
  }

  /**
   * Copy semantics: changing a characteristic after adding it to a service
   * leaves the service's copy as it was.
   */
  method AddedCharacteristicIsACopy(service: GatoService, c: GatoCharacteristic, u: GatoUuid)
    returns (stored: CharacteristicData, current: CharacteristicData)
    modifies service, c
    ensures stored == old(c.d) && current == old(c.d).(uuid := u)
  {
    service.AddCharacteristic(c);
    c.SetUuid(u);
    stored := service.d.CharacteristicAt(c.d.start);
    current := c.d;
  }
}
