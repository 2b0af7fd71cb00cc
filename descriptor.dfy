/**
 * GatoDescriptor (gatodescriptor.cpp): a characteristic descriptor, that
 * is a UUID and the attribute handle it lives at. The object holds a
 * shared record `d`; copying a descriptor copies the record, so a later
 * setter on one copy never shows through another.
 */
module Descriptor {
  import opened Types
  import opened Uuid

  /** GatoDescriptorPrivate: the record shared between copies. */
  datatype DescriptorData = DescriptorData(uuid: GatoUuid, handle: Handle)

  /** The record of a default-constructed descriptor: a null UUID at handle 0. */
  const DefaultDescriptor: DescriptorData := DescriptorData(Null, 0)

  class GatoDescriptor {
    var d: DescriptorData

    constructor()
      ensures d == DefaultDescriptor
    {
      d := DefaultDescriptor;
    }

    /** The copy constructor: the new descriptor starts with `o`'s record. */
    constructor Copy(o: GatoDescriptor)
      ensures d == o.d
    {
      d := o.d;
    }

    function Uuid(): GatoUuid
      reads this
    {
      d.uuid
    }

    function Handle(): Types.Handle
      reads this
    {
      d.handle
    }

    method SetUuid(uuid: GatoUuid)
      modifies this
      ensures Uuid() == uuid && Handle() == old(Handle())
    {
      d := d.(uuid := uuid);
    }

    method SetHandle(handle: Types.Handle)
      modifies this
      ensures Handle() == handle && Uuid() == old(Uuid())
    {
      d := d.(handle := handle);
    }

    /** operator=: take `o`'s record; assigning a descriptor to itself changes nothing. */
    method Assign(o: GatoDescriptor)
      modifies this
      ensures d == old(o.d)
      ensures o == this ==> d == old(d)
    {
      if o != this {
        d := o.d;
      }
    }
  }
}
