/**
 Message descriptors and messages of nanopb (pb.h): static fields in the default
 configuration.  A descriptor is a well-founded tree, because a statically allocated
 message cannot contain itself.  A message is the sequence of members of its C struct.
 */
module Descriptor {
  import opened Wrappers
  import opened ByteStrings
  import opened Varint

  /** pb_size_t is one byte by default, two with PB_FIELD_16BIT and four with PB_FIELD_32BIT. */
  type SizeMax = n: nat | n == 0xFF || n == 0xFFFF || n == 0xFFFF_FFFF witness 0xFF

  const PB_SIZE_MAX: SizeMax                  // everything here holds for all three
  const PB_TAG_MAX: nat := 0x1FFF_FFFF        // the largest field number of the wire format
  const PB_MAX_REQUIRED_FIELDS: nat := 64
  const BYTES_HEADER: nat := if PB_SIZE_MAX == 0xFF then 1 else if PB_SIZE_MAX == 0xFFFF then 2 else 4   // offsetof(pb_bytes_array_t, bytes)

  datatype LType =
    | LBool | LVarint | LUVarint | LSVarint | LFixed32 | LFixed64
    | LBytes | LString | LSubmessage(fields: seq<Field>) | LFixedLengthBytes
  {
    /** PB_LTYPE(type) <= PB_LTYPE_LAST_PACKABLE. */
    predicate Packable() {
      LBool? || LVarint? || LUVarint? || LSVarint? || LFixed32? || LFixed64?
    }
  }

  datatype HType = Required | Optional | Repeated | Oneof

  /**
   pb_field_t.  The list of fields of a message ends where the C array has its zero tag.
   slot names the struct member the field lives in; the members of a union share one slot.
   */
  datatype Field = Field(
    tag: nat, ltype: LType, htype: HType,
    dataOffset: nat, sizeOffset: int, dataSize: nat, arraySize: nat,
    defaultValue: Option<Value>, slot: nat)
  {
    /** A has_ flag, a count or a which_ member exists apart from the data. */
    predicate Sized() { sizeOffset != 0 }

    predicate FixedCount() { htype.Repeated? && !Sized() }
  }

  type Fields = seq<Field>

  /** The content of one data member. */
  datatype Value =
    | Int(i: int)                // bool, integer or raw fixed-width word
    | Blob(bytes: ByteString)    // bytes in use; for a string, the characters before the NUL
    | Msg(slots: seq<Slot>)
  {
    function AsInt(): int { if Int? then i else 0 }
    function AsBytes(): ByteString { if Blob? then bytes else [] }
  }

  /** The content of one struct member with its has_ flag, count or which_ member. */
  datatype Slot =
    | Single(has: bool, v: Value)
    | Items(items: seq<Value>)
    | Choice(which: nat, v: Value)
  {
    function AsItems(): seq<Value> { if Items? then items else [] }
    function AsWhich(): nat { if Choice? then which else 0 }
    predicate AsHas() { Single? && has }
    function AsValue(): Value { if Items? then Int(0) else v }
  }

  // ----- well-formed descriptors ------------------------------------------------------

  /** Field i shares the union of field i - 1 (data_offset == PB_SIZE_MAX inside a oneof). */
  predicate InUnion(fields: Fields, i: nat)
    requires i < |fields|
  {
    i > 0 && fields[i - 1].htype.Oneof? && fields[i].htype.Oneof? && fields[i].dataOffset == PB_SIZE_MAX
  }

  predicate FieldOk(f: Field)
    decreases f, 0
  {
    && 0 < f.tag <= PB_SIZE_MAX && f.tag <= PB_TAG_MAX && f.dataSize <= PB_SIZE_MAX && f.arraySize <= PB_SIZE_MAX
    && (f.ltype.LVarint? || f.ltype.LUVarint? || f.ltype.LSVarint? ==> f.dataSize in {1, 2, 4, 8})
    && (f.htype.Oneof? ==> f.Sized())
    && (f.ltype.LSubmessage? ==> WellFormed(f.ltype.fields))
  }

  /** What the generator guarantees of a descriptor. */
  predicate WellFormed(fields: Fields)
    decreases fields, 1
  {
    && (forall i :: 0 <= i < |fields| ==> FieldOk(fields[i]))
    && (forall i, j :: 0 <= i < j < |fields| ==> fields[i].tag != fields[j].tag)
    && (forall i :: 0 <= i < |fields| ==> SlotFollows(fields, i))
  }

  /** Slots are numbered from zero; the members of a union share their slot and their which_ member. */
  predicate SlotFollows(fields: Fields, i: nat)
    requires i < |fields|
  {
    if i == 0 then fields[i].slot == 0
    else if InUnion(fields, i) then
      fields[i].slot == fields[i - 1].slot && fields[i].sizeOffset == fields[i - 1].sizeOffset
    else fields[i].slot == fields[i - 1].slot + 1
  }

  lemma FirstSlot(fields: Fields)
    requires WellFormed(fields) && fields != []
    ensures fields[0].slot == 0
  {
    assert SlotFollows(fields, 0);
  }

  lemma SlotStep(fields: Fields, i: nat)
    requires WellFormed(fields) && i < |fields|
    ensures fields[i].slot == if i == 0 then 0 else if InUnion(fields, i) then fields[i - 1].slot else fields[i - 1].slot + 1
    ensures InUnion(fields, i) ==> fields[i].sizeOffset == fields[i - 1].sizeOffset
  {
    assert SlotFollows(fields, i);
  }

  function SlotCount(fields: Fields): nat {
    if fields == [] then 0 else fields[|fields| - 1].slot + 1
  }

  /** Slots ascend along the descriptor; only members of one union share a slot. */
  lemma {:induction false} SlotsAscend(fields: Fields, i: nat, j: nat)
    requires WellFormed(fields) && i < j < |fields|
    ensures fields[i].slot <= fields[j].slot < SlotCount(fields)
    ensures fields[i].slot == fields[j].slot ==> fields[i].htype.Oneof? && fields[j].htype.Oneof?
    decreases j
  {
    SlotStep(fields, j);
    if i + 1 < j {
      SlotsAscend(fields, i, j - 1);
    }
    SlotBelowCount(fields, j);
  }

  lemma {:induction false} SlotBelowCount(fields: Fields, i: nat)
    requires WellFormed(fields) && i < |fields|
    ensures fields[i].slot < SlotCount(fields)
    decreases |fields| - i
  {
    if i + 1 < |fields| {
      SlotStep(fields, i + 1);
      SlotBelowCount(fields, i + 1);
    }
  }

  // ----- default messages ---------------------------------------------------------------

  /** What pb_field_set_to_default leaves in the data of a singular field. */
  function InitialValue(f: Field): Value
    decreases f, 0
  {
    match f.ltype
    case LSubmessage(sub) => Msg(Default(sub))
    case _ => if f.defaultValue.Some? then f.defaultValue.value else ZeroValue(f)
  }

  /** A memset to zero, read as the field's type. */
  function ZeroValue(f: Field): Value {
    match f.ltype
    case LBytes => Blob([])
    case LString => Blob([])
    case LFixedLengthBytes => Blob(seq(f.dataSize, _ => 0))
    case _ => Int(0)
  }

  function DefaultSlot(f: Field): Slot
    decreases f, 1
  {
    match f.htype
    case Required => Single(false, InitialValue(f))
    case Optional => Single(false, InitialValue(f))
    case Repeated => Items([])
    case Oneof => Choice(0, Int(0))
  }

  /** pb_message_set_to_defaults. */
  function Default(fields: Fields): seq<Slot>
    decreases fields, 2
  {
    DefaultUpTo(fields, |fields|)
  }

  function DefaultUpTo(fields: Fields, n: nat): seq<Slot>
    requires n <= |fields|
    decreases fields, 1, n
  {
    if n == 0 then []
    else if InUnion(fields, n - 1) then DefaultUpTo(fields, n - 1)
    else DefaultUpTo(fields, n - 1) + [DefaultSlot(fields[n - 1])]
  }

  lemma EmptyUnion(f: Field)
    requires f.htype.Oneof?
    ensures DefaultSlot(f) == Choice(0, Int(0))
  {
  }

  lemma {:induction false} DefaultSlots(fields: Fields, n: nat)
    requires WellFormed(fields) && n <= |fields|
    ensures |DefaultUpTo(fields, n)| == if n == 0 then 0 else fields[n - 1].slot + 1
    ensures forall i :: 0 <= i < n ==> fields[i].slot < |DefaultUpTo(fields, n)|
                                       && DefaultUpTo(fields, n)[fields[i].slot] == DefaultSlot(fields[i])
  {
    hide WellFormed, DefaultSlot;
    if n > 0 {
      DefaultSlots(fields, n - 1);
      SlotStep(fields, n - 1);
      forall i | 0 <= i < n - 1 ensures fields[i].slot <= fields[n - 1].slot {
        SlotsAscend(fields, i, n - 1);
      }
      if InUnion(fields, n - 1) {
        assert DefaultUpTo(fields, n - 1)[fields[n - 2].slot] == DefaultSlot(fields[n - 2]);
        EmptyUnion(fields[n - 2]);
        EmptyUnion(fields[n - 1]);
      }
    }
  }

  // ----- messages in range ----------------------------------------------------------------

  predicate SignedFits(i: int, size: nat) {
    match size
    case 1 => -0x80 <= i < 0x80
    case 2 => -0x8000 <= i < 0x8000
    case 4 => -0x8000_0000 <= i < 0x8000_0000
    case _ => -0x8000_0000_0000_0000 <= i < 0x8000_0000_0000_0000
  }

  predicate UnsignedFits(i: int, size: nat) {
    match size
    case 1 => 0 <= i < 0x100
    case 2 => 0 <= i < 0x1_0000
    case 4 => 0 <= i < 0x1_0000_0000
    case _ => 0 <= i < 0x1_0000_0000_0000_0000
  }

  predicate ValueInRange(f: Field, v: Value)
    decreases f, 0
  {
    match f.ltype
    case LBool => v.Int? && (v.i == 0 || v.i == 1)
    case LVarint => v.Int? && SignedFits(v.i, f.dataSize)
    case LUVarint => v.Int? && UnsignedFits(v.i, f.dataSize)
    case LSVarint => v.Int? && SignedFits(v.i, f.dataSize)
    case LFixed32 => v.Int? && UnsignedFits(v.i, 4)
    case LFixed64 => v.Int? && UnsignedFits(v.i, 8)
    case LBytes => v.Blob? && |v.bytes| + BYTES_HEADER <= f.dataSize
    case LString => v.Blob? && |v.bytes| < f.dataSize && 0 !in v.bytes
    case LFixedLengthBytes => v.Blob? && |v.bytes| == f.dataSize
    case LSubmessage(sub) => v.Msg? && InRange(sub, v.slots)
  }

  predicate SlotInRange(f: Field, s: Slot)
    decreases f, 1
  {
    match f.htype
    case Required => s.Single? && ValueInRange(f, s.v)
    case Optional =>
      && s.Single?
      && (if f.Sized() then s.has ==> ValueInRange(f, s.v)
          else ValueInRange(f, s.v) && f.defaultValue.None?)
    case Repeated =>
      && s.Items? && |s.items| <= f.arraySize
      && (f.FixedCount() ==> |s.items| == f.arraySize)
      && (forall k :: 0 <= k < |s.items| ==> ValueInRange(f, s.items[k]))
    case Oneof => s.Choice? && (s.which == f.tag ==> ValueInRange(f, s.v))
  }

  /** A which_ member is zero or the tag of a member of its union. */
  predicate WhichKnown(fields: Fields, s: Slot, slot: nat) {
    s.Choice? && s.which != 0 ==>
      exists i :: 0 <= i < |fields| && fields[i].slot == slot && fields[i].htype.Oneof? && fields[i].tag == s.which
  }

  /** The messages for which decoding is promised to undo encoding. */
  predicate InRange(fields: Fields, slots: seq<Slot>)
    decreases fields, 2
  {
    && |slots| == SlotCount(fields)
    && (forall i :: 0 <= i < |fields| ==> fields[i].slot < |slots| && SlotInRange(fields[i], slots[fields[i].slot]))
    && (forall j :: 0 <= j < |slots| ==> WhichKnown(fields, slots[j], j))
  }
}
