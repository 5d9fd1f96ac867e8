/**
 What "the same message" means to a program that looks at has_ flags, counts and which_
 members before it looks at data, and the main theorem of the codec in those terms.
 */
module SameMessage {
  import opened Wrappers
  import opened ByteStrings
  import opened Varint
  import opened Descriptor
  import opened Encoding
  import opened Decoding
  import opened RoundTrip

  predicate SameValue(f: Field, a: Value, b: Value)
    decreases f, 0
  {
    match f.ltype
    case LSubmessage(sub) => a.Msg? && b.Msg? && Same(sub, a.slots, b.slots)
    case _ => a == b
  }

  predicate SameSlot(f: Field, a: Slot, b: Slot)
    decreases f, 1
  {
    match f.htype
    case Required => SameValue(f, a.AsValue(), b.AsValue())
    case Optional =>
      if f.Sized() then a.AsHas() == b.AsHas() && (a.AsHas() ==> SameValue(f, a.AsValue(), b.AsValue()))
      else SameValue(f, a.AsValue(), b.AsValue())
    case Repeated =>
      && |a.AsItems()| == |b.AsItems()|
      && forall k :: 0 <= k < |a.AsItems()| ==> SameValue(f, a.AsItems()[k], b.AsItems()[k])
    case Oneof => a.AsWhich() == b.AsWhich() && (a.AsWhich() == f.tag ==> SameValue(f, a.AsValue(), b.AsValue()))
  }

  /** Equal up to the contents of absent optionals, unused array elements and inactive union members. */
  predicate Same(fields: Fields, a: seq<Slot>, b: seq<Slot>)
    decreases fields, 2
  {
    && |a| == |b|
    && forall i :: 0 <= i < |fields| ==> SameSlot(fields[i], SlotAt(a, fields[i]), SlotAt(b, fields[i]))
  }

  /** A message whose every field looks unset is the default message. */
  lemma {:induction false} UnsetIsDefault(sub: Fields, slots: seq<Slot>)
    requires WellFormed(sub) && InRange(sub, slots)
    requires forall i :: 0 <= i < |sub| ==> IsProto3Default(sub[i], SlotAt(slots, sub[i]))
    ensures Same(sub, slots, Default(sub))
    decreases sub, 2
  {
    DefaultSlots(sub, |sub|);
    forall i | 0 <= i < |sub| ensures SameSlot(sub[i], SlotAt(slots, sub[i]), SlotAt(Default(sub), sub[i])) {
      UnsetSlotIsDefault(sub[i], SlotAt(slots, sub[i]));
    }
  }

  lemma {:induction false} UnsetSlotIsDefault(f: Field, s: Slot)
    requires FieldOk(f) && SlotInRange(f, s) && IsProto3Default(f, s)
    ensures SameSlot(f, s, DefaultSlot(f))
    decreases f, 1
  {
    if f.htype.Optional? && !f.Sized() {
      match f.ltype
      case LSubmessage(sub) =>
        forall i | 0 <= i < |sub| ensures IsProto3Default(sub[i], SlotAt(s.v.slots, sub[i])) {
          assert MemberOf(s.v, sub[i]) == SlotAt(s.v.slots, sub[i]);
        }
        UnsetIsDefault(sub, s.v.slots);
      case LFixedLengthBytes => assert s.v.bytes == seq(f.dataSize, _ => 0);
      case _ =>
    }
  }

  lemma {:induction false} NormalValueSame(f: Field, v: Value)
    requires FieldOk(f) && ValueInRange(f, v)
    ensures SameValue(f, v, NormalValue(f, v))
    decreases f, 0
  {
    match f.ltype
    case LSubmessage(sub) => NormalIsSame(sub, v.slots);
    case _ =>
  }

  /** A field that is written comes back the same. */
  lemma {:induction false} TakenSame(f: Field, s: Slot)
    requires FieldOk(f) && SlotInRange(f, s) && Present(f, s)
    ensures SameSlot(f, s, Taken(f, s))
    decreases f, 1
  {
    hide NormalValue, SameValue, ValueInRange;
    if f.htype.Repeated? {
      NormalItemsAt(f, s.items, |s.items|);
      forall k | 0 <= k < |s.items| ensures SameValue(f, s.items[k], NormalItems(f, s.items, |s.items|)[k]) {
        NormalValueSame(f, s.items[k]);
      }
    } else {
      NormalValueSame(f, s.v);
    }
  }

  /** An optional field that is not written comes back absent, or with the zero it had. */
  lemma AbsentOptionalSame(fields: Fields, slots: seq<Slot>, i: nat)
    requires WellFormed(fields) && InRange(fields, slots) && i < |fields|
    requires fields[i].htype.Optional? && !Present(fields[i], SlotAt(slots, fields[i]))
    ensures SameSlot(fields[i], SlotAt(slots, fields[i]), SlotAt(Normal(fields, slots), fields[i]))
    decreases fields, 1, i
  {
    var f, s := fields[i], SlotAt(slots, fields[i]);
    forall j | 0 <= j < |fields| && fields[j].slot == f.slot ensures !Present(fields[j], SlotAt(slots, fields[j])) {
      if j < i { SlotsAscend(fields, j, i); } else if i < j { SlotsAscend(fields, i, j); }
    }
    NormalUntouched(fields, slots, |fields|, i);
    assert Normal(fields, slots) == NormalUpTo(fields, slots, |fields|);
    assert IsProto3Default(f, s);
    UnsetSlotIsDefault(f, s);
  }

  /** An inactive member of a union: the active member, if any, is the same on both sides. */
  lemma InactiveMemberSame(fields: Fields, slots: seq<Slot>, i: nat)
    requires WellFormed(fields) && InRange(fields, slots) && i < |fields|
    requires fields[i].htype.Oneof? && !Present(fields[i], SlotAt(slots, fields[i]))
    ensures SameSlot(fields[i], SlotAt(slots, fields[i]), SlotAt(Normal(fields, slots), fields[i]))
  {
    hide Taken, NormalUpTo, SameValue, NormalValue;
    var f, s := fields[i], slots[fields[i].slot];
    assert Normal(fields, slots) == NormalUpTo(fields, slots, |fields|);
    if s.which == 0 {
      forall j | 0 <= j < |fields| && fields[j].slot == f.slot ensures !Present(fields[j], SlotAt(slots, fields[j])) {
        SharedSlotIsOneof(fields, i, j);
        EachFieldOk(fields, j);
      }
      NormalUntouched(fields, slots, |fields|, i);
    } else {
      assert WhichKnown(fields, slots[f.slot], f.slot);
      var j :| 0 <= j < |fields| && fields[j].slot == f.slot && fields[j].htype.Oneof? && fields[j].tag == s.which;
      NormalKept(fields, slots, |fields|, j);
      TakenWhich(fields[j], slots[fields[j].slot]);
    }
  }

  lemma TakenWhich(f: Field, s: Slot)
    requires f.htype.Oneof?
    ensures Taken(f, s).AsWhich() == f.tag
  {
  }

  lemma SharedSlotIsOneof(fields: Fields, i: nat, j: nat)
    requires WellFormed(fields) && i < |fields| && j < |fields| && fields[i].htype.Oneof? && fields[i].slot == fields[j].slot
    ensures fields[j].htype.Oneof?
  {
    if j < i { SlotsAscend(fields, j, i); } else if i < j { SlotsAscend(fields, i, j); }
  }

  /** What comes back from a round trip is the same message. */
  lemma {:induction false} NormalIsSame(fields: Fields, slots: seq<Slot>)
    requires WellFormed(fields) && InRange(fields, slots)
    ensures Same(fields, slots, Normal(fields, slots))
    decreases fields, 2
  {
    hide NormalUpTo, Taken, SameSlot, Present;
    NormalLength(fields, slots, |fields|);
    DefaultSlots(fields, |fields|);
    forall i | 0 <= i < |fields|
      ensures SameSlot(fields[i], SlotAt(slots, fields[i]), SlotAt(Normal(fields, slots), fields[i]))
    {
      EachFieldOk(fields, i);
      EachSlotInRange(fields, slots, i);
      if Present(fields[i], SlotAt(slots, fields[i])) {
        NormalKept(fields, slots, |fields|, i);
        TakenSame(fields[i], SlotAt(slots, fields[i]));
      } else if fields[i].htype.Optional? {
        AbsentOptionalSame(fields, slots, i);
      } else {
        OnlyOptionalOrOneofAbsent(fields[i], SlotAt(slots, fields[i]));
        InactiveMemberSame(fields, slots, i);
      }
    }
  }

  lemma OnlyOptionalOrOneofAbsent(f: Field, s: Slot)
    requires !Present(f, s)
    ensures f.htype.Optional? || f.htype.Oneof?
  {
  }

  /**
   Main theorem of the codec: every message in range of a well-formed descriptor can be
   encoded, decoding the bytes succeeds, and gives the same message back.  (A length prefix
   is read as a 32-bit number, so each must be one; module PrefixLimit shows the converse.)
   */
  lemma EncodeThenDecode(fields: Fields, slots: seq<Slot>)
    requires WellFormed(fields) && InRange(fields, slots)
    ensures Encode(fields, slots).Some?
    ensures PrefixesFit(fields, slots) ==>
              && Decode(fields, Encode(fields, slots).value).Some?
              && Same(fields, slots, Decode(fields, Encode(fields, slots).value).value)
  {
    EncodeSucceeds(fields, slots);
    if PrefixesFit(fields, slots) {
      MessageRoundTrip(fields, slots);
      NormalIsSame(fields, slots);
    }
  }
}
