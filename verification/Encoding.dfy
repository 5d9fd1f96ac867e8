/**
 What pb_encode writes (pb_encode.c), as a function from messages to bytes.  The methods of
 module Encoder are proved to produce exactly these bytes and, on a sizing stream, to count
 them.
 */
module Encoding {
  import opened Wrappers
  import opened ByteStrings
  import opened Varint
  import opened Descriptor

  const WT_VARINT := 0
  const WT_64BIT := 1
  const WT_STRING := 2
  const WT_32BIT := 5

  function WireType(t: LType): nat {
    match t
    case LBool => WT_VARINT
    case LVarint => WT_VARINT
    case LUVarint => WT_VARINT
    case LSVarint => WT_VARINT
    case LFixed32 => WT_32BIT
    case LFixed64 => WT_64BIT
    case _ => WT_STRING
  }

  function EncodeTag(wireType: nat, tag: nat): ByteString {
    EncodeVarint(tag * 8 + wireType)
  }

  function LengthDelimited(body: ByteString): ByteString {
    EncodeVarint(|body|) + body
  }

  /** pb_check_proto3_default_value: nothing worth writing is stored in the field. */
  predicate IsProto3Default(f: Field, s: Slot)
    decreases f, 1
  {
    match f.htype
    case Required => false
    case Repeated => f.Sized() && |s.AsItems()| == 0
    case Oneof => s.AsWhich() == 0
    case Optional =>
      if f.Sized() then !s.AsHas()
      else match f.ltype
        case LBytes => |s.AsValue().AsBytes()| == 0
        case LString => |s.AsValue().AsBytes()| == 0
        case LFixedLengthBytes => f.dataSize == 0
        case LSubmessage(sub) =>
          forall i :: 0 <= i < |sub| ==> IsProto3Default(sub[i], MemberOf(s.AsValue(), sub[i]))
        case _ => s.AsValue().AsInt() == 0
  }

  /** The struct member of a message value in which field f lives. */
  function MemberOf(v: Value, f: Field): Slot {
    if v.Msg? then SlotAt(v.slots, f) else Single(false, Int(0))
  }

  function SlotAt(slots: seq<Slot>, f: Field): Slot {
    if f.slot < |slots| then slots[f.slot] else Single(false, Int(0))
  }

  /** The bytes of one value without its tag, None when the encoder refuses it. */
  function EncodeValue(f: Field, v: Value): Option<ByteString>
    decreases f, 0
  {
    match f.ltype
    case LBool => Some(EncodeVarint(if v.AsInt() != 0 then 1 else 0))
    case LVarint => Some(EncodeVarint(ToUInt64(v.AsInt())))
    case LUVarint => Some(EncodeVarint(ToUInt64(v.AsInt())))
    case LSVarint => Some(EncodeVarint(ZigZag(ToInt64(ToUInt64(v.AsInt())))))
    case LFixed32 => Some(ToFixed(v.AsInt() % TWO_32, 4))
    case LFixed64 => Some(ToFixed(v.AsInt() % TWO_64, 8))
    case LBytes => if |v.AsBytes()| + BYTES_HEADER > f.dataSize then None else Some(LengthDelimited(v.AsBytes()))
    case LString => Some(LengthDelimited(v.AsBytes()))
    case LFixedLengthBytes => Some(LengthDelimited(v.AsBytes()))
    case LSubmessage(sub) =>
      match Encode(sub, if v.Msg? then v.slots else [])
      case None => None
      case Some(body) => Some(LengthDelimited(body))
  }

  function Append(a: Option<ByteString>, b: Option<ByteString>): Option<ByteString> {
    if a.Some? && b.Some? then Some(a.value + b.value) else None
  }

  /** The values of the first n items one after the other, as in a packed array. */
  function EncodePacked(f: Field, items: seq<Value>, n: nat): Option<ByteString>
    requires n <= |items|
    decreases f, 1, n
  {
    if n == 0 then Some([]) else Append(EncodePacked(f, items, n - 1), EncodeValue(f, items[n - 1]))
  }

  /** The first n items, each behind its own tag. */
  function EncodeUnpacked(f: Field, items: seq<Value>, n: nat): Option<ByteString>
    requires n <= |items|
    decreases f, 1, n
  {
    if n == 0 then Some([])
    else Append(EncodeUnpacked(f, items, n - 1), Append(Some(EncodeTag(WireType(f.ltype), f.tag)), EncodeValue(f, items[n - 1])))
  }

  /** encode_array. */
  function EncodeArray(f: Field, items: seq<Value>): Option<ByteString>
    decreases f, 2
  {
    if |items| == 0 then Some([])
    else if |items| > f.arraySize then None
    else if f.ltype.Packable() then
      match EncodePacked(f, items, |items|)
      case None => None
      case Some(body) => Some(EncodeTag(WT_STRING, f.tag) + LengthDelimited(body))
    else EncodeUnpacked(f, items, |items|)
  }

  /** Whether encode_basic_field writes a singular or oneof field. */
  predicate Present(f: Field, s: Slot)
    decreases f, 2
  {
    match f.htype
    case Required => true
    case Optional => if f.Sized() then s.AsHas() else !IsProto3Default(f, s)
    case Repeated => true
    case Oneof => s.AsWhich() == f.tag
  }

  /** encode_basic_field. */
  function EncodeField(f: Field, s: Slot): Option<ByteString>
    decreases f, 3
  {
    if f.htype.Repeated? then EncodeArray(f, s.AsItems())
    else if !Present(f, s) then Some([])
    else Append(Some(EncodeTag(WireType(f.ltype), f.tag)), EncodeValue(f, s.AsValue()))
  }

  function EncodeUpTo(fields: Fields, slots: seq<Slot>, n: nat): Option<ByteString>
    requires n <= |fields|
    decreases fields, 1, n
  {
    if n == 0 then Some([])
    else Append(EncodeUpTo(fields, slots, n - 1), EncodeField(fields[n - 1], SlotAt(slots, fields[n - 1])))
  }

  /** pb_encode into a buffer that is large enough. */
  function Encode(fields: Fields, slots: seq<Slot>): Option<ByteString>
    decreases fields, 2
  {
    EncodeUpTo(fields, slots, |fields|)
  }
}
