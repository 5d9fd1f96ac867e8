/**
 The encoder as it runs (pb_encode.c): it writes into a stream, or only counts when the
 stream has no callback.  Every method is proved against the functions of module Encoding:
 a writing stream receives exactly those bytes, and a sizing stream counts exactly their
 number, so a submessage can never change its size between its two passes.
 */
module Encoder {
  import opened Wrappers
  import opened ByteStrings
  import opened Varint
  import opened Descriptor
  import opened Encoding
  import opened FieldIterator

  /** pb_ostream_t.  state is what the sink has received; a sizing stream has no sink. */
  class OStream {
    const sizing: bool        // callback == NULL
    const maxSize: nat
    var state: ByteString
    var bytesWritten: nat

    constructor (sizing: bool, state: ByteString, maxSize: nat)
      ensures this.sizing == sizing && this.state == state && this.maxSize == maxSize && bytesWritten == 0
    {
      this.sizing := sizing;
      this.maxSize := maxSize;
      this.state := state;
      bytesWritten := 0;
    }

    ghost predicate Valid()
      reads this
    {
      sizing || bytesWritten <= maxSize
    }

    /** There is room for n more bytes. */
    predicate Room(n: nat)
      reads this
    {
      sizing || bytesWritten + n <= maxSize
    }

    /** pb_write. */
    method Write(buf: ByteString) returns (ok: bool)
      requires Valid()
      modifies this
      ensures Valid() && ok == old(Room(|buf|))
      ensures ok ==> bytesWritten == old(bytesWritten) + |buf|
                     && state == old(state) + if sizing then [] else buf
      ensures !ok ==> bytesWritten == old(bytesWritten) && state == old(state)
    {
      if |buf| > 0 && !sizing {
        if bytesWritten + |buf| > maxSize {
          return false;   // "stream full"
        }
        state := state + buf;
      }
      bytesWritten := bytesWritten + |buf|;
      return true;
    }

    /** pb_write(stream, NULL, count) on a sizing stream. */
    method Count(count: nat)
      requires sizing
      modifies this
      ensures bytesWritten == old(bytesWritten) + count && state == old(state)
    {
      bytesWritten := bytesWritten + count;
    }
  }

  /** The result of writing e, which the encoder may refuse (None), to the stream. */
  twostate predicate Wrote(stream: OStream, ok: bool, e: Option<ByteString>)
    reads stream
  {
    && stream.Valid()
    && (ok <==> e.Some? && old(stream.Room(|e.value|)))
    && (ok ==> stream.bytesWritten == old(stream.bytesWritten) + |e.value|
               && stream.state == old(stream.state) + if stream.sizing then [] else e.value)
  }

  /** The loop of pb_encode_varint: fill a ten-byte buffer, then clear the last continuation bit. */
  method FillVarint(value: nat) returns (buffer: array<Byte>, i: nat)
    requires 0x7F < value < TWO_64
    ensures fresh(buffer) && i <= buffer.Length && buffer[..i] == EncodeVarint(value)
  {
    hide EncodeVarint;
    buffer := new Byte[10];
    i := 0;
    var rest: nat := value;
    ghost var out: ByteString := [];   // the groups emitted so far
    assert |EncodeVarint(value)| <= 10 by { VarintRoundTrip(value, []); }
    while rest != 0
      invariant 0 <= i == |out| && i <= 10 && buffer.Length == 10 && buffer[..i] == out
      invariant rest > 0 ==> out + EncodeVarint(rest) == EncodeVarint(value)
      invariant rest == 0 ==> ClearLast(out) == Some(EncodeVarint(value))
      decreases rest
    {
      FillStep(out, rest);
      buffer[i] := rest % 128 + 128;
      out := out + [rest % 128 + 128];
      rest := rest / 128;
      i := i + 1;
    }
    buffer[i - 1] := buffer[i - 1] - 128;
    assert buffer[..i] == out[..i - 1] + [out[i - 1] - 128];
  }

  /** The groups with the continuation bit of the last one cleared. */
  ghost function ClearLast(out: ByteString): Option<ByteString> {
    var n := |out|;
    if n == 0 || out[n - 1] < 128 then None else Some(out[..n - 1] + [out[n - 1] - 128])
  }

  lemma FillStep(out: ByteString, rest: nat)
    requires rest > 0
    ensures var next := out + [rest % 128 + 128];
            && |next| <= |out + EncodeVarint(rest)|
            && (rest >= 128 ==> next + EncodeVarint(rest / 128) == out + EncodeVarint(rest))
            && (rest < 128 ==> ClearLast(next) == Some(out + EncodeVarint(rest)))
  {
    hide EncodeVarint;
    assert EncodeVarint(rest) == if rest < 128 then [rest] else [rest % 128 + 128] + EncodeVarint(rest / 128) by {
      EncodeVarintStep(rest);
    }
    var next := out + [rest % 128 + 128];
    if rest >= 128 {
      assert out + ([rest % 128 + 128] + EncodeVarint(rest / 128)) == next + EncodeVarint(rest / 128);
    } else {
      assert next[..|out|] == out;
    }
  }

  lemma EncodeVarintStep(v: nat)
    ensures EncodeVarint(v) == if v < 128 then [v] else [v % 128 + 128] + EncodeVarint(v / 128)
  {
  }

  method PbEncodeVarint(stream: OStream, value: nat) returns (ok: bool)
    requires stream.Valid() && value < TWO_64
    modifies stream
    ensures Wrote(stream, ok, Some(EncodeVarint(value)))
  {
    if value <= 0x7F {
      ok := stream.Write([value]);
    } else {
      var buffer, i := FillVarint(value);
      ok := stream.Write(buffer[..i]);
    }
  }

  method PbEncodeTag(stream: OStream, wireType: nat, tag: nat) returns (ok: bool)
    requires stream.Valid() && wireType < 8 && tag <= PB_SIZE_MAX
    modifies stream
    ensures Wrote(stream, ok, Some(EncodeTag(wireType, tag)))
  {
    ok := PbEncodeVarint(stream, tag * 8 + wireType);
  }

  /** pb_encode_string. */
  method PbEncodeString(stream: OStream, buffer: ByteString) returns (ok: bool)
    requires stream.Valid() && |buffer| < TWO_64
    modifies stream
    ensures Wrote(stream, ok, Some(LengthDelimited(buffer)))
  {
    ok := PbEncodeVarint(stream, |buffer|);
    if !ok { return; }
    ok := stream.Write(buffer);
  }

  // ----- lemmas about lengths -------------------------------------------------------------------

  /** A shorter prefix of a packed array is no longer than the whole. */
  lemma {:induction false} PackedGrows(f: Field, items: seq<Value>, i: nat, n: nat)
    requires i <= n <= |items| && EncodePacked(f, items, n).Some?
    ensures EncodePacked(f, items, i).Some?
    ensures |EncodePacked(f, items, i).value| <= |EncodePacked(f, items, n).value|
    ensures i < n ==>
              && EncodeValue(f, items[i]).Some?
              && |EncodePacked(f, items, i).value| + |EncodeValue(f, items[i]).value| <= |EncodePacked(f, items, n).value|
    decreases n
  {
    hide EncodeValue;
    if i < n { PackedGrows(f, items, i, n - 1); }
  }

  lemma {:induction false} UnpackedGrows(f: Field, items: seq<Value>, i: nat, n: nat)
    requires i <= n <= |items| && EncodeUnpacked(f, items, n).Some?
    ensures EncodeUnpacked(f, items, i).Some?
    ensures |EncodeUnpacked(f, items, i).value| <= |EncodeUnpacked(f, items, n).value|
    ensures i < n ==>
              && EncodeValue(f, items[i]).Some?
              && |EncodeUnpacked(f, items, i).value| + |EncodeTag(WireType(f.ltype), f.tag)| + |EncodeValue(f, items[i]).value|
                 <= |EncodeUnpacked(f, items, n).value|
    decreases n
  {
    hide EncodeValue, EncodeTag;
    if i < n { UnpackedGrows(f, items, i, n - 1); }
  }

  lemma {:induction false} FieldsGrow(fields: Fields, slots: seq<Slot>, i: nat, n: nat)
    requires i <= n <= |fields| && EncodeUpTo(fields, slots, n).Some?
    ensures EncodeUpTo(fields, slots, i).Some?
    ensures |EncodeUpTo(fields, slots, i).value| <= |EncodeUpTo(fields, slots, n).value|
    ensures i < n ==>
              && EncodeField(fields[i], SlotAt(slots, fields[i])).Some?
              && |EncodeUpTo(fields, slots, i).value| + |EncodeField(fields[i], SlotAt(slots, fields[i])).value|
                 <= |EncodeUpTo(fields, slots, n).value|
    decreases n
  {
    hide EncodeField;
    if i < n { FieldsGrow(fields, slots, i, n - 1); }
  }

  /** The 4 * count and 8 * count shortcuts for packed fixed-width items. */
  lemma {:induction false} FixedPackedLength(f: Field, items: seq<Value>, n: nat)
    requires n <= |items| && (f.ltype.LFixed32? || f.ltype.LFixed64?)
    ensures EncodePacked(f, items, n).Some?
    ensures |EncodePacked(f, items, n).value| == (if f.ltype.LFixed32? then 4 else 8) * n
  {
    if n > 0 { FixedPackedLength(f, items, n - 1); }
  }

  // ----- what fits in machine words ---------------------------------------------------------------

  predicate FitsSize(e: Option<ByteString>) {
    e.Some? ==> |e.value| < TWO_64
  }

  /** No length that the encoder computes for the value exceeds a size_t. */
  predicate Measured(f: Field, v: Value)
    decreases f, 4
  {
    && FitsSize(EncodeValue(f, v))
    && (f.ltype.LSubmessage? ==> MeasuredMessage(f.ltype.fields, if v.Msg? then v.slots else []))
  }

  predicate MeasuredSlot(f: Field, s: Slot)
    decreases f, 5
  {
    && Measured(f, s.AsValue())
    && FitsSize(EncodeArray(f, s.AsItems()))
    && forall k :: 0 <= k < |s.AsItems()| ==> Measured(f, s.AsItems()[k])
  }

  predicate MeasuredMessage(fields: Fields, slots: seq<Slot>)
    decreases fields, 6
  {
    && FitsSize(Encode(fields, slots))
    && forall i :: 0 <= i < |fields| ==> MeasuredSlot(fields[i], SlotAt(slots, fields[i]))
  }

  // ----- values -----------------------------------------------------------------------------------

  /** The encoder of f's type (the table PB_ENCODERS). */
  method EncodeByType(stream: OStream, f: Field, v: Value) returns (ok: bool)
    requires stream.Valid() && FieldOk(f) && Measured(f, v)
    modifies stream
    ensures Wrote(stream, ok, EncodeValue(f, v))
    decreases f, 0
  {
    hide EncodeVarint, MeasuredMessage, WellFormed, Encode;
    match f.ltype {
      case LBool => ok := PbEncodeVarint(stream, if v.AsInt() != 0 then 1 else 0);
      case LVarint => ok := PbEncodeVarint(stream, ToUInt64(v.AsInt()));
      case LUVarint => ok := PbEncodeVarint(stream, ToUInt64(v.AsInt()));
      case LSVarint => ok := PbEncodeSvarint(stream, ToInt64(ToUInt64(v.AsInt())));
      case LFixed32 => ok := stream.Write(ToFixed(v.AsInt() % TWO_32, 4));
      case LFixed64 => ok := stream.Write(ToFixed(v.AsInt() % TWO_64, 8));
      case LBytes =>
        if |v.AsBytes()| + BYTES_HEADER > f.dataSize {
          return false;   // "bytes size exceeded"
        }
        ok := PbEncodeString(stream, v.AsBytes());
      case LString => ok := PbEncodeString(stream, v.AsBytes());
      case LFixedLengthBytes => ok := PbEncodeString(stream, v.AsBytes());
      case LSubmessage(sub) => ok := PbEncodeSubmessage(stream, sub, if v.Msg? then v.slots else []);
    }
  }

  method PbEncodeSvarint(stream: OStream, value: int) returns (ok: bool)
    requires stream.Valid() && IsInt64(value)
    modifies stream
    ensures Wrote(stream, ok, Some(EncodeVarint(ZigZag(value))))
  {
    hide EncodeVarint;
    var zigzagged: nat;
    if value < 0 {
      zigzagged := TWO_64 - 1 - ToUInt64(value) * 2 % TWO_64;
    } else {
      zigzagged := ToUInt64(value) * 2 % TWO_64;
    }
    ok := PbEncodeVarint(stream, zigzagged);
  }

  function SubmessageBytes(sub: Fields, slots: seq<Slot>): Option<ByteString> {
    match Encode(sub, slots) case None => None case Some(body) => Some(LengthDelimited(body))
  }

  /** pb_encode_submessage: size it on a stream that only counts, then write it. */
  method PbEncodeSubmessage(stream: OStream, sub: Fields, slots: seq<Slot>) returns (ok: bool)
    requires stream.Valid() && WellFormed(sub) && MeasuredMessage(sub, slots)
    modifies stream
    ensures Wrote(stream, ok, SubmessageBytes(sub, slots))
    decreases sub, 3
  {
    hide EncodeVarint, WellFormed, Encode;
    var sizing := new OStream(true, [], 0);
    ok := PbEncode(sizing, sub, slots);
    if !ok { return; }
    var size := sizing.bytesWritten;
    ok := PbEncodeVarint(stream, size);
    if !ok { return; }
    if stream.sizing {
      stream.Count(size);
      return true;
    }
    if stream.bytesWritten + size > stream.maxSize {
      return false;   // "stream full"
    }
    var substream := new OStream(false, stream.state, size);
    ok := PbEncode(substream, sub, slots);
    stream.bytesWritten := stream.bytesWritten + substream.bytesWritten;
    stream.state := substream.state;
    assert ok && substream.bytesWritten == size;   // "submsg size changed" cannot be reached
  }

  // ----- fields -----------------------------------------------------------------------------------

  /** The packed items, to a sizing stream on the first pass and to the real one on the second. */
  method WriteItems(stream: OStream, f: Field, items: seq<Value>) returns (ok: bool)
    requires stream.Valid() && FieldOk(f)
    requires forall k :: 0 <= k < |items| ==> Measured(f, items[k])
    modifies stream
    ensures Wrote(stream, ok, EncodePacked(f, items, |items|))
    decreases f, 1
  {
    hide EncodeValue, Measured, FieldOk;
    var i := 0;
    while i < |items|
      invariant 0 <= i <= |items|
      invariant Wrote(stream, true, EncodePacked(f, items, i))
    {
      if EncodePacked(f, items, |items|).Some? { PackedGrows(f, items, i, |items|); }
      ok := EncodeByType(stream, f, items[i]);
      if !ok { return; }
      i := i + 1;
    }
    ok := true;
  }

  /** encode_array. */
  method PbEncodeArray(stream: OStream, f: Field, items: seq<Value>) returns (ok: bool)
    requires stream.Valid() && FieldOk(f) && FitsSize(EncodeArray(f, items))
    requires forall k :: 0 <= k < |items| ==> Measured(f, items[k])
    modifies stream
    ensures Wrote(stream, ok, EncodeArray(f, items))
    decreases f, 3
  {
    hide EncodeValue, Measured, EncodePacked, EncodeUnpacked, EncodeVarint, EncodeTag;
    if |items| == 0 {
      return true;
    }
    if |items| > f.arraySize {
      return false;   // "array max size exceeded"
    }
    if f.ltype.Packable() {
      ok := PbEncodePacked(stream, f, items);
    } else {
      ok := PbEncodeUnpacked(stream, f, items);
    }
  }

  function PackedBytes(f: Field, items: seq<Value>): Option<ByteString> {
    match EncodePacked(f, items, |items|)
    case None => None
    case Some(body) => Some(EncodeTag(WT_STRING, f.tag) + LengthDelimited(body))
  }

  method PbEncodePacked(stream: OStream, f: Field, items: seq<Value>) returns (ok: bool)
    requires stream.Valid() && FieldOk(f) && FitsSize(PackedBytes(f, items))
    requires forall k :: 0 <= k < |items| ==> Measured(f, items[k])
    modifies stream
    ensures Wrote(stream, ok, PackedBytes(f, items))
    decreases f, 2
  {
    hide EncodeValue, Measured, EncodePacked, EncodeVarint, EncodeTag;
    ok := PbEncodeTag(stream, WT_STRING, f.tag);
    if !ok { return; }
    var size: nat;
    if f.ltype.LFixed32? {
      FixedPackedLength(f, items, |items|);
      size := 4 * |items|;
    } else if f.ltype.LFixed64? {
      FixedPackedLength(f, items, |items|);
      size := 8 * |items|;
    } else {
      var sizeStream := new OStream(true, [], 0);
      ok := WriteItems(sizeStream, f, items);
      if !ok { return; }
      size := sizeStream.bytesWritten;
    }
    ghost var body := EncodePacked(f, items, |items|);
    assert body.Some? && |body.value| == size;
    ok := PbEncodeVarint(stream, size);
    if !ok { return; }
    if stream.sizing {
      stream.Count(size);
      return true;
    }
    ok := WriteItems(stream, f, items);
  }

  method PbEncodeUnpacked(stream: OStream, f: Field, items: seq<Value>) returns (ok: bool)
    requires stream.Valid() && FieldOk(f)
    requires forall k :: 0 <= k < |items| ==> Measured(f, items[k])
    modifies stream
    ensures Wrote(stream, ok, EncodeUnpacked(f, items, |items|))
    decreases f, 1
  {
    hide EncodeValue, Measured, EncodeTag;
    var i := 0;
    while i < |items|
      invariant 0 <= i <= |items|
      invariant Wrote(stream, true, EncodeUnpacked(f, items, i))
    {
      if EncodeUnpacked(f, items, |items|).Some? { UnpackedGrows(f, items, i, |items|); }
      ok := PbEncodeTag(stream, WireType(f.ltype), f.tag);
      if !ok { return; }
      ok := EncodeByType(stream, f, items[i]);
      if !ok { return; }
      i := i + 1;
    }
    ok := true;
  }

  /** pb_check_proto3_default_value. */
  method CheckProto3Default(f: Field, s: Slot) returns (isDefault: bool)
    requires FieldOk(f)
    ensures isDefault == IsProto3Default(f, s)
    decreases f
  {
    if f.htype.Required? {
      return false;
    } else if f.htype.Repeated? {
      return f.Sized() && |s.AsItems()| == 0;
    } else if f.htype.Oneof? {
      return s.AsWhich() == 0;
    } else if f.Sized() {
      return !s.AsHas();
    }
    match f.ltype {
      case LBytes => return |s.AsValue().AsBytes()| == 0;
      case LString => return |s.AsValue().AsBytes()| == 0;
      case LFixedLengthBytes => return f.dataSize == 0;
      case LSubmessage(sub) =>
        var iter := new FieldIter(sub, 0);
        assert sub != [] ==> FieldOk(sub[0]);
        if iter.Tag() != 0 {
          var more := true;
          while more
            invariant iter.fields == sub && iter.Exact() && (more ==> iter.pos < |sub|)
            invariant forall i :: 0 <= i < (if more then iter.pos else |sub|) ==>
                        IsProto3Default(sub[i], MemberOf(s.AsValue(), sub[i]))
            decreases if more then |sub| - iter.pos else 0
          {
            var nothing := CheckProto3Default(sub[iter.pos], MemberOf(s.AsValue(), sub[iter.pos]));
            if !nothing {
              return false;
            }
            more := iter.Next();
          }
        }
        assert forall i :: 0 <= i < |sub| ==> IsProto3Default(sub[i], MemberOf(s.AsValue(), sub[i]));
        return true;
      case _ => return s.AsValue().AsInt() == 0;
    }
  }

  /** encode_basic_field. */
  method EncodeBasicField(stream: OStream, f: Field, s: Slot) returns (ok: bool)
    requires stream.Valid() && FieldOk(f) && MeasuredSlot(f, s)
    modifies stream
    ensures Wrote(stream, ok, EncodeField(f, s))
    decreases f, 4
  {
    hide EncodeValue, Measured, EncodeArray, EncodeTag, IsProto3Default;
    var implicitHas := true;
    if !f.Sized() && f.htype.Optional? {
      var nothing := CheckProto3Default(f, s);
      implicitHas := !nothing;
    }
    match f.htype {
      case Required => ok := EncodeTagged(stream, f, s.AsValue());
      case Optional =>
        if if f.Sized() then s.AsHas() else implicitHas {
          ok := EncodeTagged(stream, f, s.AsValue());
        } else {
          ok := true;
        }
      case Repeated => ok := PbEncodeArray(stream, f, s.AsItems());
      case Oneof =>
        if s.AsWhich() == f.tag {
          ok := EncodeTagged(stream, f, s.AsValue());
        } else {
          ok := true;
        }
    }
  }

  method EncodeTagged(stream: OStream, f: Field, v: Value) returns (ok: bool)
    requires stream.Valid() && FieldOk(f) && Measured(f, v)
    modifies stream
    ensures Wrote(stream, ok, Append(Some(EncodeTag(WireType(f.ltype), f.tag)), EncodeValue(f, v)))
    decreases f, 1
  {
    hide EncodeValue, Measured, EncodeTag;
    ok := PbEncodeTag(stream, WireType(f.ltype), f.tag);
    if !ok { return; }
    ok := EncodeByType(stream, f, v);
  }

  lemma MessageStart(fields: Fields, slots: seq<Slot>)
    requires WellFormed(fields)
    ensures EncodeUpTo(fields, slots, 0) == Some([])
    ensures fields != [] ==> fields[0].tag > 0
  {
    if fields != [] { assert FieldOk(fields[0]); }
  }

  /** What one turn of the loop of pb_encode relies on. */
  lemma MessageStep(fields: Fields, slots: seq<Slot>, i: nat)
    requires WellFormed(fields) && MeasuredMessage(fields, slots) && i < |fields|
    ensures FieldOk(fields[i]) && MeasuredSlot(fields[i], SlotAt(slots, fields[i]))
    ensures EncodeUpTo(fields, slots, i + 1) == Append(EncodeUpTo(fields, slots, i), EncodeField(fields[i], SlotAt(slots, fields[i])))
    ensures Encode(fields, slots).Some? ==>
              && EncodeUpTo(fields, slots, i).Some? && EncodeField(fields[i], SlotAt(slots, fields[i])).Some?
              && |EncodeUpTo(fields, slots, i).value| + |EncodeField(fields[i], SlotAt(slots, fields[i])).value|
                 <= |Encode(fields, slots).value|
  {
    hide EncodeField, MeasuredSlot, FieldOk;
    if Encode(fields, slots).Some? { FieldsGrow(fields, slots, i, |fields|); }
  }

  /** pb_encode. */
  method PbEncode(stream: OStream, fields: Fields, slots: seq<Slot>) returns (ok: bool)
    requires stream.Valid() && WellFormed(fields) && MeasuredMessage(fields, slots)
    modifies stream
    ensures Wrote(stream, ok, Encode(fields, slots))
    decreases fields, 2
  {
    hide EncodeField, MeasuredMessage, MeasuredSlot, WellFormed, EncodeUpTo, OffsetsUpTo;
    MessageStart(fields, slots);
    var iter := new FieldIter(fields, 0);
    if iter.Tag() == 0 {
      return true;   // empty message type
    }
    var more := true;
    ghost var done: Option<ByteString> := Some([]);   // what the fields before the current one came to
    while more
      invariant iter.fields == fields && iter.Exact() && (more ==> iter.pos < |fields|)
      invariant done == EncodeUpTo(fields, slots, if more then iter.pos else |fields|)
      invariant Wrote(stream, true, done)
      decreases if more then |fields| - iter.pos else 0
    {
      var i := iter.pos;
      MessageStep(fields, slots, i);
      ok := EncodeBasicField(stream, fields[i], SlotAt(slots, fields[i]));
      if !ok { return; }
      more := iter.Next();
      done := EncodeUpTo(fields, slots, i + 1);
    }
    ok := true;
  }

  /** pb_get_encoded_size. */
  method GetEncodedSize(fields: Fields, slots: seq<Slot>) returns (ok: bool, size: nat)
    requires WellFormed(fields) && MeasuredMessage(fields, slots)
    ensures ok == Encode(fields, slots).Some?
    ensures ok ==> size == |Encode(fields, slots).value|
  {
    var stream := new OStream(true, [], 0);
    ok := PbEncode(stream, fields, slots);
    size := if ok then stream.bytesWritten else 0;
  }
}
