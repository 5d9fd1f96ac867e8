/**
 What pb_decode makes of a sequence of bytes (pb_decode.c), as functions that return the
 result together with the number of bytes read, or None where the decoder reports an error.
 The methods of module Decoder are proved to compute exactly these functions.
 */
module Decoding {
  import opened Wrappers
  import opened ByteStrings
  import opened Varint
  import opened Descriptor
  import opened Encoding

  /** The characters of a buffer up to its first NUL. */
  function CString(b: ByteString): ByteString {
    if b == [] || b[0] == 0 then [] else [b[0]] + CString(b[1..])
  }

  function LowSigned(w: nat, size: nat): int {
    match size
    case 1 => if w % 0x100 < 0x80 then w % 0x100 else w % 0x100 - 0x100
    case 2 => if w % 0x1_0000 < 0x8000 then w % 0x1_0000 else w % 0x1_0000 - 0x1_0000
    case 4 => if w % TWO_32 < 0x8000_0000 then w % TWO_32 else w % TWO_32 - TWO_32
    case _ => if w % TWO_64 < TWO_63 then w % TWO_64 else w % TWO_64 - TWO_64
  }

  /** pb_dec_varint after the varint is read: fields of 32 bits and less look at the low word only. */
  function NarrowSigned(w: nat, size: nat): Option<int> {
    var svalue := if size == 8 then LowSigned(w, 8) else LowSigned(w, 4);
    if SignedFits(svalue, size) then Some(svalue) else None
  }

  function DecodeBlob(b: ByteString): (r: Option<(ByteString, nat)>)
    ensures r.Some? ==> 0 < r.value.1 <= |b|
  {
    match DecodeVarint32(b)
    case None => None
    case Some((size, n)) => if |b| - n < size then None else Some((b[n..n + size], n + size))
  }

  /** The decoder of f's type, writing over the old content of the member. */
  function DecodeValue(f: Field, old_: Value, b: ByteString): (r: Option<(Value, nat)>)
    ensures r.Some? ==> 0 < r.value.1 <= |b|
    decreases f, 0
  {
    match f.ltype
    case LBool =>
      (match DecodeVarint32(b) case None => None case Some((w, n)) => Some((Int(if w != 0 then 1 else 0), n)))
    case LVarint =>
      (match DecodeVarint(b) case None => None
       case Some((w, n)) => match NarrowSigned(w, f.dataSize) case None => None case Some(i) => Some((Int(i), n)))
    case LUVarint =>
      (match DecodeVarint(b) case None => None
       case Some((w, n)) => if UnsignedFits(w, f.dataSize) then Some((Int(w), n)) else None)
    case LSVarint =>
      (match DecodeVarint(b) case None => None
       case Some((w, n)) => if SignedFits(UnZigZag(w), f.dataSize) then Some((Int(UnZigZag(w)), n)) else None)
    case LFixed32 => if |b| < 4 then None else Some((Int(FromFixed(b[..4])), 4))
    case LFixed64 => if |b| < 8 then None else Some((Int(FromFixed(b[..8])), 8))
    case LBytes =>
      (match DecodeBlob(b) case None => None
       case Some((s, n)) =>
         if |s| > PB_SIZE_MAX || |s| + BYTES_HEADER > f.dataSize then None else Some((Blob(s), n)))
    case LString =>
      (match DecodeBlob(b) case None => None
       case Some((s, n)) => if |s| + 1 > f.dataSize then None else Some((Blob(CString(s)), n)))
    case LFixedLengthBytes =>
      (match DecodeBlob(b) case None => None
       case Some((s, n)) =>
         if |s| > PB_SIZE_MAX then None
         else if |s| == 0 then Some((ZeroValue(f), n))
         else if |s| != f.dataSize then None
         else Some((Blob(s), n)))
    case LSubmessage(sub) =>
      (match DecodeBlob(b) case None => None
       case Some((body, n)) =>
         match DecodeMessage(sub, if f.htype.Repeated? then Default(sub) else OldSlots(sub, old_), body)
         case None => None
         case Some(slots) => Some((Msg(slots), n)))
  }

  function OldSlots(sub: Fields, old_: Value): seq<Slot> {
    if old_.Msg? then old_.slots else Default(sub)
  }

  /** The packed branch: items until the substream is empty, the array must not overflow. */
  function DecodePacked(f: Field, items: seq<Value>, b: ByteString): Option<seq<Value>>
    decreases f, 1, |b|
  {
    if b == [] then Some(items)
    else if |items| >= f.arraySize then None
    else match DecodeValue(f, Int(0), b)
      case None => None
      case Some((v, n)) => DecodePacked(f, items + [v], b[n..])
  }

  /** decode_static_field. */
  function DecodeField(f: Field, wireType: nat, s: Slot, b: ByteString): (r: Option<(Slot, nat)>)
    ensures r.Some? ==> 0 < r.value.1 <= |b|
    decreases f, 2
  {
    match f.htype
    case Required =>
      (match DecodeValue(f, s.AsValue(), b) case None => None case Some((v, n)) => Some((Single(s.AsHas(), v), n)))
    case Optional =>
      (match DecodeValue(f, s.AsValue(), b) case None => None
       case Some((v, n)) => Some((Single(f.Sized() || s.AsHas(), v), n)))
    case Repeated =>
      if wireType == WT_STRING && f.ltype.Packable() then
        (match DecodeBlob(b) case None => None
         case Some((body, n)) =>
           match DecodePacked(f, s.AsItems(), body) case None => None case Some(items) => Some((Items(items), n)))
      else if |s.AsItems()| >= f.arraySize then None
      else
        (match DecodeValue(f, Int(0), b) case None => None
         case Some((v, n)) => Some((Items(s.AsItems() + [v]), n)))
    case Oneof =>
      var start := if f.ltype.LSubmessage? && s.AsWhich() != f.tag then Msg(Default(f.ltype.fields)) else s.AsValue();
      match DecodeValue(f, start, b) case None => None case Some((v, n)) => Some((Choice(f.tag, v), n))
  }

  /** pb_skip_field: how many bytes the value of an unknown field occupies. */
  function SkipValue(wireType: nat, b: ByteString): (r: Option<nat>)
    ensures r.Some? ==> 0 < r.value <= |b|
  {
    if wireType == WT_VARINT then VarintLength(b)
    else if wireType == WT_64BIT then (if |b| < 8 then None else Some(8))
    else if wireType == WT_STRING then (match DecodeBlob(b) case None => None case Some((_, n)) => Some(n))
    else if wireType == WT_32BIT then (if |b| < 4 then None else Some(4))
    else None
  }

  // ----- the field loop ------------------------------------------------------------------

  /** How many of the first n fields are required. */
  function RequiredBefore(fields: Fields, n: nat): nat
    requires n <= |fields|
  {
    if n == 0 then 0 else RequiredBefore(fields, n - 1) + if fields[n - 1].htype.Required? then 1 else 0
  }

  /** The field with the given tag. */
  function FindField(fields: Fields, tag: nat): (r: Option<nat>)
    ensures r.Some? ==> r.value < |fields| && fields[r.value].tag == tag
    ensures r.None? ==> forall i :: 0 <= i < |fields| ==> fields[i].tag != tag
  {
    if i :| 0 <= i < |fields| && fields[i].tag == tag && (forall j :: 0 <= j < i ==> fields[j].tag != tag)
    then Some(i) else (FirstWithTag(fields, tag); None)
  }

  lemma {:induction false} FirstWithTag(fields: Fields, tag: nat)
    ensures (exists i :: 0 <= i < |fields| && fields[i].tag == tag) ==>
              exists i :: 0 <= i < |fields| && fields[i].tag == tag && (forall j :: 0 <= j < i ==> fields[j].tag != tag)
  {
    if fields != [] {
      var init := fields[..|fields| - 1];
      FirstWithTag(init, tag);
      if i :| 0 <= i < |init| && init[i].tag == tag && (forall j :: 0 <= j < i ==> init[j].tag != tag) {
        assert fields[i].tag == tag && forall j :: 0 <= j < i ==> fields[j].tag == init[j].tag;
      } else if exists i :: 0 <= i < |fields| && fields[i].tag == tag {
        forall j | 0 <= j < |fields| - 1 ensures fields[j].tag != tag { assert init[j] == fields[j]; }
      }
    }
  }

  /**
   State of the loop of pb_decode_noinit: the message, the fixed-count array being filled
   (its count is the number of items stored), and the required fields seen among the first
   PB_MAX_REQUIRED_FIELDS.
   */
  datatype DecodeState = DecodeState(slots: seq<Slot>, fixedField: Option<nat>, seen: set<nat>)

  function Store(slots: seq<Slot>, f: Field, s: Slot): seq<Slot> {
    if f.slot < |slots| then slots[f.slot := s] else slots
  }

  /** The array that fixed_count_field points to holds all its elements. */
  predicate FixedComplete(fields: Fields, st: DecodeState) {
    st.fixedField.Some? && st.fixedField.value < |fields| ==>
      var f := fields[st.fixedField.value];
      |SlotAt(st.slots, f).AsItems()| == f.arraySize
  }

  /** The bookkeeping between finding a field and decoding its value. */
  function EnterField(fields: Fields, st: DecodeState, i: nat): Option<DecodeState>
    requires i < |fields|
  {
    var f := fields[i];
    if f.FixedCount() && st.fixedField != Some(i) && !FixedComplete(fields, st) then None
    else
      var st1 :=
        if f.FixedCount() && st.fixedField != Some(i)
        then st.(fixedField := Some(i), slots := Store(st.slots, f, Items([])))
        else st;
      var index := RequiredBefore(fields, i);
      Some(if f.htype.Required? && index < PB_MAX_REQUIRED_FIELDS then st1.(seen := st1.seen + {index}) else st1)
  }

  /**
   One turn of the loop after the tag is read.  A descriptor without fields consists of its
   terminator only, and a field number of zero on the wire matches that: the decoder then
   reads a varint as if the terminator were a bool field.
   */
  function DecodeRecord(fields: Fields, st: DecodeState, tag: nat, wireType: nat, b: ByteString)
    : (r: Option<(DecodeState, nat)>)
    ensures r.Some? ==> 0 < r.value.1 <= |b|
    decreases fields, 1
  {
    match FindField(fields, tag)
    case None =>
      if fields == [] && tag == 0 then
        (match DecodeVarint32(b) case None => None case Some((_, n)) => Some((st, n)))
      else
        (match SkipValue(wireType, b) case None => None case Some(n) => Some((st, n)))
    case Some(i) =>
      match EnterField(fields, st, i)
      case None => None
      case Some(st1) =>
        match DecodeField(fields[i], wireType, SlotAt(st1.slots, fields[i]), b)
        case None => None
        case Some((s, n)) => Some((st1.(slots := Store(st1.slots, fields[i], s)), n))
  }

  /** The loop of pb_decode_noinit: ends at the end of the stream or at a zero tag. */
  function DecodeLoop(fields: Fields, st: DecodeState, b: ByteString): (r: Option<(DecodeState, nat)>)
    ensures r.Some? ==> r.value.1 <= |b|
    decreases fields, 2, |b|
  {
    if b == [] then Some((st, 0))
    else match DecodeVarint32(b)
      case None => None
      case Some((key, n)) =>
        if key == 0 then Some((st, n))
        else match DecodeRecord(fields, st, key / 8, key % 8, b[n..])
          case None => None
          case Some((st', m)) =>
            match DecodeLoop(fields, st', b[n + m..])
            case None => None
            case Some((last, rest)) => Some((last, n + m + rest))
  }

  function Min(a: nat, b: nat): nat { if a < b then a else b }

  /** All fixed-count arrays complete and every tracked required field seen. */
  predicate Finished(fields: Fields, st: DecodeState) {
    && FixedComplete(fields, st)
    && forall k :: 0 <= k < Min(RequiredBefore(fields, |fields|), PB_MAX_REQUIRED_FIELDS) ==> k in st.seen
  }

  /** pb_decode_noinit on a stream that holds exactly b. */
  function DecodeMessage(fields: Fields, start: seq<Slot>, b: ByteString): Option<seq<Slot>>
    decreases fields, 3
  {
    match DecodeLoop(fields, DecodeState(start, None, {}), b)
    case None => None
    case Some((st, _)) => if Finished(fields, st) then Some(st.slots) else None
  }

  /** pb_decode. */
  function Decode(fields: Fields, b: ByteString): Option<seq<Slot>> {
    DecodeMessage(fields, Default(fields), b)
  }
}
