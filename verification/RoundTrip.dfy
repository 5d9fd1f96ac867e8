/**
 The law the codec is for: decoding what was encoded gives the message back, for every
 message in range of every well-formed descriptor, up to the contents of absent fields.
 */
module RoundTrip {
  import opened Wrappers
  import opened ByteStrings
  import opened Varint
  import opened Descriptor
  import opened Encoding
  import opened Decoding
  import opened FieldBoundaries

  // ----- what comes back --------------------------------------------------------------------

  /** The value after a round trip: absent members of submessages are back at their defaults. */
  function NormalValue(f: Field, v: Value): Value
    decreases f, 0
  {
    match f.ltype
    case LSubmessage(sub) => Msg(Normal(sub, if v.Msg? then v.slots else []))
    case _ => v
  }

  function NormalItems(f: Field, items: seq<Value>, n: nat): (r: seq<Value>)
    requires n <= |items|
    ensures |r| == n
    decreases f, 1, n
  {
    if n == 0 then [] else NormalItems(f, items, n - 1) + [NormalValue(f, items[n - 1])]
  }

  /** The slot as decoding leaves it when the field was written. */
  function Taken(f: Field, s: Slot): Slot
    decreases f, 2
  {
    match f.htype
    case Required => Single(false, NormalValue(f, s.AsValue()))
    case Optional => Single(f.Sized(), NormalValue(f, s.AsValue()))
    case Repeated => Items(NormalItems(f, s.AsItems(), |s.AsItems()|))
    case Oneof => Choice(f.tag, NormalValue(f, s.AsValue()))
  }

  function NormalUpTo(fields: Fields, slots: seq<Slot>, n: nat): seq<Slot>
    requires n <= |fields|
    decreases fields, 1, n
  {
    if n == 0 then Default(fields)
    else
      var f := fields[n - 1];
      var s := SlotAt(slots, f);
      if Present(f, s) then Store(NormalUpTo(fields, slots, n - 1), f, Taken(f, s)) else NormalUpTo(fields, slots, n - 1)
  }

  function Normal(fields: Fields, slots: seq<Slot>): seq<Slot>
    decreases fields, 2
  {
    NormalUpTo(fields, slots, |fields|)
  }

  lemma {:induction false} NormalItemsAt(f: Field, items: seq<Value>, n: nat)
    requires n <= |items|
    ensures forall k :: 0 <= k < n ==> NormalItems(f, items, n)[k] == NormalValue(f, items[k])
  {
    if n > 0 { NormalItemsAt(f, items, n - 1); }
  }

  lemma {:induction false} NormalLength(fields: Fields, slots: seq<Slot>, n: nat)
    requires n <= |fields|
    ensures |NormalUpTo(fields, slots, n)| == |Default(fields)|
  {
    if n > 0 { NormalLength(fields, slots, n - 1); }
  }

  /** A slot no earlier field wrote to is still at its default. */
  lemma {:induction false} NormalUntouched(fields: Fields, slots: seq<Slot>, n: nat, m: nat)
    requires WellFormed(fields) && n <= |fields| && m < |fields|
    requires forall i :: 0 <= i < n && fields[i].slot == fields[m].slot ==> !Present(fields[i], SlotAt(slots, fields[i]))
    ensures |NormalUpTo(fields, slots, n)| == SlotCount(fields)
    ensures fields[m].slot < SlotCount(fields)
    ensures NormalUpTo(fields, slots, n)[fields[m].slot] == DefaultSlot(fields[m])
  {
    hide Present, Taken;
    SlotBelowCount(fields, m);
    DefaultSlots(fields, |fields|);
    NormalLength(fields, slots, n);
    if n > 0 {
      NormalUntouched(fields, slots, n - 1, m);
    }
  }

  /** A field that was written keeps what it got: no later field shares its slot and is written too. */
  lemma {:induction false} NormalKept(fields: Fields, slots: seq<Slot>, n: nat, i: nat)
    requires WellFormed(fields) && i < n <= |fields|
    requires Present(fields[i], SlotAt(slots, fields[i]))
    ensures |NormalUpTo(fields, slots, n)| == SlotCount(fields)
    ensures fields[i].slot < SlotCount(fields)
    ensures NormalUpTo(fields, slots, n)[fields[i].slot] == Taken(fields[i], SlotAt(slots, fields[i]))
    decreases n
  {
    hide Taken;
    SlotBelowCount(fields, i);
    DefaultSlots(fields, |fields|);
    NormalLength(fields, slots, n);
    NormalLength(fields, slots, n - 1);
    if n - 1 > i {
      NormalKept(fields, slots, n - 1, i);
      SlotsAscend(fields, i, n - 1);
      assert fields[i].tag != fields[n - 1].tag;
    }
  }

  // ----- encoding succeeds ----------------------------------------------------------------------

  lemma {:induction false} EncodeValueSucceeds(f: Field, v: Value)
    requires FieldOk(f) && ValueInRange(f, v)
    ensures EncodeValue(f, v).Some?
    decreases f, 0
  {
    match f.ltype
    case LSubmessage(sub) => EncodeSucceeds(sub, v.slots);
    case _ =>
  }

  lemma {:induction false} EncodeItemsSucceed(f: Field, items: seq<Value>, n: nat)
    requires FieldOk(f) && n <= |items| && forall k :: 0 <= k < |items| ==> ValueInRange(f, items[k])
    ensures EncodePacked(f, items, n).Some? && EncodeUnpacked(f, items, n).Some?
    decreases f, 1, n
  {
    if n > 0 {
      EncodeItemsSucceed(f, items, n - 1);
      EncodeValueSucceeds(f, items[n - 1]);
    }
  }

  lemma {:induction false} EncodeFieldSucceeds(f: Field, s: Slot)
    requires FieldOk(f) && SlotInRange(f, s)
    ensures EncodeField(f, s).Some?
    decreases f, 2
  {
    if f.htype.Repeated? {
      EncodeItemsSucceed(f, s.items, |s.items|);
    } else if Present(f, s) {
      EncodeValueSucceeds(f, s.v);
    }
  }

  /** Every message in range can be encoded. */
  lemma {:induction false} EncodeSucceeds(fields: Fields, slots: seq<Slot>)
    requires WellFormed(fields) && InRange(fields, slots)
    ensures Encode(fields, slots).Some?
    decreases fields, 3
  {
    EncodeUpToSucceeds(fields, slots, |fields|);
  }

  lemma {:induction false} EncodeUpToSucceeds(fields: Fields, slots: seq<Slot>, n: nat)
    requires WellFormed(fields) && InRange(fields, slots) && n <= |fields|
    ensures EncodeUpTo(fields, slots, n).Some?
    decreases fields, 2, n
  {
    if n > 0 {
      EncodeUpToSucceeds(fields, slots, n - 1);
      EncodeFieldSucceeds(fields[n - 1], slots[fields[n - 1].slot]);
    }
  }

  // ----- values ----------------------------------------------------------------------------------

  lemma BlobRoundTrip(s: ByteString, y: ByteString)
    requires |s| < TWO_32
    ensures DecodeBlob(LengthDelimited(s) + y) == Some((s, |LengthDelimited(s)|))
  {
    var h := EncodeVarint(|s|);
    Varint32RoundTrip(|s|, s + y);
    assert LengthDelimited(s) + y == h + (s + y);
    assert (h + (s + y))[|h|..|h| + |s|] == s;
  }

  lemma {:induction false} CStringWithoutNul(s: ByteString)
    requires 0 !in s
    ensures CString(s) == s
  {
    if s != [] {
      CStringWithoutNul(s[1..]);
      assert s == [s[0]] + s[1..];
    }
  }

  /**
   A string that fills its buffer has no room for the NUL: the encoder writes it, but the
   decoder takes back exactly the strings that leave room.
   */
  lemma StringRoundTripIff(f: Field, s: ByteString, previous: Value, y: ByteString)
    requires FieldOk(f) && f.ltype.LString? && |s| <= f.dataSize && 0 !in s
    ensures EncodeValue(f, Blob(s)).Some?
    ensures DecodeValue(f, previous, EncodeValue(f, Blob(s)).value + y) == Some((Blob(s), |EncodeValue(f, Blob(s)).value|))
            <==> |s| < f.dataSize
  {
    hide DecodeBlob, LengthDelimited;
    BlobRoundTrip(s, y);
    CStringWithoutNul(s);
  }

  lemma FixedRoundTrip(v: nat, n: nat, y: ByteString)
    requires v < Pow256(n)
    ensures |ToFixed(v, n)| == n && FromFixed((ToFixed(v, n) + y)[..n]) == v
  {
    FromToFixed(v, n);
    assert (ToFixed(v, n) + y)[..n] == ToFixed(v, n);
  }

  /** Sign extension on the way out is undone by narrowing on the way in. */
  lemma NarrowUndoesWiden(i: int, size: nat)
    requires SignedFits(i, size) && size in {1, 2, 4, 8}
    ensures NarrowSigned(ToUInt64(i), size) == Some(i)
  {
    var w := ToUInt64(i);
    assert w == if i < 0 then i + TWO_64 else i;
    if size != 8 {
      assert w % TWO_32 == if i < 0 then i + TWO_32 else i by {
        if i < 0 { DropMultiple(i + TWO_32, 0xFFFF_FFFF); }
      }
    }
  }

  lemma UnsignedWiden(i: int, size: nat)
    requires UnsignedFits(i, size) && size in {1, 2, 4, 8}
    ensures 0 <= i < TWO_64 && ToUInt64(i) == i
  {
  }

  lemma SignedWiden(i: int, size: nat)
    requires SignedFits(i, size) && size in {1, 2, 4, 8}
    ensures IsInt64(i) && ToInt64(ToUInt64(i)) == i
  {
  }

  lemma WordRoundTrip(v: nat, n: nat, y: ByteString)
    requires (n == 4 && v < TWO_32) || (n == 8 && v < TWO_64)
    ensures |ToFixed(v, n)| == n && FromFixed((ToFixed(v, n) + y)[..n]) == v
  {
    PowersOf256();
    FixedRoundTrip(v, n, y);
  }

  /** Numbers of every width and kind survive. */
  lemma NumberRoundTrip(f: Field, v: Value, old_: Value, y: ByteString)
    requires FieldOk(f) && ValueInRange(f, v) && f.ltype.Packable()
    ensures EncodeValue(f, v).Some? && EncodeValue(f, v).value != []
    ensures DecodeValue(f, old_, EncodeValue(f, v).value + y) == Some((v, |EncodeValue(f, v).value|))
  {
    hide DecodeVarint, DecodeVarint32, EncodeVarint, ToFixed, FromFixed, DecodeBlob, DecodeMessage,
      SignedFits, UnsignedFits, NarrowSigned, ToUInt64, ToInt64, ZigZag, UnZigZag;
    match f.ltype
    case LBool => Varint32RoundTrip(v.i, y);
    case LVarint =>
      NarrowUndoesWiden(v.i, f.dataSize);
      VarintRoundTrip(ToUInt64(v.i), y);
    case LUVarint =>
      UnsignedWiden(v.i, f.dataSize);
      VarintRoundTrip(v.i, y);
    case LSVarint =>
      SignedWiden(v.i, f.dataSize);
      ZigZagRoundTrip(v.i);
      VarintRoundTrip(ZigZag(v.i), y);
    case LFixed32 =>
      UnsignedFitsWord(v.i);
      WordRoundTrip(v.i, 4, y);
    case LFixed64 =>
      UnsignedFitsWord(v.i);
      WordRoundTrip(v.i, 8, y);
  }

  lemma UnsignedFitsWord(i: int)
    ensures UnsignedFits(i, 4) <==> 0 <= i < TWO_32
    ensures UnsignedFits(i, 8) <==> 0 <= i < TWO_64
  {
  }

  // ----- length prefixes -----------------------------------------------------------------------------

  /** Every length prefix in the encoding of the value is a 32-bit number. */
  ghost predicate PrefixFits(f: Field, v: Value)
    decreases f, 0
  {
    f.ltype.LSubmessage? ==>
      var slots := if v.Msg? then v.slots else [];
      && (Encode(f.ltype.fields, slots).Some? ==> |Encode(f.ltype.fields, slots).value| < TWO_32)
      && PrefixesFit(f.ltype.fields, slots)
  }

  ghost predicate SlotFits(f: Field, s: Slot)
    decreases f, 1
  {
    if f.htype.Repeated? then
      && (f.ltype.Packable() && EncodePacked(f, s.AsItems(), |s.AsItems()|).Some? ==>
            |EncodePacked(f, s.AsItems(), |s.AsItems()|).value| < TWO_32)
      && (forall k :: 0 <= k < |s.AsItems()| ==> PrefixFits(f, s.AsItems()[k]))
    else Present(f, s) ==> PrefixFits(f, s.AsValue())
  }

  /** Every length prefix in the encoding of the message is a 32-bit number. */
  ghost predicate PrefixesFit(fields: Fields, slots: seq<Slot>)
    decreases fields, 2
  {
    forall i :: 0 <= i < |fields| ==> SlotFits(fields[i], SlotAt(slots, fields[i]))
  }

  /** A submessage member is decoded over defaults, because nothing was stored there before. */
  predicate StartsFresh(f: Field, old_: Value) {
    f.ltype.LSubmessage? && !f.htype.Repeated? ==> OldSlots(f.ltype.fields, old_) == Default(f.ltype.fields)
  }

  lemma {:induction false} ValueRoundTrip(f: Field, v: Value, old_: Value, y: ByteString)
    requires FieldOk(f) && ValueInRange(f, v) && StartsFresh(f, old_)
    requires EncodeValue(f, v).Some? && PrefixFits(f, v)
    ensures DecodeValue(f, old_, EncodeValue(f, v).value + y) == Some((NormalValue(f, v), |EncodeValue(f, v).value|))
    decreases f, 0
  {
    hide DecodeVarint, DecodeVarint32, EncodeVarint, DecodeBlob, DecodeMessage, LengthDelimited, Normal;
    if f.ltype.Packable() {
      NumberRoundTrip(f, v, old_, y);
    } else if f.ltype.LSubmessage? {
      var sub := f.ltype.fields;
      var body := Encode(sub, v.slots).value;
      BlobRoundTrip(body, y);
      MessageRoundTrip(sub, v.slots);
    } else {
      BlobRoundTrip(v.bytes, y);
      if f.ltype.LString? { CStringWithoutNul(v.bytes); }
      assert f.ltype.LFixedLengthBytes? && |v.bytes| == 0 ==> ZeroValue(f) == v;
    }
  }

  lemma LengthDelimitedLength(s: ByteString)
    ensures |s| < |LengthDelimited(s)|
  {
  }

  lemma {:induction false} PackedRoundTrip(f: Field, items: seq<Value>, n: nat)
    requires FieldOk(f) && f.ltype.Packable() && n <= |items| <= f.arraySize
    requires forall k :: 0 <= k < |items| ==> ValueInRange(f, items[k])
    requires EncodePacked(f, items, n).Some?
    ensures forall y :: DecodePacked(f, [], EncodePacked(f, items, n).value + y) == DecodePacked(f, items[..n], y)
  {
    hide DecodeValue, EncodeValue;
    var body := EncodePacked(f, items, n).value;
    forall y ensures DecodePacked(f, [], body + y) == DecodePacked(f, items[..n], y) {
      if n == 0 {
        assert body + y == y && items[..n] == [];
      } else {
        PackedRoundTrip(f, items, n - 1);
        NumberRoundTrip(f, items[n - 1], Int(0), y);
        var e := EncodeValue(f, items[n - 1]).value;
        assert body + y == EncodePacked(f, items, n - 1).value + (e + y);
        assert (e + y)[|e|..] == y;
        assert items[..n - 1] + [items[n - 1]] == items[..n];
      }
    }
  }

  // ----- fields ------------------------------------------------------------------------------------

  /** The last fixed-count array with elements among the first n fields. */
  function FixedAfter(fields: Fields, slots: seq<Slot>, n: nat): Option<nat>
    requires n <= |fields|
  {
    if n == 0 then None
    else if fields[n - 1].FixedCount() && |SlotAt(slots, fields[n - 1]).AsItems()| > 0 then Some(n - 1)
    else FixedAfter(fields, slots, n - 1)
  }

  function SeenAfter(fields: Fields, n: nat): set<nat>
    requires n <= |fields|
  {
    if n == 0 then {}
    else
      var k := RequiredBefore(fields, n - 1);
      if fields[n - 1].htype.Required? && k < PB_MAX_REQUIRED_FIELDS
      then SeenAfter(fields, n - 1) + {k} else SeenAfter(fields, n - 1)
  }

  lemma {:induction false} SeenAfterIsInterval(fields: Fields, n: nat)
    requires n <= |fields|
    ensures forall k: nat :: k in SeenAfter(fields, n) <==> k < Min(RequiredBefore(fields, n), PB_MAX_REQUIRED_FIELDS)
  {
    if n > 0 { SeenAfterIsInterval(fields, n - 1); }
  }

  /** The decoder's state once the first n fields of the message have been read back. */
  function StateAfter(fields: Fields, slots: seq<Slot>, n: nat): DecodeState
    requires n <= |fields|
  {
    DecodeState(NormalUpTo(fields, slots, n), FixedAfter(fields, slots, n), SeenAfter(fields, n))
  }

  lemma StateStep(fields: Fields, slots: seq<Slot>, n: nat)
    requires n < |fields|
    ensures var f, s, k := fields[n], SlotAt(slots, fields[n]), RequiredBefore(fields, n);
            var before := NormalUpTo(fields, slots, n);
            && NormalUpTo(fields, slots, n + 1) == (if Present(f, s) then Store(before, f, Taken(f, s)) else before)
            && FixedAfter(fields, slots, n + 1)
               == (if f.FixedCount() && |s.AsItems()| > 0 then Some(n) else FixedAfter(fields, slots, n))
            && SeenAfter(fields, n + 1)
               == (if f.htype.Required? && k < PB_MAX_REQUIRED_FIELDS then SeenAfter(fields, n) + {k} else SeenAfter(fields, n))
  {
  }

  lemma {:induction false} FixedAfterComplete(fields: Fields, slots: seq<Slot>, n: nat)
    requires WellFormed(fields) && InRange(fields, slots) && n <= |fields|
    ensures FixedComplete(fields, StateAfter(fields, slots, n))
    ensures FixedAfter(fields, slots, n).Some? ==>
              FixedAfter(fields, slots, n).value < n && fields[FixedAfter(fields, slots, n).value].FixedCount()
  {
    hide Taken, NormalUpTo;
    FixedAfterIndex(fields, slots, n);
    if FixedAfter(fields, slots, n).Some? {
      var i := FixedAfter(fields, slots, n).value;
      NormalKept(fields, slots, n, i);
      TakenItems(fields[i], slots[fields[i].slot]);
    }
  }

  lemma {:induction false} FixedAfterIndex(fields: Fields, slots: seq<Slot>, n: nat)
    requires n <= |fields|
    ensures FixedAfter(fields, slots, n).Some? ==>
              FixedAfter(fields, slots, n).value < n && fields[FixedAfter(fields, slots, n).value].FixedCount()
  {
    if n > 0 { FixedAfterIndex(fields, slots, n - 1); }
  }

  lemma TakenItems(f: Field, s: Slot)
    requires f.htype.Repeated?
    ensures Taken(f, s).AsItems() == NormalItems(f, s.AsItems(), |s.AsItems()|)
    ensures |Taken(f, s).AsItems()| == |s.AsItems()|
  {
  }

  lemma FindIs(fields: Fields, i: nat)
    requires WellFormed(fields) && i < |fields|
    ensures FindField(fields, fields[i].tag) == Some(i)
  {
  }

  lemma TagFits(f: Field, wireType: nat, y: ByteString)
    requires FieldOk(f) && wireType < 8
    ensures |EncodeTag(wireType, f.tag)| > 0
    ensures DecodeVarint32(EncodeTag(wireType, f.tag) + y) == Some((f.tag * 8 + wireType, |EncodeTag(wireType, f.tag)|))
    ensures f.tag * 8 + wireType != 0 && (f.tag * 8 + wireType) / 8 == f.tag && (f.tag * 8 + wireType) % 8 == wireType
  {
    Varint32RoundTrip(f.tag * 8 + wireType, y);
  }

  /** Tag and value together are one field for the decoder. */
  lemma RecordDecodes(fields: Fields, st: DecodeState, i: nat, wireType: nat, e: ByteString)
    requires WellFormed(fields) && i < |fields| && wireType < 8
    requires EnterField(fields, st, i).Some?
    requires var st1 := EnterField(fields, st, i).value;
             var r := DecodeField(fields[i], wireType, SlotAt(st1.slots, fields[i]), e);
             r.Some? && r.value.1 == |e|
    ensures var st1 := EnterField(fields, st, i).value;
            var s := DecodeField(fields[i], wireType, SlotAt(st1.slots, fields[i]), e).value.0;
            Consumes(fields, st, EncodeTag(wireType, fields[i].tag) + e, st1.(slots := Store(st1.slots, fields[i], s)))
  {
    hide DecodeField, EnterField, EncodeTag, FieldOk, DecodeVarint32, Consumes;
    var f := fields[i];
    assert FieldOk(f) by { EachFieldOk(fields, i); }
    TagFits(f, wireType, e);
    FindIs(fields, i);
    var t := EncodeTag(wireType, f.tag);
    assert (t + e)[|t|..] == e;
    ConsumesOne(fields, st, t + e);
  }

  lemma EachFieldOk(fields: Fields, i: nat)
    requires WellFormed(fields) && i < |fields|
    ensures FieldOk(fields[i])
  {
  }

  /** What one field needs so that its bytes lead from one state to the next. */
  ghost predicate FieldReady(fields: Fields, slots: seq<Slot>, n: nat) {
    && WellFormed(fields) && InRange(fields, slots) && n < |fields|
    && EncodeField(fields[n], SlotAt(slots, fields[n])).Some?
  }

  /** No earlier field has touched the slot of a field that is about to be read back. */
  lemma SlotStillDefault(fields: Fields, slots: seq<Slot>, n: nat)
    requires WellFormed(fields) && InRange(fields, slots) && n < |fields|
    requires Present(fields[n], SlotAt(slots, fields[n]))
    ensures fields[n].slot < |NormalUpTo(fields, slots, n)| == |slots|
    ensures NormalUpTo(fields, slots, n)[fields[n].slot] == DefaultSlot(fields[n])
  {
    hide NormalUpTo, Taken;
    forall i | 0 <= i < n && fields[i].slot == fields[n].slot ensures !Present(fields[i], SlotAt(slots, fields[i])) {
      SlotsAscend(fields, i, n);
      assert fields[i].tag != fields[n].tag;
    }
    NormalUntouched(fields, slots, n, n);
  }

  lemma SingularDecodes(f: Field, s: Slot, e: ByteString)
    requires FieldOk(f) && SlotInRange(f, s) && !f.htype.Repeated? && Present(f, s)
    requires EncodeValue(f, s.AsValue()) == Some(e) && PrefixFits(f, s.AsValue())
    ensures DecodeField(f, WireType(f.ltype), DefaultSlot(f), e) == Some((Taken(f, s), |e|))
    decreases f, 2
  {
    hide DecodeValue, EncodeValue, NormalValue, Default, IsProto3Default, ValueInRange;
    var start := if f.htype.Oneof? then if f.ltype.LSubmessage? then Msg(Default(f.ltype.fields)) else Int(0) else InitialValue(f);
    assert f.ltype.LSubmessage? ==> start == Msg(Default(f.ltype.fields));
    ValueRoundTrip(f, s.v, start, []);
    assert e + [] == e;
  }

  lemma SingularRoundTrip(fields: Fields, slots: seq<Slot>, n: nat)
    requires FieldReady(fields, slots, n) && !fields[n].htype.Repeated?
    requires SlotFits(fields[n], SlotAt(slots, fields[n]))
    requires Present(fields[n], SlotAt(slots, fields[n]))
    ensures Consumes(fields, StateAfter(fields, slots, n),
                     EncodeField(fields[n], SlotAt(slots, fields[n])).value, StateAfter(fields, slots, n + 1))
    decreases fields, 2, n
  {
    hide DecodeField, EncodeValue, Consumes, InRange, EncodeTag, DefaultSlot, WellFormed, Present, FixedComplete,
      NormalUpTo, FixedAfter, SeenAfter, RequiredBefore;
    StateStep(fields, slots, n);
    var f, s, st := fields[n], SlotAt(slots, fields[n]), StateAfter(fields, slots, n);
    EachFieldOk(fields, n);
    EachSlotInRange(fields, slots, n);
    SlotStillDefault(fields, slots, n);
    var e := EncodeValue(f, s.AsValue());
    assert EncodeField(f, s) == Append(Some(EncodeTag(WireType(f.ltype), f.tag)), e);
    SingularDecodes(f, s, e.value);
    assert EnterField(fields, st, n) == Some(st.(seen := SeenAfter(fields, n + 1)));
    RecordDecodes(fields, st, n, WireType(f.ltype), e.value);
  }

  lemma EachSlotInRange(fields: Fields, slots: seq<Slot>, i: nat)
    requires InRange(fields, slots) && i < |fields|
    ensures fields[i].slot < |slots| && SlotInRange(fields[i], slots[fields[i].slot])
  {
  }

  /** The state in which k items of the repeated field n have been read back. */
  function ItemsState(fields: Fields, slots: seq<Slot>, n: nat, k: nat): DecodeState
    requires n < |fields| && k <= |SlotAt(slots, fields[n]).AsItems()|
  {
    var f := fields[n];
    DecodeState(Store(NormalUpTo(fields, slots, n), f, Items(NormalItems(f, SlotAt(slots, f).AsItems(), k))),
                if f.FixedCount() then Some(n) else FixedAfter(fields, slots, n), SeenAfter(fields, n))
  }

  lemma EnterFirstItem(fields: Fields, slots: seq<Slot>, n: nat)
    requires WellFormed(fields) && InRange(fields, slots) && n < |fields| && fields[n].htype.Repeated?
    ensures EnterField(fields, StateAfter(fields, slots, n), n) == Some(ItemsState(fields, slots, n, 0))
  {
    hide NormalUpTo, Taken, FixedComplete;
    SlotStillDefault(fields, slots, n);
    FixedAfterComplete(fields, slots, n);
    var st := NormalUpTo(fields, slots, n);
    assert st[fields[n].slot := Items([])] == st;
  }

  lemma EnterLaterItem(fields: Fields, slots: seq<Slot>, n: nat, k: nat)
    requires WellFormed(fields) && n < |fields| && fields[n].htype.Repeated?
    requires k <= |SlotAt(slots, fields[n]).AsItems()|
    ensures EnterField(fields, ItemsState(fields, slots, n, k), n) == Some(ItemsState(fields, slots, n, k))
  {
  }

  lemma {:induction false} ItemsReadBack(fields: Fields, slots: seq<Slot>, n: nat, k: nat)
    requires FieldReady(fields, slots, n) && fields[n].htype.Repeated? && !fields[n].ltype.Packable()
    requires 0 < k <= |SlotAt(slots, fields[n]).AsItems()|
    requires EncodeUnpacked(fields[n], SlotAt(slots, fields[n]).AsItems(), k).Some?
    requires forall j :: 0 <= j < k ==> PrefixFits(fields[n], SlotAt(slots, fields[n]).AsItems()[j])
    ensures Consumes(fields, StateAfter(fields, slots, n),
                     EncodeUnpacked(fields[n], SlotAt(slots, fields[n]).AsItems(), k).value, ItemsState(fields, slots, n, k))
    decreases fields, 1, n, k
  {
    hide DecodeValue, EncodeValue, NormalValue, Default, Consumes, InRange, EncodeTag, NormalUpTo, FixedAfter, SeenAfter;
    var f, items := fields[n], SlotAt(slots, fields[n]).AsItems();
    assert FieldOk(f) && SlotInRange(f, SlotAt(slots, f)) by { EachFieldOk(fields, n); EachSlotInRange(fields, slots, n); }
    var before := if k == 1 then StateAfter(fields, slots, n) else ItemsState(fields, slots, n, k - 1);
    var e := EncodeValue(f, items[k - 1]).value;
    var record := EncodeTag(WireType(f.ltype), f.tag) + e;
    var p := EncodeUnpacked(f, items, k - 1).value;
    if k == 1 {
      ConsumesNothing(fields, before);
      EnterFirstItem(fields, slots, n);
    } else {
      ItemsReadBack(fields, slots, n, k - 1);
      EnterLaterItem(fields, slots, n, k - 1);
    }
    ItemDecodes(fields, slots, n, k, e);
    RecordDecodes(fields, before, n, WireType(f.ltype), e);
    ConsumesBoth(fields, StateAfter(fields, slots, n), p, before, record, ItemsState(fields, slots, n, k));
  }

  lemma ItemDecodes(fields: Fields, slots: seq<Slot>, n: nat, k: nat, e: ByteString)
    requires FieldReady(fields, slots, n) && fields[n].htype.Repeated? && !fields[n].ltype.Packable()
    requires 0 < k <= |SlotAt(slots, fields[n]).AsItems()|
    requires EncodeValue(fields[n], SlotAt(slots, fields[n]).AsItems()[k - 1]) == Some(e)
    requires PrefixFits(fields[n], SlotAt(slots, fields[n]).AsItems()[k - 1])
    ensures var f := fields[n];
            var st := ItemsState(fields, slots, n, k - 1);
            var s := Items(NormalItems(f, SlotAt(slots, f).AsItems(), k));
            && DecodeField(f, WireType(f.ltype), SlotAt(st.slots, f), e) == Some((s, |e|))
            && st.(slots := Store(st.slots, f, s)) == ItemsState(fields, slots, n, k)
    decreases fields, 0, n, k
  {
    hide DecodeValue, EncodeValue, NormalValue, Default, InRange, NormalUpTo, FixedAfter, SeenAfter;
    var f, items := fields[n], SlotAt(slots, fields[n]).AsItems();
    assert FieldOk(f) && SlotInRange(f, SlotAt(slots, f)) by { EachFieldOk(fields, n); EachSlotInRange(fields, slots, n); }
    SlotStillDefault(fields, slots, n);
    ValueRoundTrip(f, items[k - 1], Int(0), []);
    assert e + [] == e;
  }

  lemma PackedDecodes(f: Field, items: seq<Value>)
    requires FieldOk(f) && f.htype.Repeated? && f.ltype.Packable() && |items| <= f.arraySize
    requires forall k :: 0 <= k < |items| ==> ValueInRange(f, items[k])
    requires EncodePacked(f, items, |items|).Some? && |EncodePacked(f, items, |items|).value| < TWO_32
    ensures var e := LengthDelimited(EncodePacked(f, items, |items|).value);
            DecodeField(f, WT_STRING, Items([]), e) == Some((Items(NormalItems(f, items, |items|)), |e|))
  {
    hide DecodeValue, EncodeValue, EncodePacked, LengthDelimited, DecodeBlob, ValueInRange, FieldOk, NormalItems;
    var body := EncodePacked(f, items, |items|).value;
    BlobRoundTrip(body, []);
    var e := LengthDelimited(body);
    assert e + [] == e && body + [] == body && items[..|items|] == items;
    PackedRoundTrip(f, items, |items|);
    assert DecodePacked(f, [], body + []) == Some(items);
    PackedItemsNormal(f, items, |items|);
  }

  lemma PackedFieldRoundTrip(fields: Fields, slots: seq<Slot>, n: nat)
    requires FieldReady(fields, slots, n) && fields[n].htype.Repeated? && fields[n].ltype.Packable()
    requires SlotFits(fields[n], SlotAt(slots, fields[n]))
    requires |SlotAt(slots, fields[n]).AsItems()| > 0
    ensures Consumes(fields, StateAfter(fields, slots, n),
                     EncodeField(fields[n], SlotAt(slots, fields[n])).value,
                     ItemsState(fields, slots, n, |SlotAt(slots, fields[n]).AsItems()|))
  {
    hide DecodeField, EncodeValue, EncodePacked, Consumes, InRange, WellFormed, EncodeTag, LengthDelimited, EnterField,
      NormalUpTo, FixedAfter, SeenAfter, NormalItems, ValueInRange;
    var f, items := fields[n], SlotAt(slots, fields[n]).AsItems();
    EachFieldOk(fields, n);
    EachSlotInRange(fields, slots, n);
    SlotStillDefault(fields, slots, n);
    EnterFirstItem(fields, slots, n);
    assert EncodeField(f, SlotAt(slots, f)) == EncodeArray(f, items);
    var body := EncodePacked(f, items, |items|).value;
    PackedDecodes(f, items);
    assert NormalItems(f, items, 0) == [];
    var st1 := ItemsState(fields, slots, n, 0);
    var last := Items(NormalItems(f, items, |items|));
    assert Store(st1.slots, f, last) == Store(NormalUpTo(fields, slots, n), f, last);
    assert EncodeArray(f, items).value == EncodeTag(WT_STRING, f.tag) + LengthDelimited(body);
    RecordDecodes(fields, StateAfter(fields, slots, n), n, WT_STRING, LengthDelimited(body));
  }

  lemma {:induction false} PackedItemsNormal(f: Field, items: seq<Value>, n: nat)
    requires n <= |items| && f.ltype.Packable()
    ensures NormalItems(f, items, n) == items[..n]
  {
    if n > 0 { PackedItemsNormal(f, items, n - 1); }
  }

  lemma RepeatedRoundTrip(fields: Fields, slots: seq<Slot>, n: nat)
    requires FieldReady(fields, slots, n) && fields[n].htype.Repeated?
    requires SlotFits(fields[n], SlotAt(slots, fields[n]))
    ensures Consumes(fields, StateAfter(fields, slots, n),
                     EncodeField(fields[n], SlotAt(slots, fields[n])).value, StateAfter(fields, slots, n + 1))
    decreases fields, 2, n
  {
    hide Consumes, InRange, EncodeTag, EncodeValue, EncodePacked, DecodeValue, NormalUpTo, FixedAfter, SeenAfter;
    StateStep(fields, slots, n);
    var f, items := fields[n], SlotAt(slots, fields[n]).AsItems();
    assert Taken(f, SlotAt(slots, f)) == Items(NormalItems(f, items, |items|));
    assert SlotInRange(f, SlotAt(slots, f)) by { EachSlotInRange(fields, slots, n); }
    assert EncodeField(f, SlotAt(slots, f)) == EncodeArray(f, items);
    if |items| == 0 {
      SlotStillDefault(fields, slots, n);
      var st := NormalUpTo(fields, slots, n);
      assert st[f.slot := Items([])] == st;
      ConsumesNothing(fields, StateAfter(fields, slots, n));
    } else {
      if f.ltype.Packable() {
        PackedFieldRoundTrip(fields, slots, n);
      } else {
        assert EncodeArray(f, items) == EncodeUnpacked(f, items, |items|);
        ItemsReadBack(fields, slots, n, |items|);
      }
      assert ItemsState(fields, slots, n, |items|) == StateAfter(fields, slots, n + 1);
    }
  }

  lemma FieldRoundTrip(fields: Fields, slots: seq<Slot>, n: nat)
    requires FieldReady(fields, slots, n)
    requires SlotFits(fields[n], SlotAt(slots, fields[n]))
    ensures Consumes(fields, StateAfter(fields, slots, n),
                     EncodeField(fields[n], SlotAt(slots, fields[n])).value, StateAfter(fields, slots, n + 1))
    decreases fields, 3, n
  {
    hide Consumes, InRange, WellFormed, NormalUpTo, FixedAfter, SeenAfter;
    StateStep(fields, slots, n);
    if fields[n].htype.Repeated? {
      RepeatedRoundTrip(fields, slots, n);
    } else if Present(fields[n], SlotAt(slots, fields[n])) {
      SingularRoundTrip(fields, slots, n);
    } else {
      ConsumesNothing(fields, StateAfter(fields, slots, n));
    }
  }

  lemma {:induction false} FieldsRoundTrip(fields: Fields, slots: seq<Slot>, n: nat)
    requires WellFormed(fields) && InRange(fields, slots) && n <= |fields|
    requires EncodeUpTo(fields, slots, n).Some?
    requires forall i :: 0 <= i < n ==> SlotFits(fields[i], SlotAt(slots, fields[i]))
    ensures Consumes(fields, StateAfter(fields, slots, 0), EncodeUpTo(fields, slots, n).value, StateAfter(fields, slots, n))
    decreases fields, 4, n
  {
    hide Consumes, StateAfter, EncodeField;
    if n == 0 {
      ConsumesNothing(fields, StateAfter(fields, slots, 0));
    } else {
      FieldsRoundTrip(fields, slots, n - 1);
      FieldRoundTrip(fields, slots, n - 1);
      ConsumesBoth(fields, StateAfter(fields, slots, 0), EncodeUpTo(fields, slots, n - 1).value,
                   StateAfter(fields, slots, n - 1), EncodeField(fields[n - 1], SlotAt(slots, fields[n - 1])).value,
                   StateAfter(fields, slots, n));
    }
  }

  /** Decoding an encoded message succeeds and gives its normal form. */
  lemma {:induction false} MessageRoundTrip(fields: Fields, slots: seq<Slot>)
    requires WellFormed(fields) && InRange(fields, slots)
    requires Encode(fields, slots).Some? && PrefixesFit(fields, slots)
    ensures Decode(fields, Encode(fields, slots).value) == Some(Normal(fields, slots))
    decreases fields, 5
  {
    hide DecodeLoop, EncodeUpTo, NormalUpTo;
    var b := Encode(fields, slots).value;
    FieldsRoundTrip(fields, slots, |fields|);
    assert DecodeLoop(fields, StateAfter(fields, slots, 0), b + [])
           == Shift(DecodeLoop(fields, StateAfter(fields, slots, |fields|), []), |b|);
    assert b + [] == b;
    DecodeNothing(fields, StateAfter(fields, slots, |fields|));
    NormalStart(fields, slots);
    FixedAfterComplete(fields, slots, |fields|);
    SeenAfterIsInterval(fields, |fields|);
  }

  lemma DecodeNothing(fields: Fields, st: DecodeState)
    ensures DecodeLoop(fields, st, []) == Some((st, 0))
  {
  }

  lemma NormalStart(fields: Fields, slots: seq<Slot>)
    ensures StateAfter(fields, slots, 0) == DecodeState(Default(fields), None, {})
  {
  }
}
