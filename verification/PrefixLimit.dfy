/**
 Length prefixes beyond 32 bits (pb_encode.c writes them, pb_decode.c refuses them): a message
 comes back from its encoding if and only if each of its length prefixes is below 2^32.
 */
module PrefixLimit {
  import opened Wrappers
  import opened ByteStrings
  import opened Varint
  import opened Varint32Check
  import opened Descriptor
  import opened Encoding
  import opened Decoding
  import opened FieldBoundaries
  import opened RoundTrip
  import opened SameMessage

  /** The last byte of an encoding of two bytes or more is not zero. */
  lemma {:induction false} LastByteNotZero(v: nat, rest: ByteString)
    requires v >= 128
    ensures var n := |EncodeVarint(v)|; 0 < (EncodeVarint(v) + rest)[n - 1] < 128
  {
    assert EncodeVarint(v) + rest == [v % 128 + 128] + (EncodeVarint(v / 128) + rest);
    if v / 128 >= 128 {
      LastByteNotZero(v / 128, rest);
    } else {
      assert EncodeVarint(v / 128) == [v / 128];
    }
  }

  /** The encoding of a number from 2^32 up to 2^63 is refused by the 32-bit decoder. */
  lemma LongNumberRefused(v: nat, rest: ByteString)
    requires TWO_32 <= v < TWO_63
    ensures DecodeVarint32(EncodeVarint(v) + rest).None?
  {
    hide EncodeVarint, DecodeVarint32, Payload, VarintLength, Pow2;
    var b, n := EncodeVarint(v) + rest, |EncodeVarint(v)|;
    PayloadOfEncode(v, rest);
    PowersOf2();
    EncodeVarintLength(v, 9);
    LastByteNotZero(v, rest);
    if n <= 5 {
      Varint32ExactUpToFive(b);
    } else {
      Varint32Accepts(b);
      hide ExtensionOk;
      LastByteFails(b, n, v % TWO_32);
    }
  }

  lemma LastByteFails(b: ByteString, n: nat, w: nat)
    requires 5 < n <= 9 && n <= |b| && 0 < b[n - 1] < 128
    ensures !ExtensionOk(b, n, w)
  {
    assert !ExtensionByteOk(b[n - 1], 7 * (n - 1), w);
  }

  lemma LongBlobRefused(body: ByteString, y: ByteString)
    requires TWO_32 <= |body| < TWO_63
    ensures DecodeBlob(LengthDelimited(body) + y).None?
  {
    hide EncodeVarint, DecodeVarint32;
    LongNumberRefused(|body|, body + y);
    assert LengthDelimited(body) + y == EncodeVarint(|body|) + (body + y);
  }

  // ----- fields -------------------------------------------------------------------------------------

  /** A field whose value is refused ends the decoding of the message. */
  lemma RecordRefused(fields: Fields, st: DecodeState, i: nat, wireType: nat, e: ByteString)
    requires WellFormed(fields) && i < |fields| && wireType < 8
    requires EnterField(fields, st, i).Some?
    requires DecodeField(fields[i], wireType, SlotAt(EnterField(fields, st, i).value.slots, fields[i]), e).None?
    ensures DecodeLoop(fields, st, EncodeTag(wireType, fields[i].tag) + e).None?
  {
    hide DecodeField, EnterField, EncodeTag, FieldOk, DecodeVarint32;
    var f := fields[i];
    assert FieldOk(f) by { EachFieldOk(fields, i); }
    TagFits(f, wireType, e);
    FindIs(fields, i);
    var t := EncodeTag(wireType, f.tag);
    assert (t + e)[|t|..] == e;
  }

  /** A value with a length prefix that is too long, at any depth, is refused. */
  lemma {:induction false} ValueRefused(f: Field, v: Value, old_: Value, y: ByteString)
    requires FieldOk(f) && ValueInRange(f, v) && StartsFresh(f, old_) && !PrefixFits(f, v)
    requires EncodeValue(f, v).Some? && |EncodeValue(f, v).value| < TWO_63
    ensures DecodeValue(f, old_, EncodeValue(f, v).value + y).None?
    decreases f, 0
  {
    hide DecodeBlob, DecodeMessage, LengthDelimited, Encode, InRange, WellFormed;
    var sub := f.ltype.fields;
    var body := Encode(sub, v.slots).value;
    LengthDelimitedLength(body);
    if |body| >= TWO_32 {
      LongBlobRefused(body, y);
    } else {
      BlobRoundTrip(body, y);
      MessageRefused(sub, v.slots);
    }
  }

  lemma SingularRefused(f: Field, s: Slot, e: ByteString, y: ByteString)
    requires FieldOk(f) && SlotInRange(f, s) && !f.htype.Repeated? && Present(f, s) && !PrefixFits(f, s.AsValue())
    requires EncodeValue(f, s.AsValue()) == Some(e) && |e| < TWO_63
    ensures DecodeField(f, WireType(f.ltype), DefaultSlot(f), e + y).None?
    decreases f, 1
  {
    hide DecodeValue, EncodeValue, Default, IsProto3Default, ValueInRange, PrefixFits;
    var start := if f.htype.Oneof? then if f.ltype.LSubmessage? then Msg(Default(f.ltype.fields)) else Int(0) else InitialValue(f);
    assert f.ltype.LSubmessage? ==> start == Msg(Default(f.ltype.fields));
    ValueRefused(f, s.v, start, y);
  }

  lemma FieldRefused(fields: Fields, slots: seq<Slot>, n: nat, y: ByteString)
    requires FieldReady(fields, slots, n) && !SlotFits(fields[n], SlotAt(slots, fields[n]))
    requires |EncodeField(fields[n], SlotAt(slots, fields[n])).value| < TWO_63
    ensures DecodeLoop(fields, StateAfter(fields, slots, n), EncodeField(fields[n], SlotAt(slots, fields[n])).value + y).None?
    decreases fields, 2
  {
    hide DecodeLoop, PrefixFits, StateAfter, EncodeUnpacked, EncodePacked, InRange, WellFormed, EncodeValue;
    var f, s := fields[n], SlotAt(slots, fields[n]);
    if !f.htype.Repeated? {
      SingularFieldRefused(fields, slots, n, y);
    } else if f.ltype.Packable() {
      PackedFieldRefused(fields, slots, n, y);
    } else {
      var items := s.AsItems();
      var k := FirstMisfit(f, items, 0);
      ItemRefused(fields, slots, n, k, y);
    }
  }

  lemma SingularFieldRefused(fields: Fields, slots: seq<Slot>, n: nat, y: ByteString)
    requires FieldReady(fields, slots, n) && !fields[n].htype.Repeated? && !SlotFits(fields[n], SlotAt(slots, fields[n]))
    requires |EncodeField(fields[n], SlotAt(slots, fields[n])).value| < TWO_63
    ensures DecodeLoop(fields, StateAfter(fields, slots, n), EncodeField(fields[n], SlotAt(slots, fields[n])).value + y).None?
    decreases fields, 1
  {
    hide DecodeField, EncodeValue, InRange, EncodeTag, DefaultSlot, WellFormed, Present, FixedComplete, DecodeLoop,
      NormalUpTo, FixedAfter, SeenAfter, RequiredBefore, PrefixFits;
    StateStep(fields, slots, n);
    var f, s, st := fields[n], SlotAt(slots, fields[n]), StateAfter(fields, slots, n);
    EachFieldOk(fields, n);
    EachSlotInRange(fields, slots, n);
    SlotStillDefault(fields, slots, n);
    var e := EncodeValue(f, s.AsValue());
    var t := EncodeTag(WireType(f.ltype), f.tag);
    assert EncodeField(f, s) == Append(Some(t), e);
    SingularRefused(f, s, e.value, y);
    assert EnterField(fields, st, n) == Some(st.(seen := SeenAfter(fields, n + 1)));
    RecordRefused(fields, st, n, WireType(f.ltype), e.value + y);
    assert t + e.value + y == t + (e.value + y);
  }

  lemma PackedFieldRefused(fields: Fields, slots: seq<Slot>, n: nat, y: ByteString)
    requires FieldReady(fields, slots, n) && fields[n].htype.Repeated? && fields[n].ltype.Packable()
    requires !SlotFits(fields[n], SlotAt(slots, fields[n]))
    requires |EncodeField(fields[n], SlotAt(slots, fields[n])).value| < TWO_63
    ensures DecodeLoop(fields, StateAfter(fields, slots, n), EncodeField(fields[n], SlotAt(slots, fields[n])).value + y).None?
  {
    hide EncodeValue, InRange, WellFormed, EncodeTag, LengthDelimited, EnterField, DecodeBlob, DecodeLoop,
      NormalUpTo, FixedAfter, SeenAfter, ValueInRange, EncodePacked;
    var f, items := fields[n], SlotAt(slots, fields[n]).AsItems();
    EachSlotInRange(fields, slots, n);
    EnterFirstItem(fields, slots, n);
    var body := EncodePacked(f, items, |items|).value;
    assert EncodePacked(f, items, 0) == Some([]) by { NothingPacked(f, items); }
    var e, t := LengthDelimited(body), EncodeTag(WT_STRING, f.tag);
    assert EncodeField(f, SlotAt(slots, f)) == EncodeArray(f, items) == Some(t + e);
    LengthDelimitedLength(body);
    LongBlobRefused(body, y);
    RecordRefused(fields, StateAfter(fields, slots, n), n, WT_STRING, e + y);
    assert t + e + y == t + (e + y);
  }

  lemma NothingPacked(f: Field, items: seq<Value>)
    ensures EncodePacked(f, items, 0) == Some([])
  {
  }

  lemma {:induction false} FirstMisfit(f: Field, items: seq<Value>, from: nat) returns (k: nat)
    requires from <= |items| && !(forall j :: from <= j < |items| ==> PrefixFits(f, items[j]))
    ensures from <= k < |items| && !PrefixFits(f, items[k]) && forall j :: from <= j < k ==> PrefixFits(f, items[j])
    decreases |items| - from
  {
    hide PrefixFits;
    if PrefixFits(f, items[from]) {
      k := FirstMisfit(f, items, from + 1);
    } else {
      k := from;
    }
  }

  /** The items before position k, the record of item k, and what follows. */
  lemma {:induction false} UnpackedSplit(f: Field, items: seq<Value>, k: nat, n: nat) returns (rest: ByteString)
    requires k < n <= |items| && EncodeUnpacked(f, items, n).Some?
    ensures EncodeUnpacked(f, items, k).Some? && EncodeValue(f, items[k]).Some?
    ensures EncodeUnpacked(f, items, n).value == EncodeUnpacked(f, items, k).value
            + (EncodeTag(WireType(f.ltype), f.tag) + EncodeValue(f, items[k]).value + rest)
    decreases n
  {
    hide EncodeValue, EncodeTag;
    var record := EncodeTag(WireType(f.ltype), f.tag) + EncodeValue(f, items[n - 1]).value;
    if k == n - 1 {
      rest := [];
      assert record + [] == record;
    } else {
      rest := UnpackedSplit(f, items, k, n - 1);
      var p := EncodeUnpacked(f, items, k).value;
      var q := EncodeTag(WireType(f.ltype), f.tag) + EncodeValue(f, items[k]).value;
      assert p + (q + rest) + record == p + (q + (rest + record));
      rest := rest + record;
    }
  }

  lemma ItemRefused(fields: Fields, slots: seq<Slot>, n: nat, k: nat, y: ByteString)
    requires FieldReady(fields, slots, n) && fields[n].htype.Repeated? && !fields[n].ltype.Packable()
    requires |EncodeField(fields[n], SlotAt(slots, fields[n])).value| < TWO_63
    requires k < |SlotAt(slots, fields[n]).AsItems()| && !PrefixFits(fields[n], SlotAt(slots, fields[n]).AsItems()[k])
    requires forall j :: 0 <= j < k ==> PrefixFits(fields[n], SlotAt(slots, fields[n]).AsItems()[j])
    ensures DecodeLoop(fields, StateAfter(fields, slots, n), EncodeField(fields[n], SlotAt(slots, fields[n])).value + y).None?
    decreases fields, 1
  {
    hide DecodeLoop, DecodeValue, EncodeValue, Default, InRange, EncodeTag, NormalUpTo, FixedAfter, SeenAfter, PrefixFits,
      WellFormed, EnterField, EncodeUnpacked, Consumes;
    var f, items := fields[n], SlotAt(slots, fields[n]).AsItems();
    assert FieldOk(f) && SlotInRange(f, SlotAt(slots, f)) by { EachFieldOk(fields, n); EachSlotInRange(fields, slots, n); }
    assert EncodeField(f, SlotAt(slots, f)) == EncodeUnpacked(f, items, |items|);
    var rest := UnpackedSplit(f, items, k, |items|);
    var p, t, e := EncodeUnpacked(f, items, k).value, EncodeTag(WireType(f.ltype), f.tag), EncodeValue(f, items[k]).value;
    var start := StateAfter(fields, slots, n);
    var before := if k == 0 then start else ItemsState(fields, slots, n, k);
    ItemsConsumed(fields, slots, n, k);
    EnterItem(fields, slots, n, k);
    ValueRefused(f, items[k], Int(0), rest + y);
    RecordRefused(fields, before, n, WireType(f.ltype), e + (rest + y));
    assert p + (t + e + rest) + y == p + (t + (e + (rest + y)));
    FailsAfter(fields, start, p, before, t + (e + (rest + y)));
  }

  lemma FailsAfter(fields: Fields, st: DecodeState, p: ByteString, mid: DecodeState, q: ByteString)
    requires Consumes(fields, st, p, mid) && DecodeLoop(fields, mid, q).None?
    ensures DecodeLoop(fields, st, p + q).None?
  {
    hide DecodeLoop;
    assert DecodeLoop(fields, st, p + q) == Shift(DecodeLoop(fields, mid, q), |p|);
  }

  lemma ItemsConsumed(fields: Fields, slots: seq<Slot>, n: nat, k: nat)
    requires FieldReady(fields, slots, n) && fields[n].htype.Repeated? && !fields[n].ltype.Packable()
    requires k < |SlotAt(slots, fields[n]).AsItems()|
    requires EncodeUnpacked(fields[n], SlotAt(slots, fields[n]).AsItems(), k).Some?
    requires forall j :: 0 <= j < k ==> PrefixFits(fields[n], SlotAt(slots, fields[n]).AsItems()[j])
    ensures Consumes(fields, StateAfter(fields, slots, n), EncodeUnpacked(fields[n], SlotAt(slots, fields[n]).AsItems(), k).value,
                     if k == 0 then StateAfter(fields, slots, n) else ItemsState(fields, slots, n, k))
  {
    hide Consumes, InRange, WellFormed, PrefixFits, EncodeValue, StateAfter;
    if k == 0 {
      ConsumesNothing(fields, StateAfter(fields, slots, n));
    } else {
      ItemsReadBack(fields, slots, n, k);
    }
  }

  /** In either state the field is entered with the items read back so far. */
  lemma EnterItem(fields: Fields, slots: seq<Slot>, n: nat, k: nat)
    requires FieldReady(fields, slots, n) && fields[n].htype.Repeated? && k < |SlotAt(slots, fields[n]).AsItems()|
    ensures EnterField(fields, if k == 0 then StateAfter(fields, slots, n) else ItemsState(fields, slots, n, k), n)
            == Some(ItemsState(fields, slots, n, k))
  {
    hide InRange, EncodeField, EnterField, NormalUpTo;
    if k == 0 {
      EnterFirstItem(fields, slots, n);
    } else {
      EnterLaterItem(fields, slots, n, k);
    }
  }

  // ----- messages -----------------------------------------------------------------------------------

  /** The fields before n, field n, and what follows. */
  lemma {:induction false} EncodingSplit(fields: Fields, slots: seq<Slot>, n: nat, m: nat) returns (rest: ByteString)
    requires n < m <= |fields| && EncodeUpTo(fields, slots, m).Some?
    ensures EncodeUpTo(fields, slots, n).Some? && EncodeField(fields[n], SlotAt(slots, fields[n])).Some?
    ensures EncodeUpTo(fields, slots, m).value
            == EncodeUpTo(fields, slots, n).value + (EncodeField(fields[n], SlotAt(slots, fields[n])).value + rest)
    decreases m
  {
    hide EncodeField;
    var last := EncodeField(fields[m - 1], SlotAt(slots, fields[m - 1])).value;
    if n == m - 1 {
      rest := [];
      assert last + [] == last;
    } else {
      rest := EncodingSplit(fields, slots, n, m - 1);
      var p, q := EncodeUpTo(fields, slots, n).value, EncodeField(fields[n], SlotAt(slots, fields[n])).value;
      assert p + (q + rest) + last == p + (q + (rest + last));
      rest := rest + last;
    }
  }

  lemma {:induction false} RefusedFrom(fields: Fields, slots: seq<Slot>, n: nat)
    requires WellFormed(fields) && InRange(fields, slots) && n <= |fields|
    requires Encode(fields, slots).Some? && |Encode(fields, slots).value| < TWO_63
    requires forall i :: 0 <= i < n ==> SlotFits(fields[i], SlotAt(slots, fields[i]))
    requires !PrefixesFit(fields, slots)
    ensures DecodeLoop(fields, StateAfter(fields, slots, 0), Encode(fields, slots).value).None?
    decreases fields, 3, |fields| - n
  {
    hide DecodeLoop, SlotFits, StateAfter, EncodeUpTo, EncodeField, InRange, WellFormed, Consumes;
    if SlotFits(fields[n], SlotAt(slots, fields[n])) {
      RefusedFrom(fields, slots, n + 1);
    } else {
      var rest := EncodingSplit(fields, slots, n, |fields|);
      FieldsRoundTrip(fields, slots, n);
      FieldRefused(fields, slots, n, rest);
      FailsAfter(fields, StateAfter(fields, slots, 0), EncodeUpTo(fields, slots, n).value, StateAfter(fields, slots, n),
                 EncodeField(fields[n], SlotAt(slots, fields[n])).value + rest);
    }
  }

  /** A message with a length prefix beyond 32 bits, at any depth, is not decoded. */
  lemma {:induction false} MessageRefused(fields: Fields, slots: seq<Slot>)
    requires WellFormed(fields) && InRange(fields, slots)
    requires Encode(fields, slots).Some? && |Encode(fields, slots).value| < TWO_63
    requires !PrefixesFit(fields, slots)
    ensures DecodeMessage(fields, Default(fields), Encode(fields, slots).value).None?
    decreases fields, 4
  {
    hide DecodeLoop, InRange, WellFormed, Encode, PrefixesFit;
    RefusedFrom(fields, slots, 0);
    NormalStart(fields, slots);
  }

  /**
   A message in range, of fewer than 2^63 bytes, comes back from its encoding if and only if
   all its length prefixes are below 2^32.
   */
  lemma ComesBackIffPrefixesFit(fields: Fields, slots: seq<Slot>)
    requires WellFormed(fields) && InRange(fields, slots)
    ensures Encode(fields, slots).Some?
    ensures |Encode(fields, slots).value| < TWO_63 ==>
              (PrefixesFit(fields, slots) <==>
                 && Decode(fields, Encode(fields, slots).value).Some?
                 && Same(fields, slots, Decode(fields, Encode(fields, slots).value).value))
  {
    hide DecodeMessage, InRange, WellFormed, Encode, PrefixesFit, Same;
    EncodeThenDecode(fields, slots);
    if |Encode(fields, slots).value| < TWO_63 && !PrefixesFit(fields, slots) {
      MessageRefused(fields, slots);
    }
  }
}
