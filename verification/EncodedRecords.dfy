/**
 pb_encode writes the wire format: for every message in range, the bytes it writes are those
 and only those that module WireFormat calls the message.
 */
module EncodedRecords {
  import opened Wrappers
  import opened ByteStrings
  import opened Varint
  import opened Descriptor
  import opened Encoding
  import opened RoundTrip
  import opened WireFormat

  // ----- numbers and lengths ------------------------------------------------------------------------

  lemma {:induction false} VarintWritten(v: nat)
    ensures IsVarint(EncodeVarint(v), v)
  {
    if v >= 128 {
      VarintWritten(v / 128);
      assert EncodeVarint(v)[1..] == EncodeVarint(v / 128);
    }
  }

  lemma VarintIff(p: ByteString, v: nat)
    ensures IsVarint(p, v) <==> p == EncodeVarint(v)
  {
    VarintWritten(v);
    if IsVarint(p, v) { VarintUnique(p, EncodeVarint(v), v); }
  }

  lemma {:induction false} VarintIsPayload(v: nat)
    ensures IsSomeVarint(EncodeVarint(v))
  {
    if v >= 128 {
      VarintIsPayload(v / 128);
      var b, c := EncodeVarint(v), EncodeVarint(v / 128);
      assert forall i :: 0 < i < |b| ==> b[i] == c[i - 1];
    }
  }

  lemma DelimitedIff(p: ByteString, body: ByteString)
    ensures IsDelimited(p, body) <==> p == LengthDelimited(body)
  {
    hide EncodeVarint, IsVarint;
    var q := LengthDelimited(body);
    assert q[..|q| - |body|] == EncodeVarint(|body|) && q[|q| - |body|..] == body;
    VarintWritten(|body|);
    if IsDelimited(p, body) {
      VarintIff(p[..|p| - |body|], |body|);
      assert p == p[..|p| - |body|] + p[|p| - |body|..];
    }
  }

  lemma KeyWritten(t: LType, tag: nat)
    ensures IsVarint(EncodeTag(WireType(t), tag), 8 * tag + WireNumber(t))
    ensures IsVarint(EncodeTag(WT_STRING, tag), 8 * tag + 2)
  {
    hide IsVarint, EncodeVarint;
    VarintWritten(8 * tag + WireNumber(t));
    VarintWritten(8 * tag + 2);
  }

  lemma FixedIff(p: ByteString, v: nat)
    ensures v < TWO_32 ==> (|p| == 4 && Word(p) == v <==> p == ToFixed(v, 4))
    ensures v < TWO_64 ==> (|p| == 8 && DoubleWord(p) == v <==> p == ToFixed(v, 8))
  {
    hide ToFixed, FromFixed, Word, DoubleWord;
    PowersOf256();
    if |p| == 4 { FourBytes(p); ToFromFixed(p); }
    if |p| == 8 { EightBytes(p); ToFromFixed(p); }
    if v < TWO_32 { FromToFixed(v, 4); }
    if v < TWO_64 { FromToFixed(v, 8); }
  }

  /** The payload of a number is what the encoder writes for it. */
  lemma NumberIff(f: Field, v: Value, p: ByteString)
    requires FieldOk(f) && ValueInRange(f, v) && f.ltype.Packable()
    ensures Carries(f, v, p) <==> EncodeValue(f, v) == Some(p)
  {
    hide IsVarint, EncodeVarint, ToFixed, Word, DoubleWord, ZigZag, SignedFits, UnsignedFits;
    match f.ltype
    case LBool =>
      SmallVarint(v.i);
    case LVarint =>
      SignedInWord(v.i, f.dataSize);
      VarintIff(p, if v.i < 0 then v.i + TWO_64 else v.i);
    case LUVarint =>
      UnsignedWiden(v.i, f.dataSize);
      VarintIff(p, v.i);
    case LSVarint =>
      SignedWiden(v.i, f.dataSize);
      ZigZagRoundTrip(v.i);
      VarintIff(p, ZigZag(v.i));
    case LFixed32 =>
      UnsignedFitsWord(v.i);
      FixedIff(p, v.i);
    case LFixed64 =>
      UnsignedFitsWord(v.i);
      FixedIff(p, v.i);
  }

  lemma SmallVarint(i: nat)
    requires i < 128
    ensures EncodeVarint(i) == [i]
  {
  }

  lemma SignedInWord(i: int, size: nat)
    requires SignedFits(i, size) && size in {1, 2, 4, 8}
    ensures ToUInt64(i) == if i < 0 then i + TWO_64 else i
  {
  }

  // ----- values ---------------------------------------------------------------------------------------

  /** The payload of any value is what the encoder writes for it. */
  lemma {:induction false} ValueIff(f: Field, v: Value, p: ByteString)
    requires FieldOk(f) && ValueInRange(f, v)
    ensures Carries(f, v, p) <==> EncodeValue(f, v) == Some(p)
    decreases f, 0
  {
    hide IsDelimited, LengthDelimited, IsMessage, Encode, InRange, WellFormed;
    if f.ltype.Packable() {
      NumberIff(f, v, p);
    } else if f.ltype.LSubmessage? {
      var sub := f.ltype.fields;
      EncodeSucceeds(sub, v.slots);
      var body := Encode(sub, v.slots).value;
      DelimitedIff(p, body);
      MessageIff(sub, v.slots, body);
      forall c | IsMessage(sub, v.slots, c) ensures c == body {
        MessageIff(sub, v.slots, c);
      }
    } else {
      DelimitedIff(p, v.bytes);
    }
  }

  lemma ValueIsPayload(f: Field, v: Value)
    requires FieldOk(f) && ValueInRange(f, v) && EncodeValue(f, v).Some?
    ensures IsPayload(WireNumber(f.ltype), EncodeValue(f, v).value)
  {
    hide IsDelimited, LengthDelimited, IsMessage, Encode, InRange, WellFormed, EncodeVarint, IsSomeVarint, ToFixed;
    match f.ltype
    case LBool => VarintIsPayload(if v.i != 0 then 1 else 0);
    case LVarint => VarintIsPayload(ToUInt64(v.i));
    case LUVarint => VarintIsPayload(ToUInt64(v.i));
    case LSVarint => VarintIsPayload(ZigZag(ToInt64(ToUInt64(v.i))));
    case LFixed32 =>
    case LFixed64 =>
    case LSubmessage(sub) =>
      var body := Encode(sub, v.slots).value;
      DelimitedIff(LengthDelimited(body), body);
    case _ => DelimitedIff(LengthDelimited(v.bytes), v.bytes);
  }

  lemma {:induction false} PackedIff(f: Field, items: seq<Value>, n: nat, body: ByteString)
    requires FieldOk(f) && f.ltype.Packable() && n <= |items|
    requires forall k :: 0 <= k < |items| ==> ValueInRange(f, items[k])
    ensures IsPacked(f, items[..n], body) <==> EncodePacked(f, items, n) == Some(body)
    decreases n, |body|
  {
    hide ValueInRange, FieldOk, Carries, EncodeValue;
    EncodeItemsSucceed(f, items, n);
    if n > 0 {
      var last := items[n - 1];
      assert items[..n][..n - 1] == items[..n - 1];
      var init := EncodePacked(f, items, n - 1).value;
      var e := EncodeValue(f, last).value;
      assert EncodePacked(f, items, n).value == init + e;
      NumberIff(f, last, e);
      PackedIff(f, items, n - 1, init);
      assert (init + e)[..|init|] == init && (init + e)[|init|..] == e;
      if body == init + e {
        assert IsPacked(f, items[..n - 1], body[..|init|]) && Carries(f, last, body[|init|..]);
      }
      forall m: nat | m <= |body| && IsPacked(f, items[..n - 1], body[..m]) && Carries(f, last, body[m..]) ensures body == init + e {
        PackedIff(f, items, n - 1, body[..m]);
        NumberIff(f, last, body[m..]);
        assert body == body[..m] + body[m..];
      }
    }
  }

  // ----- presence --------------------------------------------------------------------------------------

  lemma FieldEmptyIff(f: Field, s: Slot)
    requires FieldOk(f) && SlotInRange(f, s) && EncodeField(f, s).Some?
    ensures EncodeField(f, s).value == [] <==> if f.htype.Repeated? then s.AsItems() == [] else !Present(f, s)
  {
    hide EncodeValue, EncodePacked, EncodeVarint, Present, ValueInRange;
    if f.htype.Repeated? && |s.AsItems()| > 0 && !f.ltype.Packable() {
      assert EncodeUnpacked(f, s.items, |s.items|).value != [];
    }
  }

  lemma {:induction false} UpToEmptyIff(fields: Fields, slots: seq<Slot>, n: nat)
    requires WellFormed(fields) && InRange(fields, slots) && n <= |fields| && EncodeUpTo(fields, slots, n).Some?
    ensures EncodeUpTo(fields, slots, n).value == [] <==>
            forall i :: 0 <= i < n ==> EncodeField(fields[i], SlotAt(slots, fields[i])) == Some([])
  {
    hide EncodeField, WellFormed, InRange;
    if n > 0 {
      UpToEmptyIff(fields, slots, n - 1);
    }
  }

  ghost predicate HasEmptyArray(fields: Fields) {
    exists i :: 0 <= i < |fields| && fields[i].FixedCount() && fields[i].arraySize == 0
  }

  /** The check for default values finds a submessage unset exactly when its encoding is empty, fixed arrays aside. */
  lemma DefaultIff(f: Field, s: Slot)
    requires FieldOk(f) && SlotInRange(f, s) && f.htype.Optional? && !f.Sized() && f.ltype.LSubmessage?
    requires s.Single? && s.v.Msg?
    ensures IsProto3Default(f, s) <==>
            Encode(f.ltype.fields, s.v.slots) == Some([]) && !HasEmptyArray(f.ltype.fields)
  {
    hide EncodeField, IsProto3Default, SlotInRange, WellFormed, InRange, EncodeUpTo;
    var sub, slots := f.ltype.fields, s.v.slots;
    DefaultOfParts(f, s);
    EncodeSucceeds(sub, slots);
    UpToEmptyIff(sub, slots, |sub|);
    if IsProto3Default(f, s) {
      forall i | 0 <= i < |sub|
        ensures EncodeField(sub[i], SlotAt(slots, sub[i])) == Some([]) && !(sub[i].FixedCount() && sub[i].arraySize == 0)
      {
        PartDefault(sub, slots, i);
      }
    } else if Encode(sub, slots) == Some([]) && !HasEmptyArray(sub) {
      forall i | 0 <= i < |sub| ensures IsProto3Default(sub[i], SlotAt(slots, sub[i])) {
        PartSilent(sub, slots, i);
      }
    }
  }

  lemma DefaultOfParts(f: Field, s: Slot)
    requires FieldOk(f) && SlotInRange(f, s) && f.htype.Optional? && !f.Sized() && f.ltype.LSubmessage?
    ensures s.Single? && s.v.Msg? && WellFormed(f.ltype.fields) && InRange(f.ltype.fields, s.v.slots)
    ensures IsProto3Default(f, s) <==>
            forall i :: 0 <= i < |f.ltype.fields| ==> IsProto3Default(f.ltype.fields[i], SlotAt(s.v.slots, f.ltype.fields[i]))
  {
    hide WellFormed, InRange;
  }

  lemma PartDefault(fields: Fields, slots: seq<Slot>, i: nat)
    requires WellFormed(fields) && InRange(fields, slots) && i < |fields|
    requires IsProto3Default(fields[i], SlotAt(slots, fields[i]))
    ensures EncodeField(fields[i], SlotAt(slots, fields[i])) == Some([])
    ensures !fields[i].FixedCount()
  {
    EachFieldOk(fields, i);
    EachSlotInRange(fields, slots, i);
    var f, s := fields[i], SlotAt(slots, fields[i]);
    EncodeFieldSucceeds(f, s);
    FieldEmptyIff(f, s);
    hide WellFormed, InRange, EncodeField;
  }

  /** A field that writes nothing is unset; for a member of a union because no member of it is written. */
  lemma PartSilent(fields: Fields, slots: seq<Slot>, i: nat)
    requires WellFormed(fields) && InRange(fields, slots) && i < |fields| && !HasEmptyArray(fields)
    requires forall j :: 0 <= j < |fields| ==> EncodeField(fields[j], SlotAt(slots, fields[j])) == Some([])
    ensures IsProto3Default(fields[i], SlotAt(slots, fields[i]))
  {
    hide WellFormed, InRange, EncodeField, IsProto3Default;
    var f, s := fields[i], SlotAt(slots, fields[i]);
    EachFieldOk(fields, i);
    EachSlotInRange(fields, slots, i);
    FieldEmptyIff(f, s);
    if f.htype.Oneof? {
      if s.AsWhich() != 0 {
        var j := MemberWritten(fields, slots, f.slot);
        EachFieldOk(fields, j);
        EachSlotInRange(fields, slots, j);
        FieldEmptyIff(fields[j], SlotAt(slots, fields[j]));
      }
      UnsetUnion(f, s);
    } else {
      SilentField(fields, f, s, i);
    }
  }

  lemma MemberWritten(fields: Fields, slots: seq<Slot>, slot: nat) returns (j: nat)
    requires InRange(fields, slots) && slot < |slots| && slots[slot].AsWhich() != 0
    ensures j < |fields| && fields[j].slot == slot && fields[j].htype.Oneof? && fields[j].tag == slots[slot].AsWhich()
  {
    assert WhichKnown(fields, slots[slot], slot);
    j :| 0 <= j < |fields| && fields[j].slot == slot && fields[j].htype.Oneof? && fields[j].tag == slots[slot].which;
  }

  lemma UnsetUnion(f: Field, s: Slot)
    requires f.htype.Oneof? && s.AsWhich() == 0
    ensures IsProto3Default(f, s)
  {
  }

  lemma SilentField(fields: Fields, f: Field, s: Slot, i: nat)
    requires i < |fields| && fields[i] == f && !HasEmptyArray(fields) && !f.htype.Oneof?
    requires SlotInRange(f, s) && if f.htype.Repeated? then s.AsItems() == [] else !Present(f, s)
    ensures IsProto3Default(f, s)
  {
    hide ValueInRange;
  }

  lemma PresentIff(f: Field, s: Slot)
    requires FieldOk(f) && SlotInRange(f, s) && !f.htype.Repeated?
    ensures IsCarried(f, s) <==> Present(f, s)
    decreases f, 1
  {
    hide Encode, InRange, WellFormed, IsMessage;
    if f.htype.Optional? && !f.Sized() {
      if f.ltype.LSubmessage? {
        DefaultIff(f, s);
        MessageIff(f.ltype.fields, s.v.slots, []);
        hide IsProto3Default;
        assert IsCarried(f, s) <==> SaysSomething(f, s.v);
      } else {
        SimpleDefault(f, s);
      }
    }
  }

  lemma SimpleDefault(f: Field, s: Slot)
    requires FieldOk(f) && SlotInRange(f, s) && f.htype.Optional? && !f.Sized() && !f.ltype.LSubmessage?
    ensures SaysSomething(f, s.v) <==> !IsProto3Default(f, s)
  {
  }

  // ----- fields ------------------------------------------------------------------------------------------

  /** The records of a field, with the bytes the encoder writes as payloads. */
  function RecordsOf(f: Field, s: Slot): seq<Record> {
    if f.htype.Repeated? then
      var items := s.AsItems();
      if f.ltype.Packable() then
        match EncodePacked(f, items, |items|)
        case None => []
        case Some(body) => if items == [] then [] else [Record(f.tag, 2, LengthDelimited(body))]
      else seq(|items|, k requires 0 <= k < |items| => ItemRecord(f, items[k]))
    else if Present(f, s) then [ItemRecord(f, s.AsValue())] else []
  }

  function ItemRecord(f: Field, v: Value): Record {
    Record(f.tag, WireNumber(f.ltype), match EncodeValue(f, v) case None => [] case Some(e) => e)
  }

  lemma ItemRecordWritten(f: Field, v: Value)
    requires FieldOk(f) && ValueInRange(f, v)
    ensures EncodeValue(f, v).Some?
    ensures IsWritten(EncodeTag(WireType(f.ltype), f.tag) + EncodeValue(f, v).value, [ItemRecord(f, v)])
  {
    hide EncodeValue, EncodeTag, IsVarint, IsPayload, IsWritten;
    EncodeValueSucceeds(f, v);
    KeyWritten(f.ltype, f.tag);
    ValueIsPayload(f, v);
    WrittenOne(EncodeTag(WireType(f.ltype), f.tag), ItemRecord(f, v));
  }

  lemma {:induction false} ItemsWritten(f: Field, items: seq<Value>, n: nat)
    requires FieldOk(f) && n <= |items| && forall k :: 0 <= k < |items| ==> ValueInRange(f, items[k])
    ensures EncodeUnpacked(f, items, n).Some?
    ensures IsWritten(EncodeUnpacked(f, items, n).value, seq(n, k requires 0 <= k < n => ItemRecord(f, items[k])))
  {
    hide EncodeValue, EncodeTag, ItemRecord, ValueInRange, IsWritten, FieldOk;
    if n == 0 {
      EmptyWritten();
    } else {
      ItemsWritten(f, items, n - 1);
      ItemRecordWritten(f, items[n - 1]);
      var a, r := EncodeUnpacked(f, items, n - 1).value, ItemRecord(f, items[n - 1]);
      var e := EncodeTag(WireType(f.ltype), f.tag) + EncodeValue(f, items[n - 1]).value;
      var rs := seq(n - 1, k requires 0 <= k < n - 1 => ItemRecord(f, items[k]));
      WrittenBoth(a, rs, e, [r]);
      assert rs + [r] == seq(n, k requires 0 <= k < n => ItemRecord(f, items[k]));
    }
  }

  lemma PackedWritten(f: Field, body: ByteString)
    ensures IsWritten(EncodeTag(WT_STRING, f.tag) + LengthDelimited(body), [Record(f.tag, 2, LengthDelimited(body))])
  {
    hide EncodeTag, IsVarint, IsWritten, LengthDelimited, IsDelimited;
    KeyWritten(f.ltype, f.tag);
    DelimitedIff(LengthDelimited(body), body);
    WrittenOne(EncodeTag(WT_STRING, f.tag), Record(f.tag, 2, LengthDelimited(body)));
  }

  /** What is written for a field is its records. */
  lemma FieldWritten(f: Field, s: Slot)
    requires FieldOk(f) && SlotInRange(f, s)
    ensures EncodeField(f, s).Some? && IsWritten(EncodeField(f, s).value, RecordsOf(f, s))
  {
    hide EncodeValue, EncodeTag, ItemRecord, ValueInRange, IsWritten, EncodePacked, LengthDelimited, Present;
    EncodeFieldSucceeds(f, s);
    EmptyWritten();
    if f.htype.Repeated? {
      EncodeItemsSucceed(f, s.items, |s.items|);
      if s.items == [] {
        assert RecordsOf(f, s) == [];
      } else if f.ltype.Packable() {
        PackedWritten(f, EncodePacked(f, s.items, |s.items|).value);
      } else {
        ItemsWritten(f, s.items, |s.items|);
      }
    } else if Present(f, s) {
      assert ValueInRange(f, s.v) by { PresentInRange(f, s); }
      ItemRecordWritten(f, s.v);
    }
  }

  lemma PresentInRange(f: Field, s: Slot)
    requires SlotInRange(f, s) && !f.htype.Repeated? && Present(f, s)
    ensures !s.Items? && ValueInRange(f, s.v)
  {
    hide ValueInRange;
  }

  lemma EmptyWritten()
    ensures IsWritten([], [])
  {
  }

  /** The records a field calls for are the ones with the encoder's payloads. */
  lemma FieldRecordsIff(f: Field, s: Slot, rs: seq<Record>)
    requires FieldOk(f) && SlotInRange(f, s)
    ensures FieldRecords(f, s, rs) <==> rs == RecordsOf(f, s)
    decreases f, 2
  {
    hide EncodeValue, ValueInRange, EncodePacked, LengthDelimited, IsDelimited, Present, IsCarried, Carries, IsPacked;
    if !f.htype.Repeated? {
      PresentIff(f, s);
      if Present(f, s) {
        PresentInRange(f, s);
        EncodeValueSucceeds(f, s.v);
        var p := EncodeValue(f, s.v).value;
        ValueIff(f, s.v, p);
        if |rs| == 1 { ValueIff(f, s.v, rs[0].payload); }
      }
    } else if f.ltype.Packable() {
      PackedRecordsIff(f, s, rs);
    } else {
      ItemRecordsIff(f, s, rs);
    }
  }

  lemma PackedRecordsIff(f: Field, s: Slot, rs: seq<Record>)
    requires FieldOk(f) && SlotInRange(f, s) && f.htype.Repeated? && f.ltype.Packable()
    ensures FieldRecords(f, s, rs) <==> rs == RecordsOf(f, s)
  {
    hide EncodeValue, ValueInRange, EncodePacked, LengthDelimited, IsDelimited, IsPacked;
    EncodeItemsSucceed(f, s.items, |s.items|);
    var n := |s.items|;
    assert s.items[..n] == s.items;
    var body := EncodePacked(f, s.items, n).value;
    PackedIff(f, s.items, n, body);
    DelimitedIff(LengthDelimited(body), body);
    if |rs| == 1 {
      forall c | IsDelimited(rs[0].payload, c) && IsPacked(f, s.items, c) ensures rs[0].payload == LengthDelimited(body) {
        PackedIff(f, s.items, n, c);
        DelimitedIff(rs[0].payload, c);
      }
    }
  }

  lemma ItemRecordsIff(f: Field, s: Slot, rs: seq<Record>)
    requires FieldOk(f) && SlotInRange(f, s) && f.htype.Repeated? && !f.ltype.Packable()
    ensures FieldRecords(f, s, rs) <==> rs == RecordsOf(f, s)
    decreases f, 1
  {
    hide EncodeValue, ValueInRange, Carries;
    if |rs| == |s.items| {
      forall k | 0 <= k < |rs|
        ensures rs[k] == ItemRecord(f, s.items[k]) <==>
                rs[k].number == f.tag && rs[k].wireType == WireNumber(f.ltype) && Carries(f, s.items[k], rs[k].payload)
      {
        EncodeValueSucceeds(f, s.items[k]);
        ValueIff(f, s.items[k], rs[k].payload);
      }
    }
  }

  // ----- messages ------------------------------------------------------------------------------------------

  ghost function PartsUpTo(fields: Fields, slots: seq<Slot>, n: nat): (parts: seq<seq<Record>>)
    requires n <= |fields|
    ensures |parts| == n
  {
    seq(n, i requires 0 <= i < n => RecordsOf(fields[i], SlotAt(slots, fields[i])))
  }

  lemma {:induction false} PartsWritten(fields: Fields, slots: seq<Slot>, n: nat)
    requires WellFormed(fields) && InRange(fields, slots) && n <= |fields|
    ensures EncodeUpTo(fields, slots, n).Some?
    ensures IsWritten(EncodeUpTo(fields, slots, n).value, Joined(PartsUpTo(fields, slots, n)))
  {
    hide EncodeField, WellFormed, InRange, RecordsOf;
    if n == 0 {
      EmptyWritten();
    } else {
      PartsWritten(fields, slots, n - 1);
      EachFieldOk(fields, n - 1);
      EachSlotInRange(fields, slots, n - 1);
      var f, s := fields[n - 1], SlotAt(slots, fields[n - 1]);
      FieldWritten(f, s);
      WrittenBoth(EncodeUpTo(fields, slots, n - 1).value, Joined(PartsUpTo(fields, slots, n - 1)),
                  EncodeField(f, s).value, RecordsOf(f, s));
      assert PartsUpTo(fields, slots, n)[..n - 1] == PartsUpTo(fields, slots, n - 1);
    }
  }

  /** The bytes that pb_encode writes for a message are the message in the wire format, and no others are. */
  lemma {:induction false} MessageIff(fields: Fields, slots: seq<Slot>, b: ByteString)
    requires WellFormed(fields) && InRange(fields, slots)
    ensures Encode(fields, slots) == Some(b) <==> IsMessage(fields, slots, b)
    decreases fields, 3
  {
    hide WellFormed, InRange, RecordsOf, FieldRecords, IsWritten, EncodeUpTo, Joined;
    var n := |fields|;
    PartsWritten(fields, slots, n);
    var mine := PartsUpTo(fields, slots, n);
    forall i | 0 <= i < n ensures fields[i].slot < |slots| && FieldRecords(fields[i], slots[fields[i].slot], mine[i]) {
      EachFieldOk(fields, i);
      EachSlotInRange(fields, slots, i);
      FieldRecordsIff(fields[i], slots[fields[i].slot], mine[i]);
    }
    hide IsMessage;
    if Encode(fields, slots) == Some(b) {
      MessageBy(fields, slots, b, mine);
    }
    if IsMessage(fields, slots, b) {
      var parts := PartsOfMessage(fields, slots, b);
      forall i | 0 <= i < n ensures parts[i] == mine[i] {
        EachFieldOk(fields, i);
        EachSlotInRange(fields, slots, i);
        FieldRecordsIff(fields[i], slots[fields[i].slot], parts[i]);
      }
      assert parts == mine;
      WritingIsUnique(b, EncodeUpTo(fields, slots, n).value, Joined(mine));
    }
  }

  lemma MessageBy(fields: Fields, slots: seq<Slot>, b: ByteString, parts: seq<seq<Record>>)
    requires |parts| == |fields| && IsWritten(b, Joined(parts))
    requires forall i :: 0 <= i < |fields| ==> fields[i].slot < |slots| && FieldRecords(fields[i], slots[fields[i].slot], parts[i])
    ensures IsMessage(fields, slots, b)
  {
    hide FieldRecords, IsWritten, Joined;
  }

  lemma PartsOfMessage(fields: Fields, slots: seq<Slot>, b: ByteString) returns (parts: seq<seq<Record>>)
    requires IsMessage(fields, slots, b)
    ensures |parts| == |fields| && IsWritten(b, Joined(parts))
    ensures forall i :: 0 <= i < |fields| ==> fields[i].slot < |slots| && FieldRecords(fields[i], slots[fields[i].slot], parts[i])
  {
    hide FieldRecords, IsWritten, Joined;
    parts :| |parts| == |fields| && IsWritten(b, Joined(parts)) &&
      forall i :: 0 <= i < |fields| ==> fields[i].slot < |slots| && FieldRecords(fields[i], slots[fields[i].slot], parts[i]);
  }
  // ----- what is refused ------------------------------------------------------------------------------------

  /** More bytes than the buffer of the field has room for, here or in a submessage. */
  ghost predicate IsTooBig(f: Field, v: Value)
    decreases f, 0
  {
    match f.ltype
    case LBytes =>
      var header := if PB_SIZE_MAX == 0xFF then 1 else if PB_SIZE_MAX == 0xFFFF then 2 else 4;
      header + |v.AsBytes()| > f.dataSize
    case LSubmessage(sub) => exists i :: 0 <= i < |sub| && FieldIsTooBig(sub[i], MemberOf(v, sub[i]))
    case _ => false
  }

  /** An array with more items than it has elements, or a value that is too big. */
  ghost predicate FieldIsTooBig(f: Field, s: Slot)
    decreases f, 1
  {
    if f.htype.Repeated? then
      |s.AsItems()| > f.arraySize || exists k :: 0 <= k < |s.AsItems()| && IsTooBig(f, s.AsItems()[k])
    else Present(f, s) && IsTooBig(f, s.AsValue())
  }

  lemma {:induction false} ValueRefusedIff(f: Field, v: Value)
    ensures EncodeValue(f, v).None? <==> IsTooBig(f, v)
    decreases f, 0
  {
    hide FieldIsTooBig, Encode, EncodeVarint, LengthDelimited;
    if f.ltype.LSubmessage? {
      var sub, slots := f.ltype.fields, if v.Msg? then v.slots else [];
      RefusedIff(sub, slots);
      assert forall i :: 0 <= i < |sub| ==> SlotAt(slots, sub[i]) == MemberOf(v, sub[i]);
    }
  }

  lemma {:induction false} ItemsRefusedIff(f: Field, items: seq<Value>, n: nat)
    requires n <= |items|
    ensures EncodePacked(f, items, n).None? <==> exists k :: 0 <= k < n && IsTooBig(f, items[k])
    ensures EncodeUnpacked(f, items, n).None? <==> exists k :: 0 <= k < n && IsTooBig(f, items[k])
    decreases f, 1, n
  {
    hide IsTooBig, EncodeValue;
    if n > 0 {
      ItemsRefusedIff(f, items, n - 1);
      ValueRefusedIff(f, items[n - 1]);
    }
  }

  lemma FieldRefusedIff(f: Field, s: Slot)
    ensures EncodeField(f, s).None? <==> FieldIsTooBig(f, s)
    decreases f, 2
  {
    hide IsTooBig, EncodeValue, Present, EncodePacked, EncodeUnpacked;
    if f.htype.Repeated? {
      ItemsRefusedIff(f, s.AsItems(), |s.AsItems()|);
    } else {
      ValueRefusedIff(f, s.AsValue());
    }
  }

  /** The encoder refuses a message exactly when something in it that would be written is too big. */
  lemma {:induction false} RefusedIff(fields: Fields, slots: seq<Slot>)
    ensures Encode(fields, slots).None? <==> exists i :: 0 <= i < |fields| && FieldIsTooBig(fields[i], SlotAt(slots, fields[i]))
    decreases fields, 4
  {
    hide EncodeUpTo, FieldIsTooBig;
    UpToRefusedIff(fields, slots, |fields|);
  }

  lemma {:induction false} UpToRefusedIff(fields: Fields, slots: seq<Slot>, n: nat)
    requires n <= |fields|
    ensures EncodeUpTo(fields, slots, n).None? <==> exists i :: 0 <= i < n && FieldIsTooBig(fields[i], SlotAt(slots, fields[i]))
    decreases fields, 3, n
  {
    hide EncodeField, FieldIsTooBig;
    if n > 0 {
      UpToRefusedIff(fields, slots, n - 1);
      FieldRefusedIff(fields[n - 1], SlotAt(slots, fields[n - 1]));
    }
  }
}
