/**
 What success of pb_decode means for the fields of a message: which have to occur in the
 bytes, how often the elements of fixed arrays, and which occurrence a member holds in the end.
 An occurrence is a position where a field begins whose key has the number of the field.
 */
module DecodedFields {
  import opened Wrappers
  import opened ByteStrings
  import opened Varint
  import opened Descriptor
  import opened Encoding
  import opened Decoding
  import opened FieldBoundaries
  import opened DecodedValues

  /** The bytes from k on begin with a key of the given field number. */
  predicate NumberAt(b: ByteString, k: nat, number: nat) {
    k <= |b| && DecodeVarint32(b[k..]).Some? && DecodeVarint32(b[k..]).value.0 / 8 == number
  }

  ghost predicate OccursFrom(fields: Fields, st: DecodeState, b: ByteString, number: nat) {
    exists k: nat :: Boundary(fields, st, b, k) && NumberAt(b, k, number)
  }

  /** A field with this number begins somewhere in b. */
  ghost predicate Occurs(fields: Fields, start: seq<Slot>, b: ByteString, number: nat) {
    OccursFrom(fields, DecodeState(start, None, {}), b, number)
  }

  // ----- one field, then the rest ---------------------------------------------------------------------

  lemma OccursHere(fields: Fields, st: DecodeState, b: ByteString, number: nat)
    requires NumberAt(b, 0, number)
    ensures OccursFrom(fields, st, b, number)
  {
    hide DecodeOne, DecodeVarint32;
    assert Boundary(fields, st, b, 0);
  }

  lemma OccursLater(fields: Fields, st: DecodeState, b: ByteString, number: nat)
    requires DecodeOne(fields, st, b).Some?
    requires var (next, n) := DecodeOne(fields, st, b).value; OccursFrom(fields, next, b[n..], number)
    ensures OccursFrom(fields, st, b, number)
  {
    hide DecodeOne, DecodeVarint32;
    var (next, n) := DecodeOne(fields, st, b).value;
    var k: nat :| Boundary(fields, next, b[n..], k) && NumberAt(b[n..], k, number);
    assert b[n..][k..] == b[n + k..];
    assert Boundary(fields, st, b, n + k) && NumberAt(b, n + k, number);
  }

  lemma OccursSplit(fields: Fields, st: DecodeState, b: ByteString, number: nat)
    requires OccursFrom(fields, st, b, number)
    ensures NumberAt(b, 0, number) ||
            (DecodeOne(fields, st, b).Some? &&
             var (next, n) := DecodeOne(fields, st, b).value; OccursFrom(fields, next, b[n..], number))
  {
    hide DecodeOne, DecodeVarint32;
    var k: nat :| Boundary(fields, st, b, k) && NumberAt(b, k, number);
    if k > 0 {
      var (next, n) := DecodeOne(fields, st, b).value;
      assert b[n..][k - n..] == b[k..];
      assert Boundary(fields, next, b[n..], k - n) && NumberAt(b[n..], k - n, number);
    }
  }

  /** The loop ends at once, or reads one field and goes on. */
  lemma LoopStep(fields: Fields, st: DecodeState, b: ByteString)
    requires DecodeLoop(fields, st, b).Some?
    ensures if DecodeOne(fields, st, b).Some?
            then var (next, n) := DecodeOne(fields, st, b).value;
                 DecodeLoop(fields, next, b[n..]).Some?
                 && DecodeLoop(fields, next, b[n..]).value.0 == DecodeLoop(fields, st, b).value.0
            else DecodeLoop(fields, st, b).value.0 == st
                 && forall number: nat :: number > 0 ==> !NumberAt(b, 0, number)
  {
    hide DecodeRecord, DecodeVarint32;
    if b != [] {
      var (key, n) := DecodeVarint32(b).value;
      if key != 0 {
        var m := DecodeRecord(fields, st, key / 8, key % 8, b[n..]).value.1;
        assert b[n..][m..] == b[n + m..];
      }
      assert b[0..] == b;
    } else {
      NoVarint();
    }
  }

  lemma NoVarint()
    ensures DecodeVarint32([]).None?
  {
  }

  /** What one field does to the state: it enters and stores a field of the descriptor, or nothing. */
  lemma OneField(fields: Fields, st: DecodeState, b: ByteString) returns (at: Option<nat>, wireType: nat)
    requires WellFormed(fields) && DecodeOne(fields, st, b).Some?
    ensures at.None? ==> DecodeOne(fields, st, b).value.0 == st && forall i :: 0 <= i < |fields| ==> !NumberAt(b, 0, fields[i].tag)
    ensures at.Some? ==>
              && at.value < |fields| && (forall i :: 0 <= i < |fields| ==> (NumberAt(b, 0, fields[i].tag) <==> i == at.value))
              && Stores(fields, st, b, at.value, wireType, DecodeOne(fields, st, b).value.0)
  {
    hide DecodeVarint32, DecodeField, EnterField, SkipValue;
    assert b[0..] == b;
    var (key, n) := DecodeVarint32(b).value;
    at, wireType := FindField(fields, key / 8), key % 8;
    forall i | 0 <= i < |fields| ensures NumberAt(b, 0, fields[i].tag) <==> fields[i].tag == key / 8 {}
  }

  /** The field at the front of b is field i, and storing its value leads from st to next. */
  ghost predicate Stores(fields: Fields, st: DecodeState, b: ByteString, i: nat, wireType: nat, next: DecodeState) {
    && i < |fields| && EnterField(fields, st, i).Some? && DecodeVarint32(b).Some?
    && var st1, rest := EnterField(fields, st, i).value, b[DecodeVarint32(b).value.1..];
       var r := DecodeField(fields[i], wireType, SlotAt(st1.slots, fields[i]), rest);
       r.Some? && next == st1.(slots := Store(st1.slots, fields[i], r.value.0))
  }

  // ----- required fields ----------------------------------------------------------------------------------

  lemma {:induction false} RequiredBeforeGrows(fields: Fields, i: nat, j: nat)
    requires i < j <= |fields|
    ensures RequiredBefore(fields, i) <= RequiredBefore(fields, j)
    ensures fields[i].htype.Required? ==> RequiredBefore(fields, i) < RequiredBefore(fields, j)
    decreases j
  {
    if i + 1 < j { RequiredBeforeGrows(fields, i, j - 1); }
  }

  lemma RequiredIndexUnique(fields: Fields, i: nat, j: nat)
    requires i < |fields| && j < |fields| && fields[i].htype.Required? && fields[j].htype.Required?
    ensures RequiredBefore(fields, i) == RequiredBefore(fields, j) <==> i == j
  {
    if i < j { RequiredBeforeGrows(fields, i, j); }
    if j < i { RequiredBeforeGrows(fields, j, i); }
  }

  /** Field i is required, and one of the first 64 that are. */
  ghost predicate IsTracked(fields: Fields, i: nat) {
    i < |fields| && fields[i].htype.Required? && |set j: nat | j < i && fields[j].htype.Required?| < 64
  }

  lemma {:induction false} RequiredBeforeCounts(fields: Fields, n: nat)
    requires n <= |fields|
    ensures RequiredBefore(fields, n) == |set j: nat | j < n && fields[j].htype.Required?|
  {
    if n > 0 {
      RequiredBeforeCounts(fields, n - 1);
      var was, now := set j: nat | j < n - 1 && fields[j].htype.Required?, set j: nat | j < n && fields[j].htype.Required?;
      assert now == if fields[n - 1].htype.Required? then was + {n - 1} else was;
    }
  }

  lemma TrackedIs(fields: Fields, i: nat)
    ensures IsTracked(fields, i) <==> i < |fields| && fields[i].htype.Required? && RequiredBefore(fields, i) < PB_MAX_REQUIRED_FIELDS
  {
    if i < |fields| { RequiredBeforeCounts(fields, i); }
  }

  /** A required field is marked in the end exactly when it was before, or occurs. */
  lemma {:induction false} LoopMarks(fields: Fields, st: DecodeState, b: ByteString, i: nat)
    requires WellFormed(fields) && DecodeLoop(fields, st, b).Some?
    requires i < |fields| && fields[i].htype.Required? && RequiredBefore(fields, i) < PB_MAX_REQUIRED_FIELDS
    ensures RequiredBefore(fields, i) in DecodeLoop(fields, st, b).value.0.seen <==>
            RequiredBefore(fields, i) in st.seen || OccursFrom(fields, st, b, fields[i].tag)
    decreases |b|
  {
    hide DecodeLoop, DecodeOne, DecodeVarint32, OccursFrom, RequiredBefore, WellFormed, NumberAt, EnterField;
    LoopStep(fields, st, b);
    TagPositive(fields, i);
    if NumberAt(b, 0, fields[i].tag) { OccursHere(fields, st, b, fields[i].tag); }
    if OccursFrom(fields, st, b, fields[i].tag) { OccursSplit(fields, st, b, fields[i].tag); }
    if DecodeOne(fields, st, b).Some? {
      var (next, n) := DecodeOne(fields, st, b).value;
      LoopMarks(fields, next, b[n..], i);
      if OccursFrom(fields, next, b[n..], fields[i].tag) { OccursLater(fields, st, b, fields[i].tag); }
      var at, wireType := OneField(fields, st, b);
      if at.Some? {
        EnterMarks(fields, st, at.value);
        if fields[at.value].htype.Required? { RequiredIndexUnique(fields, i, at.value); }
      }
    }
  }

  lemma TagPositive(fields: Fields, i: nat)
    requires WellFormed(fields) && i < |fields|
    ensures fields[i].tag > 0
  {
  }

  lemma EnterMarks(fields: Fields, st: DecodeState, i: nat)
    requires i < |fields| && EnterField(fields, st, i).Some?
    ensures EnterField(fields, st, i).value.seen
            == if fields[i].htype.Required? && RequiredBefore(fields, i) < PB_MAX_REQUIRED_FIELDS
               then st.seen + {RequiredBefore(fields, i)} else st.seen
  {
    hide FixedComplete;
  }
  // ----- arrays of fixed length -----------------------------------------------------------------------------

  /** The array holds all its elements. */
  predicate IsFull(f: Field, slots: seq<Slot>) {
    f.slot < |slots| && |slots[f.slot].AsItems()| == f.arraySize
  }

  lemma StoresShape(fields: Fields, st: DecodeState, b: ByteString, i: nat, wireType: nat, next: DecodeState)
    requires Stores(fields, st, b, i, wireType, next)
    ensures |next.slots| == |st.slots|
    ensures forall j :: 0 <= j < |st.slots| && j != fields[i].slot ==> next.slots[j] == st.slots[j]
    ensures next.fixedField == if fields[i].FixedCount() then Some(i) else st.fixedField
    ensures fields[i].FixedCount() && st.fixedField != Some(i) ==> FixedComplete(fields, st)
  {
    hide DecodeVarint32, DecodeField, FixedComplete, RequiredBefore;
  }

  lemma OtherSlot(fields: Fields, i: nat, j: nat)
    requires WellFormed(fields) && i < |fields| && j < |fields| && i != j && fields[i].htype.Repeated?
    ensures fields[i].slot != fields[j].slot && fields[i].slot < SlotCount(fields)
  {
    SlotBelowCount(fields, i);
    if i < j { SlotsAscend(fields, i, j); } else { SlotsAscend(fields, j, i); }
  }

  lemma FixedStep(fields: Fields, st: DecodeState, b: ByteString, at: nat, wireType: nat, next: DecodeState, i: nat)
    requires WellFormed(fields) && |st.slots| == SlotCount(fields) && Stores(fields, st, b, at, wireType, next)
    requires i < |fields| && fields[i].FixedCount()
    requires at == i || st.fixedField == Some(i) || IsFull(fields[i], st.slots)
    ensures next.fixedField == Some(i) || IsFull(fields[i], next.slots)
  {
    StoresShape(fields, st, b, at, wireType, next);
    hide Stores, WellFormed;
    if at != i { OtherSlot(fields, i, at); }
  }

  /** An array that is being filled, is full or occurs is full in the end, if the last one is. */
  lemma {:induction false} LoopFills(fields: Fields, st: DecodeState, b: ByteString, i: nat)
    requires WellFormed(fields) && |st.slots| == SlotCount(fields) && DecodeLoop(fields, st, b).Some?
    requires FixedComplete(fields, DecodeLoop(fields, st, b).value.0)
    requires i < |fields| && fields[i].FixedCount()
    requires st.fixedField == Some(i) || IsFull(fields[i], st.slots) || OccursFrom(fields, st, b, fields[i].tag)
    ensures IsFull(fields[i], DecodeLoop(fields, st, b).value.0.slots)
    decreases |b|
  {
    hide DecodeLoop, DecodeOne, DecodeVarint32, OccursFrom, WellFormed, NumberAt, Stores;
    LoopStep(fields, st, b);
    TagPositive(fields, i);
    SlotBelowCount(fields, i);
    if OccursFrom(fields, st, b, fields[i].tag) { OccursSplit(fields, st, b, fields[i].tag); }
    if DecodeOne(fields, st, b).Some? {
      var (next, n) := DecodeOne(fields, st, b).value;
      var at, wireType := OneField(fields, st, b);
      if at.Some? {
        StoresShape(fields, st, b, at.value, wireType, next);
        if at.value == i || st.fixedField == Some(i) || IsFull(fields[i], st.slots) {
          FixedStep(fields, st, b, at.value, wireType, next, i);
        }
      }
      LoopFills(fields, next, b[n..], i);
    }
  }

  /** The array being filled in the end was being filled before, or occurs. */
  lemma {:induction false} LoopCurrent(fields: Fields, st: DecodeState, b: ByteString, i: nat)
    requires WellFormed(fields) && DecodeLoop(fields, st, b).Some? && DecodeLoop(fields, st, b).value.0.fixedField == Some(i)
    ensures st.fixedField == Some(i) || (i < |fields| && fields[i].FixedCount() && OccursFrom(fields, st, b, fields[i].tag))
    decreases |b|
  {
    hide DecodeLoop, DecodeOne, DecodeVarint32, OccursFrom, WellFormed, NumberAt, Stores;
    LoopStep(fields, st, b);
    if DecodeOne(fields, st, b).Some? {
      var (next, n) := DecodeOne(fields, st, b).value;
      LoopCurrent(fields, next, b[n..], i);
      var at, wireType := OneField(fields, st, b);
      if at.Some? { StoresShape(fields, st, b, at.value, wireType, next); }
      if next.fixedField == Some(i) {
        if at == Some(i) { OccursHere(fields, st, b, fields[i].tag); }
      } else {
        OccursLater(fields, st, b, fields[i].tag);
      }
    }
  }

  // ----- success ----------------------------------------------------------------------------------------------

  ghost predicate RequiredOccur(fields: Fields, start: seq<Slot>, b: ByteString) {
    forall i :: 0 <= i < |fields| && IsTracked(fields, i) ==> Occurs(fields, start, b, fields[i].tag)
  }

  ghost predicate ArraysAreFull(fields: Fields, start: seq<Slot>, b: ByteString, slots: seq<Slot>) {
    forall i :: 0 <= i < |fields| && fields[i].FixedCount() && Occurs(fields, start, b, fields[i].tag) ==> IsFull(fields[i], slots)
  }

  /**
   Decoding succeeds when the field loop comes to its end, every required field among the
   first 64 occurs and every fixed array that occurs is full; without one of these it fails.
   */
  lemma AcceptedIff(fields: Fields, start: seq<Slot>, b: ByteString)
    requires WellFormed(fields) && |start| == SlotCount(fields)
    ensures DecodeMessage(fields, start, b).Some? <==>
            && DecodeLoop(fields, DecodeState(start, None, {}), b).Some?
            && var slots := DecodeLoop(fields, DecodeState(start, None, {}), b).value.0.slots;
               RequiredOccur(fields, start, b) && ArraysAreFull(fields, start, b, slots)
    ensures DecodeMessage(fields, start, b).Some? ==>
              DecodeMessage(fields, start, b).value == DecodeLoop(fields, DecodeState(start, None, {}), b).value.0.slots
  {
    hide DecodeLoop, WellFormed, Occurs, IsTracked, FixedComplete, IsFull;
    var st0 := DecodeState(start, None, {});
    if DecodeLoop(fields, st0, b).Some? {
      var last := DecodeLoop(fields, st0, b).value.0;
      SeenIff(fields, start, b, last);
      FullIff(fields, start, b, last);
    }
  }

  lemma SeenIff(fields: Fields, start: seq<Slot>, b: ByteString, last: DecodeState)
    requires WellFormed(fields) && DecodeLoop(fields, DecodeState(start, None, {}), b).Some?
    requires last == DecodeLoop(fields, DecodeState(start, None, {}), b).value.0
    ensures RequiredOccur(fields, start, b) <==>
            forall k :: 0 <= k < Min(RequiredBefore(fields, |fields|), PB_MAX_REQUIRED_FIELDS) ==> k in last.seen
  {
    hide DecodeLoop, WellFormed, OccursFrom, RequiredBefore;
    var st0 := DecodeState(start, None, {});
    forall i: nat | i < |fields| && IsTracked(fields, i)
      ensures RequiredBefore(fields, i) < Min(RequiredBefore(fields, |fields|), PB_MAX_REQUIRED_FIELDS)
      ensures RequiredBefore(fields, i) in last.seen <==> Occurs(fields, start, b, fields[i].tag)
    {
      TrackedIs(fields, i);
      RequiredBeforeGrows(fields, i, |fields|);
      LoopMarks(fields, st0, b, i);
    }
    forall k: nat | k < Min(RequiredBefore(fields, |fields|), PB_MAX_REQUIRED_FIELDS) && RequiredOccur(fields, start, b)
      ensures k in last.seen
    {
      var i := RequiredWithIndex(fields, |fields|, k);
      TrackedIs(fields, i);
    }
  }

  lemma {:induction false} RequiredWithIndex(fields: Fields, n: nat, k: nat) returns (i: nat)
    requires n <= |fields| && k < RequiredBefore(fields, n)
    ensures i < n && fields[i].htype.Required? && RequiredBefore(fields, i) == k
  {
    if k < RequiredBefore(fields, n - 1) { i := RequiredWithIndex(fields, n - 1, k); } else { i := n - 1; }
  }

  lemma FullIff(fields: Fields, start: seq<Slot>, b: ByteString, last: DecodeState)
    requires WellFormed(fields) && |start| == SlotCount(fields) && DecodeLoop(fields, DecodeState(start, None, {}), b).Some?
    requires last == DecodeLoop(fields, DecodeState(start, None, {}), b).value.0
    ensures ArraysAreFull(fields, start, b, last.slots) <==> FixedComplete(fields, last)
  {
    hide DecodeLoop, WellFormed, OccursFrom;
    var st0 := DecodeState(start, None, {});
    if FixedComplete(fields, last) {
      forall i | 0 <= i < |fields| && fields[i].FixedCount() && Occurs(fields, start, b, fields[i].tag) ensures IsFull(fields[i], last.slots) {
        LoopFills(fields, st0, b, i);
      }
    }
    if last.fixedField.Some? {
      var i := last.fixedField.value;
      LoopCurrent(fields, st0, b, i);
    }
  }

  /** The field loop comes to its end at the end of the bytes or at a zero key, behind a whole number of fields. */
  lemma {:induction false} LoopEndsIff(fields: Fields, st: DecodeState, b: ByteString)
    ensures DecodeLoop(fields, st, b).Some? <==>
            exists k: nat :: Boundary(fields, st, b, k) && k <= |b| && EndsAt(b, k)
    decreases |b|
  {
    hide DecodeRecord, DecodeVarint32;
    assert b[0..] == b;
    if DecodeLoop(fields, st, b).Some? && !EndsAt(b, 0) {
      LoopStep(fields, st, b);
      var (next, n) := DecodeOne(fields, st, b).value;
      LoopEndsIff(fields, next, b[n..]);
      var k: nat :| Boundary(fields, next, b[n..], k) && k <= |b[n..]| && EndsAt(b[n..], k);
      assert b[n..][k..] == b[n + k..];
      assert Boundary(fields, st, b, n + k) && EndsAt(b, n + k);
    } else if DecodeLoop(fields, st, b).Some? {
      assert Boundary(fields, st, b, 0);
    }
    if k: nat :| Boundary(fields, st, b, k) && k <= |b| && EndsAt(b, k) {
      if k > 0 {
        var (next, n) := DecodeOne(fields, st, b).value;
        assert b[n..][k - n..] == b[k..];
        assert Boundary(fields, next, b[n..], k - n) && EndsAt(b[n..], k - n);
        LoopEndsIff(fields, next, b[n..]);
        LoopAfterField(fields, st, b);
      }
    }
  }

  /** The bytes end at k, or a zero key is there. */
  predicate EndsAt(b: ByteString, k: nat)
    requires k <= |b|
  {
    k == |b| || (DecodeVarint32(b[k..]).Some? && DecodeVarint32(b[k..]).value.0 == 0)
  }

  lemma LoopAfterField(fields: Fields, st: DecodeState, b: ByteString)
    requires DecodeOne(fields, st, b).Some?
    requires var (next, n) := DecodeOne(fields, st, b).value; DecodeLoop(fields, next, b[n..]).Some?
    ensures DecodeLoop(fields, st, b).Some?
  {
    hide DecodeRecord, DecodeVarint32;
    var (key, n) := DecodeVarint32(b).value;
    var m := DecodeRecord(fields, st, key / 8, key % 8, b[n..]).value.1;
    assert b[n..][m..] == b[n + m..];
  }
  // ----- which occurrence counts --------------------------------------------------------------------------------

  /** No field that lives in the member occurs. */
  ghost predicate MemberSilent(fields: Fields, st: DecodeState, b: ByteString, slot: nat) {
    forall i :: 0 <= i < |fields| && fields[i].slot == slot ==> !OccursFrom(fields, st, b, fields[i].tag)
  }

  /** A member none of whose fields occurs stays as it was. */
  lemma {:induction false} UntouchedMember(fields: Fields, st: DecodeState, b: ByteString, slot: nat)
    requires WellFormed(fields) && DecodeLoop(fields, st, b).Some? && slot < |st.slots| && MemberSilent(fields, st, b, slot)
    ensures slot < |DecodeLoop(fields, st, b).value.0.slots| && DecodeLoop(fields, st, b).value.0.slots[slot] == st.slots[slot]
    decreases |b|
  {
    hide DecodeLoop, DecodeOne, DecodeVarint32, OccursFrom, WellFormed, NumberAt, Stores;
    LoopStep(fields, st, b);
    if DecodeOne(fields, st, b).Some? {
      var (next, n) := DecodeOne(fields, st, b).value;
      var at, wireType := OneField(fields, st, b);
      if at.Some? {
        StoresShape(fields, st, b, at.value, wireType, next);
        OccursHere(fields, st, b, fields[at.value].tag);
      }
      forall i | 0 <= i < |fields| && fields[i].slot == slot && OccursFrom(fields, next, b[n..], fields[i].tag) ensures false {
        OccursLater(fields, st, b, fields[i].tag);
      }
      UntouchedMember(fields, next, b[n..], slot);
    }
  }

  /** The value a field without presence has in a fresh struct: its default, or all zeros. */
  ghost predicate IsUnset(f: Field, v: Value) {
    match f.ltype
    case LSubmessage(sub) => v == Msg(Default(sub))
    case LBytes => v == if f.defaultValue.Some? then f.defaultValue.value else Blob([])
    case LString => v == if f.defaultValue.Some? then f.defaultValue.value else Blob([])
    case LFixedLengthBytes =>
      if f.defaultValue.Some? then v == f.defaultValue.value
      else v.Blob? && |v.bytes| == f.dataSize && forall i :: 0 <= i < f.dataSize ==> v.bytes[i] == 0
    case _ => v == if f.defaultValue.Some? then f.defaultValue.value else Int(0)
  }

  /** After pb_decode a field that does not occur is unset and has its default value; an array is empty. */
  lemma AbsentIsDefault(fields: Fields, b: ByteString, i: nat)
    requires WellFormed(fields) && i < |fields| && !fields[i].htype.Oneof?
    requires Decode(fields, b).Some? && !Occurs(fields, Default(fields), b, fields[i].tag)
    ensures fields[i].slot < |Decode(fields, b).value|
    ensures var s := Decode(fields, b).value[fields[i].slot];
            if fields[i].htype.Repeated? then s == Items([]) else s.Single? && !s.has && IsUnset(fields[i], s.v)
  {
    hide DecodeLoop, OccursFrom, Finished, WellFormed;
    var st := DecodeState(Default(fields), None, {});
    DefaultSlots(fields, |fields|);
    SlotBelowCount(fields, i);
    forall j | 0 <= j < |fields| && fields[j].slot == fields[i].slot ensures j == i {
      AloneInSlot(fields, i, j);
    }
    UntouchedMember(fields, st, b, fields[i].slot);
    DefaultIsUnset(fields[i]);
  }

  lemma AloneInSlot(fields: Fields, i: nat, j: nat)
    requires WellFormed(fields) && i < |fields| && j < |fields| && !fields[i].htype.Oneof? && fields[i].slot == fields[j].slot
    ensures i == j
  {
    if i < j { SlotsAscend(fields, i, j); }
    if j < i { SlotsAscend(fields, j, i); }
  }

  lemma DefaultIsUnset(f: Field)
    requires !f.htype.Oneof?
    ensures if f.htype.Repeated? then DefaultSlot(f) == Items([])
            else DefaultSlot(f).Single? && !DefaultSlot(f).has && IsUnset(f, DefaultSlot(f).v)
  {
    hide Default;
  }

  /** k is the last position where a field begins that lives in the member of field i, and it is field i. */
  ghost predicate LastOfMember(fields: Fields, st: DecodeState, b: ByteString, i: nat, k: nat) {
    && i < |fields| && Boundary(fields, st, b, k) && NumberAt(b, k, fields[i].tag)
    && forall j, m: nat :: 0 <= j < |fields| && fields[j].slot == fields[i].slot && m > k && Boundary(fields, st, b, m) ==>
         !NumberAt(b, m, fields[j].tag)
  }

  /** The member shows value v of field f. */
  predicate Shows(f: Field, s: Slot, v: Value) {
    match f.htype
    case Required => s.Single? && s.v == v
    case Optional => s.Single? && s.v == v && (f.Sized() ==> s.has)
    case Oneof => s == Choice(f.tag, v)
    case Repeated => s.Items? && s.items != [] && s.items[|s.items| - 1] == v
  }

  /**
   The last occurrence wins: after success a member holds the value that was read at the last
   position where one of its fields begins; a union holds that field, an array has it at its end.
   */
  lemma {:induction false} LastOneWins(fields: Fields, st: DecodeState, b: ByteString, i: nat, k: nat)
      returns (v: Value, n: nat, m: nat)
    requires WellFormed(fields) && |st.slots| == SlotCount(fields) && DecodeLoop(fields, st, b).Some?
    requires LastOfMember(fields, st, b, i, k) && !fields[i].ltype.LSubmessage?
    requires fields[i].htype.Repeated? ==> !fields[i].ltype.Packable()
    ensures k + m <= |b| && DecodeVarint32(b[k..]).Some? && DecodeVarint32(b[k..]).value.1 == m
    ensures IsDecoded(fields[i], b[k + m..], v, n)
    ensures fields[i].slot < |DecodeLoop(fields, st, b).value.0.slots|
    ensures Shows(fields[i], DecodeLoop(fields, st, b).value.0.slots[fields[i].slot], v)
    decreases |b|
  {
    hide DecodeLoop, DecodeOne, DecodeVarint32, OccursFrom, WellFormed, Stores, IsDecoded, Shows;
    LoopStep(fields, st, b);
    TagPositive(fields, i);
    var at, wireType := OneField(fields, st, b) by { FieldBegins(fields, st, b, i, k); }
    var (next, len) := DecodeOne(fields, st, b).value;
    if at.Some? { StoresShape(fields, st, b, at.value, wireType, next); }
    if k > 0 {
      assert b[len..][k - len..] == b[k..];
      LastLater(fields, st, b, i, k);
      v, n, m := LastOneWins(fields, next, b[len..], i, k - len);
      assert b[len..][k - len + m..] == b[k + m..];
    } else {
      assert b[0..] == b;
      v, n, m := StoredShows(fields, st, b, i, wireType, next);
      SlotBelowCount(fields, i);
      LastIsSilent(fields, st, b, i);
      UntouchedMember(fields, next, b[len..], fields[i].slot);
    }
  }

  lemma FieldBegins(fields: Fields, st: DecodeState, b: ByteString, i: nat, k: nat)
    requires WellFormed(fields) && DecodeLoop(fields, st, b).Some? && i < |fields|
    requires Boundary(fields, st, b, k) && NumberAt(b, k, fields[i].tag)
    ensures DecodeOne(fields, st, b).Some?
  {
    hide DecodeLoop, DecodeOne, DecodeVarint32, WellFormed;
    TagPositive(fields, i);
    LoopStep(fields, st, b);
  }

  lemma LastLater(fields: Fields, st: DecodeState, b: ByteString, i: nat, k: nat)
    requires DecodeOne(fields, st, b).Some? && LastOfMember(fields, st, b, i, k) && k > 0
    ensures var (next, n) := DecodeOne(fields, st, b).value; n <= k && LastOfMember(fields, next, b[n..], i, k - n)
  {
    hide DecodeOne, DecodeVarint32;
    var (next, n) := DecodeOne(fields, st, b).value;
    assert b[n..][k - n..] == b[k..];
    forall j, m: nat | 0 <= j < |fields| && fields[j].slot == fields[i].slot && m > k - n && Boundary(fields, next, b[n..], m)
      ensures !NumberAt(b[n..], m, fields[j].tag)
    {
      assert Boundary(fields, st, b, n + m) && !NumberAt(b, n + m, fields[j].tag);
      assert m <= |b[n..]| ==> b[n..][m..] == b[n + m..];
    }
  }

  lemma LastIsSilent(fields: Fields, st: DecodeState, b: ByteString, i: nat)
    requires DecodeOne(fields, st, b).Some? && LastOfMember(fields, st, b, i, 0)
    ensures var (next, n) := DecodeOne(fields, st, b).value; MemberSilent(fields, next, b[n..], fields[i].slot)
  {
    hide DecodeOne, DecodeVarint32;
    var (next, n) := DecodeOne(fields, st, b).value;
    forall j, m: nat | 0 <= j < |fields| && fields[j].slot == fields[i].slot && Boundary(fields, next, b[n..], m)
      ensures !NumberAt(b[n..], m, fields[j].tag)
    {
      assert Boundary(fields, st, b, n + m) && !NumberAt(b, n + m, fields[j].tag);
      assert m <= |b[n..]| ==> b[n..][m..] == b[n + m..];
    }
  }

  lemma StoredShows(fields: Fields, st: DecodeState, b: ByteString, i: nat, wireType: nat, next: DecodeState)
      returns (v: Value, n: nat, m: nat)
    requires WellFormed(fields) && |st.slots| == SlotCount(fields) && Stores(fields, st, b, i, wireType, next)
    requires !fields[i].ltype.LSubmessage? && (fields[i].htype.Repeated? ==> !fields[i].ltype.Packable())
    ensures DecodeVarint32(b).Some? && DecodeVarint32(b).value.1 == m <= |b| && IsDecoded(fields[i], b[m..], v, n)
    ensures fields[i].slot < |next.slots| && Shows(fields[i], next.slots[fields[i].slot], v)
  {
    hide DecodeVarint32, IsDecoded, EnterField, DecodeValue;
    StoresShape(fields, st, b, i, wireType, next);
    SlotBelowCount(fields, i);
    assert FieldOk(fields[i]);
    hide WellFormed, FieldOk;
    m := DecodeVarint32(b).value.1;
    var f, s := fields[i], SlotAt(EnterField(fields, st, i).value.slots, fields[i]);
    var previous := if f.htype.Repeated? then Int(0) else s.AsValue();
    v, n := DecodeValue(f, previous, b[m..]).value.0, DecodeValue(f, previous, b[m..]).value.1;
    DecodedIff(f, previous, b[m..], v, n);
    EnterShape(fields, st, i);
  }

  lemma EnterShape(fields: Fields, st: DecodeState, i: nat)
    requires i < |fields| && EnterField(fields, st, i).Some?
    ensures |EnterField(fields, st, i).value.slots| == |st.slots|
  {
    hide FixedComplete;
  }
  /** What another member of the union left in it does not shine through. */
  lemma UnionForgets(f: Field, wireType: nat, other: nat, left: Value, b: ByteString)
    requires FieldOk(f) && f.htype.Oneof? && other != f.tag
    ensures DecodeField(f, wireType, Choice(other, left), b) == DecodeField(f, wireType, Choice(0, Int(0)), b)
  {
    hide DecodeMessage, DecodeBlob, Default;
    if !f.ltype.LSubmessage? {
      SameWhateverWasThere(f, left, Int(0), b);
    }
  }

  lemma SameWhateverWasThere(f: Field, x: Value, y: Value, b: ByteString)
    requires FieldOk(f) && !f.ltype.LSubmessage?
    ensures DecodeValue(f, x, b) == DecodeValue(f, y, b)
  {
    hide DecodeBlob, DecodeVarint, DecodeVarint32, FromFixed, CString;
  }

  // ----- arrays stay within their bounds ---------------------------------------------------------------------------

  /** No array of the message has more items than elements. */
  ghost predicate WithinBounds(fields: Fields, slots: seq<Slot>) {
    forall i :: 0 <= i < |fields| && fields[i].htype.Repeated? && fields[i].slot < |slots| ==>
      |slots[fields[i].slot].AsItems()| <= fields[i].arraySize
  }

  lemma {:induction false} PackedWithinBounds(f: Field, items: seq<Value>, b: ByteString)
    requires |items| <= f.arraySize && DecodePacked(f, items, b).Some?
    ensures |items| <= |DecodePacked(f, items, b).value| <= f.arraySize && items <= DecodePacked(f, items, b).value
    decreases |b|
  {
    hide DecodeValue;
    if b != [] {
      var (v, n) := DecodeValue(f, Int(0), b).value;
      PackedWithinBounds(f, items + [v], b[n..]);
    }
  }

  /** Storing an occurrence of an array appends to what it holds, and not beyond its end. */
  lemma FieldWithinBounds(f: Field, wireType: nat, s: Slot, b: ByteString)
    requires f.htype.Repeated? && |s.AsItems()| <= f.arraySize && DecodeField(f, wireType, s, b).Some?
    ensures s.AsItems() <= DecodeField(f, wireType, s, b).value.0.AsItems()
    ensures |DecodeField(f, wireType, s, b).value.0.AsItems()| <= f.arraySize
  {
    hide DecodeValue, DecodeBlob, DecodePacked;
    if wireType == WT_STRING && f.ltype.Packable() {
      PackedWithinBounds(f, s.AsItems(), DecodeBlob(b).value.0);
    }
  }

  lemma StoreWithinBounds(fields: Fields, st: DecodeState, b: ByteString, i: nat, wireType: nat, next: DecodeState)
    requires WellFormed(fields) && |st.slots| == SlotCount(fields) && Stores(fields, st, b, i, wireType, next)
    requires WithinBounds(fields, st.slots)
    ensures WithinBounds(fields, next.slots)
  {
    hide DecodeVarint32, DecodeField, WellFormed, FixedComplete;
    StoresShape(fields, st, b, i, wireType, next);
    SlotBelowCount(fields, i);
    forall j | 0 <= j < |fields| && fields[j].htype.Repeated? && fields[j].slot < |next.slots|
      ensures |next.slots[fields[j].slot].AsItems()| <= fields[j].arraySize
    {
      if j == i {
        EnteredWithinBounds(fields, st, i);
        var st1 := EnterField(fields, st, i).value;
        FieldWithinBounds(fields[i], wireType, SlotAt(st1.slots, fields[i]), b[DecodeVarint32(b).value.1..]);
      } else {
        OtherSlot(fields, j, i);
      }
    }
  }

  lemma EnteredWithinBounds(fields: Fields, st: DecodeState, i: nat)
    requires i < |fields| && EnterField(fields, st, i).Some? && fields[i].slot < |st.slots|
    requires |st.slots[fields[i].slot].AsItems()| <= fields[i].arraySize
    ensures fields[i].slot < |EnterField(fields, st, i).value.slots| == |st.slots|
    ensures |EnterField(fields, st, i).value.slots[fields[i].slot].AsItems()| <= fields[i].arraySize
  {
    hide FixedComplete, RequiredBefore;
  }

  /** Whatever the bytes are, decoding never puts more items into an array than it has elements. */
  lemma {:induction false} DecodedWithinBounds(fields: Fields, st: DecodeState, b: ByteString)
    requires WellFormed(fields) && |st.slots| == SlotCount(fields) && WithinBounds(fields, st.slots)
    requires DecodeLoop(fields, st, b).Some?
    ensures WithinBounds(fields, DecodeLoop(fields, st, b).value.0.slots)
    decreases |b|
  {
    hide DecodeLoop, DecodeOne, WellFormed, Stores, WithinBounds, NumberAt;
    LoopStep(fields, st, b);
    if DecodeOne(fields, st, b).Some? {
      var (next, n) := DecodeOne(fields, st, b).value;
      var at, wireType := OneField(fields, st, b);
      if at.Some? {
        StoresShape(fields, st, b, at.value, wireType, next);
        StoreWithinBounds(fields, st, b, at.value, wireType, next);
      }
      DecodedWithinBounds(fields, next, b[n..]);
    }
  }
}
