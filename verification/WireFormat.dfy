/**
 The wire format of Protocol Buffers ("Encoding", sections "Message Structure", "Base 128
 Varints", "Signed Integers", "Non-varint Numbers", "Length-Delimited Records" and "Packed
 Repeated Fields"), written down on its own: a message is a sequence of records, each with a
 field number, a wire type and a payload.  pb_encode writes exactly the records that a message
 calls for.
 */
module WireFormat {
  import opened ByteStrings
  import opened Descriptor

  datatype Record = Record(number: nat, wireType: nat, payload: ByteString)

  /** b is v in groups of seven bits, the lowest first, the high bit set in all bytes but the last. */
  predicate IsVarint(b: ByteString, v: int)
    decreases v
  {
    if v < 128 then v >= 0 && b == [v] else b != [] && b[0] as int == 128 + v % 128 && IsVarint(b[1..], v / 128)
  }

  /** Some varint, not necessarily the shortest for its number. */
  predicate IsSomeVarint(b: ByteString) {
    b != [] && b[|b| - 1] < 128 && forall i :: 0 <= i < |b| - 1 ==> b[i] >= 128
  }

  /** p is body behind its length. */
  predicate IsDelimited(p: ByteString, body: ByteString) {
    |body| <= |p| && p[|p| - |body|..] == body && IsVarint(p[..|p| - |body|], |body|)
  }

  ghost predicate IsPayload(wireType: nat, p: ByteString) {
    match wireType
    case 0 => IsSomeVarint(p)
    case 1 => |p| == 8
    case 2 => exists body :: IsDelimited(p, body)
    case 5 => |p| == 4
    case _ => false
  }

  /** b begins with record r, whose key takes k bytes. */
  ghost predicate BeginsWith(b: ByteString, r: Record, k: nat) {
    && k + |r.payload| <= |b| && b[k..k + |r.payload|] == r.payload
    && IsVarint(b[..k], 8 * r.number + r.wireType) && IsPayload(r.wireType, r.payload)
  }

  /** b is the records rs, one after the other. */
  ghost predicate IsWritten(b: ByteString, rs: seq<Record>)
    decreases |rs|
  {
    if rs == [] then b == []
    else exists k: nat :: BeginsWith(b, rs[0], k) && IsWritten(b[k + |rs[0].payload|..], rs[1..])
  }

  // ----- what a message calls for ----------------------------------------------------------------------

  /** The wire type of a field type. */
  function WireNumber(t: LType): nat {
    match t
    case LFixed64 => 1
    case LFixed32 => 5
    case LBytes => 2
    case LString => 2
    case LFixedLengthBytes => 2
    case LSubmessage(_) => 2
    case _ => 0
  }

  /** p is the payload for value v of field f. */
  ghost predicate Carries(f: Field, v: Value, p: ByteString)
    decreases f, 0
  {
    match f.ltype
    case LBool => v.Int? && p == [if v.i == 0 then 0 else 1]
    case LVarint => v.Int? && IsVarint(p, if v.i < 0 then v.i + 0x1_0000_0000_0000_0000 else v.i)
    case LUVarint => v.Int? && IsVarint(p, v.i)
    case LSVarint => v.Int? && IsVarint(p, if v.i < 0 then -2 * v.i - 1 else 2 * v.i)
    case LFixed32 => v.Int? && |p| == 4 && Word(p) == v.i
    case LFixed64 => v.Int? && |p| == 8 && DoubleWord(p) == v.i
    case LSubmessage(sub) => v.Msg? && exists body :: IsDelimited(p, body) && IsMessage(sub, v.slots, body)
    case _ => v.Blob? && IsDelimited(p, v.bytes)
  }

  /**
   A singular value without presence flag is written when it says something: a number other
   than zero, bytes, a submessage that is not written as nothing (or that has a fixed array
   without elements, which never counts as unset).
   */
  ghost predicate SaysSomething(f: Field, v: Value)
    decreases f, 1
  {
    match f.ltype
    case LSubmessage(sub) =>
      v.Msg? && (!IsMessage(sub, v.slots, []) || exists i :: 0 <= i < |sub| && sub[i].FixedCount() && sub[i].arraySize == 0)
    case LFixedLengthBytes => f.dataSize != 0
    case LBytes => v.Blob? && v.bytes != []
    case LString => v.Blob? && v.bytes != []
    case _ => v.Int? && v.i != 0
  }

  ghost predicate IsCarried(f: Field, s: Slot)
    decreases f, 2
  {
    match f.htype
    case Required => true
    case Optional => s.Single? && if f.Sized() then s.has else SaysSomething(f, s.v)
    case Oneof => s.Choice? && s.which == f.tag
    case Repeated => true
  }

  /** The payloads of packed items, one after the other. */
  ghost predicate IsPacked(f: Field, items: seq<Value>, body: ByteString)
    decreases f, 1, |items|
  {
    if items == [] then body == []
    else
      var last := |items| - 1;
      exists n: nat :: n <= |body| && IsPacked(f, items[..last], body[..n]) && Carries(f, items[last], body[n..])
  }

  /** The records of one field. */
  ghost predicate FieldRecords(f: Field, s: Slot, rs: seq<Record>)
    decreases f, 3
  {
    && (forall k :: 0 <= k < |rs| ==> rs[k].number == f.tag)
    && if !f.htype.Repeated? then
         if IsCarried(f, s) then !s.Items? && |rs| == 1 && rs[0].wireType == WireNumber(f.ltype) && Carries(f, s.v, rs[0].payload)
         else rs == []
       else if f.ltype.Packable() then
         s.Items?
         && if s.items == [] then rs == []
            else |rs| == 1 && rs[0].wireType == 2 && exists body :: IsDelimited(rs[0].payload, body) && IsPacked(f, s.items, body)
       else
         s.Items? && |rs| == |s.items|
         && forall k :: 0 <= k < |rs| ==> rs[k].wireType == WireNumber(f.ltype) && Carries(f, s.items[k], rs[k].payload)
  }

  function Joined(parts: seq<seq<Record>>): seq<Record> {
    if parts == [] then [] else Joined(parts[..|parts| - 1]) + parts[|parts| - 1]
  }

  /** b is the message: the records of its fields, in the order of the descriptor. */
  ghost predicate IsMessage(fields: Fields, slots: seq<Slot>, b: ByteString)
    decreases fields, 4
  {
    exists parts: seq<seq<Record>> ::
      && |parts| == |fields| && IsWritten(b, Joined(parts))
      && forall i :: 0 <= i < |fields| ==> fields[i].slot < |slots| && FieldRecords(fields[i], slots[fields[i].slot], parts[i])
  }

  // ----- bytes determine records, and records determine bytes --------------------------------------------

  lemma {:induction false} VarintDetermined(b: ByteString, j: nat, k: nat, v: int, w: int)
    requires j <= |b| && k <= |b| && IsVarint(b[..j], v) && IsVarint(b[..k], w)
    ensures j == k && v == w
    decreases v
  {
    assert b[..j][0] == b[0] == b[..k][0];
    if v >= 128 {
      assert b[..j][1..] == b[1..][..j - 1] && b[..k][1..] == b[1..][..k - 1];
      VarintDetermined(b[1..], j - 1, k - 1, v / 128, w / 128);
    }
  }

  lemma {:induction false} VarintUnique(b: ByteString, c: ByteString, v: int)
    requires IsVarint(b, v) && IsVarint(c, v)
    ensures b == c
    decreases v
  {
    if v >= 128 {
      VarintUnique(b[1..], c[1..], v / 128);
      assert b == [b[0]] + b[1..] && c == [c[0]] + c[1..];
    }
  }

  lemma DelimitedDetermined(b: ByteString, p: ByteString, q: ByteString, s: ByteString, t: ByteString)
    requires p <= b && q <= b && IsDelimited(p, s) && IsDelimited(q, t)
    ensures p == q && s == t
  {
    var j, k := |p| - |s|, |q| - |t|;
    assert b[..j] == p[..j] && b[..k] == q[..k];
    VarintDetermined(b, j, k, |s|, |t|);
    assert p == b[..|p|] && q == b[..|q|];
  }

  lemma SomeVarintDetermined(b: ByteString, p: ByteString, q: ByteString)
    requires p <= b && q <= b && IsSomeVarint(p) && IsSomeVarint(q)
    ensures p == q
  {
    assert forall i :: 0 <= i < |p| ==> p[i] == b[i];
    assert forall i :: 0 <= i < |q| ==> q[i] == b[i];
    assert !(|p| < |q|) && !(|q| < |p|);
  }

  lemma PayloadDetermined(b: ByteString, wireType: nat, p: ByteString, q: ByteString)
    requires p <= b && q <= b && IsPayload(wireType, p) && IsPayload(wireType, q)
    ensures p == q
  {
    hide IsSomeVarint, IsDelimited;
    if wireType == 0 {
      SomeVarintDetermined(b, p, q);
    } else if wireType == 2 {
      var s :| IsDelimited(p, s);
      var t :| IsDelimited(q, t);
      DelimitedDetermined(b, p, q, s, t);
    }
  }

  lemma FirstRecord(b: ByteString, rs: seq<Record>) returns (k: nat)
    requires IsWritten(b, rs) && rs != []
    ensures BeginsWith(b, rs[0], k) && k + |rs[0].payload| <= |b| && IsWritten(b[k + |rs[0].payload|..], rs[1..])
  {
    k :| BeginsWith(b, rs[0], k) && IsWritten(b[k + |rs[0].payload|..], rs[1..]);
  }

  lemma RecordInFront(b: ByteString, rs: seq<Record>, k: nat)
    requires rs != [] && BeginsWith(b, rs[0], k) && IsWritten(b[k + |rs[0].payload|..], rs[1..])
    ensures IsWritten(b, rs)
  {
  }

  lemma SameFirst(b: ByteString, r: Record, j: nat, s: Record, k: nat)
    requires BeginsWith(b, r, j) && BeginsWith(b, s, k)
    ensures r == s && j == k
  {
    hide IsVarint, IsPayload;
    PayloadTypes(r);
    PayloadTypes(s);
    VarintDetermined(b, j, k, 8 * r.number + r.wireType, 8 * s.number + s.wireType);
    assert r.payload <= b[j..] && s.payload <= b[j..];
    PayloadDetermined(b[j..], r.wireType, r.payload, s.payload);
  }

  lemma PayloadTypes(r: Record)
    ensures IsPayload(r.wireType, r.payload) ==> r.wireType < 8
  {
  }

  /** Bytes can be read as records in one way only. */
  lemma {:induction false} SplitIsUnique(b: ByteString, rs: seq<Record>, ss: seq<Record>)
    requires IsWritten(b, rs) && IsWritten(b, ss)
    ensures rs == ss
    decreases |rs|
  {
    hide BeginsWith;
    if rs == [] || ss == [] {
      NothingHasNoRecord(b, rs, ss);
    } else {
      var j := FirstRecord(b, rs);
      var k := FirstRecord(b, ss);
      SameFirst(b, rs[0], j, ss[0], k);
      SplitIsUnique(b[j + |rs[0].payload|..], rs[1..], ss[1..]);
      assert rs == [rs[0]] + rs[1..] && ss == [ss[0]] + ss[1..];
    }
  }

  lemma NothingHasNoRecord(b: ByteString, rs: seq<Record>, ss: seq<Record>)
    requires IsWritten(b, rs) && IsWritten(b, ss) && (rs == [] || ss == [])
    ensures rs == ss
  {
  }

  /** A sequence of records is written in one way only. */
  lemma {:induction false} WritingIsUnique(b: ByteString, c: ByteString, rs: seq<Record>)
    requires IsWritten(b, rs) && IsWritten(c, rs)
    ensures b == c
    decreases |rs|
  {
    hide IsVarint, IsPayload;
    if rs != [] {
      var r := rs[0];
      var j := FirstRecord(b, rs);
      var k := FirstRecord(c, rs);
      VarintUnique(b[..j], c[..k], 8 * r.number + r.wireType);
      WritingIsUnique(b[j + |r.payload|..], c[k + |r.payload|..], rs[1..]);
      assert b == b[..j] + r.payload + b[j + |r.payload|..] && c == c[..k] + r.payload + c[k + |r.payload|..];
    }
  }

  lemma MoreBehind(b: ByteString, r: Record, k: nat, c: ByteString)
    requires BeginsWith(b, r, k)
    ensures BeginsWith(b + c, r, k) && k + |r.payload| <= |b|
  {
    hide IsVarint, IsPayload;
    assert (b + c)[..k] == b[..k] && (b + c)[k..k + |r.payload|] == b[k..k + |r.payload|];
  }

  /** Records behind records. */
  lemma {:induction false} WrittenBoth(b: ByteString, rs: seq<Record>, c: ByteString, ss: seq<Record>)
    requires IsWritten(b, rs) && IsWritten(c, ss)
    ensures IsWritten(b + c, rs + ss)
    decreases |rs|
  {
    hide BeginsWith;
    if rs == [] {
      assert b == [] && b + c == c && rs + ss == ss;
    } else {
      var r := rs[0];
      var k := FirstRecord(b, rs);
      var n := k + |r.payload|;
      WrittenBoth(b[n..], rs[1..], c, ss);
      assert (b + c)[n..] == b[n..] + c && (rs + ss)[1..] == rs[1..] + ss && (rs + ss)[0] == r;
      MoreBehind(b, r, k, c);
      RecordInFront(b + c, rs + ss, k);
    }
  }

  lemma WrittenOne(key: ByteString, r: Record)
    requires IsVarint(key, 8 * r.number + r.wireType) && IsPayload(r.wireType, r.payload)
    ensures IsWritten(key + r.payload, [r])
  {
    hide IsVarint, IsPayload;
    var b, k := key + r.payload, |key|;
    assert b[..k] == key && b[k..k + |r.payload|] == r.payload;
    assert BeginsWith(b, r, k) && b[k + |r.payload|..] == [] && [r][1..] == [];
    assert IsWritten([], []);
    RecordInFront(b, [r], k);
  }
}
