/**
 Which bytes are fields that the decoder skips, said in terms of the wire format: every record
 of the format whose number the descriptor does not contain, of whatever wire type.
 */
module UnknownRecords {
  import opened Wrappers
  import opened ByteStrings
  import opened Varint
  import opened Descriptor
  import opened Decoding
  import opened FieldBoundaries
  import opened WireFormat
  import opened EncodedRecords

  lemma {:induction false} WholeVarintIff(b: ByteString)
    ensures VarintLength(b) == Some(|b|) <==> IsSomeVarint(b)
    ensures VarintLength(b).Some? ==> VarintLength(b).value <= |b|
  {
    if b != [] && b[0] >= 128 {
      var c := b[1..];
      WholeVarintIff(c);
      if IsSomeVarint(b) {
        assert forall i :: 0 <= i < |c| - 1 ==> c[i] == b[i + 1];
      }
      if IsSomeVarint(c) {
        assert forall i :: 0 < i < |b| - 1 ==> b[i] == c[i - 1];
      }
    }
  }

  /** rest is one value of the given wire type: a varint, eight bytes, a length and that many bytes, or four bytes. */
  predicate IsWholeValue(wireType: nat, rest: ByteString) {
    match wireType
    case 0 => IsSomeVarint(rest)
    case 1 => |rest| == 8
    case 2 => DecodeVarint32(rest).Some? && DecodeVarint32(rest).value.0 + DecodeVarint32(rest).value.1 == |rest|
    case 5 => |rest| == 4
    case _ => false
  }

  /** The fields that are skipped are the keys with an unknown number and one whole value of their wire type. */
  lemma UnknownFieldIff(fields: Fields, u: ByteString)
    ensures UnknownField(fields, u) <==>
            && DecodeVarint32(u).Some?
            && var (key, n) := DecodeVarint32(u).value;
               && key != 0 && (forall i :: 0 <= i < |fields| ==> fields[i].tag != key / 8)
               && IsWholeValue(key % 8, u[n..])
  {
    hide DecodeVarint32, IsSomeVarint;
    if DecodeVarint32(u).Some? {
      var rest := u[DecodeVarint32(u).value.1..];
      WholeVarintIff(rest);
    }
  }

  /** Every record of the wire format with an unknown number is such a field. */
  lemma UnknownRecord(fields: Fields, r: Record, u: ByteString)
    requires IsWritten(u, [r]) && 8 * r.number + r.wireType < 0x1_0000_0000 && (r.number != 0 || r.wireType != 0)
    requires forall i :: 0 <= i < |fields| ==> fields[i].tag != r.number
    requires r.wireType == 2 ==> |r.payload| < 0x1_0000_0000
    ensures UnknownField(fields, u)
  {
    hide IsVarint, IsPayload, IsSomeVarint, IsWholeValue, DecodeVarint32, UnknownField;
    var k := FirstRecord(u, [r]);
    OnlyRecord(u, r, k);
    PayloadTypes(r);
    VarintIff(u[..k], 8 * r.number + r.wireType);
    assert u == u[..k] + u[k..];
    Varint32RoundTrip(8 * r.number + r.wireType, u[k..]);
    PayloadIsWhole(r);
    UnknownFieldIff(fields, u);
  }

  lemma OnlyRecord(u: ByteString, r: Record, k: nat)
    requires BeginsWith(u, r, k) && k + |r.payload| <= |u| && IsWritten(u[k + |r.payload|..], [r][1..])
    ensures u[k..] == r.payload
  {
    hide IsVarint, IsPayload;
    assert [r][1..] == [];
  }

  lemma PayloadIsWhole(r: Record)
    requires IsPayload(r.wireType, r.payload) && (r.wireType == 2 ==> |r.payload| < 0x1_0000_0000)
    ensures IsWholeValue(r.wireType, r.payload)
  {
    hide IsSomeVarint, DecodeVarint32, IsVarint;
    if r.wireType == 2 {
      var p := r.payload;
      var body :| IsDelimited(p, body);
      var k := |p| - |body|;
      VarintIff(p[..k], |body|);
      assert p == p[..k] + p[k..];
      Varint32RoundTrip(|body|, p[k..]);
    }
  }

  /**
   Forward compatibility: a record that a newer version of a message type added, whatever its
   wire type, changes neither success nor the decoded message.
   */
  lemma {:induction false} UnknownRecordIsInvisible(fields: Fields, start: seq<Slot>, b: ByteString, k: nat, r: Record, u: ByteString)
    requires IsWritten(u, [r]) && 0 < r.number <= 0x1FFF_FFFF
    requires forall i :: 0 <= i < |fields| ==> fields[i].tag != r.number
    requires r.wireType == 2 ==> |r.payload| < 0x1_0000_0000
    requires Boundary(fields, DecodeState(start, None, {}), b, k)
    ensures k <= |b| && DecodeMessage(fields, start, b[..k] + u + b[k..]) == DecodeMessage(fields, start, b)
  {
    hide IsVarint, IsPayload, DecodeVarint32, UnknownField, Boundary, DecodeMessage, BeginsWith;
    var j := FirstRecord(u, [r]);
    KeyNumber(u, r, j);
    UnknownRecord(fields, r, u);
    UnknownFieldsInvisible(fields, start, b, k, u);
  }

  lemma KeyNumber(u: ByteString, r: Record, k: nat)
    requires BeginsWith(u, r, k) && k + |r.payload| <= |u| && r.number <= 0x1FFF_FFFF
    ensures 8 * r.number + r.wireType < 0x1_0000_0000
    ensures DecodeVarint32(u).Some? && DecodeVarint32(u).value.0 == 8 * r.number + r.wireType
  {
    hide IsVarint, IsPayload, DecodeVarint32;
    PayloadTypes(r);
    VarintIff(u[..k], 8 * r.number + r.wireType);
    assert u == u[..k] + u[k..];
    Varint32RoundTrip(8 * r.number + r.wireType, u[k..]);
  }
}
