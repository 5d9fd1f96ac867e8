/**
 Decoding is local: each decoder looks only at the bytes it reads.  Hence bytes can be
 inserted between fields, and fields the descriptor does not know are invisible.
 */
module FieldBoundaries {
  import opened Wrappers
  import opened ByteStrings
  import opened Varint
  import opened Descriptor
  import opened Encoding
  import opened Decoding

  lemma {:induction false} Varint32LoopPrefix(b: ByteString, y: ByteString, bitpos: nat, result: nat)
    requires bitpos < 256 && result < TWO_32 && Varint32Loop(b, bitpos, result).Some?
    ensures Varint32Loop(b[..Varint32Loop(b, bitpos, result).value.1] + y, bitpos, result) == Varint32Loop(b, bitpos, result)
  {
    hide OrInto;
    if b[0] >= 128 {
      var next := if bitpos >= 32 then result else OrInto(result, b[0], bitpos);
      Varint32LoopPrefix(b[1..], y, (bitpos + 7) % 256, next);
      var n := Varint32Loop(b, bitpos, result).value.1;
      assert (b[..n] + y)[1..] == b[1..][..n - 1] + y;
    }
  }

  lemma Varint32Prefix(b: ByteString, y: ByteString)
    requires DecodeVarint32(b).Some?
    ensures DecodeVarint32(b[..DecodeVarint32(b).value.1] + y) == DecodeVarint32(b)
  {
    if b[0] >= 128 {
      Varint32LoopPrefix(b[1..], y, 7, b[0] % 128);
      var n := DecodeVarint32(b).value.1;
      assert (b[..n] + y)[1..] == b[1..][..n - 1] + y;
    }
  }

  lemma Varint64Prefix(b: ByteString, y: ByteString)
    requires DecodeVarint(b).Some?
    ensures DecodeVarint(b[..DecodeVarint(b).value.1] + y) == DecodeVarint(b)
  {
    VarintPrefix(b, y);
  }

  lemma BlobPrefix(b: ByteString, y: ByteString)
    requires DecodeBlob(b).Some?
    ensures DecodeBlob(b[..DecodeBlob(b).value.1] + y) == DecodeBlob(b)
  {
    var (size, n) := DecodeVarint32(b).value;
    var c := b[..n + size] + y;
    Varint32Prefix(b, b[n..n + size] + y);
    assert c == b[..n] + (b[n..n + size] + y);
    assert c[n..n + size] == b[n..n + size];
  }

  lemma ValuePrefix(f: Field, old_: Value, b: ByteString, y: ByteString)
    requires DecodeValue(f, old_, b).Some?
    ensures DecodeValue(f, old_, b[..DecodeValue(f, old_, b).value.1] + y) == DecodeValue(f, old_, b)
  {
    hide DecodeVarint32, DecodeVarint, DecodeBlob, DecodeMessage, FromFixed, CString;
    var n := DecodeValue(f, old_, b).value.1;
    match f.ltype
    case LBool => Varint32Prefix(b, y);
    case LVarint => Varint64Prefix(b, y);
    case LUVarint => Varint64Prefix(b, y);
    case LSVarint => Varint64Prefix(b, y);
    case LFixed32 => assert (b[..4] + y)[..4] == b[..4];
    case LFixed64 => assert (b[..8] + y)[..8] == b[..8];
    case LBytes => BlobPrefix(b, y);
    case LString => BlobPrefix(b, y);
    case LFixedLengthBytes => BlobPrefix(b, y);
    case LSubmessage(sub) => BlobPrefix(b, y);
  }

  lemma FieldPrefix(f: Field, wireType: nat, s: Slot, b: ByteString, y: ByteString)
    requires DecodeField(f, wireType, s, b).Some?
    ensures DecodeField(f, wireType, s, b[..DecodeField(f, wireType, s, b).value.1] + y) == DecodeField(f, wireType, s, b)
  {
    match f.htype
    case Required => ValuePrefix(f, s.AsValue(), b, y);
    case Optional => ValuePrefix(f, s.AsValue(), b, y);
    case Repeated =>
      if wireType == WT_STRING && f.ltype.Packable() { BlobPrefix(b, y); } else { ValuePrefix(f, Int(0), b, y); }
    case Oneof =>
      ValuePrefix(f, if f.ltype.LSubmessage? && s.AsWhich() != f.tag then Msg(Default(f.ltype.fields)) else s.AsValue(), b, y);
  }

  lemma SkipPrefix(wireType: nat, b: ByteString, y: ByteString)
    requires SkipValue(wireType, b).Some?
    ensures SkipValue(wireType, b[..SkipValue(wireType, b).value] + y) == SkipValue(wireType, b)
  {
    if wireType == WT_VARINT {
      VarintPrefix(b, y);
    } else if wireType == WT_STRING {
      BlobPrefix(b, y);
    }
  }

  /** One field: the tag, then the value; a zero tag is not a field. */
  function DecodeOne(fields: Fields, st: DecodeState, b: ByteString): (r: Option<(DecodeState, nat)>)
    ensures r.Some? ==> 0 < r.value.1 <= |b|
  {
    match DecodeVarint32(b)
    case None => None
    case Some((key, n)) =>
      if key == 0 then None
      else match DecodeRecord(fields, st, key / 8, key % 8, b[n..])
        case None => None
        case Some((st', m)) => Some((st', n + m))
  }

  lemma RecordPrefix(fields: Fields, st: DecodeState, tag: nat, wireType: nat, b: ByteString, y: ByteString)
    requires DecodeRecord(fields, st, tag, wireType, b).Some?
    ensures DecodeRecord(fields, st, tag, wireType, b[..DecodeRecord(fields, st, tag, wireType, b).value.1] + y)
            == DecodeRecord(fields, st, tag, wireType, b)
  {
    match FindField(fields, tag)
    case None =>
      if fields == [] && tag == 0 { Varint32Prefix(b, y); } else { SkipPrefix(wireType, b, y); }
    case Some(i) =>
      var st1 := EnterField(fields, st, i).value;
      FieldPrefix(fields[i], wireType, SlotAt(st1.slots, fields[i]), b, y);
  }

  /** A field decodes the same whatever comes after it. */
  lemma DecodeOnePrefix(fields: Fields, st: DecodeState, b: ByteString, y: ByteString)
    requires DecodeOne(fields, st, b).Some?
    ensures DecodeOne(fields, st, b[..DecodeOne(fields, st, b).value.1] + y) == DecodeOne(fields, st, b)
  {
    hide DecodeRecord, DecodeVarint32;
    var (key, n) := DecodeVarint32(b).value;
    var m := DecodeRecord(fields, st, key / 8, key % 8, b[n..]).value.1;
    var rest := b[n..][..m] + y;
    Varint32Prefix(b, rest);
    assert b[..n + m] + y == b[..n] + rest;
    assert (b[..n] + rest)[n..] == rest;
    RecordPrefix(fields, st, key / 8, key % 8, b[n..], y);
  }

  /** The outcome of the loop when n more bytes come first. */
  function Shift(r: Option<(DecodeState, nat)>, n: nat): Option<(DecodeState, nat)> {
    match r case None => None case Some((st, m)) => Some((st, n + m))
  }

  /** Decoding p takes the loop from st to st', whatever follows p. */
  ghost predicate Consumes(fields: Fields, st: DecodeState, p: ByteString, st': DecodeState) {
    forall y :: DecodeLoop(fields, st, p + y) == Shift(DecodeLoop(fields, st', y), |p|)
  }

  lemma ConsumesNothing(fields: Fields, st: DecodeState)
    ensures Consumes(fields, st, [], st)
  {
    hide DecodeLoop;
    forall y ensures DecodeLoop(fields, st, [] + y) == Shift(DecodeLoop(fields, st, y), 0) {
      assert [] + y == y;
    }
  }

  lemma ConsumesBoth(fields: Fields, st: DecodeState, p: ByteString, mid: DecodeState, q: ByteString, last: DecodeState)
    requires Consumes(fields, st, p, mid) && Consumes(fields, mid, q, last)
    ensures Consumes(fields, st, p + q, last)
  {
    hide DecodeLoop;
    forall y ensures DecodeLoop(fields, st, p + q + y) == Shift(DecodeLoop(fields, last, y), |p + q|) {
      assert p + q + y == p + (q + y);
      assert DecodeLoop(fields, st, p + (q + y)) == Shift(DecodeLoop(fields, mid, q + y), |p|);
    }
  }

  lemma ConsumesOne(fields: Fields, st: DecodeState, p: ByteString)
    requires DecodeOne(fields, st, p).Some? && DecodeOne(fields, st, p).value.1 == |p|
    ensures Consumes(fields, st, p, DecodeOne(fields, st, p).value.0)
  {
    hide DecodeRecord, DecodeVarint32;
    var st' := DecodeOne(fields, st, p).value.0;
    forall y ensures DecodeLoop(fields, st, p + y) == Shift(DecodeLoop(fields, st', y), |p|) {
      DecodeOnePrefix(fields, st, p, y);
      assert p[..|p|] == p;
      var (key, n) := DecodeVarint32(p + y).value;
      var m := DecodeRecord(fields, st, key / 8, key % 8, (p + y)[n..]).value.1;
      assert n + m == |p| && (p + y)[n + m..] == y;
    }
  }

  /** k is a position in b at which a field begins or the stream ends, reached from st. */
  predicate Boundary(fields: Fields, st: DecodeState, b: ByteString, k: nat)
    decreases k
  {
    || k == 0
    || (match DecodeOne(fields, st, b)
        case None => false
        case Some((st', n)) => n <= k && Boundary(fields, st', b[n..], k - n))
  }

  lemma {:induction false} BoundaryConsumes(fields: Fields, st: DecodeState, b: ByteString, k: nat) returns (st': DecodeState)
    requires Boundary(fields, st, b, k)
    ensures k <= |b| && Consumes(fields, st, b[..k], st')
    decreases k
  {
    hide DecodeLoop, DecodeOne, Consumes;
    if k == 0 {
      st' := st;
      ConsumesNothing(fields, st);
    } else {
      var (mid, n) := DecodeOne(fields, st, b).value;
      st' := BoundaryConsumes(fields, mid, b[n..], k - n);
      DecodeOnePrefix(fields, st, b, []);
      assert b[..n] + [] == b[..n];
      ConsumesOne(fields, st, b[..n]);
      ConsumesBoth(fields, st, b[..n], mid, b[n..][..k - n], st');
      assert b[..k] == b[..n] + b[n..][..k - n];
    }
  }

  /** A well-formed field whose number the descriptor does not contain. */
  predicate UnknownField(fields: Fields, u: ByteString) {
    match DecodeVarint32(u)
    case None => false
    case Some((key, n)) =>
      && key != 0
      && FindField(fields, key / 8).None?
      && SkipValue(key % 8, u[n..]) == Some(|u| - n)
  }

  /** The field number of u is zero and the message type is empty: the terminator of the descriptor matches. */
  predicate MeetsTerminator(fields: Fields, u: ByteString) {
    fields == [] && DecodeVarint32(u).Some? && DecodeVarint32(u).value.0 / 8 == 0
  }

  /**
   Read by an empty message type, the bytes of u end where a field ends.  Only a field that
   meets the terminator can fail this.
   */
  predicate ReadsWhole(fields: Fields, u: ByteString) {
    MeetsTerminator(fields, u) ==> Boundary([], DecodeState([], None, {}), u, |u|)
  }

  /** An empty message type stores nothing, so its state never matters. */
  lemma {:induction false} EmptyConsumes(st: DecodeState, other: DecodeState, u: ByteString)
    requires Boundary([], other, u, |u|)
    ensures Consumes([], st, u, st)
    decreases |u|
  {
    hide DecodeLoop, Consumes;
    if u == [] {
      ConsumesNothing([], st);
    } else {
      var (mid, n) := DecodeOne([], other, u).value;
      EmptyOne(st, other, u);
      EmptyConsumes(st, mid, u[n..]);
      DecodeOnePrefix([], st, u, []);
      assert u[..n] + [] == u[..n];
      ConsumesOne([], st, u[..n]);
      ConsumesBoth([], st, u[..n], st, u[n..], st);
      assert u == u[..n] + u[n..];
    }
  }

  lemma EmptyOne(st: DecodeState, other: DecodeState, u: ByteString)
    requires DecodeOne([], other, u).Some?
    ensures DecodeOne([], st, u) == Some((st, DecodeOne([], other, u).value.1))
  {
    hide DecodeVarint32, SkipValue;
  }

  lemma UnknownConsumes(fields: Fields, st: DecodeState, u: ByteString)
    requires UnknownField(fields, u) && ReadsWhole(fields, u)
    ensures Consumes(fields, st, u, st)
  {
    if MeetsTerminator(fields, u) {
      EmptyConsumes(st, DecodeState([], None, {}), u);
    } else {
      ConsumesOne(fields, st, u);
    }
  }

  /** Two beginnings that lead to the same state lead to the same message. */
  lemma SameOutcome(fields: Fields, start: seq<Slot>, st: DecodeState, p: ByteString, q: ByteString, rest: ByteString)
    requires Consumes(fields, DecodeState(start, None, {}), p, st) && Consumes(fields, DecodeState(start, None, {}), q, st)
    ensures DecodeMessage(fields, start, p + rest) == DecodeMessage(fields, start, q + rest)
  {
    hide DecodeLoop, Finished;
    assert DecodeLoop(fields, DecodeState(start, None, {}), p + rest) == Shift(DecodeLoop(fields, st, rest), |p|);
    assert DecodeLoop(fields, DecodeState(start, None, {}), q + rest) == Shift(DecodeLoop(fields, st, rest), |q|);
  }

  /**
   Unknown fields are invisible: inserting one at any field boundary of any input, valid or
   not, changes neither success nor the decoded message.
   */
  lemma UnknownFieldsInvisible(fields: Fields, start: seq<Slot>, b: ByteString, k: nat, u: ByteString)
    requires Boundary(fields, DecodeState(start, None, {}), b, k) && UnknownField(fields, u) && ReadsWhole(fields, u)
    ensures k <= |b|
    ensures DecodeMessage(fields, start, b[..k] + u + b[k..]) == DecodeMessage(fields, start, b)
  {
    hide DecodeLoop, DecodeOne, Boundary, UnknownField, ReadsWhole, Consumes, DecodeMessage, Concat;
    var st0 := DecodeState(start, None, {});
    var st := BoundaryConsumes(fields, st0, b, k);
    UnknownConsumes(fields, st, u);
    ConsumesBoth(fields, st0, b[..k], st, u, st);
    SameOutcome(fields, start, st, b[..k], b[..k] + u, b[k..]);
    assert b == b[..k] + b[k..];
  }

  /** The same for any number of unknown fields inserted at one boundary. */
  lemma {:induction false} ManyUnknownFieldsInvisible(fields: Fields, start: seq<Slot>, b: ByteString, k: nat, us: seq<ByteString>)
    requires Boundary(fields, DecodeState(start, None, {}), b, k)
    requires forall i :: 0 <= i < |us| ==> UnknownField(fields, us[i]) && ReadsWhole(fields, us[i])
    ensures k <= |b|
    ensures DecodeMessage(fields, start, b[..k] + Concat(us) + b[k..]) == DecodeMessage(fields, start, b)
  {
    hide DecodeLoop, DecodeOne, Boundary, UnknownField, ReadsWhole, Consumes, DecodeMessage, Concat;
    var st0 := DecodeState(start, None, {});
    var st := BoundaryConsumes(fields, st0, b, k);
    UnknownsConsume(fields, st, us);
    ConsumesBoth(fields, st0, b[..k], st, Concat(us), st);
    SameOutcome(fields, start, st, b[..k], b[..k] + Concat(us), b[k..]);
    assert b == b[..k] + b[k..];
  }

  function Concat(us: seq<ByteString>): ByteString {
    if us == [] then [] else us[0] + Concat(us[1..])
  }

  lemma {:induction false} UnknownsConsume(fields: Fields, st: DecodeState, us: seq<ByteString>)
    requires forall i :: 0 <= i < |us| ==> UnknownField(fields, us[i]) && ReadsWhole(fields, us[i])
    ensures Consumes(fields, st, Concat(us), st)
  {
    if us == [] {
      ConsumesNothing(fields, st);
    } else {
      UnknownConsumes(fields, st, us[0]);
      UnknownsConsume(fields, st, us[1..]);
      ConsumesBoth(fields, st, us[0], st, Concat(us[1..]), st);
    }
  }

  // ----- field number zero in an empty message type --------------------------------------------------

  /** Inserting u at any field boundary of any input changes nothing. */
  ghost predicate Invisible(fields: Fields, u: ByteString) {
    forall start, b, k: nat | Boundary(fields, DecodeState(start, None, {}), b, k) && k <= |b| ::
      DecodeMessage(fields, start, b[..k] + u + b[k..]) == DecodeMessage(fields, start, b)
  }

  /** An unknown field is invisible if and only if it reads whole. */
  lemma InvisibleIffReadsWhole(fields: Fields, u: ByteString)
    requires UnknownField(fields, u)
    ensures Invisible(fields, u) <==> ReadsWhole(fields, u)
  {
    hide UnknownField, Boundary, DecodeMessage;
    if ReadsWhole(fields, u) {
      forall start, b, k: nat | Boundary(fields, DecodeState(start, None, {}), b, k) && k <= |b|
        ensures DecodeMessage(fields, start, b[..k] + u + b[k..]) == DecodeMessage(fields, start, b)
      {
        UnknownFieldsInvisible(fields, start, b, k, u);
      }
    } else {
      SeenSomewhere(u);
      assert !Invisible([], u);
    }
  }

  /** Bytes that an empty message type does not read whole change what follows or precedes them. */
  lemma SeenSomewhere(u: ByteString)
    requires !Boundary([], DecodeState([], None, {}), u, |u|)
    ensures !Invisible([], u)
  {
    hide DecodeLoop, DecodeVarint32, Boundary;
    var st := DecodeState([], None, {});
    var b: ByteString := if DecodeLoop([], st, u).None? then [] else [0xFF];
    if DecodeLoop([], st, u).None? {
      assert u + b == u;
    } else {
      EndsEarly(st, u, b);
    }
    EmptyOutcome(u + b);
    EmptyOutcome(b);
    LoneContinuation();
    InsertedInFront(u, b);
  }

  lemma InsertedInFront(u: ByteString, b: ByteString)
    requires DecodeMessage([], [], u + b) != DecodeMessage([], [], b)
    ensures !Invisible([], u)
  {
    hide DecodeMessage, Boundary;
    StartIsBoundary([], DecodeState([], None, {}), b);
    assert b[..0] + u + b[0..] == u + b;
  }

  lemma StartIsBoundary(fields: Fields, st: DecodeState, b: ByteString)
    ensures Boundary(fields, st, b, 0)
  {
    hide DecodeOne;
  }

  /** An empty message type is decoded exactly when the loop succeeds. */
  lemma EmptyOutcome(b: ByteString)
    ensures DecodeMessage([], [], b).Some? <==> DecodeLoop([], DecodeState([], None, {}), b).Some?
  {
    hide DecodeLoop;
  }

  lemma LoneContinuation()
    ensures DecodeLoop([], DecodeState([], None, {}), []).Some?
    ensures DecodeLoop([], DecodeState([], None, {}), [0xFF]).None?
  {
    assert DecodeVarint32([0xFF]).None? by { assert [0xFF][1..] == []; }
  }

  /** Decoding that succeeds without reading its bytes as whole fields met an end mark, and ignores what follows. */
  lemma {:induction false} EndsEarly(st: DecodeState, u: ByteString, y: ByteString)
    requires !Boundary([], st, u, |u|) && DecodeLoop([], st, u).Some?
    ensures DecodeLoop([], st, u + y).Some?
    decreases |u|
  {
    hide DecodeVarint32, DecodeRecord;
    var (key, n) := DecodeVarint32(u).value;
    if key == 0 {
      Varint32Prefix(u, u[n..] + y);
      assert u[..n] + (u[n..] + y) == u + y;
    } else {
      var (next, m) := DecodeOne([], st, u).value;
      DecodeOnePrefix([], st, u, u[m..] + y);
      assert u[..m] + (u[m..] + y) == u + y;
      assert u[n..][m - n..] == u[m..];
      EndsEarly(next, u[m..], y);
      assert (u + y)[m..] == u[m..] + y;
      LoopAfterOne(st, u + y);
    }
  }

  lemma LoopAfterOne(st: DecodeState, b: ByteString)
    requires DecodeOne([], st, b).Some?
    ensures var (next, m) := DecodeOne([], st, b).value;
            DecodeLoop([], st, b) == Shift(DecodeLoop([], next, b[m..]), m)
  {
    hide DecodeVarint32, DecodeRecord;
    var (key, n) := DecodeVarint32(b).value;
    var (next, m) := DecodeOne([], st, b).value;
    assert b[n..][m - n..] == b[m..];
  }

  /** A field that meets the terminator reads whole when its value is one varint of its own length. */
  lemma VarintReadsWhole(u: ByteString)
    requires UnknownField([], u) && MeetsTerminator([], u)
    requires var n := DecodeVarint32(u).value.1;
             DecodeVarint32(u[n..]).Some? && DecodeVarint32(u[n..]).value.1 == |u| - n
    ensures ReadsWhole([], u)
  {
    hide DecodeVarint32, SkipValue;
    var st := DecodeState([], None, {});
    assert DecodeOne([], st, u) == Some((st, |u|));
    assert Boundary([], st, u[|u|..], 0);
  }

  /** Not every field does: here a length-delimited value of one byte, 0x80, is taken for the rest of a varint. */
  lemma FieldZeroCanBeSeen()
    ensures var u: ByteString := [0x02, 0x01, 0x80];
            && UnknownField([], u) && !ReadsWhole([], u)
            && DecodeMessage([], [], u) == None && DecodeMessage([], [], []) == Some([])
  {
    var u: ByteString := [0x02, 0x01, 0x80];
    var st := DecodeState([], None, {});
    assert u[1..] == [0x01, 0x80] && u[1..][1..] == [0x80] && u[2..] == [0x80];
    assert u[1..][1..1 + 1] == [0x80];
    assert DecodeVarint32(u[1..]) == Some((1, 1));
    assert DecodeBlob(u[1..]) == Some(([0x80], 2));
    assert DecodeOne([], st, u) == Some((st, 2));
    assert DecodeVarint32([0x80]).None? by { assert [0x80][1..] == []; }
    assert DecodeOne([], st, u[2..]).None?;
    assert !Boundary([], st, u[2..], 1);
    LoopAfterOne(st, u);
  }
}
