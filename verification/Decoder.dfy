/**
 The decoder as it runs (pb_decode.c): it consumes an input stream byte by byte.  Every
 method is proved against the functions of module Decoding: it fails exactly when the
 function does, returns the same value, and advances the stream by exactly the bytes the
 function says, so position and remaining count always add up to the same place.
 */
module Decoder {
  import opened Wrappers
  import opened ByteStrings
  import opened Varint
  import opened Descriptor
  import opened Encoding
  import opened Decoding
  import opened FieldIterator
  import opened RequiredFields

  /** pb_istream_t over a memory buffer; state is the read position. */
  class IStream {
    const buf: ByteString
    var state: nat
    var bytesLeft: nat

    constructor (buf: ByteString, state: nat, bytesLeft: nat)
      ensures this.buf == buf && this.state == state && this.bytesLeft == bytesLeft
    {
      this.buf := buf;
      this.state := state;
      this.bytesLeft := bytesLeft;
    }

    ghost predicate Valid()
      reads this
    {
      state + bytesLeft <= |buf|
    }

    /** The bytes the stream will still deliver. */
    ghost function Remaining(): (b: ByteString)
      requires Valid()
      reads this
      ensures |b| == bytesLeft
    {
      buf[state..state + bytesLeft]
    }

    /** pb_read. */
    method Read(count: nat) returns (r: Option<ByteString>)
      requires Valid()
      modifies this
      ensures Advanced(this, if count <= old(bytesLeft) then Some(count) else None)
      ensures r == if count <= old(bytesLeft) then Some(old(Remaining())[..count]) else None
      ensures r.Some? ==> Remaining() == old(Remaining())[count..]
    {
      if count == 0 {
        return Some([]);
      }
      if bytesLeft < count {
        return None;   // "end-of-stream"
      }
      r := Some(buf[state..state + count]);
      assert r.value == Remaining()[..count];
      state := state + count;
      bytesLeft := bytesLeft - count;
    }
  }

  /**
   The stream has delivered exactly n bytes; after an error it is somewhere inside the part
   it was given, with no more left than that part still holds.
   */
  twostate predicate Advanced(stream: IStream, n: Option<nat>)
    reads stream
  {
    && stream.Valid()
    && match n
       case Some(n) => stream.state == old(stream.state) + n && stream.bytesLeft == old(stream.bytesLeft) - n
       case None => stream.state >= old(stream.state)
                    && stream.state + stream.bytesLeft <= old(stream.state) + old(stream.bytesLeft)
  }

  function Count<T>(r: Option<(T, nat)>): Option<nat> {
    match r case None => None case Some((_, n)) => Some(n)
  }

  function Result<T>(r: Option<(T, nat)>): Option<T> {
    match r case None => None case Some((v, _)) => Some(v)
  }

  /** The outcome r after n more bytes have been read in front. */
  function After<T>(n: nat, r: Option<(T, nat)>): Option<(T, nat)> {
    match r case None => None case Some((v, m)) => Some((v, n + m))
  }

  lemma SubSlice(b: ByteString, start: nat, len: nat, n: nat, k: nat)
    requires start + len <= |b| && n + k <= len
    ensures b[start..start + len][n..n + k] == b[start + n..start + n + k]
  {
    var inner, outer := b[start..start + len][n..n + k], b[start + n..start + n + k];
    forall i | 0 <= i < k ensures inner[i] == outer[i] {
    }
  }

  /** The first k bytes of what is left after n bytes. */
  lemma Following(stream: IStream, all: ByteString, n: nat, k: nat)
    requires stream.Valid() && n <= |all| && stream.Remaining() == all[n..] && k <= stream.bytesLeft
    ensures n + k <= |all| && stream.Remaining()[..k] == all[n..n + k]
  {
  }

  // ----- varints --------------------------------------------------------------------------------

  lemma Varint32Start(all: ByteString)
    ensures all == [] ==> DecodeVarint32(all).None?
    ensures all != [] && all[0] < 128 ==> DecodeVarint32(all) == Some((all[0], 1))
    ensures all != [] && all[0] >= 128 ==> DecodeVarint32(all) == After(1, Varint32Loop(all[1..], 7, all[0] % 128))
  {
    hide Varint32Loop;
  }

  /** One turn of the multi-byte loop, with n bytes read so far. */
  lemma Varint32Turn(all: ByteString, n: nat, bitpos: nat, result: nat)
    requires n <= |all| && bitpos < 256 && result < TWO_32
    ensures var r := After(n, Varint32Loop(all[n..], bitpos, result));
            if n == |all| then r.None?
            else if bitpos >= 32 && !ExtensionByteOk(all[n], bitpos, result) then r.None?
            else
              var next := if bitpos >= 32 then result else OrInto(result, all[n], bitpos);
              var bitpos' := (bitpos + 7) % 256;
              if all[n] >= 128 then r == After(n + 1, Varint32Loop(all[n + 1..], bitpos', next))
              else if bitpos' == 35 && all[n] / 16 % 8 != 0 then r.None?
              else r == Some((next, n + 1))
  {
    hide OrInto, ExtensionByteOk;
    if n < |all| {
      assert all[n..][0] == all[n] && all[n..][1..] == all[n + 1..];
    }
  }

  /** pb_decode_varint32. */
  method PbDecodeVarint32(stream: IStream) returns (r: Option<nat>)
    requires stream.Valid()
    modifies stream
    ensures r == Result(DecodeVarint32(old(stream.Remaining())))
    ensures Advanced(stream, Count(DecodeVarint32(old(stream.Remaining()))))
  {
    hide OrInto, Varint32Loop, DecodeVarint32;
    ghost var all := stream.Remaining();
    Varint32Start(all);
    var first := stream.Read(1);
    if first.None? { return None; }
    var byte := first.value[0];
    if byte < 128 {
      return Some(byte);
    }
    var bitpos: nat := 7;
    var result: nat := byte % 128;
    ghost var n := 1;
    while true
      invariant stream.Valid() && n <= |all| && Advanced(stream, Some(n)) && stream.Remaining() == all[n..]
      invariant bitpos < 256 && result < TWO_32
      invariant DecodeVarint32(all) == After(n, Varint32Loop(all[n..], bitpos, result))
      decreases stream.bytesLeft
    {
      Varint32Turn(all, n, bitpos, result);
      var next := stream.Read(1);
      if next.None? { return None; }
      byte := next.value[0];
      if bitpos >= 32 {
        var signExtension := if bitpos < 63 then 0xFF else 0x01;
        if byte % 128 != 0 && (result / 0x8000_0000 == 0 || byte != signExtension) {
          return None;   // "varint overflow"
        }
      } else {
        result := OrInto(result, byte, bitpos);
      }
      bitpos := (bitpos + 7) % 256;
      n := n + 1;
      if byte < 128 {
        break;
      }
    }
    if bitpos == 35 && byte / 16 % 8 != 0 {
      return None;   // only the bottom four bits of the fifth group fit
    }
    return Some(result);
  }

  /** result |= (uint64_t)(byte & 0x7F) << bitpos. */
  function OrInto64(result: nat, byte: Byte, bitpos: nat): nat {
    BitOr(result, byte % 128 * Pow2(bitpos) % TWO_64)
  }

  /** Or-ing the next group in adds it at its place; of the tenth group one bit is left. */
  lemma OrInto64Adds(result: nat, byte: Byte, n: nat)
    requires n < 10 && result < Pow2(7 * n)
    ensures n < 9 ==> OrInto64(result, byte, 7 * n) == result + byte % 128 * Pow2(7 * n) < Pow2(7 * n + 7)
    ensures n == 9 ==> OrInto64(result, byte, 63) == (result + byte % 128 * Pow2(63)) % TWO_64
    ensures OrInto64(result, byte, 7 * n) < TWO_64
  {
    hide Pow2, BitOr;
    var p, g := Pow2(7 * n), byte % 128;
    if n < 9 {
      Pow2Step(7 * n);
      PowAtMost63(n);
      ScaleBound(g, 127, p);
      assert g * p % TWO_64 == g * p;
      BitOrAbove(result, g, 7 * n);
    } else {
      TenthGroup(result, byte);
    }
  }

  lemma TenthGroup(result: nat, byte: Byte)
    requires result < Pow2(63)
    ensures OrInto64(result, byte, 63) == (result + byte % 128 * Pow2(63)) % TWO_64
  {
    hide Pow2, BitOr;
    var g := byte % 128;
    assert Pow2(63) == TWO_63 by { PowersOf2(); }
    TopBit64(g);
    BitOrAbove(result, g % 2, 63);
    TopGroup64(result, g);
  }

  lemma {:induction false} PowAtMost63(n: nat)
    requires n < 9
    ensures Pow2(7 * n) <= 0x100_0000_0000_0000
  {
    hide Pow2;
    PowersOf2();
    Pow2Step(35); Pow2Step(42); Pow2Step(49); Pow2Step(56);
    assert Pow2(0) == 1 by { Pow2Zero(); }
    assert n in {0, 1, 2, 3, 4, 5, 6, 7, 8};
  }

  lemma TopBit64(g: nat)
    ensures g * TWO_63 % TWO_64 == g % 2 * TWO_63
  {
    assert g * TWO_63 == g % 2 * TWO_63 + TWO_64 * (g / 2);
  }

  lemma TopGroup64(result: nat, g: nat)
    requires result < TWO_63
    ensures (result + g * TWO_63) % TWO_64 == result + g % 2 * TWO_63
  {
    assert result + g * TWO_63 == result + g % 2 * TWO_63 + TWO_64 * (g / 2);
  }

  /** The value the bytes from n on contribute, once n groups are in the accumulator. */
  ghost predicate Accumulated(all: ByteString, n: nat, result: nat)
    requires n <= |all|
  {
    && Payload(all) == result + Payload(all[n..]) * Pow2(7 * n)
    && VarintLength(all) == (match VarintLength(all[n..]) case None => None case Some(m) => Some(n + m))
  }

  lemma AccumulatedStart(all: ByteString)
    ensures Accumulated(all, 0, 0)
  {
    assert all[0..] == all && Pow2(0) == 1;
  }

  /** One more group with its continuation bit set. */
  lemma AccumulatedStep(all: ByteString, n: nat, result: nat)
    requires n < |all| && n < 10 && result < Pow2(7 * n) && Accumulated(all, n, result)
    requires all[n] >= 128
    ensures n < 9 ==> OrInto64(result, all[n], 7 * n) < Pow2(7 * (n + 1)) && Accumulated(all, n + 1, OrInto64(result, all[n], 7 * n))
    ensures n == 9 ==> VarintLength(all).None? || VarintLength(all).value > 10
  {
    hide Pow2, OrInto64, Payload, VarintLength;
    GroupStep(all, n);
    if n < 9 {
      var next := OrInto64(result, all[n], 7 * n);
      assert 7 * (n + 1) == 7 * n + 7;
      assert next == result + (all[n] - 128) * Pow2(7 * n) && next < Pow2(7 * n + 7) by { OrInto64Adds(result, all[n], n); }
      CarryGroup(result, all[n] - 128, Payload(all[n + 1..]), Pow2(7 * n));
      assert Pow2(7 * n + 7) == 128 * Pow2(7 * n) by { Pow2Step(7 * n); }
    }
  }

  lemma CarryGroup(result: nat, g: nat, q: nat, p: nat)
    ensures result + (g + 128 * q) * p == (result + g * p) + q * (128 * p)
  {
  }

  lemma GroupStep(all: ByteString, n: nat)
    requires n < |all| && all[n] >= 128
    ensures Payload(all[n..]) == all[n] - 128 + 128 * Payload(all[n + 1..])
    ensures VarintLength(all[n..]) == (match VarintLength(all[n + 1..]) case None => None case Some(m) => Some(m + 1))
  {
    assert all[n..][0] == all[n] && all[n..][1..] == all[n + 1..];
  }

  /** The last group. */
  lemma AccumulatedEnd(all: ByteString, n: nat, result: nat)
    requires n < |all| && n < 10 && result < Pow2(7 * n) && Accumulated(all, n, result)
    requires all[n] < 128
    ensures DecodeVarint(all) == Some((OrInto64(result, all[n], 7 * n), n + 1))
  {
    hide Pow2, OrInto64, Payload, VarintLength;
    LastGroup(all, n);
    assert Payload(all) == result + all[n] * Pow2(7 * n);
    var last := OrInto64(result, all[n], 7 * n);
    OrInto64Adds(result, all[n], n);
    if n < 9 {
      assert last == Payload(all) < TWO_64;
    }
  }

  lemma LastGroup(all: ByteString, n: nat)
    requires n < |all| && all[n] < 128
    ensures Payload(all[n..]) == all[n] && VarintLength(all[n..]) == Some(1)
  {
    assert all[n..][0] == all[n];
  }

  /** pb_decode_varint. */
  method PbDecodeVarint(stream: IStream) returns (r: Option<nat>)
    requires stream.Valid()
    modifies stream
    ensures r == Result(DecodeVarint(old(stream.Remaining())))
    ensures Advanced(stream, Count(DecodeVarint(old(stream.Remaining()))))
  {
    hide OrInto64, Pow2, Accumulated, Payload;
    ghost var all := stream.Remaining();
    var bitpos: nat := 0;
    var result: nat := 0;
    ghost var n: nat := 0;
    AccumulatedStart(all);
    assert Pow2(0) == 1 by { Pow2Zero(); }
    while true
      invariant stream.Valid() && n <= |all| && n <= 10 && Advanced(stream, Some(n)) && stream.Remaining() == all[n..]
      invariant bitpos == 7 * n
      invariant n < 10 ==> result < Pow2(7 * n) && Accumulated(all, n, result)
      invariant n == 10 ==> VarintLength(all).None? || VarintLength(all).value > 10
      decreases stream.bytesLeft
    {
      if bitpos >= 64 {
        return None;   // "varint overflow"
      }
      var next := stream.Read(1);
      if next.None? {
        assert VarintLength(all).None? by { OutOfBytes(all, n, result); }
        return None;
      }
      var byte := next.value[0];
      assert all[n] == byte;
      if byte < 128 {
        AccumulatedEnd(all, n, result);
        return Some(OrInto64(result, byte, bitpos));
      }
      AccumulatedStep(all, n, result);
      result := OrInto64(result, byte, bitpos);
      bitpos := bitpos + 7;
      n := n + 1;
    }
  }

  lemma OutOfBytes(all: ByteString, n: nat, result: nat)
    requires n == |all| && Accumulated(all, n, result)
    ensures VarintLength(all).None?
  {
  }

  function Later(n: nat, r: Option<nat>): Option<nat> {
    match r case None => None case Some(m) => Some(n + m)
  }

  lemma LengthTurn(all: ByteString, n: nat)
    requires n <= |all|
    ensures var r := Later(n, VarintLength(all[n..]));
            if n == |all| then r.None?
            else if all[n] < 128 then r == Some(n + 1)
            else r == Later(n + 1, VarintLength(all[n + 1..]))
  {
    if n < |all| {
      assert all[n..][0] == all[n] && all[n..][1..] == all[n + 1..];
    }
  }

  // ----- skipping and tags ----------------------------------------------------------------------

  /** pb_skip_varint. */
  method PbSkipVarint(stream: IStream) returns (ok: bool)
    requires stream.Valid()
    modifies stream
    ensures ok == VarintLength(old(stream.Remaining())).Some?
    ensures Advanced(stream, VarintLength(old(stream.Remaining())))
  {
    hide VarintLength, IStream.Remaining;
    ghost var all := stream.Remaining();
    ghost var n: nat := 0;
    ghost var length := VarintLength(all);
    assert all[0..] == all;
    while true
      invariant stream.Valid() && n <= |all| && Advanced(stream, Some(n)) && stream.Remaining() == all[n..]
      invariant length == Later(n, VarintLength(all[n..]))
      decreases stream.bytesLeft
    {
      LengthTurn(all, n);
      var next := stream.Read(1);
      if next.None? {
        return false;
      }
      assert next.value[0] == all[n];
      assert all[n..][1..] == all[n + 1..];
      n := n + 1;
      if next.value[0] < 128 {
        return true;
      }
    }
  }

  /** pb_skip_string. */
  method PbSkipString(stream: IStream) returns (ok: bool)
    requires stream.Valid()
    modifies stream
    ensures ok == DecodeBlob(old(stream.Remaining())).Some?
    ensures Advanced(stream, Count(DecodeBlob(old(stream.Remaining()))))
  {
    hide DecodeVarint32;
    var length := PbDecodeVarint32(stream);
    if length.None? { return false; }
    var skipped := stream.Read(length.value);
    return skipped.Some?;
  }

  /** pb_skip_field: an unknown field gives up exactly its value. */
  method PbSkipField(stream: IStream, wireType: nat) returns (ok: bool)
    requires stream.Valid()
    modifies stream
    ensures ok == SkipValue(wireType, old(stream.Remaining())).Some?
    ensures Advanced(stream, SkipValue(wireType, old(stream.Remaining())))
  {
    hide VarintLength, DecodeBlob;
    if wireType == WT_VARINT {
      ok := PbSkipVarint(stream);
    } else if wireType == WT_64BIT {
      var skipped := stream.Read(8);
      ok := skipped.Some?;
    } else if wireType == WT_STRING {
      ok := PbSkipString(stream);
    } else if wireType == WT_32BIT {
      var skipped := stream.Read(4);
      ok := skipped.Some?;
    } else {
      ok := false;   // "invalid wire_type"
    }
  }

  // ----- substreams -----------------------------------------------------------------------------

  /**
   pb_make_string_substream: the substream holds exactly the declared bytes, and they are
   taken out of what the parent has left.
   */
  method PbMakeStringSubstream(stream: IStream) returns (r: Option<IStream>)
    requires stream.Valid()
    modifies stream
    ensures r.Some? == DecodeBlob(old(stream.Remaining())).Some?
    ensures r.Some? ==>
              var (body, n) := DecodeBlob(old(stream.Remaining())).value;
              var sub := r.value;
              && fresh(sub) && sub.Valid() && sub.buf == stream.buf && sub.Remaining() == body && sub.bytesLeft == |body|
              && sub.state + sub.bytesLeft == old(stream.state) + n
              && stream.bytesLeft == old(stream.bytesLeft) - n && old(stream.state) <= stream.state <= sub.state
    ensures r.None? ==> Advanced(stream, None)
  {
    hide DecodeVarint32;
    ghost var all := stream.Remaining();
    var size := PbDecodeVarint32(stream);
    if size.None? { return None; }
    if stream.bytesLeft < size.value {
      return None;   // "parent stream too short"
    }
    var sub := new IStream(stream.buf, stream.state, size.value);
    stream.bytesLeft := stream.bytesLeft - size.value;
    ghost var n := DecodeVarint32(all).value.1;
    SubSlice(stream.buf, old(stream.state), |all|, n, size.value);
    return Some(sub);
  }

  /** pb_close_string_substream: whatever the substream did not use is skipped. */
  method PbCloseStringSubstream(stream: IStream, sub: IStream) returns (ok: bool)
    requires sub != stream && sub.Valid() && sub.buf == stream.buf
    requires sub.state + sub.bytesLeft + stream.bytesLeft <= |stream.buf|
    modifies stream, sub
    ensures ok && stream.Valid()
    ensures stream.state == old(sub.state) + old(sub.bytesLeft) && stream.bytesLeft == old(stream.bytesLeft)
  {
    if sub.bytesLeft > 0 {
      var rest := sub.Read(sub.bytesLeft);
      if rest.None? { return false; }
    }
    stream.state := sub.state;
    return true;
  }

  // ----- defaults -------------------------------------------------------------------------------

  /** pb_message_set_to_defaults over a struct whose members hold anything. */
  method SetToDefaults(fields: Fields, memory: seq<Slot>) returns (dest: seq<Slot>)
    requires WellFormed(fields) && |memory| == SlotCount(fields)
    ensures dest == Default(fields)
    decreases fields, 2
  {
    hide WellFormed, OffsetsUpTo, DefaultSlot, DefaultUpTo;
    dest := memory;
    DefaultSlots(fields, |fields|);
    DefaultSlots(fields, 0);
    var iter := new FieldIter(fields, 0);
    if iter.Tag() == 0 {
      assert fields == [] by { PositiveTags(fields); }
      return;   // empty message type
    }
    var more := true;
    while more
      invariant iter.fields == fields && iter.Exact() && (more ==> iter.pos < |fields|) && |dest| == |memory|
      invariant DefaultUpTo(fields, if more then iter.pos else |fields|) <= dest
      decreases if more then |fields| - iter.pos else 0
    {
      var i := iter.pos;
      FieldFacts(fields, i);
      var slot := FieldDefault(fields[i]);
      DefaultSlots(fields, i);
      DefaultSlots(fields, i + 1);
      SlotStep(fields, i);
      dest := dest[fields[i].slot := slot];
      DefaultGrows(fields, i);
      more := iter.Next();
    }
  }

  lemma PositiveTags(fields: Fields)
    requires WellFormed(fields)
    ensures forall i :: 0 <= i < |fields| ==> fields[i].tag > 0
  {
    forall i | 0 <= i < |fields| ensures fields[i].tag > 0 { assert FieldOk(fields[i]); }
  }

  lemma FieldFacts(fields: Fields, i: nat)
    requires WellFormed(fields) && i < |fields|
    ensures FieldOk(fields[i]) && fields[i].slot < SlotCount(fields)
  {
    SlotBelowCount(fields, i);
  }

  lemma DefaultGrows(fields: Fields, i: nat)
    requires WellFormed(fields) && i < |fields|
    ensures DefaultUpTo(fields, i + 1)
            == if InUnion(fields, i) then DefaultUpTo(fields, i) else DefaultUpTo(fields, i) + [DefaultSlot(fields[i])]
  {
  }

  /** pb_field_set_to_default. */
  method FieldDefault(f: Field) returns (s: Slot)
    requires FieldOk(f)
    ensures s == DefaultSlot(f)
    decreases f, 1
  {
    hide DefaultUpTo;
    match f.htype {
      case Repeated => return Items([]);
      case Oneof => return Choice(0, Int(0));
      case _ =>
        match f.ltype {
          case LSubmessage(sub) =>
            var dest := SetToDefaults(sub, seq(SlotCount(sub), _ => Items([])));
            return Single(false, Msg(dest));
          case _ =>
            return Single(false, if f.defaultValue.Some? then f.defaultValue.value else ZeroValue(f));
        }
    }
  }

  // ----- values ---------------------------------------------------------------------------------

  /** The decoder of f's type (the table PB_DECODERS). */
  method DecodeByType(stream: IStream, f: Field, old_: Value) returns (r: Option<Value>)
    requires stream.Valid() && FieldOk(f)
    modifies stream
    ensures r == Result(DecodeValue(f, old_, old(stream.Remaining())))
    ensures Advanced(stream, Count(DecodeValue(f, old_, old(stream.Remaining()))))
    decreases f, 0
  {
    hide WellFormed, DecodeVarint32, DecodeVarint, DecodeMessage, FromFixed, Default;
    match f.ltype {
      case LBool =>
        var w := PbDecodeVarint32(stream);
        r := if w.None? then None else Some(Int(if w.value != 0 then 1 else 0));
      case LVarint => r := DecVarint(stream, f, old_);
      case LUVarint => r := DecUVarint(stream, f, old_);
      case LSVarint => r := DecSVarint(stream, f, old_);
      case LFixed32 =>
        var bytes := stream.Read(4);
        r := if bytes.None? then None else Some(Int(FromFixed(bytes.value)));
      case LFixed64 =>
        var bytes := stream.Read(8);
        r := if bytes.None? then None else Some(Int(FromFixed(bytes.value)));
      case LBytes => r := DecBytes(stream, f, old_);
      case LString => r := DecString(stream, f, old_);
      case LFixedLengthBytes => r := DecFixedLengthBytes(stream, f, old_);
      case LSubmessage(sub) => r := DecSubmessage(stream, f, sub, old_);
    }
  }

  /** Casting down and comparing is the range check. */
  lemma ClampedFits(v: int, size: nat)
    requires size in {1, 2, 4, 8} && IsInt64(v)
    ensures LowSigned(v % TWO_64, size) == v <==> SignedFits(v, size)
  {
    WordsNest(v);
    var m: nat := match size case 1 => 0x100 case 2 => 0x1_0000 case 4 => TWO_32 case _ => TWO_64;
    HalfRange(v, m);
  }

  lemma WordsNest(v: int)
    ensures v % TWO_64 % 0x100 == v % 0x100 && v % TWO_64 % 0x1_0000 == v % 0x1_0000 && v % TWO_64 % TWO_32 == v % TWO_32
  {
    var q := v / TWO_64;
    assert v == v % TWO_64 + TWO_32 * (TWO_32 * q);
    assert v == v % TWO_64 + 0x1_0000 * (0x1_0000_0000_0000 * q);
    assert v == v % TWO_64 + 0x100 * (0x100_0000_0000_0000 * q);
  }

  /** Reading v modulo m as a signed number gives v back exactly on the middle range. */
  lemma HalfRange(v: int, m: nat)
    requires m >= 2 && m % 2 == 0
    ensures (if v % m < m / 2 then v % m else v % m - m) == v <==> -(m / 2) <= v < m / 2
  {
    var q := v / m;
    assert v == m * q + v % m;
    if q >= 1 {
      assert m * q >= m;
    } else if q <= -2 {
      assert m * q <= m * -2;
    }
  }

  /** A word cast down to size bytes. */
  function LowUnsigned(w: nat, size: nat): nat {
    match size
    case 1 => w % 0x100
    case 2 => w % 0x1_0000
    case 4 => w % TWO_32
    case _ => w % TWO_64
  }

  /** pb_dec_varint: fields of 32 bits and less look at the low word only. */
  method DecVarint(stream: IStream, f: Field, ghost old_: Value) returns (r: Option<Value>)
    requires stream.Valid() && FieldOk(f) && f.ltype.LVarint?
    modifies stream
    ensures r == Result(DecodeValue(f, old_, old(stream.Remaining())))
    ensures Advanced(stream, Count(DecodeValue(f, old_, old(stream.Remaining()))))
  {
    hide DecodeVarint;
    var w := PbDecodeVarint(stream);
    if w.None? { return None; }
    var svalue := if f.dataSize == 8 then LowSigned(w.value, 8) else LowSigned(w.value, 4);
    var clamped := LowSigned(svalue % TWO_64, f.dataSize);
    ClampedFits(svalue, f.dataSize);
    if clamped != svalue {
      return None;   // "integer too large"
    }
    r := Some(Int(svalue));
  }

  /** pb_dec_uvarint. */
  method DecUVarint(stream: IStream, f: Field, ghost old_: Value) returns (r: Option<Value>)
    requires stream.Valid() && FieldOk(f) && f.ltype.LUVarint?
    modifies stream
    ensures r == Result(DecodeValue(f, old_, old(stream.Remaining())))
    ensures Advanced(stream, Count(DecodeValue(f, old_, old(stream.Remaining()))))
  {
    hide DecodeVarint;
    var w := PbDecodeVarint(stream);
    if w.None? { return None; }
    var clamped := LowUnsigned(w.value, f.dataSize);
    if clamped != w.value {
      return None;   // "integer too large"
    }
    r := Some(Int(w.value));
  }

  /** pb_dec_svarint. */
  method DecSVarint(stream: IStream, f: Field, ghost old_: Value) returns (r: Option<Value>)
    requires stream.Valid() && FieldOk(f) && f.ltype.LSVarint?
    modifies stream
    ensures r == Result(DecodeValue(f, old_, old(stream.Remaining())))
    ensures Advanced(stream, Count(DecodeValue(f, old_, old(stream.Remaining()))))
  {
    hide DecodeVarint;
    var w := PbDecodeVarint(stream);
    if w.None? { return None; }
    var value := UnZigZag(w.value);
    var clamped := LowSigned(value % TWO_64, f.dataSize);
    ClampedFits(value, f.dataSize);
    if clamped != value {
      return None;   // "integer too large"
    }
    r := Some(Int(value));
  }

  /** pb_dec_bytes. */
  method DecBytes(stream: IStream, f: Field, ghost old_: Value) returns (r: Option<Value>)
    requires stream.Valid() && f.ltype.LBytes?
    modifies stream
    ensures r == Result(DecodeValue(f, old_, old(stream.Remaining())))
    ensures Advanced(stream, Count(DecodeValue(f, old_, old(stream.Remaining()))))
  {
    hide DecodeVarint32;
    ghost var all := stream.Remaining();
    var size := PbDecodeVarint32(stream);
    if size.None? { return None; }
    ghost var n := DecodeVarint32(all).value.1;
    assert stream.Remaining() == all[n..];
    if size.value > PB_SIZE_MAX {
      return None;   // "bytes overflow"
    }
    if size.value + BYTES_HEADER > f.dataSize {
      return None;   // "bytes overflow"
    }
    if size.value <= stream.bytesLeft { Following(stream, all, n, size.value); }
    var bytes := stream.Read(size.value);
    r := if bytes.None? then None else Some(Blob(bytes.value));
  }

  /** pb_dec_string: the bytes, and a terminating NUL after them. */
  method DecString(stream: IStream, f: Field, ghost old_: Value) returns (r: Option<Value>)
    requires stream.Valid() && f.ltype.LString?
    modifies stream
    ensures r == Result(DecodeValue(f, old_, old(stream.Remaining())))
    ensures Advanced(stream, Count(DecodeValue(f, old_, old(stream.Remaining()))))
  {
    hide DecodeVarint32, CString;
    ghost var all := stream.Remaining();
    var size := PbDecodeVarint32(stream);
    if size.None? { return None; }
    ghost var n := DecodeVarint32(all).value.1;
    assert stream.Remaining() == all[n..];
    if size.value + 1 > f.dataSize {
      return None;   // "string overflow"
    }
    if size.value <= stream.bytesLeft { Following(stream, all, n, size.value); }
    var bytes := stream.Read(size.value);
    r := if bytes.None? then None else Some(Blob(CString(bytes.value)));
  }

  /** pb_dec_fixed_length_bytes. */
  method DecFixedLengthBytes(stream: IStream, f: Field, ghost old_: Value) returns (r: Option<Value>)
    requires stream.Valid() && f.ltype.LFixedLengthBytes?
    modifies stream
    ensures r == Result(DecodeValue(f, old_, old(stream.Remaining())))
    ensures Advanced(stream, Count(DecodeValue(f, old_, old(stream.Remaining()))))
  {
    hide DecodeVarint32;
    ghost var all := stream.Remaining();
    var size := PbDecodeVarint32(stream);
    if size.None? { return None; }
    ghost var n := DecodeVarint32(all).value.1;
    assert stream.Remaining() == all[n..];
    if size.value > PB_SIZE_MAX {
      return None;   // "bytes overflow"
    }
    if size.value == 0 {
      return Some(ZeroValue(f));
    }
    if size.value != f.dataSize {
      return None;   // "incorrect fixed length bytes size"
    }
    if size.value <= stream.bytesLeft { Following(stream, all, n, size.value); }
    var bytes := stream.Read(f.dataSize);
    r := if bytes.None? then None else Some(Blob(bytes.value));
  }

  /** pb_dec_submessage. */
  method DecSubmessage(stream: IStream, f: Field, sub: Fields, old_: Value) returns (r: Option<Value>)
    requires stream.Valid() && FieldOk(f) && f.ltype == LSubmessage(sub)
    modifies stream
    ensures r == Result(DecodeValue(f, old_, old(stream.Remaining())))
    ensures Advanced(stream, Count(DecodeValue(f, old_, old(stream.Remaining()))))
    decreases sub, 5
  {
    hide DecodeBlob, DecodeMessage, Default, WellFormed;
    var substream := PbMakeStringSubstream(stream);
    if substream.None? { return None; }
    ghost var body := substream.value.Remaining();
    var status: Option<seq<Slot>>;
    if f.htype.Repeated? {
      status := PbDecode(substream.value, sub);
      assert status == DecodeMessage(sub, Default(sub), body);
    } else {
      var start := OldSlots(sub, old_);
      status := PbDecodeNoinit(substream.value, sub, start);
    }
    var closed := PbCloseStringSubstream(stream, substream.value);
    assert status.Some? ==> stream.state == old(stream.state) + DecodeBlob(old(stream.Remaining())).value.1;
    if !closed || status.None? { return None; }
    r := Some(Msg(status.value));
  }

  // ----- fields ---------------------------------------------------------------------------------

  /** The packed branch of decode_static_field, on the substream. */
  method DecodePackedItems(sub: IStream, f: Field, items: seq<Value>) returns (r: Option<seq<Value>>)
    requires sub.Valid() && FieldOk(f)
    modifies sub
    ensures r == DecodePacked(f, items, old(sub.Remaining()))
    ensures sub.Valid() && sub.state + sub.bytesLeft <= old(sub.state) + old(sub.bytesLeft)
    ensures r.Some? ==> sub.bytesLeft == 0 && sub.state == old(sub.state) + old(sub.bytesLeft)
    decreases f, 1
  {
    hide DecodeValue, FieldOk;
    var out := items;
    ghost var all := sub.Remaining();
    ghost var n: nat := 0;
    while sub.bytesLeft > 0 && |out| < f.arraySize
      invariant sub.Valid() && n <= |all| && Advanced(sub, Some(n)) && sub.Remaining() == all[n..]
      invariant DecodePacked(f, out, all[n..]) == DecodePacked(f, items, all)
      decreases sub.bytesLeft
    {
      ghost var rest := all[n..];
      ghost var d := DecodeValue(f, Int(0), rest);
      var item := DecodeByType(sub, f, Int(0));
      if item.None? {
        return None;
      }
      assert rest[d.value.1..] == all[n + d.value.1..];
      n := n + d.value.1;
      out := out + [item.value];
    }
    if sub.bytesLeft != 0 {
      return None;   // "array overflow"
    }
    assert all[n..] == [];
    return Some(out);
  }

  /** decode_static_field. */
  method DecodeStaticField(stream: IStream, f: Field, wireType: nat, s: Slot) returns (r: Option<Slot>)
    requires stream.Valid() && FieldOk(f)
    modifies stream
    ensures r == Result(DecodeField(f, wireType, s, old(stream.Remaining())))
    ensures Advanced(stream, Count(DecodeField(f, wireType, s, old(stream.Remaining()))))
    decreases f, 2
  {
    hide DecodeBlob, DecodeValue, DecodePacked, Default;
    match f.htype {
      case Required =>
        var v := DecodeByType(stream, f, s.AsValue());
        r := if v.None? then None else Some(Single(s.AsHas(), v.value));
      case Optional =>
        var has := f.Sized() || s.AsHas();
        var v := DecodeByType(stream, f, s.AsValue());
        r := if v.None? then None else Some(Single(has, v.value));
      case Repeated =>
        if wireType == WT_STRING && f.ltype.Packable() {
          var sub := PbMakeStringSubstream(stream);
          if sub.None? { return None; }
          var items := DecodePackedItems(sub.value, f, s.AsItems());
          if items.None? {
            return None;
          }
          var closed := PbCloseStringSubstream(stream, sub.value);
          if !closed { return None; }
          r := Some(Items(items.value));
        } else {
          var size := |s.AsItems()|;
          if size >= f.arraySize {
            return None;   // "array overflow"
          }
          var v := DecodeByType(stream, f, Int(0));
          r := if v.None? then None else Some(Items(s.AsItems() + [v.value]));
        }
      case Oneof =>
        var start := s.AsValue();
        if f.ltype.LSubmessage? && s.AsWhich() != f.tag {
          assert WellFormed(f.ltype.fields);
          var dest := SetToDefaults(f.ltype.fields, seq(SlotCount(f.ltype.fields), _ => Items([])));
          start := Msg(dest);
        }
        var v := DecodeByType(stream, f, start);
        r := if v.None? then None else Some(Choice(f.tag, v.value));
    }
  }

  // ----- messages -------------------------------------------------------------------------------

  /** The local variables of pb_decode_noinit and the state of the specification's loop agree. */
  ghost predicate Represents(st: DecodeState, fields: Fields, dest: seq<Slot>, fixedCountField: Option<nat>, fieldsSeen: Tracker)
    reads fieldsSeen
  {
    && fieldsSeen.Valid() && st.slots == dest && st.fixedField == fixedCountField
    && (fixedCountField.Some? ==> fixedCountField.value < |fields|)
    && (fields != [] ==> forall k: nat :: fieldsSeen.Has(k) <==> k in st.seen)
    && (forall k :: k in st.seen ==> k < RequiredBefore(fields, |fields|))
  }

  /** One turn of the loop once the iterator has found the field. */
  method DecodeFound(stream: IStream, iter: FieldIter, wireType: nat, dest: seq<Slot>,
                     fixedCountField: Option<nat>, fieldsSeen: Tracker, ghost st: DecodeState)
    returns (r: Option<(seq<Slot>, Option<nat>)>)
    requires stream.Valid() && iter.Exact() && iter.pos < |iter.fields|
    requires FindField(iter.fields, iter.Tag()) == Some(iter.pos)
    requires Represents(st, iter.fields, dest, fixedCountField, fieldsSeen)
    modifies stream, fieldsSeen
    ensures var spec := DecodeRecord(iter.fields, st, iter.Tag(), wireType, old(stream.Remaining()));
            && (r.Some? <==> spec.Some?) && Advanced(stream, Count(spec))
            && (r.Some? ==> Represents(spec.value.0, iter.fields, r.value.0, r.value.1, fieldsSeen))
    decreases iter.fields, 1
  {
    hide DecodeField, WellFormed, Offsets, FindField;
    var i, f := iter.pos, iter.fields[iter.pos];
    FieldFacts(iter.fields, i);
    RequiredGrows(iter.fields, i, |iter.fields|);
    var message, counted := dest, fixedCountField;
    if f.htype.Repeated? && iter.pSize == iter.pData {
      if counted != Some(i) {
        if counted.Some? {
          var last := iter.fields[counted.value];
          if |SlotAt(dest, last).AsItems()| != last.arraySize {
            return None;   // "wrong size for fixed count field"
          }
        }
        counted := Some(i);
        message := Store(message, f, Items([]));
      }
    }
    if f.htype.Required? && iter.requiredFieldIndex < PB_MAX_REQUIRED_FIELDS {
      fieldsSeen.Mark(iter.requiredFieldIndex);
    }
    var s := DecodeStaticField(stream, f, wireType, SlotAt(message, f));
    if s.None? { return None; }
    r := Some((Store(message, f, s.value), counted));
  }

  lemma {:induction false} RequiredGrows(fields: Fields, i: nat, n: nat)
    requires i <= n <= |fields|
    ensures RequiredBefore(fields, i) <= RequiredBefore(fields, n)
    ensures i < n && fields[i].htype.Required? ==> RequiredBefore(fields, i) < RequiredBefore(fields, n)
    decreases n
  {
    if i < n { RequiredGrows(fields, i, n - 1); }
  }

  /** One turn of the specification's loop: the state it leads to unless the message ends. */
  ghost function SpecTurn(fields: Fields, st: DecodeState, b: ByteString): (r: Option<(Option<DecodeState>, nat)>)
    ensures r.Some? ==> 0 < r.value.1 <= |b|
  {
    match DecodeVarint32(b)
    case None => None
    case Some((key, n)) =>
      if key == 0 then Some((None, n))
      else match DecodeRecord(fields, st, key / 8, key % 8, b[n..])
        case None => None
        case Some((next, k)) => Some((Some(next), n + k))
  }

  lemma LoopTurn(fields: Fields, st: DecodeState, all: ByteString, n: nat)
    requires n <= |all|
    ensures var r := After(n, DecodeLoop(fields, st, all[n..]));
            if n == |all| then r == Some((st, n))
            else match SpecTurn(fields, st, all[n..])
              case None => r.None?
              case Some((None, m)) => r == Some((st, n + m))
              case Some((Some(next), m)) => n + m <= |all| && r == After(n + m, DecodeLoop(fields, next, all[n + m..]))
  {
    hide DecodeVarint32, DecodeRecord;
    var b := all[n..];
    if b != [] && SpecTurn(fields, st, b).Some? {
      var m := SpecTurn(fields, st, b).value.1;
      assert b[m..] == all[n + m..];
    }
  }

  /** pb_decode_tag: the wire type and tag, or whether the message ends here. */
  method PbDecodeTag(stream: IStream) returns (r: Option<(nat, nat)>, eof: bool)
    requires stream.Valid()
    modifies stream
    ensures var spec := DecodeVarint32(old(stream.Remaining()));
            && Advanced(stream, Count(spec))
            && (spec.None? ==> r.None? && (old(stream.bytesLeft) > 0 ==> !eof))
            && (spec.Some? && spec.value.0 == 0 ==> r.None? && eof)
            && (spec.Some? && spec.value.0 != 0 ==> r == Some((spec.value.0 % 8, spec.value.0 / 8)))
  {
    hide DecodeVarint32;
    var atEnd := stream.bytesLeft == 0;   // the first byte cannot be read
    var temp := PbDecodeVarint32(stream);
    if temp.None? {
      return None, atEnd;
    }
    if temp.value == 0 {
      return None, true;
    }
    return Some((temp.value % 8, temp.value / 8)), false;
  }

  datatype Turn = Failed | Ended | More(dest: seq<Slot>, fixedCountField: Option<nat>)

  /** The body of the loop of pb_decode_noinit. */
  method DecodeNext(stream: IStream, iter: FieldIter, dest: seq<Slot>,
                    fixedCountField: Option<nat>, fieldsSeen: Tracker, ghost st: DecodeState)
    returns (turn: Turn)
    requires stream.Valid() && stream.bytesLeft > 0 && iter.Exact()
    requires Represents(st, iter.fields, dest, fixedCountField, fieldsSeen)
    modifies stream, iter, fieldsSeen
    ensures iter.Exact()
    ensures var spec := SpecTurn(iter.fields, st, old(stream.Remaining()));
            && (turn.Failed? <==> spec.None?) && Advanced(stream, Count(spec))
            && (spec.Some? ==> (turn.Ended? <==> spec.value.0.None?))
            && (turn.Ended? ==> Represents(st, iter.fields, dest, fixedCountField, fieldsSeen))
            && (turn.More? ==> Represents(spec.value.0.value, iter.fields, turn.dest, turn.fixedCountField, fieldsSeen))
    decreases iter.fields, 2
  {
    hide DecodeVarint32, DecodeRecord, WellFormed, Offsets, FindField, SkipValue;
    ghost var fields := iter.fields;
    ghost var all := stream.Remaining();
    var head, eof := PbDecodeTag(stream);
    if head.None? {
      return if eof then Ended else Failed;
    }
    var (wireType, tag) := head.value;
    assert stream.Remaining() == all[DecodeVarint32(all).value.1..];
    ghost var rest := stream.Remaining();
    var found := iter.Find(tag);
    if !found {
      SkippedRecord(fields, st, tag, wireType, rest);
      var skipped := PbSkipField(stream, wireType);
      return if skipped then More(dest, fixedCountField) else Failed;
    }
    if iter.pos >= |iter.fields| {
      TerminatorRecord(st, wireType, rest);
      var terminator := PbDecodeVarint32(stream);
      return if terminator.Some? then More(dest, fixedCountField) else Failed;
    }
    var next := DecodeFound(stream, iter, wireType, dest, fixedCountField, fieldsSeen, st);
    turn := if next.None? then Failed else More(next.value.0, next.value.1);
  }

  /** pb_decode_noinit. */
  method PbDecodeNoinit(stream: IStream, fields: Fields, start: seq<Slot>) returns (r: Option<seq<Slot>>)
    requires stream.Valid() && WellFormed(fields)
    modifies stream
    ensures r == DecodeMessage(fields, start, old(stream.Remaining()))
    ensures r.Some? ==> DecodeLoop(fields, DecodeState(start, None, {}), old(stream.Remaining())).Some?
    ensures Advanced(stream, if r.Some? then Count(DecodeLoop(fields, DecodeState(start, None, {}), old(stream.Remaining()))) else None)
    decreases fields, 3
  {
    hide SpecTurn, DecodeLoop, WellFormed, Offsets, Finished;
    ghost var all := stream.Remaining();
    ghost var st := DecodeState(start, None, {});
    ghost var n: nat := 0;
    var dest := start;
    var fieldsSeen := new Tracker();
    var fixedCountField: Option<nat> := None;
    var iter := new FieldIter(fields, 0);
    ghost var whole := DecodeLoop(fields, st, all);
    assert all[0..] == all;
    while stream.bytesLeft > 0
      invariant iter.Exact() && iter.fields == fields
      invariant Represents(st, fields, dest, fixedCountField, fieldsSeen)
      invariant stream.Valid() && n <= |all| && Advanced(stream, Some(n)) && stream.Remaining() == all[n..]
      invariant whole == After(n, DecodeLoop(fields, st, all[n..]))
      decreases stream.bytesLeft
    {
      LoopTurn(fields, st, all, n);
      ghost var spec := SpecTurn(fields, st, all[n..]);
      var turn := DecodeNext(stream, iter, dest, fixedCountField, fieldsSeen, st);
      if turn.Failed? {
        return None;
      }
      n := n + spec.value.1;
      if turn.Ended? {
        break;
      }
      assert all[n..] == stream.Remaining();
      st := spec.value.0.value;
      dest, fixedCountField := turn.dest, turn.fixedCountField;
    }
    if stream.bytesLeft == 0 && n == |all| { LoopTurn(fields, st, all, n); }
    assert whole == Some((st, n));
    var complete := CheckFinished(iter, dest, fixedCountField, fieldsSeen, st);
    r := if complete then Some(dest) else None;
  }

  /** The checks after the loop. */
  method CheckFinished(iter: FieldIter, dest: seq<Slot>, fixedCountField: Option<nat>, fieldsSeen: Tracker, ghost st: DecodeState)
    returns (ok: bool)
    requires iter.Exact() && Represents(st, iter.fields, dest, fixedCountField, fieldsSeen)
    modifies iter
    ensures ok == Finished(iter.fields, st)
  {
    hide WellFormed, Offsets;
    if fixedCountField.Some? {
      var last := iter.fields[fixedCountField.value];
      if |SlotAt(dest, last).AsItems()| != last.arraySize {
        return false;   // "wrong size for fixed count field"
      }
    }
    ghost var fields := iter.fields;
    var count := CountRequired(iter);
    assert count == RequiredBefore(fields, |fields|);
    if count > 0 {
      ok := fieldsSeen.AllSeen(count);   // otherwise "missing required field"
      if ok {
        forall k | 0 <= k < Min(count, PB_MAX_REQUIRED_FIELDS) ensures k in st.seen { assert fieldsSeen.Has(k); }
      } else {
        ghost var k: nat :| k < count && k < PB_MAX_REQUIRED_FIELDS && !fieldsSeen.Has(k);
        assert k !in st.seen;
      }
    } else {
      ok := true;
    }
  }

  lemma SkippedRecord(fields: Fields, st: DecodeState, tag: nat, wireType: nat, b: ByteString)
    requires FindField(fields, tag).None? && !(fields == [] && tag == 0)
    ensures DecodeRecord(fields, st, tag, wireType, b)
            == match SkipValue(wireType, b) case None => None case Some(n) => Some((st, n))
  {
  }

  lemma TerminatorRecord(st: DecodeState, wireType: nat, b: ByteString)
    ensures DecodeRecord([], st, 0, wireType, b)
            == match DecodeVarint32(b) case None => None case Some((_, n)) => Some((st, n))
  {
    hide DecodeVarint32;
    assert FindField([], 0).None?;
  }

  /** The number of required fields, found by walking the iterator to the end of the descriptor. */
  method CountRequired(iter: FieldIter) returns (count: nat)
    requires iter.Exact()
    modifies iter
    ensures count == RequiredBefore(iter.fields, |iter.fields|)
  {
    hide WellFormed, Offsets;
    var lastRequired := false;
    count := 0;
    PositiveTags(iter.fields);
    var more := true;
    while more
      invariant iter.Exact() && (!more ==> iter.pos == 0)
      invariant more || iter.fields == [] || count + (if lastRequired then 1 else 0) == RequiredBefore(iter.fields, |iter.fields|)
      invariant !more && iter.fields == [] ==> count == 0
      decreases more, |iter.fields| - iter.pos
    {
      count := iter.requiredFieldIndex;
      lastRequired := iter.pos >= |iter.fields| || iter.fields[iter.pos].htype.Required?;
      more := iter.Next();
    }
    if lastRequired && iter.Tag() != 0 {
      count := count + 1;
    }
  }

  /** pb_decode. */
  method PbDecode(stream: IStream, fields: Fields) returns (r: Option<seq<Slot>>)
    requires stream.Valid() && WellFormed(fields)
    modifies stream
    ensures r == Decode(fields, old(stream.Remaining()))
    ensures r.Some? ==> DecodeLoop(fields, DecodeState(Default(fields), None, {}), old(stream.Remaining())).Some?
    ensures Advanced(stream, if r.Some? then Count(DecodeLoop(fields, DecodeState(Default(fields), None, {}), old(stream.Remaining()))) else None)
    decreases fields, 4
  {
    hide DecodeLoop, DecodeMessage, Default, WellFormed;
    var dest := SetToDefaults(fields, seq(SlotCount(fields), _ => Items([])));
    r := PbDecodeNoinit(stream, fields, dest);
  }
}
