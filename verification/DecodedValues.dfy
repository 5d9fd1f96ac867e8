/**
 Which bytes the decoders accept as a value, and which value that is, with the ranges and sums
 written out.
 */
module DecodedValues {
  import opened Wrappers
  import opened ByteStrings
  import opened Varint
  import opened Descriptor
  import opened Encoding
  import opened Decoding

  /** i is in the range of a signed integer of size bytes. */
  predicate InSignedRange(i: int, size: nat) {
    || (size == 1 && -128 <= i < 128) || (size == 2 && -32768 <= i < 32768)
    || (size == 4 && -2147483648 <= i < 2147483648)
    || (size == 8 && -9223372036854775808 <= i < 9223372036854775808)
  }

  predicate InUnsignedRange(i: int, size: nat) {
    0 <= i && ((size == 1 && i < 256) || (size == 2 && i < 65536) || (size == 4 && i < 4294967296)
               || (size == 8 && i < 18446744073709551616))
  }

  /** b begins with a 64-bit varint of n bytes for w. */
  predicate Starts64(b: ByteString, w: nat, n: nat) {
    DecodeVarint(b) == Some((w, n))
  }

  /** b begins with a length of fewer than 2^32 and that many bytes s, n bytes in all. */
  predicate StartsDelimited(b: ByteString, s: ByteString, n: nat) {
    && DecodeVarint32(b).Some?
    && var (size, m) := DecodeVarint32(b).value;
       |s| == size && n == m + size <= |b| && b[m..n] == s
  }

  /** s holds the characters t, and then, unless it ends, a NUL. */
  predicate IsCString(s: ByteString, t: ByteString) {
    t <= s && 0 !in t && (|t| < |s| ==> s[|t|] == 0)
  }

  lemma {:induction false} CStringOk(s: ByteString)
    ensures IsCString(s, CString(s))
  {
    if s != [] && s[0] != 0 {
      var t := CString(s[1..]);
      CStringOk(s[1..]);
      assert CString(s) == [s[0]] + t && s[..|t| + 1] == [s[0]] + s[1..][..|t|];
    }
  }

  lemma CStringIs(s: ByteString, t: ByteString)
    ensures IsCString(s, t) <==> t == CString(s)
  {
    CStringOk(s);
    var u := CString(s);
    hide CString;
    if IsCString(s, t) {
      assert t == s[..|t|] && u == s[..|u|];
      assert forall i :: 0 <= i < |t| ==> t[i] == s[i] != 0;
      assert forall i :: 0 <= i < |u| ==> u[i] == s[i] != 0;
      assert |t| == |u|;
    }
  }

  /** The decoder reads n bytes of b as value v of field f. */
  ghost predicate IsDecoded(f: Field, b: ByteString, v: Value, n: nat) {
    match f.ltype
    case LBool => exists w :: DecodeVarint32(b) == Some((w, n)) && v == Int(if w == 0 then 0 else 1)
    case LVarint =>
      // signed, equal to the varint modulo 2^64, or modulo 2^32 for fields of up to 32 bits
      v.Int? && InSignedRange(v.i, f.dataSize)
      && exists w :: Starts64(b, w, n) && if f.dataSize == 8 then (v.i - w) % 0x1_0000_0000_0000_0000 == 0
                                          else (v.i - w) % 0x1_0000_0000 == 0
    case LUVarint => v.Int? && InUnsignedRange(v.i, f.dataSize) && Starts64(b, v.i, n)
    case LSVarint => v.Int? && InSignedRange(v.i, f.dataSize) && Starts64(b, if v.i < 0 then -2 * v.i - 1 else 2 * v.i, n)
    case LFixed32 => n == 4 <= |b| && v == Int(Word(b[..4]))
    case LFixed64 => n == 8 <= |b| && v == Int(DoubleWord(b[..8]))
    case LBytes => v.Blob? && StartsDelimited(b, v.bytes, n) && |v.bytes| <= PB_SIZE_MAX && |v.bytes| + BYTES_HEADER <= f.dataSize
    case LString => v.Blob? && exists s :: StartsDelimited(b, s, n) && |s| < f.dataSize && IsCString(s, v.bytes)
    case LFixedLengthBytes =>
      v.Blob? && |v.bytes| == f.dataSize
      && (StartsDelimited(b, v.bytes, n) || (StartsDelimited(b, [], n) && forall i :: 0 <= i < f.dataSize ==> v.bytes[i] == 0))
    case LSubmessage(_) => false   // see SubmessageDecoded
  }

  lemma DelimitedStarts(b: ByteString, s: ByteString, n: nat)
    ensures StartsDelimited(b, s, n) <==> DecodeBlob(b) == Some((s, n))
  {
    hide DecodeVarint32;
  }

  /** Two signed numbers of 32 bits, or of 64, that agree modulo their width are equal. */
  lemma LowSignedIs(w: nat, i: int, big: bool)
    requires w < 0x1_0000_0000_0000_0000
    ensures big ==> (LowSigned(w, 8) == i <==> InSignedRange(i, 8) && (i - w) % 0x1_0000_0000_0000_0000 == 0)
    ensures !big ==> (LowSigned(w, 4) == i <==> InSignedRange(i, 4) && (i - w) % 0x1_0000_0000 == 0)
  {
  }

  lemma NarrowIs(w: nat, i: int, size: nat)
    requires w < 0x1_0000_0000_0000_0000 && size in {1, 2, 4, 8}
    ensures NarrowSigned(w, size) == Some(i) <==>
            InSignedRange(i, size) && if size == 8 then (i - w) % 0x1_0000_0000_0000_0000 == 0 else (i - w) % 0x1_0000_0000 == 0
  {
    LowSignedIs(w, i, size == 8);
    hide LowSigned;
    assert InSignedRange(i, size) ==> InSignedRange(i, 4) || size == 8;
  }

  lemma UnZigZagIs(w: nat, i: int)
    requires w < 0x1_0000_0000_0000_0000
    ensures UnZigZag(w) == i <==> InSignedRange(i, 8) && w == if i < 0 then -2 * i - 1 else 2 * i
  {
    UnZigZagRoundTrip(w);
    if InSignedRange(i, 8) { ZigZagRoundTrip(i); }
    ZigZagRoundTrip(UnZigZag(w));
    hide ZigZag, UnZigZag;
  }

  /** What is accepted, and as what, is exactly this; what was stored before does not matter. */
  lemma DecodedIff(f: Field, previous: Value, b: ByteString, v: Value, n: nat)
    requires FieldOk(f) && !f.ltype.LSubmessage?
    ensures DecodeValue(f, previous, b) == Some((v, n)) <==> IsDecoded(f, b, v, n)
  {
    hide DecodeVarint, DecodeVarint32, DecodeBlob, StartsDelimited, FromFixed, Word, DoubleWord, UnZigZag, NarrowSigned, CString,
      IsCString;
    match f.ltype
    case LBool =>
    case LVarint =>
      SignedDecodedIff(f, previous, b, v, n);
    case LUVarint =>
    case LSVarint =>
      if DecodeVarint(b).Some? && v.Int? { UnZigZagIs(DecodeVarint(b).value.0, v.i); }
    case LFixed32 => if |b| >= 4 { FourBytes(b[..4]); }
    case LFixed64 => if |b| >= 8 { EightBytes(b[..8]); }
    case LBytes => if v.Blob? { DelimitedStarts(b, v.bytes, n); }
    case LString => StringDecodedIff(f, previous, b, v, n);
    case LFixedLengthBytes => FixedLengthDecodedIff(f, previous, b, v, n);
  }

  lemma SignedDecodedIff(f: Field, previous: Value, b: ByteString, v: Value, n: nat)
    requires FieldOk(f) && f.ltype.LVarint?
    ensures DecodeValue(f, previous, b) == Some((v, n)) <==> IsDecoded(f, b, v, n)
  {
    hide DecodeVarint, NarrowSigned, InSignedRange;
    if DecodeVarint(b).Some? && v.Int? {
      NarrowIs(DecodeVarint(b).value.0, v.i, f.dataSize);
      assert Starts64(b, DecodeVarint(b).value.0, DecodeVarint(b).value.1);
    }
  }

  lemma StringDecodedIff(f: Field, previous: Value, b: ByteString, v: Value, n: nat)
    requires FieldOk(f) && f.ltype.LString?
    ensures DecodeValue(f, previous, b) == Some((v, n)) <==> IsDecoded(f, b, v, n)
  {
    hide DecodeBlob, StartsDelimited, CString, IsCString;
    if v.Blob? {
      forall s | StartsDelimited(b, s, n) ensures DecodeBlob(b) == Some((s, n)) && (IsCString(s, v.bytes) <==> v.bytes == CString(s)) {
        DelimitedStarts(b, s, n);
        CStringIs(s, v.bytes);
      }
      if DecodeBlob(b).Some? && DecodeBlob(b).value.1 == n {
        DelimitedStarts(b, DecodeBlob(b).value.0, n);
      }
    }
  }

  lemma FixedLengthDecodedIff(f: Field, previous: Value, b: ByteString, v: Value, n: nat)
    requires FieldOk(f) && f.ltype.LFixedLengthBytes?
    ensures DecodeValue(f, previous, b) == Some((v, n)) <==> IsDecoded(f, b, v, n)
  {
    hide DecodeBlob, StartsDelimited;
    DelimitedStarts(b, [], n);
    if v.Blob? {
      DelimitedStarts(b, v.bytes, n);
      assert ZeroValue(f) == v <==> |v.bytes| == f.dataSize && forall i :: 0 <= i < f.dataSize ==> v.bytes[i] == 0;
    }
  }

  /** A submessage is the message its delimited bytes are, from defaults in an array and on top of what is there otherwise. */
  lemma SubmessageDecoded(f: Field, previous: Value, b: ByteString, v: Value, n: nat)
    requires f.ltype.LSubmessage?
    ensures DecodeValue(f, previous, b) == Some((v, n)) <==>
            && v.Msg?
            && var start := if !f.htype.Repeated? && previous.Msg? then previous.slots else Default(f.ltype.fields);
               exists body :: StartsDelimited(b, body, n) && DecodeMessage(f.ltype.fields, start, body) == Some(v.slots)
  {
    hide DecodeBlob, StartsDelimited, DecodeMessage, Default;
    if DecodeBlob(b).Some? {
      DelimitedStarts(b, DecodeBlob(b).value.0, DecodeBlob(b).value.1);
    }
    forall body | StartsDelimited(b, body, n) ensures DecodeBlob(b) == Some((body, n)) {
      DelimitedStarts(b, body, n);
    }
  }
}
