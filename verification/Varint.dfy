/**
 Base 128 varints and zigzag integers (Protocol Buffers "Encoding", sections "Base 128
 Varints" and "Signed Integers") as nanopb writes and reads them.
 */
module Varint {
  import opened Wrappers
  import opened ByteStrings

  const TWO_32: nat := 0x1_0000_0000
  const TWO_63: nat := 0x8000_0000_0000_0000
  const TWO_64: nat := 0x1_0000_0000_0000_0000

  function Pow2(n: nat): (p: nat)
    ensures p > 0
  {
    if n == 0 then 1 else 2 * Pow2(n - 1)
  }

  /** Bitwise or of two natural numbers. */
  function BitOr(a: nat, b: nat): nat
    decreases a + b
  {
    if a == 0 then b else if b == 0 then a
    else (if a % 2 == 1 || b % 2 == 1 then 1 else 0) + 2 * BitOr(a / 2, b / 2)
  }

  /** Or-ing in bits above the ones in use adds them. */
  lemma {:induction false} BitOrAbove(a: nat, x: nat, n: nat)
    requires a < Pow2(n)
    ensures BitOr(a, x * Pow2(n)) == a + x * Pow2(n)
  {
    if n > 0 && a > 0 && x > 0 {
      var y := x * Pow2(n - 1);
      BitOrAbove(a / 2, x, n - 1);
      DoubleProduct(x, Pow2(n - 1));
      assert x * Pow2(n) == 2 * y && y > 0;
      BitOrEven(a, y);
    }
  }

  lemma DoubleProduct(x: nat, p: nat)
    ensures x * (2 * p) == 2 * (x * p)
    ensures x > 0 && p > 0 ==> x * p > 0
  {
  }

  lemma BitOrEven(a: nat, y: nat)
    requires a > 0 && y > 0
    ensures BitOr(a, 2 * y) == a % 2 + 2 * BitOr(a / 2, y)
  {
  }

  lemma {:induction false} BitOrBelow(a: nat, b: nat, n: nat)
    requires a < Pow2(n) && b < Pow2(n)
    ensures BitOr(a, b) < Pow2(n)
  {
    if n > 0 {
      BitOrBelow(a / 2, b / 2, n - 1);
    }
  }

  /** The number written by the first terminated varint of b, ignoring any width limit. */
  function Payload(b: ByteString): nat {
    if b == [] then 0
    else if b[0] < 128 then b[0]
    else b[0] - 128 + 128 * Payload(b[1..])
  }

  /** How many bytes the first varint of b occupies, None if it is not terminated. */
  function VarintLength(b: ByteString): (n: Option<nat>)
    ensures n.Some? ==> 0 < n.value <= |b|
  {
    if b == [] then None
    else if b[0] < 128 then Some(1)
    else match VarintLength(b[1..]) case None => None case Some(m) => Some(m + 1)
  }

  // ----- encoding ------------------------------------------------------------------

  /** The bytes pb_encode_varint emits for v. */
  function EncodeVarint(v: nat): (b: ByteString)
    ensures b != []
  {
    if v < 128 then [v] else [v % 128 + 128] + EncodeVarint(v / 128)
  }

  lemma {:induction false} EncodeVarintLength(v: nat, n: nat)
    requires v < Pow2(7 * n) && n > 0
    ensures |EncodeVarint(v)| <= n
  {
    if v >= 128 {
      assert Pow2(7 * n) == 128 * Pow2(7 * (n - 1)) by { Pow2Step(7 * (n - 1)); }
      assert Pow2(7) == 128 by { Pow2Step(0); }
      EncodeVarintLength(v / 128, n - 1);
    }
  }

  lemma Pow2Step(n: nat)
    ensures Pow2(n + 7) == 128 * Pow2(n)
  {
    assert Pow2(n + 2) == 4 * Pow2(n) && Pow2(n + 4) == 4 * Pow2(n + 2);
    assert Pow2(n + 6) == 4 * Pow2(n + 4) && Pow2(n + 7) == 2 * Pow2(n + 6);
  }

  lemma PowersOf2()
    ensures Pow2(7) == 0x80 && Pow2(14) == 0x4000 && Pow2(21) == 0x20_0000 && Pow2(28) == 0x1000_0000
    ensures Pow2(31) == 0x8000_0000 && Pow2(32) == TWO_32 && Pow2(35) == 0x8_0000_0000
    ensures Pow2(63) == TWO_63 && Pow2(64) == TWO_64
    ensures Pow2(70) == 0x40_0000_0000_0000_0000
  {
    assert Pow2(0) == 1;
    Pow2Step(0); Pow2Step(7); Pow2Step(14); Pow2Step(21); Pow2Step(28);
    Pow2Step(35); Pow2Step(42); Pow2Step(49); Pow2Step(56); Pow2Step(63);
    assert Pow2(31) == 2 * Pow2(30) && Pow2(30) == 2 * Pow2(29) && Pow2(29) == 2 * Pow2(28);
    assert Pow2(32) == 2 * Pow2(31);
    assert Pow2(64) == 2 * Pow2(63);
  }

  /** The payload of an encoding is the number encoded, whatever follows it. */
  lemma {:induction false} PayloadOfEncode(v: nat, rest: ByteString)
    ensures Payload(EncodeVarint(v) + rest) == v
    ensures VarintLength(EncodeVarint(v) + rest) == Some(|EncodeVarint(v)|)
  {
    if v >= 128 {
      PayloadOfEncode(v / 128, rest);
      assert (EncodeVarint(v) + rest)[1..] == EncodeVarint(v / 128) + rest;
    }
  }

  // ----- decoding, 64 bits ----------------------------------------------------------

  /** pb_decode_varint: the value and the number of bytes read, None on error. */
  function DecodeVarint(b: ByteString): (r: Option<(nat, nat)>)
    ensures r.Some? ==> r.value.0 < TWO_64 && 0 < r.value.1 <= |b|
  {
    match VarintLength(b)
    case None => None
    case Some(n) => if n > 10 then None else Some((Payload(b) % TWO_64, n))
  }

  /** Decoding what was encoded gives the value back in at most ten bytes, for all 64-bit values. */
  lemma VarintRoundTrip(v: nat, rest: ByteString)
    requires v < TWO_64
    ensures |EncodeVarint(v)| <= 10
    ensures DecodeVarint(EncodeVarint(v) + rest) == Some((v, |EncodeVarint(v)|))
  {
    PowersOf2();
    EncodeVarintLength(v, 10);
    PayloadOfEncode(v, rest);
  }

  /** Only the bytes read influence the result. */
  lemma {:induction false} VarintPrefix(b: ByteString, y: ByteString)
    requires VarintLength(b).Some?
    ensures VarintLength(b[..VarintLength(b).value] + y) == VarintLength(b)
    ensures Payload(b[..VarintLength(b).value] + y) == Payload(b)
  {
    if b[0] >= 128 {
      VarintPrefix(b[1..], y);
      var n := VarintLength(b).value;
      assert (b[..n] + y)[1..] == b[1..][..n - 1] + y;
    }
  }

  // ----- decoding, 32 bits ----------------------------------------------------------

  /** The check on the bytes at bit position 32 and above: zero, or a sign extension. */
  predicate ExtensionByteOk(byte: Byte, bitpos: nat, result: nat) {
    byte % 128 == 0 || (result >= 0x8000_0000 && byte == if bitpos < 63 then 0xFF else 0x01)
  }

  /**
   The multi-byte loop of pb_decode_varint32_eof from one iteration on.  bitpos is an 8-bit
   counter; result is the 32-bit accumulator.  Yields the value and the bytes read.
   */
  function Varint32Loop(b: ByteString, bitpos: nat, result: nat): (r: Option<(nat, nat)>)
    requires bitpos < 256 && result < TWO_32
    ensures r.Some? ==> r.value.0 < TWO_32 && 0 < r.value.1 <= |b|
  {
    if b == [] then None
    else
      var byte := b[0];
      if bitpos >= 32 && !ExtensionByteOk(byte, bitpos, result) then None
      else
        var next := if bitpos >= 32 then result else OrInto(result, byte, bitpos);
        var bitpos' := (bitpos + 7) % 256;
        if byte >= 128 then
          match Varint32Loop(b[1..], bitpos', next) case None => None case Some((v, n)) => Some((v, n + 1))
        else if bitpos' == 35 && (byte / 16) % 8 != 0 then None
        else Some((next, 1))
  }

  /** result |= (uint32_t)(byte & 0x7F) << bitpos. */
  function OrInto(result: nat, byte: Byte, bitpos: nat): (r: nat)
    requires result < TWO_32
    ensures r < TWO_32
  {
    var x := byte % 128 * Pow2(bitpos) % TWO_32;
    PowersOf2();
    BitOrBelow(result, x, 32);
    BitOr(result, x)
  }

  function DecodeVarint32(b: ByteString): (r: Option<(nat, nat)>)
    ensures r.Some? ==> r.value.0 < TWO_32 && 0 < r.value.1 <= |b|
  {
    if b == [] then None
    else if b[0] < 128 then Some((b[0], 1))
    else match Varint32Loop(b[1..], 7, b[0] % 128) case None => None case Some((v, n)) => Some((v, n + 1))
  }

  /** On the first four iterations or-ing a group in is adding it at its place. */
  lemma OrIntoAdds(result: nat, byte: Byte, bitpos: nat)
    requires bitpos in {7, 14, 21, 28} && result < Pow2(bitpos)
    ensures result < TWO_32
    ensures OrInto(result, byte, bitpos) == (result + byte % 128 * Pow2(bitpos)) % TWO_32
    ensures bitpos < 28 ==> OrInto(result, byte, bitpos) == result + byte % 128 * Pow2(bitpos) < Pow2(bitpos + 7)
  {
    hide Pow2, BitOr;
    var p, g := Pow2(bitpos), byte % 128;
    assert p == if bitpos == 7 then 0x80 else if bitpos == 14 then 0x4000 else if bitpos == 21 then 0x20_0000
                else 0x1000_0000 by { PowersOf2(); }
    if bitpos < 28 {
      ScaleBound(g, 127, p);
      assert g * p < TWO_32;
      assert g * p % TWO_32 == g * p;
      BitOrAbove(result, g, bitpos);
      Pow2Step(bitpos);
    } else {
      TopGroup(g);
      BitOrAbove(result, g % 16, 28);
      assert result + g % 16 * p < TWO_32;
      DropMultiple(result + g % 16 * p, g / 16);
      assert g * p == g % 16 * p + TWO_32 * (g / 16);
    }
  }

  lemma ScaleBound(x: nat, y: nat, p: nat)
    requires x <= y
    ensures x * p <= y * p
  {
  }

  /** Of the fifth group only the low four bits fit in 32 bits. */
  lemma TopGroup(g: nat)
    requires g < 128
    ensures g * 0x1000_0000 % TWO_32 == g % 16 * 0x1000_0000
  {
  }

  /** From bit position 35 on the loop only checks; it no longer changes the result. */
  lemma {:induction false} Varint32LoopTail(b: ByteString, bitpos: nat, result: nat)
    requires bitpos in {35, 42, 49, 56, 63} && result < TWO_32
    requires VarintLength(b).Some? && bitpos + 7 * VarintLength(b).value <= 70
    requires Varint32Loop(b, bitpos, result).Some?
    ensures Varint32Loop(b, bitpos, result).value == (result, VarintLength(b).value)
  {
    hide OrInto;
    if b[0] >= 128 {
      Varint32LoopTail(b[1..], bitpos + 7, result);
    }
  }

  lemma Regroup(g: nat, q: nat, p: nat)
    ensures (g + 128 * q) * p == g * p + q * (128 * p)
  {
  }

  lemma {:induction false} Varint32LoopLowBits(b: ByteString, bitpos: nat, result: nat)
    requires bitpos in {7, 14, 21, 28} && result < TWO_32 && result < Pow2(bitpos)
    requires VarintLength(b).Some? && bitpos + 7 * VarintLength(b).value <= 70
    requires Varint32Loop(b, bitpos, result).Some?
    ensures Varint32Loop(b, bitpos, result).value
            == ((result + Payload(b) * Pow2(bitpos)) % TWO_32, VarintLength(b).value)
  {
    hide Pow2, OrInto;
    OrIntoAdds(result, b[0], bitpos);
    if b[0] >= 128 {
      var next := OrInto(result, b[0], bitpos);
      var g, q := b[0] - 128, Payload(b[1..]);
      Regroup(g, q, Pow2(bitpos));
      Pow2Step(bitpos);
      if bitpos < 28 {
        Varint32LoopLowBits(b[1..], bitpos + 7, next);
      } else {
        Varint32LoopTail(b[1..], 35, next);
        PowersOf2();
        assert q * Pow2(35) == TWO_32 * (8 * q);
        DropMultiple(result + g * Pow2(28), 8 * q);
      }
    }
  }

  lemma LowWord(x: nat)
    ensures x % TWO_64 % TWO_32 == x % TWO_32
  {
    var k := x / TWO_64;
    DropMultiple(x % TWO_64, TWO_32 * k);
    assert x == x % TWO_64 + TWO_32 * (TWO_32 * k);
  }

  lemma DropMultiple(x: nat, k: nat)
    ensures (x + TWO_32 * k) % TWO_32 == x % TWO_32
  {
  }

  lemma Pow2Zero()
    ensures Pow2(0) == 1
  {
  }

  /**
   On any terminated encoding of at most ten bytes, what pb_decode_varint32 accepts it reads
   as the low 32 bits of what pb_decode_varint reads, over the same bytes.
   */
  lemma Varint32IsLowWord(b: ByteString)
    requires VarintLength(b).Some? && VarintLength(b).value <= 10
    requires DecodeVarint32(b).Some?
    ensures DecodeVarint(b).Some?
    ensures DecodeVarint32(b).value == (DecodeVarint(b).value.0 % TWO_32, DecodeVarint(b).value.1)
  {
    Varint32Value(b);
    LowWord(Payload(b));
  }

  lemma Varint32Value(b: ByteString)
    requires VarintLength(b).Some? && VarintLength(b).value <= 10
    requires DecodeVarint32(b).Some?
    ensures DecodeVarint32(b).value == (Payload(b) % TWO_32, VarintLength(b).value)
  {
    hide Pow2, OrInto, Varint32Loop;
    if b[0] >= 128 {
      assert Pow2(7) == 128 by { Pow2Step(0); Pow2Zero(); }
      Varint32LoopLowBits(b[1..], 7, b[0] - 128);
      var q := Payload(b[1..]);
      assert b[0] - 128 + q * Pow2(7) == Payload(b);
    }
  }

  /** Everything below 2^32 that the encoder writes is accepted and read back. */
  lemma Varint32RoundTrip(v: nat, rest: ByteString)
    requires v < TWO_32
    ensures |EncodeVarint(v)| <= 5
    ensures DecodeVarint32(EncodeVarint(v) + rest) == Some((v, |EncodeVarint(v)|))
  {
    hide Pow2, BitOr, OrInto, Varint32Loop;
    assert v < Pow2(35) by { PowersOf2(); }
    EncodeVarintLength(v, 5);
    var b := EncodeVarint(v) + rest;
    PayloadOfEncode(v, rest);
    if v >= 128 {
      assert b[1..] == EncodeVarint(v / 128) + rest;
      assert Pow2(7) == 128 by { Pow2Step(0); Pow2Zero(); }
      Varint32LoopAccepts(v / 128, rest, 7, b[0] % 128);
      Varint32Value(b);
    }
  }

  lemma {:induction false} Varint32LoopAccepts(v: nat, rest: ByteString, bitpos: nat, result: nat)
    requires bitpos in {7, 14, 21, 28} && result < TWO_32 && v * Pow2(bitpos) < TWO_32
    ensures Varint32Loop(EncodeVarint(v) + rest, bitpos, result).Some?
  {
    hide Pow2, BitOr, OrInto;
    PowersOf2();
    if v >= 128 {
      var b := EncodeVarint(v) + rest;
      assert b[1..] == EncodeVarint(v / 128) + rest;
      Pow2Step(bitpos);
      assert v / 128 * Pow2(bitpos + 7) <= v * Pow2(bitpos);
      assert bitpos < 28;
      Varint32LoopAccepts(v / 128, rest, bitpos + 7, OrInto(result, b[0], bitpos));
    }
  }

  /** A zero group with its continuation bit set changes nothing in the 32-bit loop. */
  lemma Varint32LoopZeroGroup(t: ByteString, bitpos: nat, result: nat)
    requires bitpos in {7, 14, 21, 28, 35, 42, 49, 56} && result < TWO_32
    requires bitpos <= 28 ==> result < Pow2(bitpos)
    requires Varint32Loop(t, bitpos + 7, result).Some?
    ensures Varint32Loop([0x80] + t, bitpos, result)
            == Some((Varint32Loop(t, bitpos + 7, result).value.0, Varint32Loop(t, bitpos + 7, result).value.1 + 1))
  {
    hide OrInto, Pow2;
    assert ([0x80] + t)[1..] == t;
    if bitpos <= 28 { OrIntoAdds(result, 0x80, bitpos); PowersOf2(); }
  }

  /** The overflow check is not exact: a 64-bit number that is no sign extension can pass it. */
  lemma Varint32AcceptsMoreThanSignExtensions()
    ensures var b: ByteString := [0x80, 0x80, 0x80, 0x80, 0x88, 0x80, 0x80, 0x80, 0x80, 0x01];
            && DecodeVarint32(b) == Some((0x8000_0000, 10))
            && DecodeVarint(b) == Some((0x8000_0000_8000_0000, 10))
  {
    hide OrInto, Varint32Loop, Pow2;
    var b9: ByteString := [0x01];
    var b8 := [0x80] + b9; var b7 := [0x80] + b8; var b6 := [0x80] + b7; var b5 := [0x80] + b6;
    assert Varint32Loop(b9, 63, 0x8000_0000) == Some((0x8000_0000, 1)) by { LastExtensionByte(); }
    Varint32LoopZeroGroup(b9, 56, 0x8000_0000);
    Varint32LoopZeroGroup(b8, 49, 0x8000_0000);
    Varint32LoopZeroGroup(b7, 42, 0x8000_0000);
    Varint32LoopZeroGroup(b6, 35, 0x8000_0000);
    TopBitGroup(b5);
    var b4 := [0x88] + b5;
    PowersOf2();
    var b3 := [0x80] + b4; var b2 := [0x80] + b3; var b1 := [0x80] + b2; var b := [0x80] + b1;
    Varint32LoopZeroGroup(b4, 21, 0);
    Varint32LoopZeroGroup(b3, 14, 0);
    Varint32LoopZeroGroup(b2, 7, 0);
    assert b[1..] == b1;
    assert b == [0x80, 0x80, 0x80, 0x80, 0x88, 0x80, 0x80, 0x80, 0x80, 0x01];
    PayloadOfExample();
  }

  lemma LastExtensionByte()
    ensures Varint32Loop([0x01], 63, 0x8000_0000) == Some((0x8000_0000, 1))
  {
  }

  lemma TopBitGroup(t: ByteString)
    requires Varint32Loop(t, 35, 0x8000_0000) == Some((0x8000_0000, 5))
    ensures Varint32Loop([0x88] + t, 28, 0) == Some((0x8000_0000, 6))
  {
    hide OrInto, Pow2;
    PowersOf2();
    OrIntoAdds(0, 0x88, 28);
    assert ([0x88] + t)[1..] == t;
  }

  lemma PayloadOfExample()
    ensures var b: ByteString := [0x80, 0x80, 0x80, 0x80, 0x88, 0x80, 0x80, 0x80, 0x80, 0x01];
            VarintLength(b) == Some(10) && Payload(b) == 0x8000_0000_8000_0000
  {
    var b: ByteString := [0x80, 0x80, 0x80, 0x80, 0x88, 0x80, 0x80, 0x80, 0x80, 0x01];
    assert b[9..] == [0x01] && b[8..][1..] == b[9..] && b[7..][1..] == b[8..] && b[6..][1..] == b[7..];
    assert b[5..][1..] == b[6..] && b[4..][1..] == b[5..] && b[3..][1..] == b[4..] && b[2..][1..] == b[3..];
    assert b[1..][1..] == b[2..];
  }

  // ----- zigzag ---------------------------------------------------------------------

  predicate IsInt64(v: int) { -0x8000_0000_0000_0000 <= v < 0x8000_0000_0000_0000 }

  /** Two's complement reading of a 64-bit word. */
  function ToInt64(w: nat): (v: int)
    requires w < TWO_64
    ensures IsInt64(v)
  {
    if w < TWO_63 then w else w - TWO_64
  }

  function ToUInt64(v: int): (w: nat)
    ensures w < TWO_64
  {
    v % TWO_64
  }

  /** pb_encode_svarint: ~((uint64_t)value << 1) for negative values, value << 1 otherwise. */
  function ZigZag(v: int): (w: nat)
    requires IsInt64(v)
    ensures w < TWO_64
  {
    if v < 0 then TWO_64 - 1 - ToUInt64(v) * 2 % TWO_64 else ToUInt64(v) * 2 % TWO_64
  }

  /** pb_decode_svarint: ~(value >> 1) for odd words, value >> 1 otherwise. */
  function UnZigZag(w: nat): (v: int)
    requires w < TWO_64
    ensures IsInt64(v)
  {
    if w % 2 == 1 then ToInt64(TWO_64 - 1 - w / 2) else ToInt64(w / 2)
  }

  /** Small magnitudes get small words, and the two directions undo each other. */
  lemma ZigZagRoundTrip(v: int)
    requires IsInt64(v)
    ensures ZigZag(v) == if v < 0 then -2 * v - 1 else 2 * v
    ensures UnZigZag(ZigZag(v)) == v
  {
  }

  lemma UnZigZagRoundTrip(w: nat)
    requires w < TWO_64
    ensures ZigZag(UnZigZag(w)) == w
  {
  }
}
