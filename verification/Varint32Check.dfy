/**
 Which encodings the 32-bit varint decoder accepts (pb_decode.c, pb_decode_varint32_eof), and
 when what it accepts is an extension of a 32-bit number at all.
 */
module Varint32Check {
  import opened Wrappers
  import opened ByteStrings
  import opened Varint

  /** The bytes from position i on pass the check that the loop makes from bit 32 on. */
  predicate ExtensionOk(b: ByteString, n: nat, w: nat)
    requires n <= |b|
  {
    forall i :: 5 <= i < n ==> ExtensionByteOk(b[i], 7 * i, w)
  }

  /** From bit position 35 on, exactly the extension check decides. */
  lemma {:induction false} TailAccepts(b: ByteString, bitpos: nat, w: nat)
    requires bitpos in {35, 42, 49, 56, 63} && w < TWO_32
    requires VarintLength(b).Some? && bitpos + 7 * VarintLength(b).value <= 70
    ensures Varint32Loop(b, bitpos, w).Some? <==>
            forall i :: 0 <= i < VarintLength(b).value ==> ExtensionByteOk(b[i], bitpos + 7 * i, w)
  {
    hide OrInto, ExtensionByteOk;
    var n := VarintLength(b).value;
    if b[0] >= 128 {
      TailAccepts(b[1..], bitpos + 7, w);
      forall i | 1 <= i < n
        ensures ExtensionByteOk(b[i], bitpos + 7 * i, w) <==> ExtensionByteOk(b[1..][i - 1], bitpos + 7 + 7 * (i - 1), w)
      {
      }
      if Varint32Loop(b, bitpos, w).Some? {
        forall i | 0 <= i < n ensures ExtensionByteOk(b[i], bitpos + 7 * i, w) {
        }
      } else if ExtensionByteOk(b[0], bitpos, w) {
        var i :| 0 <= i < n - 1 && !ExtensionByteOk(b[1..][i], bitpos + 7 + 7 * i, w);
        assert !ExtensionByteOk(b[i + 1], bitpos + 7 * (i + 1), w);
      }
    }
  }

  /** The bytes from position m on pass the check, when position 0 is at bitpos. */
  ghost predicate PassFrom(b: ByteString, m: nat, n: nat, bitpos: nat, w: nat) {
    forall i :: m <= i < n && i < |b| ==> ExtensionByteOk(b[i], bitpos + 7 * i, w)
  }

  /** How many bytes of the multi-byte loop still add to the result. */
  function Adding(bitpos: nat): nat {
    if bitpos < 35 then (35 - bitpos) / 7 else 0
  }

  /** The loop's verdict, from a bit position below 32 on. */
  lemma {:induction false} LoopAccepts(b: ByteString, bitpos: nat, result: nat)
    requires bitpos in {7, 14, 21, 28} && result < TWO_32 && result < Pow2(bitpos)
    requires VarintLength(b).Some? && bitpos + 7 * VarintLength(b).value <= 70
    ensures var n, m, w := VarintLength(b).value, Adding(bitpos), (result + Payload(b) * Pow2(bitpos)) % TWO_32;
            Varint32Loop(b, bitpos, result).Some? <==>
              (n == m ==> b[m - 1] / 16 % 8 == 0) && PassFrom(b, m, n, bitpos, w)
  {
    hide Pow2, OrInto, ExtensionByteOk, PassFrom;
    OrIntoAdds(result, b[0], bitpos);
    var n, m, w := VarintLength(b).value, Adding(bitpos), (result + Payload(b) * Pow2(bitpos)) % TWO_32;
    if b[0] >= 128 {
      PassShifts(b, m, n, bitpos, w);
      if bitpos < 28 {
        var next := OrInto(result, b[0], bitpos);
        assert next + Payload(b[1..]) * Pow2(bitpos + 7) == result + Payload(b) * Pow2(bitpos) by {
          Regroup(b[0] - 128, Payload(b[1..]), Pow2(bitpos));
          Pow2Step(bitpos);
        }
        LoopAccepts(b[1..], bitpos + 7, next);
      } else {
        LastAddingGroup(b, result);
      }
    } else {
      NothingToPass(b, m, n, bitpos, w);
    }
  }

  lemma NothingToPass(b: ByteString, m: nat, n: nat, bitpos: nat, w: nat)
    requires n <= m
    ensures PassFrom(b, m, n, bitpos, w)
  {
  }

  /** The fifth group, when more follow: the result is the low word, and the rest is checked against it. */
  lemma LastAddingGroup(b: ByteString, result: nat)
    requires result < Pow2(28) && result < TWO_32
    requires VarintLength(b).Some? && 28 + 7 * VarintLength(b).value <= 70 && b[0] >= 128
    ensures var n, w := VarintLength(b).value, (result + Payload(b) * Pow2(28)) % TWO_32;
            Varint32Loop(b, 28, result).Some? <==> PassFrom(b[1..], 0, n - 1, 35, w)
  {
    hide Pow2, OrInto, ExtensionByteOk, PassFrom;
    OrIntoAdds(result, b[0], 28);
    var n, w, next := VarintLength(b).value, (result + Payload(b) * Pow2(28)) % TWO_32, OrInto(result, b[0], 28);
    var g, q := b[0] - 128, Payload(b[1..]);
    assert w == next by {
      Regroup(g, q, Pow2(28));
      PowersOf2();
      DropMultiple(result + g * Pow2(28), 8 * q);
    }
    TailAccepts(b[1..], 35, next);
    PassIsTail(b[1..], n - 1, 35, w);
  }

  lemma PassShifts(b: ByteString, m: nat, n: nat, bitpos: nat, w: nat)
    requires b != [] && 0 < m && 0 < n <= |b|
    ensures PassFrom(b, m, n, bitpos, w) <==> PassFrom(b[1..], m - 1, n - 1, bitpos + 7, w)
  {
    hide ExtensionByteOk;
    if PassFrom(b, m, n, bitpos, w) {
      forall i | m - 1 <= i < n - 1 && i < |b[1..]| ensures ExtensionByteOk(b[1..][i], bitpos + 7 + 7 * i, w) {
        assert ExtensionByteOk(b[i + 1], bitpos + 7 * (i + 1), w);
      }
    }
    if PassFrom(b[1..], m - 1, n - 1, bitpos + 7, w) {
      forall i | m <= i < n && i < |b| ensures ExtensionByteOk(b[i], bitpos + 7 * i, w) {
        assert ExtensionByteOk(b[1..][i - 1], bitpos + 7 + 7 * (i - 1), w);
      }
    }
  }

  lemma PassIsTail(b: ByteString, n: nat, bitpos: nat, w: nat)
    requires n <= |b|
    ensures PassFrom(b, 0, n, bitpos, w) <==> forall i :: 0 <= i < n ==> ExtensionByteOk(b[i], bitpos + 7 * i, w)
  {
    hide ExtensionByteOk;
  }

  /**
   Exactly what pb_decode_varint32 accepts among the terminated encodings of at most ten
   bytes: up to four bytes everything; of five bytes those whose last byte keeps within four
   bits; beyond that those whose further bytes pass the extension check against the low word.
   */
  lemma Varint32Accepts(b: ByteString)
    requires VarintLength(b).Some? && VarintLength(b).value <= 10
    ensures var n := VarintLength(b).value;
            DecodeVarint32(b).Some? <==>
              (n == 5 ==> b[4] / 16 % 8 == 0) && ExtensionOk(b, n, Payload(b) % TWO_32)
  {
    hide Pow2, OrInto, Varint32Loop, ExtensionByteOk;
    var n, w := VarintLength(b).value, Payload(b) % TWO_32;
    if b[0] >= 128 {
      assert Pow2(7) == 128 by { Pow2Step(0); Pow2Zero(); }
      LoopAccepts(b[1..], 7, b[0] - 128);
      assert b[0] - 128 + Payload(b[1..]) * Pow2(7) == Payload(b);
      PassShifts(b, 5, n, 0, w);
      PassIsExtension(b, n, w);
    }
  }

  lemma PassIsExtension(b: ByteString, n: nat, w: nat)
    requires n <= |b|
    ensures PassFrom(b, 5, n, 0, w) <==> ExtensionOk(b, n, w)
  {
    hide ExtensionByteOk;
    if PassFrom(b, 5, n, 0, w) {
      forall i | 5 <= i < n ensures ExtensionByteOk(b[i], 7 * i, w) { assert ExtensionByteOk(b[i], 0 + 7 * i, w); }
    }
    if ExtensionOk(b, n, w) {
      forall i | 5 <= i < n && i < |b| ensures ExtensionByteOk(b[i], 0 + 7 * i, w) { assert ExtensionByteOk(b[i], 7 * i, w); }
    }
  }

  // ----- five groups ------------------------------------------------------------------------------

  /** The seven bits of a byte. */
  function Group(byte: Byte): nat {
    byte as int % 128
  }

  lemma PayloadStep(b: ByteString)
    requires VarintLength(b).Some? && VarintLength(b).value > 1
    ensures Payload(b) == Group(b[0]) + 128 * Payload(b[1..])
    ensures VarintLength(b[1..]) == Some(VarintLength(b).value - 1)
  {
  }

  /** The first four groups and the rest of an encoding. */
  lemma FourGroups(b: ByteString)
    requires VarintLength(b).Some? && VarintLength(b).value > 4
    ensures Payload(b) == Group(b[0]) + 128 * Group(b[1]) + 0x4000 * Group(b[2]) + 0x20_0000 * Group(b[3])
                          + 0x1000_0000 * Payload(b[4..])
    ensures VarintLength(b[4..]) == Some(VarintLength(b).value - 4)
  {
    hide Payload, VarintLength;
    var t1, t2, t3 := b[1..], b[2..], b[3..];
    PayloadStep(b);
    assert t1[1..] == t2 && t2[1..] == t3 && t3[1..] == b[4..];
    PayloadStep(t1);
    PayloadStep(t2);
    PayloadStep(t3);
  }

  /** The first five groups and the rest of an encoding. */
  lemma FiveGroups(b: ByteString)
    requires VarintLength(b).Some? && VarintLength(b).value > 5
    ensures Payload(b) == Group(b[0]) + 128 * Group(b[1]) + 0x4000 * Group(b[2]) + 0x20_0000 * Group(b[3])
                          + 0x1000_0000 * Group(b[4]) + 0x8_0000_0000 * Payload(b[5..])
    ensures VarintLength(b[5..]) == Some(VarintLength(b).value - 5)
  {
    hide Payload, VarintLength;
    FourGroups(b);
    PayloadStep(b[4..]);
    assert b[4..][1..] == b[5..];
  }

  lemma {:induction false} ShortPayload(b: ByteString)
    requires VarintLength(b).Some?
    ensures Payload(b) < Pow2(7 * VarintLength(b).value)
    ensures VarintLength(b).value > 1 ==> Payload(b) == b[0] % 128 + 128 * Payload(b[1..])
  {
    assert Pow2(7) == 128 by { Pow2Step(0); Pow2Zero(); }
    if b[0] >= 128 {
      ShortPayload(b[1..]);
      Pow2Step(7 * (VarintLength(b).value - 1));
    }
  }

  /** Up to five bytes the decoder accepts exactly the numbers below 2^32. */
  lemma Varint32ExactUpToFive(b: ByteString)
    requires VarintLength(b).Some? && VarintLength(b).value <= 5
    ensures DecodeVarint32(b).Some? <==> Payload(b) < TWO_32
  {
    hide Pow2, OrInto, Varint32Loop, ExtensionByteOk, DecodeVarint32;
    Varint32Accepts(b);
    var n := VarintLength(b).value;
    if n < 5 {
      ShortPayload(b);
      assert Pow2(7 * n) <= 0x1000_0000 by { PowersOf2(); assert n in {1, 2, 3, 4}; }
    } else {
      FiveBytes(b);
    }
  }

  lemma FiveBytes(b: ByteString)
    requires VarintLength(b) == Some(5)
    ensures Payload(b) < TWO_32 <==> b[4] / 16 % 8 == 0
  {
    FourGroups(b);
    assert Payload(b[4..]) == b[4] < 128;
  }

  // ----- extensions -------------------------------------------------------------------------------

  /** v is its low word, or its low word sign-extended to 64 bits. */
  predicate IsExtension(v: nat) {
    var w := v % TWO_32;
    v == w || (w >= 0x8000_0000 && v == w + (TWO_64 - TWO_32))
  }

  /** The largest number that fits above bit position bitpos of a 64-bit word. */
  function Highest(bitpos: nat): nat {
    if bitpos == 35 then 0x1FFF_FFFF else if bitpos == 42 then 0x3F_FFFF else if bitpos == 49 then 0x7FFF
    else if bitpos == 56 then 0xFF else 1
  }

  /** Every byte of the tail has its low seven bits clear. */
  ghost predicate AllClear(b: ByteString, n: nat) {
    forall i :: 0 <= i < n && i < |b| ==> b[i] % 128 == 0
  }

  /** The tail of a sign extension: every bit up to bit 63 is set. */
  ghost predicate AllSet(b: ByteString, n: nat, bitpos: nat) {
    && bitpos + 7 * n == 70 && n <= |b|
    && forall i :: 0 <= i < n ==> b[i] == if bitpos + 7 * i < 63 then 0xFF else 0x01
  }

  lemma {:induction false} TailValue(b: ByteString, bitpos: nat, w: nat)
    requires bitpos in {35, 42, 49, 56, 63}
    requires VarintLength(b).Some? && bitpos + 7 * VarintLength(b).value <= 70
    requires PassFrom(b, 0, VarintLength(b).value, bitpos, w)
    ensures Payload(b) <= Highest(bitpos)
    ensures Payload(b) == 0 <==> AllClear(b, VarintLength(b).value)
    ensures Payload(b) == Highest(bitpos) <==> AllSet(b, VarintLength(b).value, bitpos)
  {
    hide AllClear, AllSet, PassFrom;
    var n := VarintLength(b).value;
    FirstPasses(b, n, bitpos, w);
    if b[0] >= 128 {
      PassesRest(b, n, bitpos, w);
      TailValue(b[1..], bitpos + 7, w);
      TailSteps(b, n, bitpos);
      assert Highest(bitpos) == 127 + 128 * Highest(bitpos + 7);
    } else {
      OneByteTail(b, bitpos);
    }
  }

  lemma FirstPasses(b: ByteString, n: nat, bitpos: nat, w: nat)
    requires PassFrom(b, 0, n, bitpos, w) && 0 < n <= |b|
    ensures b[0] % 128 == 0 || b[0] == if bitpos < 63 then 0xFF else 0x01
  {
    assert ExtensionByteOk(b[0], bitpos + 7 * 0, w);
  }

  lemma PassesRest(b: ByteString, n: nat, bitpos: nat, w: nat)
    requires PassFrom(b, 0, n, bitpos, w) && 0 < n <= |b|
    ensures PassFrom(b[1..], 0, n - 1, bitpos + 7, w)
  {
    hide ExtensionByteOk;
    forall i | 0 <= i < n - 1 && i < |b[1..]| ensures ExtensionByteOk(b[1..][i], bitpos + 7 + 7 * i, w) {
      assert ExtensionByteOk(b[i + 1], bitpos + 7 * (i + 1), w);
    }
  }

  lemma TailSteps(b: ByteString, n: nat, bitpos: nat)
    requires 1 < n <= |b| && bitpos + 7 * n <= 70
    ensures AllClear(b, n) <==> b[0] % 128 == 0 && AllClear(b[1..], n - 1)
    ensures AllSet(b, n, bitpos) <==> b[0] == 0xFF && AllSet(b[1..], n - 1, bitpos + 7)
  {
    var t := b[1..];
    if b[0] % 128 == 0 && AllClear(t, n - 1) {
      forall i | 0 <= i < n ensures b[i] % 128 == 0 { if i > 0 { assert t[i - 1] % 128 == 0; } }
    }
    if AllClear(b, n) {
      forall i | 0 <= i < n - 1 ensures t[i] % 128 == 0 { assert b[i + 1] % 128 == 0; }
    }
    if b[0] == 0xFF && AllSet(t, n - 1, bitpos + 7) {
      forall i | 0 <= i < n ensures b[i] == if bitpos + 7 * i < 63 then 0xFF else 0x01 {
        if i > 0 { assert t[i - 1] == if bitpos + 7 + 7 * (i - 1) < 63 then 0xFF else 0x01; }
      }
    }
    if AllSet(b, n, bitpos) {
      forall i | 0 <= i < n - 1 ensures t[i] == if bitpos + 7 + 7 * i < 63 then 0xFF else 0x01 {
        assert b[i + 1] == if bitpos + 7 * (i + 1) < 63 then 0xFF else 0x01;
      }
    }
  }

  lemma OneByteTail(b: ByteString, bitpos: nat)
    requires b != [] && b[0] < 128 && bitpos in {35, 42, 49, 56, 63}
    requires b[0] == 0 || (bitpos == 63 && b[0] == 1)
    ensures b[0] <= Highest(bitpos)
    ensures b[0] == 0 <==> AllClear(b, 1)
    ensures b[0] == Highest(bitpos) <==> AllSet(b, 1, bitpos)
  {
  }

  /** Bits 32 to 34, in the fifth byte, which no check looks at when more bytes follow. */
  function UncheckedBits(b: ByteString): nat
    requires |b| > 4
  {
    b[4] as int / 16 % 8
  }

  /** What the bytes of an extension look like. */
  ghost predicate LooksExtended(b: ByteString, n: nat) {
    n > 5 && n <= |b| ==>
      || (UncheckedBits(b) == 0 && AllClear(b[5..], n - 5))
      || (UncheckedBits(b) == 7 && AllSet(b[5..], n - 5, 35))
  }

  /**
   The overflow check is meant to let zero and sign extensions of 32-bit numbers pass.  What
   it lets pass is one if and only if the three bits it does not look at agree with the
   bytes behind them: all clear, or all set up to bit 63.
   */
  lemma AcceptedIsExtensionIff(b: ByteString)
    requires VarintLength(b).Some? && VarintLength(b).value <= 10 && DecodeVarint32(b).Some?
    ensures DecodeVarint(b).Some?
    ensures IsExtension(DecodeVarint(b).value.0) <==> LooksExtended(b, VarintLength(b).value)
  {
    hide Pow2, OrInto, Varint32Loop, ExtensionByteOk, DecodeVarint32, ExtensionOk, AllClear, AllSet, Payload, VarintLength;
    var n := VarintLength(b).value;
    if n <= 5 {
      Varint32ExactUpToFive(b);
    } else {
      Varint32Accepts(b);
      LongExtensionIff(b);
    }
  }

  lemma LongExtensionIff(b: ByteString)
    requires VarintLength(b).Some? && 5 < VarintLength(b).value <= 10
    requires ExtensionOk(b, VarintLength(b).value, Payload(b) % TWO_32)
    ensures Payload(b) < TWO_64
    ensures IsExtension(Payload(b)) <==> LooksExtended(b, VarintLength(b).value)
  {
    hide ExtensionByteOk, ExtensionOk, PassFrom, AllClear, AllSet, Payload, VarintLength, LowBits;
    var n, w, T := VarintLength(b).value, Payload(b) % TWO_32, Payload(b[5..]);
    ExtensionTail(b, n, w);
    TailValue(b[5..], 35, w);
    SplitWord(b);
    HighWord(Payload(b), LowBits(b), UncheckedBits(b), T);
    if T == 0x1FFF_FFFF {
      SetNeedsSign(b, n, w);
    }
  }

  /** The 32 bits that the loop puts together from the first five groups. */
  function LowBits(b: ByteString): nat
    requires |b| > 4
  {
    Group(b[0]) + 128 * Group(b[1]) + 0x4000 * Group(b[2]) + 0x20_0000 * Group(b[3]) + 0x1000_0000 * (b[4] as int % 16)
  }

  lemma SplitWord(b: ByteString)
    requires VarintLength(b).Some? && VarintLength(b).value > 5
    ensures LowBits(b) < TWO_32 && UncheckedBits(b) < 8
    ensures Payload(b) == LowBits(b) + TWO_32 * UncheckedBits(b) + 0x8_0000_0000 * Payload(b[5..])
  {
    FiveGroups(b);
    FifthByte(b[4]);
  }

  lemma FifthByte(g: nat)
    requires g < 256
    ensures g % 128 == g % 16 + 16 * (g / 16 % 8)
  {
  }

  lemma ExtensionTail(b: ByteString, n: nat, w: nat)
    requires 5 < n <= |b| && ExtensionOk(b, n, w) && VarintLength(b) == Some(n)
    ensures PassFrom(b[5..], 0, n - 5, 35, w) && VarintLength(b[5..]) == Some(n - 5)
  {
    hide ExtensionByteOk;
    FiveGroups(b);
    forall i | 0 <= i < n - 5 && i < |b[5..]| ensures ExtensionByteOk(b[5..][i], 35 + 7 * i, w) {
      assert ExtensionByteOk(b[i + 5], 7 * (i + 5), w);
    }
  }

  lemma SetNeedsSign(b: ByteString, n: nat, w: nat)
    requires 5 < n <= |b| && ExtensionOk(b, n, w) && AllSet(b[5..], n - 5, 35)
    ensures w >= 0x8000_0000
  {
    assert b[5] == b[5..][0] == 0xFF && ExtensionByteOk(b[5], 7 * 5, w);
  }

  lemma HighWord(v: nat, low: nat, mid: nat, T: nat)
    requires low < TWO_32 && mid < 8 && T <= 0x1FFF_FFFF && v == low + TWO_32 * mid + 0x8_0000_0000 * T
    ensures v < TWO_64 && v % TWO_32 == low
    ensures v == low <==> mid == 0 && T == 0
    ensures v == low + (TWO_64 - TWO_32) <==> mid == 7 && T == 0x1FFF_FFFF
  {
    assert v == low + TWO_32 * (mid + 8 * T);
  }
}
