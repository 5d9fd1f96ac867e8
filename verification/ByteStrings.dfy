/** Bytes, and the little-endian fixed-width integers both libraries store in them. */
module ByteStrings {

  type Byte = b: int | 0 <= b < 256

  type ByteString = seq<Byte>

  function Pow256(n: nat): (p: nat)
    ensures p > 0
  {
    if n == 0 then 1 else 256 * Pow256(n - 1)
  }

  /** The n low-order bytes of v, least significant first (EncodeFixed64, pb_encode_fixed32, ...). */
  function ToFixed(v: nat, n: nat): (b: ByteString)
    ensures |b| == n
  {
    if n == 0 then [] else [v % 256] + ToFixed(v / 256, n - 1)
  }

  /** The number whose little-endian bytes are b (DecodeFixed64, pb_decode_fixed32, ...). */
  function FromFixed(b: ByteString): (v: nat)
    ensures v < Pow256(|b|)
  {
    if b == [] then 0 else b[0] + 256 * FromFixed(b[1..])
  }

  lemma {:induction false} FromToFixed(v: nat, n: nat)
    requires v < Pow256(n)
    ensures FromFixed(ToFixed(v, n)) == v
  {
    if n > 0 {
      FromToFixed(v / 256, n - 1);
      assert ToFixed(v, n)[1..] == ToFixed(v / 256, n - 1);
    }
  }

  lemma {:induction false} ToFromFixed(b: ByteString)
    ensures ToFixed(FromFixed(b), |b|) == b
  {
    if b != [] {
      ToFromFixed(b[1..]);
      assert b == [b[0]] + b[1..];
    }
  }

  // ----- the same numbers, byte by byte -------------------------------------------------

  /** The little-endian 32-bit number b. */
  function Word(b: ByteString): (v: nat)
    requires |b| == 4
  {
    b[0] as int + 0x100 * (b[1] as int) + 0x1_0000 * (b[2] as int) + 0x100_0000 * (b[3] as int)
  }

  /** The little-endian 64-bit number b. */
  function DoubleWord(b: ByteString): (v: nat)
    requires |b| == 8
  {
    Word(b[..4]) + 0x1_0000_0000 * Word(b[4..])
  }

  lemma FourBytes(b: ByteString)
    requires |b| == 4
    ensures FromFixed(b) == Word(b)
  {
    assert b[1..][1..] == b[2..] && b[2..][1..] == b[3..] && b[3..][1..] == [];
    assert FromFixed(b[3..]) == b[3] && FromFixed(b[2..]) == b[2] as int + 256 * (b[3] as int);
  }

  lemma EightBytes(b: ByteString)
    requires |b| == 8
    ensures FromFixed(b) == DoubleWord(b)
  {
    hide Word, FromFixed;
    FromFixedSplit(b, 4);
    PowersOf256();
    FourBytes(b[..4]);
    FourBytes(b[4..]);
  }

  lemma {:induction false} FromFixedSplit(b: ByteString, n: nat)
    requires n <= |b|
    ensures FromFixed(b) == FromFixed(b[..n]) + Pow256(n) * FromFixed(b[n..])
  {
    if n == 0 {
      assert b[0..] == b;
    } else {
      var x, p, y := FromFixed(b[1..][..n - 1]), Pow256(n - 1), FromFixed(b[n..]);
      FromFixedSplit(b[1..], n - 1);
      assert b[1..][..n - 1] == b[..n][1..] && b[1..][n - 1..] == b[n..];
      assert FromFixed(b) == b[0] as int + 256 * (x + p * y);
      assert FromFixed(b[..n]) == b[0] as int + 256 * x;
      hide FromFixed;
      Scale(p, y);
    }
  }

  lemma Scale(p: nat, x: nat)
    ensures 256 * (p * x) == 256 * p * x
  {
  }

  lemma PowersOf256()
    ensures Pow256(4) == 0x1_0000_0000
    ensures Pow256(8) == 0x1_0000_0000_0000_0000
  {
    assert Pow256(2) == 65536;
    assert Pow256(4) == 0x1_0000_0000;
    assert Pow256(6) == 0x1_0000_0000_0000;
  }
}
