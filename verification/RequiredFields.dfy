/**
 The bitmap with which pb_decode_noinit checks that required fields were seen: word-wise
 comparison with all-ones masks decides exactly whether every index below the count is set.
 */
module RequiredFields {
  import opened Varint
  import opened Descriptor

  /** Bit j of the number w. */
  predicate Bit(w: nat, j: nat) {
    w / Pow2(j) % 2 == 1
  }

  lemma {:induction false} BitStep(w: nat, j: nat)
    requires j > 0
    ensures Bit(w, j) <==> Bit(w / 2, j - 1)
  {
    var p := Pow2(j - 1);
    DivTwice(w, p);
  }

  lemma DivTwice(w: nat, p: nat)
    requires p > 0
    ensures w / (2 * p) == w / 2 / p
  {
    var q, r := w / (2 * p), w % (2 * p);
    assert w == 2 * p * q + r;
    assert w / 2 == p * q + r / 2 by { assert w == 2 * (p * q) + r; }
    assert r / 2 < p;
    QuotientIs(w / 2, p, q, r / 2);
  }

  lemma QuotientIs(x: nat, p: nat, q: nat, r: nat)
    requires p > 0 && x == p * q + r && r < p
    ensures x / p == q
  {
    var d := x / p - q;
    assert x == p * (x / p) + x % p;
    assert p * d == r - x % p by { assert p * (x / p) - p * q == p * d; }
    assert d >= 1 ==> p * d >= p;
    assert d <= -1 ==> p * d <= p * -1;
  }

  /** words[i >> 5] |= 1 << (i & 31), on one word: exactly bit i is added. */
  lemma {:induction false} SetBit(w: nat, i: nat, j: nat)
    ensures Bit(BitOr(w, Pow2(i)), j) <==> Bit(w, j) || i == j
  {
    var v := BitOr(w, Pow2(i));
    assert v / 2 == BitOr(w / 2, Pow2(i) / 2) && v % 2 == (if w % 2 == 1 || Pow2(i) % 2 == 1 then 1 else 0) by { BitOrHalves(w, Pow2(i)); }
    assert Pow2(0) == 1;
    if i == 0 && j > 0 {
      BitStep(v, j);
      BitStep(w, j);
      assert BitOr(w / 2, 0) == w / 2;
    } else if i > 0 && j > 0 {
      BitStep(v, j);
      BitStep(w, j);
      assert Pow2(i) / 2 == Pow2(i - 1);
      SetBit(w / 2, i - 1, j - 1);
    }
  }

  lemma BitOrHalves(a: nat, b: nat)
    ensures BitOr(a, b) / 2 == BitOr(a / 2, b / 2)
    ensures BitOr(a, b) % 2 == if a % 2 == 1 || b % 2 == 1 then 1 else 0
  {
  }

  /** A word below 2^n is all ones exactly when each of its n bits is set. */
  lemma {:induction false} AllOnes(w: nat, n: nat)
    requires w < Pow2(n)
    ensures w == Pow2(n) - 1 <==> forall j :: 0 <= j < n ==> Bit(w, j)
  {
    if n == 0 {
    } else {
      AllOnes(w / 2, n - 1);
      assert Pow2(0) == 1;
      assert Bit(w, 0) <==> w % 2 == 1;
      forall j | 0 < j < n ensures Bit(w, j) <==> Bit(w / 2, j - 1) { BitStep(w, j); }
      if forall j :: 0 <= j < n ==> Bit(w, j) {
        forall j | 0 <= j < n - 1 ensures Bit(w / 2, j) { assert Bit(w, j + 1); }
      }
    }
  }

  /** allbits >> (32 - r). */
  lemma {:induction false} ShiftedOnes(n: nat, r: nat)
    requires r <= n
    ensures (Pow2(n) - 1) / Pow2(n - r) == Pow2(r) - 1
    decreases n - r
  {
    if r < n {
      ShiftedOnes(n - 1, r);
      DivTwice(Pow2(n) - 1, Pow2(n - 1 - r));
      assert (Pow2(n) - 1) / 2 == Pow2(n - 1) - 1;
    } else {
      assert Pow2(0) == 1;
    }
  }

  lemma ZeroDiv(p: nat)
    requires p > 0
    ensures 0 / p == 0
  {
  }

  /** A word none of whose bits at or above n is set is below 2^n. */
  lemma {:induction false} BelowPow(w: nat, n: nat, m: nat)
    requires w < Pow2(m) && n <= m
    requires forall j :: n <= j < m ==> !Bit(w, j)
    ensures w < Pow2(n)
    decreases m
  {
    if n == 0 {
      if m > 0 {
        forall j | 0 <= j < m - 1 ensures !Bit(w / 2, j) { BitStep(w, j + 1); assert !Bit(w, j + 1); }
        BelowPow(w / 2, 0, m - 1);
        assert Pow2(0) == 1 && !Bit(w, 0);
        assert w % 2 == 0;
      }
    } else {
      forall j | n - 1 <= j < m - 1 ensures !Bit(w / 2, j) { BitStep(w, j + 1); assert !Bit(w, j + 1); }
      BelowPow(w / 2, n - 1, m - 1);
    }
  }

  /** uint32_t fields_seen[(PB_MAX_REQUIRED_FIELDS + 31) / 32]. */
  class Tracker {
    var words: seq<nat>

    ghost predicate Valid()
      reads this
    {
      |words| == 2 && words[0] < TWO_32 && words[1] < TWO_32
    }

    /** The indices recorded so far. */
    ghost predicate Has(k: nat)
      requires Valid()
      reads this
    {
      k < PB_MAX_REQUIRED_FIELDS && Bit(words[k / 32], k % 32)
    }

    constructor ()
      ensures Valid() && forall k: nat :: !Has(k)
    {
      words := [0, 0];
      new;
      forall k: nat ensures !Has(k) {
        if k < PB_MAX_REQUIRED_FIELDS { ZeroDiv(Pow2(k % 32)); }
      }
    }

    method Mark(index: nat)
      requires Valid() && index < PB_MAX_REQUIRED_FIELDS
      modifies this
      ensures Valid() && forall k: nat :: Has(k) <==> old(Has(k)) || k == index
    {
      hide Bit, Pow2, BitOr;
      assert Pow2(32) == TWO_32 by { PowersOf2(); }
      PowBelow(index % 32, 32);
      BitOrBelow(words[index / 32], Pow2(index % 32), 32);
      words := words[index / 32 := BitOr(words[index / 32], Pow2(index % 32))];
      forall k: nat ensures Has(k) <==> old(Has(k)) || k == index {
        if k < PB_MAX_REQUIRED_FIELDS { SetBit(old(words[index / 32]), index % 32, k % 32); }
      }
    }

    /** The check after the loop, for the first count required fields. */
    method AllSeen(count: nat) returns (ok: bool)
      requires Valid() && forall k: nat :: Has(k) ==> k < count
      ensures ok <==> forall k :: 0 <= k < count && k < PB_MAX_REQUIRED_FIELDS ==> Has(k)
    {
      hide Bit, Pow2;
      var count := if count > PB_MAX_REQUIRED_FIELDS then PB_MAX_REQUIRED_FIELDS else count;
      var allbits := 0xFFFF_FFFF;
      var i := 0;
      while i < count / 32
        invariant 0 <= i <= count / 32
        invariant forall k: nat :: 0 <= k < 32 * i ==> Has(k)
      {
        WholeWord(words[i]);
        if words[i] != allbits {
          var j :| 0 <= j < 32 && !Bit(words[i], j);
          assert !Has(32 * i + j);
          return false;
        }
        forall k: nat | 32 * i <= k < 32 * i + 32 ensures Has(k) { assert Bit(words[i], k - 32 * i); }
        i := i + 1;
      }
      var r := count % 32;
      if r != 0 {
        var q := count / 32;
        forall j | r <= j < 32 ensures !Bit(words[q], j) { assert !Has(32 * q + j); }
        PartialWord(words[q], r);
        if words[q] != allbits / Pow2(32 - r) {
          var j :| 0 <= j < r && !Bit(words[q], j);
          assert !Has(32 * q + j);
          return false;
        }
        forall k: nat | 32 * q <= k < count ensures Has(k) { assert Bit(words[q], k - 32 * q); }
      }
      return true;
    }
  }

  lemma WholeWord(w: nat)
    requires w < TWO_32
    ensures w == 0xFFFF_FFFF <==> forall j :: 0 <= j < 32 ==> Bit(w, j)
  {
    hide Bit, Pow2;
    PowersOf2();
    AllOnes(w, 32);
  }

  lemma PartialWord(w: nat, r: nat)
    requires w < TWO_32 && r < 32 && forall j :: r <= j < 32 ==> !Bit(w, j)
    ensures w == 0xFFFF_FFFF / Pow2(32 - r) <==> forall j :: 0 <= j < r ==> Bit(w, j)
  {
    hide Bit, Pow2;
    PowersOf2();
    ShiftedOnes(32, r);
    BelowPow(w, r, 32);
    AllOnes(w, r);
  }

  lemma {:induction false} PowBelow(i: nat, n: nat)
    requires i < n
    ensures Pow2(i) < Pow2(n)
    decreases n
  {
    if i + 1 < n { PowBelow(i, n - 1); }
  }
}
