/**
 Internal keys at byte level (db/dbformat.h, db/dbformat.cc) and the built-in comparator
 (util/comparator.cc): parsing undoes packing, the comparator is a total order with the
 meaning History relies on, and shortened index keys stay in their interval.
 */
module DbFormat {
  import opened Wrappers
  import opened ByteStrings
  import H = History

  const MAX_SEQUENCE: nat := H.MAX_SEQUENCE
  const VALUE_TYPE_FOR_SEEK := H.TypeValue

  datatype ParsedInternalKey = ParsedInternalKey(userKey: ByteString, sequence: nat, kind: H.ValueType) {
    /** What PackSequenceAndType asserts of its arguments. */
    predicate InRange() { sequence <= MAX_SEQUENCE }
  }

  function TypeCode(t: H.ValueType): nat {
    if t.TypeValue? then 1 else 0
  }

  /** The 64-bit tag of an internal key. */
  function PackSequenceAndType(sequence: nat, t: H.ValueType): (tag: nat)
    requires sequence <= MAX_SEQUENCE
    ensures tag < 0x1_0000_0000_0000_0000
  {
    sequence * 256 + TypeCode(t)
  }

  function EncodeKey(p: ParsedInternalKey): ByteString
    requires p.InRange()
  {
    p.userKey + ToFixed(PackSequenceAndType(p.sequence, p.kind), 8)
  }

  function ExtractUserKey(key: ByteString): ByteString
    requires |key| >= 8
  {
    key[..|key| - 8]
  }

  function ExtractTag(key: ByteString): nat
    requires |key| >= 8
  {
    FromFixed(key[|key| - 8..])
  }

  function ParseInternalKey(key: ByteString): Option<ParsedInternalKey> {
    if |key| < 8 then None
    else
      var num := ExtractTag(key);
      var c := num % 256;
      if c > TypeCode(H.TypeValue) then None
      else Some(ParsedInternalKey(ExtractUserKey(key), num / 256, if c == 1 then H.TypeValue else H.TypeDeletion))
  }

  lemma EncodeKeyParts(p: ParsedInternalKey)
    requires p.InRange()
    ensures |EncodeKey(p)| == |p.userKey| + 8
    ensures ExtractUserKey(EncodeKey(p)) == p.userKey
    ensures ExtractTag(EncodeKey(p)) == PackSequenceAndType(p.sequence, p.kind)
  {
    var tag := PackSequenceAndType(p.sequence, p.kind);
    PowersOf256();
    FromToFixed(tag, 8);
    assert EncodeKey(p)[|p.userKey|..] == ToFixed(tag, 8);
  }

  /** Packing then parsing returns the parts, for every key packing accepts. */
  lemma ParseOfEncode(p: ParsedInternalKey)
    requires p.InRange()
    ensures ParseInternalKey(EncodeKey(p)) == Some(p)
  {
    EncodeKeyParts(p);
  }

  /** Parsing accepts only what packing produces. */
  lemma EncodeOfParse(key: ByteString)
    ensures ParseInternalKey(key).Some? ==>
              ParseInternalKey(key).value.InRange() && EncodeKey(ParseInternalKey(key).value) == key
  {
    if ParseInternalKey(key).Some? {
      var p := ParseInternalKey(key).value;
      PowersOf256();
      ToFromFixed(key[|key| - 8..]);
      assert p.sequence * 256 + TypeCode(p.kind) == ExtractTag(key);
      assert key == key[..|key| - 8] + key[|key| - 8..];
    }
  }

  /** The bytes behind the user key: the type, then the seven bytes of the sequence number, the lowest first. */
  lemma KeyBytes(p: ParsedInternalKey)
    requires p.InRange()
    ensures var b, n := EncodeKey(p), |p.userKey|;
            && |b| == n + 8 && b[..n] == p.userKey
            && b[n] == (match p.kind case TypeDeletion => 0 case TypeValue => 1)
            && p.sequence == DoubleWord(b[n + 1..] + [0])
  {
    var tag, b, n := PackSequenceAndType(p.sequence, p.kind), EncodeKey(p), |p.userKey|;
    var t := ToFixed(tag, 8);
    assert b[n..] == t && b[n] == t[0] && b[n + 1..] == t[1..];
    PowersOf256();
    assert t[1..] == ToFixed(p.sequence, 7);
    FromFixedSplit(t[1..] + [0], 7);
    assert (t[1..] + [0])[..7] == t[1..] && (t[1..] + [0])[7..] == [0];
    FromToFixed(p.sequence, 7) by { assert Pow256(8) == 256 * Pow256(7); }
    EightBytes(t[1..] + [0]);
  }

  // ----- comparators -------------------------------------------------------------

  /** A user comparator: its three-way comparison and its two shortening hooks. */
  datatype Comparator = Comparator(
    compare: (ByteString, ByteString) -> int,
    separator: (ByteString, ByteString) -> ByteString,
    successor: ByteString -> ByteString)

  function Sign(x: int): int {
    if x < 0 then -1 else if x == 0 then 0 else 1
  }

  ghost predicate TotalPreorder(compare: (ByteString, ByteString) -> int) {
    && (forall a, b :: Sign(compare(a, b)) == -Sign(compare(b, a)))
    && (forall a, b, c :: compare(a, b) <= 0 && compare(b, c) <= 0 ==> compare(a, c) <= 0)
  }

  /** What the Comparator interface promises about the shortening hooks. */
  ghost predicate ShortensSoundly(c: Comparator) {
    && (forall start, limit :: c.compare(start, limit) < 0 ==>
          c.compare(start, c.separator(start, limit)) <= 0 && c.compare(c.separator(start, limit), limit) < 0)
    && (forall start, limit :: c.compare(start, limit) == 0 ==> c.separator(start, limit) == start)
    && (forall key :: c.compare(key, c.successor(key)) <= 0)
  }

  ghost predicate IsComparator(c: Comparator) {
    TotalPreorder(c.compare) && ShortensSoundly(c)
  }

  /** InternalKeyComparator::Compare. */
  function Compare(c: Comparator, a: ByteString, b: ByteString): int
    requires |a| >= 8 && |b| >= 8
  {
    var r := c.compare(ExtractUserKey(a), ExtractUserKey(b));
    if r == 0 then
      if ExtractTag(a) > ExtractTag(b) then -1
      else if ExtractTag(a) < ExtractTag(b) then 1
      else 0
    else r
  }

  /** Internal keys are totally ordered as soon as user keys are. */
  lemma CompareIsTotal(c: Comparator, x: ByteString, y: ByteString, z: ByteString)
    requires TotalPreorder(c.compare) && |x| >= 8 && |y| >= 8 && |z| >= 8
    ensures Sign(Compare(c, x, y)) == -Sign(Compare(c, y, x))
    ensures Compare(c, x, y) <= 0 && Compare(c, y, z) <= 0 ==> Compare(c, x, z) <= 0
    ensures Compare(c, x, y) == 0 <==>
            c.compare(ExtractUserKey(x), ExtractUserKey(y)) == 0 && x[|x| - 8..] == y[|y| - 8..]
  {
    var kx, ky, kz := ExtractUserKey(x), ExtractUserKey(y), ExtractUserKey(z);
    assert Sign(c.compare(kx, ky)) == -Sign(c.compare(ky, kx));
    assert Sign(c.compare(ky, kz)) == -Sign(c.compare(kz, ky));
    assert Sign(c.compare(kx, kz)) == -Sign(c.compare(kz, kx));
    if c.compare(kx, ky) <= 0 && c.compare(ky, kz) <= 0 {
      if c.compare(kz, kx) <= 0 {
        assert c.compare(kz, ky) <= 0 && c.compare(ky, kx) <= 0;
      }
    }
    ToFromFixed(x[|x| - 8..]);
    ToFromFixed(y[|y| - 8..]);
  }

  /** On packed keys the order is user key up, then sequence down, then type down. */
  lemma CompareMeaning(c: Comparator, p: ParsedInternalKey, q: ParsedInternalKey)
    requires p.InRange() && q.InRange()
    ensures Compare(c, EncodeKey(p), EncodeKey(q)) < 0 <==>
            || c.compare(p.userKey, q.userKey) < 0
            || (c.compare(p.userKey, q.userKey) == 0 && p.sequence > q.sequence)
            || (c.compare(p.userKey, q.userKey) == 0 && p.sequence == q.sequence
                && p.kind.TypeValue? && q.kind.TypeDeletion?)
  {
    EncodeKeyParts(p);
    EncodeKeyParts(q);
  }

  /** The key a reader at sequence s seeks to sorts at or before exactly the entries it may see. */
  lemma SeekKeySplitsVisible(c: Comparator, k: ByteString, s: nat, p: ParsedInternalKey)
    requires TotalPreorder(c.compare) && s <= MAX_SEQUENCE && p.InRange() && c.compare(k, p.userKey) == 0
    ensures Compare(c, EncodeKey(ParsedInternalKey(k, s, VALUE_TYPE_FOR_SEEK)), EncodeKey(p)) <= 0
            <==> p.sequence <= s
  {
    EncodeKeyParts(ParsedInternalKey(k, s, VALUE_TYPE_FOR_SEEK));
    EncodeKeyParts(p);
  }

  // ----- ranks ---------------------------------------------------------------------

  /** A ranking of the user keys in K that agrees with the user comparator. */
  ghost predicate RanksOn(c: Comparator, rank: ByteString -> int, K: set<ByteString>) {
    forall a, b :: a in K && b in K ==> Sign(c.compare(a, b)) == Sign(rank(a) - rank(b))
  }

  /** The keys of K that come before k. */
  ghost function Before(c: Comparator, K: set<ByteString>, k: ByteString): set<ByteString> {
    set x | x in K && c.compare(x, k) < 0
  }

  /** The rank of a key in K: how many keys of K come before it. */
  ghost function RankIn(c: Comparator, K: set<ByteString>): ByteString -> int {
    k => |Before(c, K, k)|
  }

  /** Any finite set of user keys can be ranked. */
  lemma RankExists(c: Comparator, K: set<ByteString>)
    requires TotalPreorder(c.compare)
    ensures RanksOn(c, RankIn(c, K), K)
  {
    forall a, b | a in K && b in K ensures Sign(c.compare(a, b)) == Sign(RankIn(c, K)(a) - RankIn(c, K)(b)) {
      RanksPair(c, K, a, b);
    }
  }

  lemma RanksPair(c: Comparator, K: set<ByteString>, a: ByteString, b: ByteString)
    requires TotalPreorder(c.compare) && a in K && b in K
    ensures Sign(c.compare(a, b)) == Sign(|Before(c, K, a)| - |Before(c, K, b)|)
  {
    hide Before;
    assert Sign(c.compare(a, b)) == -Sign(c.compare(b, a));
    if c.compare(a, b) < 0 {
      FewerBefore(c, K, a, b);
    } else if c.compare(a, b) > 0 {
      FewerBefore(c, K, b, a);
    } else {
      BeforeGrows(c, K, a, b);
      BeforeGrows(c, K, b, a);
      assert Before(c, K, a) == Before(c, K, b);
    }
  }

  lemma BeforeGrows(c: Comparator, K: set<ByteString>, a: ByteString, b: ByteString)
    requires TotalPreorder(c.compare) && c.compare(a, b) <= 0
    ensures Before(c, K, a) <= Before(c, K, b)
  {
    forall x | x in Before(c, K, a) ensures x in Before(c, K, b) {
      assert Sign(c.compare(x, b)) == -Sign(c.compare(b, x));
      if c.compare(b, x) <= 0 {
        assert c.compare(a, x) <= 0 && Sign(c.compare(a, x)) == -Sign(c.compare(x, a));
      }
    }
  }

  lemma FewerBefore(c: Comparator, K: set<ByteString>, a: ByteString, b: ByteString)
    requires TotalPreorder(c.compare) && a in K && c.compare(a, b) < 0
    ensures |Before(c, K, a)| < |Before(c, K, b)|
  {
    BeforeGrows(c, K, a, b);
    assert a in Before(c, K, b);
    assert a !in Before(c, K, a) by { assert Sign(c.compare(a, a)) == -Sign(c.compare(a, a)); }
    hide Before, TotalPreorder;
    SmallerByOne(Before(c, K, a), Before(c, K, b), a);
  }

  lemma SmallerByOne(A: set<ByteString>, B: set<ByteString>, x: ByteString)
    requires A <= B && x in B && x !in A
    ensures |A| < |B|
  {
    assert B == A + (B - A) && x in B - A;
  }

  /** Ranks are for finite sets of keys: between "" and "\x01" lie more strings than any ranking has room for. */
  lemma NoRankOfAllKeys(rank: ByteString -> int) returns (K: set<ByteString>)
    ensures !RanksOn(BYTEWISE, rank, K)
  {
    var n: nat := 1 + if rank([1]) >= rank([]) then rank([1]) - rank([]) else 0;
    K := {[1]} + AllZeros(n);
    AllZerosHas(n, n);
    assert BytewiseCompare(Zeros(n), [1]) < 0 by { assert n > 0 && Zeros(n)[0] == 0; }
    if RanksOn(BYTEWISE, rank, K) {
      ZerosClimb(rank, K, n, n);
    }
  }

  ghost function AllZeros(n: nat): set<ByteString> {
    if n == 0 then {[]} else AllZeros(n - 1) + {Zeros(n)}
  }

  lemma {:induction false} AllZerosHas(n: nat, i: nat)
    requires i <= n
    ensures Zeros(i) in AllZeros(n)
  {
    if i < n { AllZerosHas(n - 1, i); }
  }

  function Zeros(n: nat): ByteString {
    if n == 0 then [] else [0] + Zeros(n - 1)
  }

  lemma {:induction false} ZerosAscend(n: nat)
    ensures BytewiseCompare(Zeros(n), Zeros(n + 1)) < 0
  {
    if n > 0 {
      ZerosAscend(n - 1);
      assert Zeros(n)[1..] == Zeros(n - 1) && Zeros(n + 1)[1..] == Zeros(n);
    }
  }

  lemma {:induction false} ZerosClimb(rank: ByteString -> int, K: set<ByteString>, n: nat, i: nat)
    requires RanksOn(BYTEWISE, rank, K) && AllZeros(n) <= K && i <= n
    ensures rank(Zeros(i)) >= rank([]) + i
  {
    assert Zeros(0) == [];
    hide RanksOn, Zeros, AllZeros, BytewiseCompare;
    if i > 0 {
      ZerosClimb(rank, K, n, i - 1);
      ZerosAscend(i - 1);
      AllZerosHas(n, i - 1);
      AllZerosHas(n, i);
      RankRises(rank, K, Zeros(i - 1), Zeros(i));
    }
  }

  lemma RankRises(rank: ByteString -> int, K: set<ByteString>, a: ByteString, b: ByteString)
    requires RanksOn(BYTEWISE, rank, K) && a in K && b in K && BytewiseCompare(a, b) < 0
    ensures rank(a) < rank(b)
  {
    hide BytewiseCompare;
    assert Sign(BYTEWISE.compare(a, b)) == Sign(rank(a) - rank(b));
  }

  /**
   On the keys of a finite set the order History uses on entries is the byte-level order of
   their encoded keys, and its visibility is the comparison of user key and number.
   */
  lemma CompareAgreesWithHistory(c: Comparator, rank: ByteString -> int, K: set<ByteString>,
                                 p: ParsedInternalKey, q: ParsedInternalKey, v: string, w: string)
    requires RanksOn(c, rank, K) && p.userKey in K && q.userKey in K && p.InRange() && q.InRange()
    ensures Compare(c, EncodeKey(p), EncodeKey(q)) < 0 <==>
            H.InternalLess(H.Entry(rank(p.userKey), p.sequence, p.kind, v), H.Entry(rank(q.userKey), q.sequence, q.kind, w))
    ensures H.Visible(H.Entry(rank(p.userKey), p.sequence, p.kind, v), rank(q.userKey), q.sequence) <==>
            c.compare(p.userKey, q.userKey) == 0 && p.sequence <= q.sequence
  {
    CompareMeaning(c, p, q);
    assert Sign(c.compare(p.userKey, q.userKey)) == Sign(rank(p.userKey) - rank(q.userKey));
  }

  // ----- shortening --------------------------------------------------------------

  /** A std::string changed in place. */
  class StringBuffer {
    var data: ByteString

    constructor (data: ByteString)
      ensures this.data == data
    {
      this.data := data;
    }
  }

  /** AppendInternalKey. */
  method AppendInternalKey(result: StringBuffer, p: ParsedInternalKey)
    requires p.InRange()
    modifies result
    ensures result.data == old(result.data) + EncodeKey(p)
    ensures ParseInternalKey(result.data[|old(result.data)|..]) == Some(p)
  {
    result.data := result.data + p.userKey;
    result.data := result.data + ToFixed(PackSequenceAndType(p.sequence, p.kind), 8);
    ParseOfEncode(p);
    assert result.data[|old(result.data)|..] == EncodeKey(p);
  }

  function EarliestKey(userKey: ByteString): ByteString {
    EncodeKey(ParsedInternalKey(userKey, MAX_SEQUENCE, VALUE_TYPE_FOR_SEEK))
  }

  /** The number and the type that sort first are all ones and a one. */
  lemma EarliestKeyBytes(userKey: ByteString)
    ensures EarliestKey(userKey) == userKey + [0x01, 0xFF, 0xFF, 0xFF, 0xFF, 0xFF, 0xFF, 0xFF]
  {
    hide ToFixed;
    AllOnes();
    assert PackSequenceAndType(MAX_SEQUENCE, VALUE_TYPE_FOR_SEEK) == 0xFFFF_FFFF_FFFF_FF01;
  }

  lemma AllOnes()
    ensures ToFixed(0xFFFF_FFFF_FFFF_FF01, 8) == [0x01, 0xFF, 0xFF, 0xFF, 0xFF, 0xFF, 0xFF, 0xFF]
  {
    hide FromFixed;
    var b: ByteString := [0x01, 0xFF, 0xFF, 0xFF, 0xFF, 0xFF, 0xFF, 0xFF];
    assert b[..4] == [0x01, 0xFF, 0xFF, 0xFF] && b[4..] == [0xFF, 0xFF, 0xFF, 0xFF];
    EightBytes(b);
    ToFromFixed(b);
  }

  /** InternalKeyComparator::FindShortestSeparator keeps start's place between start and limit. */
  method FindShortestSeparator(c: Comparator, start: StringBuffer, limit: ByteString)
    requires IsComparator(c) && |start.data| >= 8 && |limit| >= 8
    modifies start
    ensures |start.data| >= 8
    ensures Compare(c, old(start.data), limit) < 0 ==>
              Compare(c, old(start.data), start.data) <= 0 && Compare(c, start.data, limit) < 0
    ensures |start.data| <= |old(start.data)|
    // a separator that is physically shorter and logically larger takes the place of start
    ensures var k := ExtractUserKey(old(start.data));
            var sep := c.separator(k, ExtractUserKey(limit));
            if |sep| < |k| && c.compare(k, sep) < 0
            then start.data == sep + [0x01, 0xFF, 0xFF, 0xFF, 0xFF, 0xFF, 0xFF, 0xFF]
            else start.data == old(start.data)
    ensures ParseInternalKey(old(start.data)).Some? ==> ParseInternalKey(start.data).Some?
  {
    var userStart := ExtractUserKey(start.data);
    var userLimit := ExtractUserKey(limit);
    var tmp := c.separator(userStart, userLimit);
    if |tmp| < |userStart| && c.compare(userStart, tmp) < 0 {
      ghost var sep := tmp;
      EncodeKeyParts(ParsedInternalKey(sep, MAX_SEQUENCE, VALUE_TYPE_FOR_SEEK));
      tmp := tmp + ToFixed(PackSequenceAndType(MAX_SEQUENCE, VALUE_TYPE_FOR_SEEK), 8);
      assert tmp == EarliestKey(sep);
      EarliestKeyBytes(sep);
      ParseOfEncode(ParsedInternalKey(sep, MAX_SEQUENCE, VALUE_TYPE_FOR_SEEK));
      assert Compare(c, start.data, tmp) < 0;
      start.data := tmp;
    } else {
      CompareReflexive(c, start.data);
    }
  }

  lemma CompareReflexive(c: Comparator, x: ByteString)
    requires TotalPreorder(c.compare) && |x| >= 8
    ensures Compare(c, x, x) == 0
  {
    assert Sign(c.compare(ExtractUserKey(x), ExtractUserKey(x))) == 0;
  }

  /** InternalKeyComparator::FindShortSuccessor never moves the key down. */
  method FindShortSuccessor(c: Comparator, key: StringBuffer)
    requires IsComparator(c) && |key.data| >= 8
    modifies key
    ensures |key.data| >= 8 && |key.data| <= |old(key.data)|
    ensures Compare(c, old(key.data), key.data) <= 0
    ensures var k := ExtractUserKey(old(key.data));
            var next := c.successor(k);
            if |next| < |k| && c.compare(k, next) < 0
            then key.data == next + [0x01, 0xFF, 0xFF, 0xFF, 0xFF, 0xFF, 0xFF, 0xFF]
            else key.data == old(key.data)
    ensures ParseInternalKey(old(key.data)).Some? ==> ParseInternalKey(key.data).Some?
  {
    var userKey := ExtractUserKey(key.data);
    var tmp := c.successor(userKey);
    if |tmp| < |userKey| && c.compare(userKey, tmp) < 0 {
      ghost var next := tmp;
      EncodeKeyParts(ParsedInternalKey(next, MAX_SEQUENCE, VALUE_TYPE_FOR_SEEK));
      tmp := tmp + ToFixed(PackSequenceAndType(MAX_SEQUENCE, VALUE_TYPE_FOR_SEEK), 8);
      assert tmp == EarliestKey(next);
      EarliestKeyBytes(next);
      ParseOfEncode(ParsedInternalKey(next, MAX_SEQUENCE, VALUE_TYPE_FOR_SEEK));
      key.data := tmp;
    } else {
      CompareReflexive(c, key.data);
    }
  }

  // ----- the built-in bytewise comparator ------------------------------------------

  /** Slice::compare: memcmp of the common length, then the shorter one first. */
  function BytewiseCompare(a: ByteString, b: ByteString): int {
    if a == [] && b == [] then 0
    else if a == [] then -1
    else if b == [] then 1
    else if a[0] != b[0] then a[0] - b[0]
    else BytewiseCompare(a[1..], b[1..])
  }

  function CommonPrefix(a: ByteString, b: ByteString): (n: nat)
    ensures n <= |a| && n <= |b|
    ensures a[..n] == b[..n]
    ensures n < |a| && n < |b| ==> a[n] != b[n]
  {
    if a == [] || b == [] || a[0] != b[0] then 0
    else
      var m := CommonPrefix(a[1..], b[1..]);
      assert a[..m + 1] == [a[0]] + a[1..][..m] && b[..m + 1] == [b[0]] + b[1..][..m];
      m + 1
  }

  function BytewiseSeparator(start: ByteString, limit: ByteString): ByteString {
    var d := CommonPrefix(start, limit);
    if d < |start| && d < |limit| && start[d] < 255 && start[d] + 1 < limit[d]
    then start[..d] + [start[d] + 1]
    else start
  }

  function BytewiseSuccessor(key: ByteString): ByteString {
    if key == [] then []
    else if key[0] != 255 then [key[0] + 1]
    else
      var rest := BytewiseSuccessor(key[1..]);
      [key[0]] + rest
  }

  const BYTEWISE := Comparator(BytewiseCompare, BytewiseSeparator, BytewiseSuccessor)

  lemma {:induction false} BytewiseSymmetric(a: ByteString, b: ByteString)
    ensures Sign(BytewiseCompare(a, b)) == -Sign(BytewiseCompare(b, a))
    ensures BytewiseCompare(a, b) == 0 <==> a == b
    decreases |a|
  {
    if a != [] && b != [] && a[0] == b[0] {
      BytewiseSymmetric(a[1..], b[1..]);
      assert a == [a[0]] + a[1..] && b == [b[0]] + b[1..];
    }
  }

  lemma {:induction false} BytewiseTransitive(a: ByteString, b: ByteString, c: ByteString)
    requires BytewiseCompare(a, b) <= 0 && BytewiseCompare(b, c) <= 0
    ensures BytewiseCompare(a, c) <= 0
    decreases |a|
  {
    if a != [] && b != [] && c != [] && a[0] == b[0] == c[0] {
      BytewiseTransitive(a[1..], b[1..], c[1..]);
    }
  }

  /** A common prefix does not influence the order. */
  lemma {:induction false} BytewiseSkipPrefix(p: ByteString, a: ByteString, b: ByteString)
    ensures BytewiseCompare(p + a, p + b) == BytewiseCompare(a, b)
    decreases |p|
  {
    if p == [] {
      assert p + a == a && p + b == b;
    } else {
      BytewiseSkipPrefix(p[1..], a, b);
      assert (p + a)[1..] == p[1..] + a && (p + b)[1..] == p[1..] + b;
    }
  }

  lemma BytewiseSeparatorInInterval(start: ByteString, limit: ByteString)
    ensures BytewiseCompare(start, limit) < 0 ==>
              BytewiseCompare(start, BytewiseSeparator(start, limit)) <= 0
              && BytewiseCompare(BytewiseSeparator(start, limit), limit) < 0
    ensures BytewiseCompare(start, limit) >= 0 ==> BytewiseSeparator(start, limit) == start
  {
    hide BytewiseCompare, CommonPrefix;
    var d, sep := CommonPrefix(start, limit), BytewiseSeparator(start, limit);
    BytewiseSymmetric(start, start);
    if d < |start| && d < |limit| {
      DecidedAt(start, limit, d);
      if sep != start {
        DecidedAt(start, sep, d);
        DecidedAt(sep, limit, d);
      }
    }
  }

  /**
   Where the strings first differ, the separator is cut behind the byte bumped there, if that
   stays below limit; otherwise, or when one string is a prefix of the other, it is start.
   */
  lemma BytewiseSeparatorAt(start: ByteString, limit: ByteString)
    ensures forall d: nat :: d < |start| && d < |limit| && start[..d] == limit[..d] && start[d] != limit[d] ==>
              BytewiseSeparator(start, limit)
              == if start[d] < 255 && start[d] + 1 < limit[d] then start[..d] + [start[d] + 1] else start
    ensures start <= limit || limit <= start ==> BytewiseSeparator(start, limit) == start
  {
    var c := CommonPrefix(start, limit);
    assert forall d :: 0 <= d < c ==> start[..c][d] == limit[..c][d];
    forall d: nat | d < |start| && d < |limit| && start[..d] == limit[..d] && start[d] != limit[d] ensures d == c {
      assert forall i :: 0 <= i < d ==> start[..d][i] == limit[..d][i];
    }
  }

  /** The first differing byte decides. */
  lemma DecidedAt(a: ByteString, b: ByteString, d: nat)
    requires d < |a| && d < |b| && a[..d] == b[..d] && a[d] != b[d]
    ensures BytewiseCompare(a, b) == a[d] as int - b[d] as int
  {
    assert a == a[..d] + a[d..] && b == a[..d] + b[d..];
    BytewiseSkipPrefix(a[..d], a[d..], b[d..]);
  }

  lemma {:induction false} BytewiseSuccessorNotBelow(key: ByteString)
    ensures BytewiseCompare(key, BytewiseSuccessor(key)) <= 0
  {
    if key != [] && key[0] == 255 {
      BytewiseSuccessorNotBelow(key[1..]);
      assert BytewiseSuccessor(key)[1..] == BytewiseSuccessor(key[1..]);
    }
  }

  /** The default comparator meets everything InternalKeyComparator asks of a user comparator. */
  lemma BytewiseIsComparator()
    ensures IsComparator(BYTEWISE)
  {
    forall a, b ensures Sign(BytewiseCompare(a, b)) == -Sign(BytewiseCompare(b, a)) {
      BytewiseSymmetric(a, b);
    }
    forall a, b, c | BytewiseCompare(a, b) <= 0 && BytewiseCompare(b, c) <= 0 ensures BytewiseCompare(a, c) <= 0 {
      BytewiseTransitive(a, b, c);
    }
    forall a, b
      ensures BytewiseCompare(a, b) < 0 ==>
                BytewiseCompare(a, BytewiseSeparator(a, b)) <= 0 && BytewiseCompare(BytewiseSeparator(a, b), b) < 0
      ensures BytewiseCompare(a, b) == 0 ==> BytewiseSeparator(a, b) == a
    {
      BytewiseSeparatorInInterval(a, b);
    }
    forall key ensures BytewiseCompare(key, BytewiseSuccessor(key)) <= 0 {
      BytewiseSuccessorNotBelow(key);
    }
  }

  /** BytewiseComparatorImpl::FindShortestSeparator. */
  method BytewiseFindShortestSeparator(start: StringBuffer, limit: ByteString)
    modifies start
    ensures start.data == BytewiseSeparator(old(start.data), limit)
  {
    var minLength := if |start.data| < |limit| then |start.data| else |limit|;
    var diffIndex := 0;
    while diffIndex < minLength && start.data[diffIndex] == limit[diffIndex]
      invariant 0 <= diffIndex <= minLength
      invariant start.data[..diffIndex] == limit[..diffIndex]
    {
      diffIndex := diffIndex + 1;
    }
    assert diffIndex == CommonPrefix(start.data, limit);
    if diffIndex >= minLength {
      // One string is a prefix of the other.
    } else {
      var diffByte := start.data[diffIndex];
      if diffByte < 255 && diffByte + 1 < limit[diffIndex] {
        start.data := start.data[diffIndex := start.data[diffIndex] + 1];
        start.data := start.data[..diffIndex + 1];
        BytewiseSeparatorInInterval(old(start.data), limit);
        assert start.data == old(start.data)[..diffIndex] + [diffByte + 1];
      }
    }
  }

  /** BytewiseComparatorImpl::FindShortSuccessor. */
  method BytewiseFindShortSuccessor(key: StringBuffer)
    modifies key
    ensures key.data == BytewiseSuccessor(old(key.data))
  {
    var n := |key.data|;
    for i := 0 to n
      invariant key.data == old(key.data)
      invariant forall j :: 0 <= j < i ==> key.data[j] == 255
    {
      var byte := key.data[i];
      if byte != 255 {
        SuccessorAt(key.data, i);
        key.data := key.data[i := byte + 1];
        key.data := key.data[..i + 1];
        return;
      }
    }
    SuccessorOfAllOnes(key.data);
  }

  lemma {:induction false} SuccessorAt(key: ByteString, i: nat)
    requires i < |key| && key[i] != 255
    requires forall j :: 0 <= j < i ==> key[j] == 255
    ensures BytewiseSuccessor(key) == key[..i] + [key[i] + 1]
  {
    if i > 0 {
      SuccessorAt(key[1..], i - 1);
      assert key[..i] == [key[0]] + key[1..][..i - 1];
    }
  }

  lemma {:induction false} SuccessorOfAllOnes(key: ByteString)
    requires forall j :: 0 <= j < |key| ==> key[j] == 255
    ensures BytewiseSuccessor(key) == key
  {
    if key != [] {
      SuccessorOfAllOnes(key[1..]);
      assert key == [key[0]] + key[1..];
    }
  }
}
