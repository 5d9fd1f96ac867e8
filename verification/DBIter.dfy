/**
 DBIter (db/db_iter.cc): an iterator that moves in both directions over raw versioned
 entries and shows its client the live keys only.
 */
module DBIterator {
  import opened Wrappers
  import opened History

  // ----- the simple meaning: a cursor over the live keys ---------------------------

  datatype Bound = Unbounded | AtLeast(k: UserKey) | Above(k: UserKey) | Below(k: UserKey) {
    predicate Admits(x: UserKey) {
      match this
      case Unbounded => true
      case AtLeast(k) => x >= k
      case Above(k) => x > k
      case Below(k) => x < k
    }
  }

  ghost predicate Live(E: set<Entry>, s: nat, k: UserKey) {
    Lookup(E, k, s).Some?
  }

  /** r is the smallest live key within the bound, None if there is none. */
  ghost predicate SmallestLive(E: set<Entry>, s: nat, b: Bound, r: Option<UserKey>) {
    match r
    case None => forall k :: b.Admits(k) ==> !Live(E, s, k)
    case Some(m) => b.Admits(m) && Live(E, s, m) && forall k :: b.Admits(k) && Live(E, s, k) ==> m <= k
  }

  /** r is the largest live key within the bound, None if there is none. */
  ghost predicate LargestLive(E: set<Entry>, s: nat, b: Bound, r: Option<UserKey>) {
    match r
    case None => forall k :: b.Admits(k) ==> !Live(E, s, k)
    case Some(m) => b.Admits(m) && Live(E, s, m) && forall k :: b.Admits(k) && Live(E, s, k) ==> k <= m
  }

  datatype CursorOp = SeekTo(target: UserKey) | First | Last | Next | Prev

  /** One step of the cursor the client believes in; Next and Prev need a current key. */
  ghost predicate CursorStep(E: set<Entry>, s: nat, op: CursorOp, before: Option<UserKey>, after: Option<UserKey>) {
    match op
    case SeekTo(t) => SmallestLive(E, s, AtLeast(t), after)
    case First => SmallestLive(E, s, Unbounded, after)
    case Last => LargestLive(E, s, Unbounded, after)
    case Next => before.Some? && SmallestLive(E, s, Above(before.value), after)
    case Prev => before.Some? && LargestLive(E, s, Below(before.value), after)
  }

  /** cs[0], cs[1], ... are the keys shown before and after each operation. */
  ghost predicate CursorRun(E: set<Entry>, s: nat, ops: seq<CursorOp>, cs: seq<Option<UserKey>>) {
    && |cs| == |ops| + 1
    && forall i :: 0 <= i < |ops| ==> CursorStep(E, s, ops[i], cs[i], cs[i + 1])
  }

  /**
   The entries, the sequence number and the operations determine everything the client sees:
   no run can depend on the direction in which the iterator was moving.
   */
  lemma {:induction false} RunIsDetermined(E: set<Entry>, s: nat, ops: seq<CursorOp>,
                                           cs: seq<Option<UserKey>>, ds: seq<Option<UserKey>>, n: nat)
    requires CursorRun(E, s, ops, cs) && CursorRun(E, s, ops, ds)
    requires cs[0] == ds[0] && n <= |ops|
    ensures cs[n] == ds[n]
  {
    if n > 0 {
      RunIsDetermined(E, s, ops, cs, ds, n - 1);
      var a, b, op := cs[n - 1 + 1], ds[n - 1 + 1], ops[n - 1];
      assert CursorStep(E, s, op, cs[n - 1], a) && CursorStep(E, s, op, cs[n - 1], b);
    }
  }

  /** Turning round after a step leads back to the key the step started from. */
  lemma StepsAreInverse(E: set<Entry>, s: nat, k: UserKey, m: UserKey)
    requires Live(E, s, k) && Live(E, s, m)
    ensures SmallestLive(E, s, Above(k), Some(m)) <==> LargestLive(E, s, Below(m), Some(k))
  {
    if SmallestLive(E, s, Above(k), Some(m)) {
      forall x | Below(m).Admits(x) && Live(E, s, x) ensures x <= k {
        assert Above(k).Admits(x) ==> m <= x;
      }
    }
    if LargestLive(E, s, Below(m), Some(k)) {
      forall x | Above(k).Admits(x) && Live(E, s, x) ensures m <= x {
        assert Below(m).Admits(x) ==> x <= k;
      }
    }
  }

  /** The keys a client meets when it seeks to the first key and calls Next until the end. */
  ghost predicate ForwardScan(E: set<Entry>, s: nat, ks: seq<UserKey>) {
    && SmallestLive(E, s, Unbounded, if ks == [] then None else Some(ks[0]))
    && forall i :: 0 <= i < |ks| ==>
         SmallestLive(E, s, Above(ks[i]), if i + 1 == |ks| then None else Some(ks[i + 1]))
  }

  /** A full forward scan meets every live key once, in ascending order, and nothing else. */
  lemma {:induction false} ScanMeetsExactlyLiveKeys(E: set<Entry>, s: nat, ks: seq<UserKey>)
    requires ForwardScan(E, s, ks)
    ensures forall i, j :: 0 <= i < j < |ks| ==> ks[i] < ks[j]
    ensures forall k :: k in ks <==> Live(E, s, k)
  {
    ScanPrefixAscends(E, s, ks, |ks|);
    forall k ensures k in ks <==> Live(E, s, k) {
      if Live(E, s, k) {
        assert Unbounded.Admits(k);
        LiveKeyIsMet(E, s, ks, k, 0);
      }
      if k in ks {
        var i :| 0 <= i < |ks| && ks[i] == k;
        assert i > 0 ==> SmallestLive(E, s, Above(ks[i - 1]), Some(ks[i - 1 + 1]));
      }
    }
  }

  lemma {:induction false} ScanPrefixAscends(E: set<Entry>, s: nat, ks: seq<UserKey>, n: nat)
    requires ForwardScan(E, s, ks) && n <= |ks|
    ensures forall i, j :: 0 <= i < j < n ==> ks[i] < ks[j]
  {
    if n > 1 {
      ScanPrefixAscends(E, s, ks, n - 1);
      assert SmallestLive(E, s, Above(ks[n - 2]), Some(ks[n - 2 + 1]));
    }
  }

  lemma {:induction false} LiveKeyIsMet(E: set<Entry>, s: nat, ks: seq<UserKey>, k: UserKey, i: nat)
    requires ForwardScan(E, s, ks) && Live(E, s, k) && i <= |ks|
    requires i == 0 || ks[i - 1] < k
    ensures k in ks
    decreases |ks| - i
  {
    if i == 0 {
      assert Unbounded.Admits(k);
    } else {
      assert SmallestLive(E, s, Above(ks[i - 1]), if i - 1 + 1 == |ks| then None else Some(ks[i - 1 + 1]));
      assert Above(ks[i - 1]).Admits(k);
    }
    assert i < |ks| && ks[i] <= k;
    if ks[i] != k {
      LiveKeyIsMet(E, s, ks, k, i + 1);
    }
  }

  // ----- the iterator over raw entries ----------------------------------------------

  /** The merged view of memtables and tables: a position in the sorted entries. */
  class InternalIterator {
    var entries: seq<Entry>
    var pos: int

    constructor (entries: seq<Entry>)
      ensures this.entries == entries && pos == |entries|
    {
      this.entries := entries;
      pos := |entries|;
    }

    ghost predicate InRange() reads this { -1 <= pos <= |entries| }

    predicate Valid() reads this { 0 <= pos < |entries| }

    method SeekToFirst()
      modifies `pos
      ensures pos == 0
    { pos := 0; }

    method SeekToLast()
      modifies `pos
      ensures pos == |entries| - 1
    { pos := |entries| - 1; }

    method Next()
      requires Valid()
      modifies `pos
      ensures pos == old(pos) + 1
    { pos := pos + 1; }

    method Prev()
      requires Valid()
      modifies `pos
      ensures pos == old(pos) - 1
    { pos := pos - 1; }

    /** Position at the first entry at or after target. */
    method Seek(target: Entry)
      modifies `pos
      ensures InRange() && pos >= 0
      ensures forall j :: 0 <= j < pos ==> InternalLess(entries[j], target)
      ensures Valid() ==> !InternalLess(entries[pos], target)
    {
      pos := 0;
      while pos < |entries| && InternalLess(entries[pos], target)
        invariant 0 <= pos <= |entries|
        invariant forall j :: 0 <= j < pos ==> InternalLess(entries[j], target)
      {
        pos := pos + 1;
      }
    }
  }

  // ----- facts about scanning the sorted entries es at sequence number s -----------------

  lemma KeysAscend(es: seq<Entry>, i: int, j: int)
    requires Merged(es) && 0 <= i <= j < |es|
    ensures es[i].key <= es[j].key
  {
    assert i < j ==> es[i] == es[j] || InternalLess(es[i], es[j]);
  }

  lemma KeysAround(es: seq<Entry>, p: nat)
    requires Merged(es) && p < |es|
    ensures forall j :: 0 <= j < |es| ==> if j <= p then es[j].key <= es[p].key else es[p].key <= es[j].key
  {
    forall j | 0 <= j < |es| ensures if j <= p then es[j].key <= es[p].key else es[p].key <= es[j].key {
      if j <= p { KeysAscend(es, j, p); } else { KeysAscend(es, p, j); }
    }
  }

  /** A live key has its newest visible entry somewhere in the sequence. */
  lemma LiveKeyHasEntry(es: seq<Entry>, s: nat, k: UserKey) returns (j: nat)
    requires Unique(Elems(es)) && Live(Elems(es), s, k)
    ensures j < |es| && Newest(Elems(es), k, s, es[j])
    ensures Lookup(Elems(es), k, s) == es[j].Read()
  {
    var e :| Newest(Elems(es), k, s, e);
    LookupIs(Elems(es), k, s, e);
    j :| 0 <= j < |es| && es[j] == e;
  }

  /** If no earlier entry of its key is visible, a visible entry decides what its key reads. */
  lemma FirstVisibleDecides(es: seq<Entry>, s: nat, p: nat)
    requires Merged(es) && Unique(Elems(es)) && p < |es| && es[p].sequence <= s
    requires forall j :: 0 <= j < p && es[j].key == es[p].key ==> es[j].sequence > s
    ensures Newest(Elems(es), es[p].key, s, es[p])
    ensures Lookup(Elems(es), es[p].key, s) == es[p].Read()
  {
    var e := es[p];
    forall f | f in Elems(es) && Visible(f, e.key, s) ensures f.sequence <= e.sequence {
      var j :| 0 <= j < |es| && es[j] == f;
      assert j > p ==> f == e || InternalLess(e, f);
    }
    LookupIs(Elems(es), e.key, s, e);
  }

  /**
   State of a forward scan that has come to position p looking for a key within b.
   When skipping, keys up to skip are to be passed over.
   */
  ghost predicate Scanning(es: seq<Entry>, s: nat, p: int, b: Bound, skipping: bool, skip: Option<UserKey>) {
    && Merged(es) && Unique(Elems(es)) && 0 <= p <= |es|
    && (skipping ==> skip.Some? && (b.Admits(skip.value) ==> !Live(Elems(es), s, skip.value)))
    // what lies behind is invisible, out of bounds, or belongs to a dead key being skipped
    && (forall j :: 0 <= j < p && es[j].sequence <= s && b.Admits(es[j].key) ==>
          skipping && es[j].key <= skip.value && !Live(Elems(es), s, es[j].key))
    // what lies ahead is at the skipped key or beyond it, and beyond it lies within the bound
    && (forall j :: p <= j < |es| && es[j].sequence <= s ==>
          if skipping then es[j].key >= skip.value && (es[j].key > skip.value ==> b.Admits(es[j].key))
          else b.Admits(es[j].key))
  }

  lemma ScanPastInvisible(es: seq<Entry>, s: nat, p: nat, b: Bound, skipping: bool, skip: Option<UserKey>)
    requires Scanning(es, s, p, b, skipping, skip) && p < |es|
    requires es[p].sequence > s || (skipping && es[p].key <= skip.value)
    ensures Scanning(es, s, p + 1, b, skipping, skip)
  {
    hide Lookup, Unique, Merged, Elems, Live;
  }

  lemma ScanPastDeletion(es: seq<Entry>, s: nat, p: nat, b: Bound, skipping: bool, skip: Option<UserKey>)
    requires Scanning(es, s, p, b, skipping, skip) && p < |es|
    requires es[p].sequence <= s && es[p].kind.TypeDeletion?
    ensures Scanning(es, s, p + 1, b, true, Some(es[p].key))
  {
    hide Lookup, Unique, Merged, Elems;
    if !(skipping && es[p].key <= skip.value) {
      FirstVisibleDecides(es, s, p);
    }
    KeysAround(es, p);
  }

  lemma ScanHit(es: seq<Entry>, s: nat, p: nat, b: Bound, skipping: bool, skip: Option<UserKey>)
    requires Scanning(es, s, p, b, skipping, skip) && p < |es|
    requires es[p].sequence <= s && es[p].kind.TypeValue? && !(skipping && es[p].key <= skip.value)
    ensures Newest(Elems(es), es[p].key, s, es[p])
    ensures Lookup(Elems(es), es[p].key, s) == Some(es[p].value)
    ensures SmallestLive(Elems(es), s, b, Some(es[p].key))
  {
    FirstVisibleDecides(es, s, p);
    forall k | b.Admits(k) && Live(Elems(es), s, k) ensures es[p].key <= k {
      var j := LiveKeyHasEntry(es, s, k);
      assert j > p ==> es[j] == es[p] || InternalLess(es[p], es[j]);
    }
  }

  lemma ScanExhausted(es: seq<Entry>, s: nat, b: Bound, skipping: bool, skip: Option<UserKey>)
    requires Scanning(es, s, |es|, b, skipping, skip)
    ensures SmallestLive(Elems(es), s, b, None)
  {
    forall k | b.Admits(k) ensures !Live(Elems(es), s, k) {
      if Live(Elems(es), s, k) {
        var j := LiveKeyHasEntry(es, s, k);
      }
    }
  }

  /**
   State of a backward scan that started at top and has come down to position p.  low is the
   lowest visible entry scanned; every admitted key above its key is known to be dead.
   */
  ghost predicate BackScanning(es: seq<Entry>, s: nat, p: int, top: int, low: Option<nat>, b: Bound) {
    && Merged(es) && Unique(Elems(es)) && -1 <= p <= top < |es|
    && (forall j :: top < j < |es| && es[j].sequence <= s ==> !b.Admits(es[j].key))
    && match low
       case None => forall j :: p < j <= top ==> es[j].sequence > s
       case Some(f) =>
         && p < f <= top && es[f].sequence <= s
         && (forall j :: p < j < f ==> es[j].sequence > s)
         && (forall k :: k > es[f].key && b.Admits(k) ==> !Live(Elems(es), s, k))
  }

  /** Nothing admitted lives strictly between the entry at p and the lowest visible one above it. */
  lemma NothingLivesBetween(es: seq<Entry>, s: nat, p: int, top: int, low: Option<nat>, b: Bound, k: UserKey)
    requires BackScanning(es, s, p, top, low, b) && b.Admits(k)
    requires low.Some? ==> k < es[low.value].key
    requires p >= 0 ==> es[p].key < k
    ensures !Live(Elems(es), s, k)
  {
    hide Merged, Unique, Lookup, Live;
    if Live(Elems(es), s, k) {
      var j := LiveKeyHasEntry(es, s, k);
      if j <= p {
        KeysAscend(es, j, p);
      } else if low.Some? && j >= low.value {
        KeysAscend(es, low.value, j);
      }
    }
  }

  /** When the scan has left the key of its lowest visible entry, that entry decides the key. */
  lemma LowDecides(es: seq<Entry>, s: nat, p: int, top: int, f: nat, b: Bound)
    requires BackScanning(es, s, p, top, Some(f), b)
    requires p >= 0 ==> es[p].key < es[f].key
    ensures Lookup(Elems(es), es[f].key, s) == es[f].Read()
  {
    forall j | 0 <= j < f && es[j].key == es[f].key ensures es[j].sequence > s {
      if j <= p { KeysAscend(es, j, p); }
    }
    FirstVisibleDecides(es, s, f);
  }

  lemma BackScanStart(es: seq<Entry>, s: nat, top: int, b: Bound)
    requires Merged(es) && Unique(Elems(es)) && -1 <= top < |es|
    requires forall j :: top < j < |es| && es[j].sequence <= s ==> !b.Admits(es[j].key)
    ensures BackScanning(es, s, top, top, None, b)
  {
  }

  lemma BackScanSkip(es: seq<Entry>, s: nat, p: nat, top: int, low: Option<nat>, b: Bound)
    requires BackScanning(es, s, p, top, low, b) && es[p].sequence > s
    ensures BackScanning(es, s, p - 1, top, low, b)
  {
    hide Merged, Unique, Lookup, Live;
  }

  lemma BackScanTake(es: seq<Entry>, s: nat, p: nat, top: int, low: Option<nat>, b: Bound)
    requires BackScanning(es, s, p, top, low, b) && es[p].sequence <= s
    requires low.Some? && es[low.value].kind.TypeValue? ==> es[p].key >= es[low.value].key
    ensures BackScanning(es, s, p - 1, top, Some(p), b)
  {
    forall k | k > es[p].key && b.Admits(k) ensures !Live(Elems(es), s, k) {
      if low.Some? && k == es[low.value].key {
        LowDecides(es, s, p, top, low.value, b);
      } else if low.None? || k < es[low.value].key {
        NothingLivesBetween(es, s, p, top, low, b, k);
      }
    }
  }

  /** What a finished backward scan says about all entries. */
  lemma BackScanResult(es: seq<Entry>, s: nat, p: int, top: int, low: Option<nat>, b: Bound)
    requires BackScanning(es, s, p, top, low, b)
    requires forall j :: 0 <= j <= top ==> b.Admits(es[j].key)
    requires p == -1 || (low.Some? && es[low.value].kind.TypeValue? && es[p].key < es[low.value].key)
    ensures var found := low.Some? && es[low.value].kind.TypeValue?;
            && LargestLive(Elems(es), s, b, if found then Some(es[low.value].key) else None)
            && (found ==> Lookup(Elems(es), es[low.value].key, s) == Some(es[low.value].value))
  {
    if low.Some? { LowDecides(es, s, p, top, low.value, b); }
    if !(low.Some? && es[low.value].kind.TypeValue?) {
      forall k | b.Admits(k) ensures !Live(Elems(es), s, k) {
        if low.None? || k < es[low.value].key { NothingLivesBetween(es, s, p, top, low, b, k); }
      }
    }
  }

  /** Reverse position: before all entries of k, having passed over invisible entries only. */
  ghost predicate BeforeEntriesOf(es: seq<Entry>, s: nat, p: int, k: UserKey) {
    && -1 <= p < |es|
    && (forall j :: 0 <= j <= p ==> es[j].key < k)
    && (forall j :: p < j < |es| && es[j].sequence <= s ==> es[j].key >= k)
  }

  lemma BackScanPosition(es: seq<Entry>, s: nat, p: int, top: int, f: nat, b: Bound)
    requires BackScanning(es, s, p, top, Some(f), b)
    requires p == -1 || es[p].key < es[f].key
    requires (b.Unbounded? || b.Below?) && b.Admits(es[f].key)
    ensures BeforeEntriesOf(es, s, p, es[f].key)
  {
    forall j | 0 <= j <= p ensures es[j].key < es[f].key {
      KeysAscend(es, j, p);
    }
    forall j | p < j < |es| && es[j].sequence <= s ensures es[j].key >= es[f].key {
      if f <= j { KeysAscend(es, f, j); }
    }
  }

  /** Both ways of starting Next bring the scan to a position from which keys up to k are skipped. */
  lemma StartAbove(es: seq<Entry>, s: nat, p: int, k: UserKey, d: Direction)
    requires Merged(es) && Unique(Elems(es))
    requires if d.Forward? then 0 <= p < |es| && es[p].key == k else BeforeEntriesOf(es, s, p, k)
    ensures Scanning(es, s, p + 1, Above(k), true, Some(k))
  {
    forall j | 0 <= j < |es| && j != p && d.Forward? ensures if j < p then es[j].key <= k else es[j].key >= k {
      if j < p { KeysAscend(es, j, p); } else { KeysAscend(es, p, j); }
    }
  }

  lemma NothingLiveBelow(es: seq<Entry>, s: nat, k: UserKey)
    requires Unique(Elems(es)) && forall j :: 0 <= j < |es| ==> es[j].key >= k
    ensures LargestLive(Elems(es), s, Below(k), None)
  {
    forall x | Below(k).Admits(x) ensures !Live(Elems(es), s, x) {
      if Live(Elems(es), s, x) { var j := LiveKeyHasEntry(es, s, x); }
    }
  }

  // ----- entries that appear while the client looks ------------------------------------

  /**
   Two contents of the inner iterator that differ beyond sequence number s only, at positions
   with the same entry under them and the same visible ones before and after.
   */
  ghost predicate SameView(es: seq<Entry>, p: int, fs: seq<Entry>, q: int, s: nat) {
    && -1 <= p <= |es| && -1 <= q <= |fs|
    && (p == -1 <==> q == -1) && (p == |es| <==> q == |fs|) && (0 <= p < |es| ==> es[p] == fs[q])
    && (forall e: Entry :: e.sequence <= s ==> (e in Before(es, p) <==> e in Before(fs, q)))
    && (forall e: Entry :: e.sequence <= s ==> (e in After(es, p) <==> e in After(fs, q)))
  }

  ghost function Before(es: seq<Entry>, p: int): seq<Entry>
    requires p <= |es|
  {
    if p < 0 then [] else es[..p]
  }

  ghost function After(es: seq<Entry>, p: int): seq<Entry>
    requires -1 <= p
  {
    if p + 1 <= |es| then es[p + 1..] else []
  }

  /** An entry beyond s that appears anywhere, the position staying on its entry, is such a change. */
  lemma InsertionIsUnseen(es: seq<Entry>, p: int, e: Entry, at: nat, s: nat)
    requires -1 <= p <= |es| && at <= |es| && e.sequence > s
    ensures SameView(es, p, es[..at] + [e] + es[at..], if p >= at then p + 1 else p, s)
  {
    var fs := es[..at] + [e] + es[at..];
    if p >= at {
      InsertedBehind(es, p, e, at);
      WithOneMore(Before(es, p), e, at);
    } else {
      InsertedAhead(es, p, e, at);
      WithOneMore(After(es, p), e, at - p - 1);
    }
    hide Before, After;
  }

  lemma InsertedBehind(es: seq<Entry>, p: nat, e: Entry, at: nat)
    requires at <= p <= |es|
    ensures var fs, bs := es[..at] + [e] + es[at..], Before(es, p);
            Before(fs, p + 1) == bs[..at] + [e] + bs[at..] && After(fs, p + 1) == After(es, p)
  {
  }

  lemma InsertedAhead(es: seq<Entry>, p: int, e: Entry, at: nat)
    requires -1 <= p < at <= |es|
    ensures var fs, bs, n := es[..at] + [e] + es[at..], After(es, p), at - p - 1;
            After(fs, p) == bs[..n] + [e] + bs[n..] && Before(fs, p) == Before(es, p)
  {
    var fs, bs, n := es[..at] + [e] + es[at..], es[p + 1..], at - p - 1;
    assert fs[p + 1..] == bs[..n] + [e] + bs[n..];
  }

  lemma WithOneMore(es: seq<Entry>, e: Entry, at: nat)
    requires at <= |es|
    ensures forall f :: f in es[..at] + [e] + es[at..] <==> f == e || f in es
  {
    assert es == es[..at] + es[at..];
    forall f ensures f in es <==> f in es[..at] || f in es[at..] {
      assert f in es <==> f in es[..at] + es[at..];
    }
  }

  lemma SameVisible(es: seq<Entry>, p: int, fs: seq<Entry>, q: int, s: nat)
    requires SameView(es, p, fs, q, s)
    ensures forall e: Entry :: e.sequence <= s ==> (e in es <==> e in fs)
  {
    forall e: Entry | e.sequence <= s ensures e in es <==> e in fs {
      InParts(es, p, e);
      InParts(fs, q, e);
    }
  }

  lemma InParts(es: seq<Entry>, p: int, e: Entry)
    requires -1 <= p <= |es|
    ensures e in es <==> e in Before(es, p) || e in After(es, p) || (0 <= p < |es| && es[p] == e)
  {
    if i :| 0 <= i < |es| && es[i] == e {
      if i < p { assert Before(es, p)[i] == e; }
      if i > p { assert After(es, p)[i - p - 1] == e; }
    }
  }

  /** Every step of the cursor means the same before and after such a change. */
  lemma StepsAreTheSame(E: set<Entry>, F: set<Entry>, s: nat, op: CursorOp, before: Option<UserKey>, after: Option<UserKey>)
    requires Unique(E) && Unique(F) && forall e: Entry :: e.sequence <= s ==> (e in E <==> e in F)
    ensures CursorStep(E, s, op, before, after) <==> CursorStep(F, s, op, before, after)
  {
    forall k ensures Live(E, s, k) <==> Live(F, s, k) {
      LookupFrame(E, F, k, s);
    }
  }

  lemma StillBeforeEntries(es: seq<Entry>, p: int, fs: seq<Entry>, q: int, s: nat, k: UserKey)
    requires SameView(es, p, fs, q, s) && Merged(fs) && BeforeEntriesOf(es, s, p, k)
    ensures BeforeEntriesOf(fs, s, q, k)
  {
    forall j | 0 <= j <= q ensures fs[j].key < k {
      KeysAscend(fs, j, q);
    }
    forall j | q < j < |fs| && fs[j].sequence <= s ensures fs[j].key >= k {
      assert fs[j] == After(fs, q)[j - q - 1];
      assert fs[j] in After(es, p);
      var i :| 0 <= i < |After(es, p)| && After(es, p)[i] == fs[j];
      assert es[p + 1 + i] == fs[j];
    }
  }

  // ----- the iterator itself -----------------------------------------------------------

  datatype Direction = Forward | Reverse

  class DBIter {
    const iter: InternalIterator
    const sequence: nat
    var direction: Direction
    var valid: bool
    var savedKey: Option<UserKey>   // None after saved_key_.clear()
    var savedValue: Bytes

    ghost function Entries(): set<Entry> reads iter { Elems(iter.entries) }

    constructor (iter: InternalIterator, sequence: nat)
      requires Merged(iter.entries) && Unique(Elems(iter.entries)) && iter.InRange()
      ensures this.iter == iter && this.sequence == sequence && Inv() && !valid
    {
      this.iter := iter;
      this.sequence := sequence;
      direction := Forward;
      valid := false;
      savedKey := None;
      savedValue := "";
    }

    predicate Showing()
      reads this, iter
    {
      valid && if direction.Forward? then iter.Valid() else savedKey.Some?
    }

    function Key(): UserKey
      requires Showing()
      reads this, iter
    {
      if direction.Forward? then iter.entries[iter.pos].key else savedKey.value
    }

    function Value(): Bytes
      requires Showing()
      reads this, iter
    {
      if direction.Forward? then iter.entries[iter.pos].value else savedValue
    }

    /** The key the client sees, None when the iterator is not valid. */
    ghost function Cursor(): Option<UserKey>
      requires Inv()
      reads this, iter
    {
      if valid then Some(Key()) else None
    }

    /** What the client sees is right, and the inner iterator stands where the direction says. */
    ghost predicate Inv()
      reads this, iter
    {
      && Merged(iter.entries) && Unique(Entries()) && iter.InRange()
      && (valid ==> Showing() && Lookup(Entries(), Key(), sequence) == Some(Value()))
      && (valid && direction.Forward? ==>
            Newest(Entries(), Key(), sequence, iter.entries[iter.pos]))
      && (valid && direction.Reverse? ==> BeforeEntriesOf(iter.entries, sequence, iter.pos, savedKey.value))
    }

    method FindNextUserEntry(skipping: bool, ghost b: Bound)
      requires iter.Valid() && direction.Forward?
      requires Scanning(iter.entries, sequence, iter.pos, b, skipping, savedKey)
      modifies this, iter`pos
      ensures Inv() && direction.Forward?
      ensures SmallestLive(Entries(), sequence, b, Cursor())
    {
      hide Elems, Lookup, Unique, Merged, Live;
      var skipping := skipping;
      while iter.Valid()
        invariant direction.Forward? && iter.InRange()
        invariant Scanning(iter.entries, sequence, iter.pos, b, skipping, savedKey)
        decreases |iter.entries| - iter.pos
      {
        var ikey := iter.entries[iter.pos];
        if ikey.sequence <= sequence {
          if ikey.kind.TypeDeletion? {
            ScanPastDeletion(iter.entries, sequence, iter.pos, b, skipping, savedKey);
            savedKey := Some(ikey.key);
            skipping := true;
          } else if skipping && ikey.key <= savedKey.value {
            ScanPastInvisible(iter.entries, sequence, iter.pos, b, skipping, savedKey);
          } else {
            ScanHit(iter.entries, sequence, iter.pos, b, skipping, savedKey);
            valid := true;
            savedKey := None;
            return;
          }
        } else {
          ScanPastInvisible(iter.entries, sequence, iter.pos, b, skipping, savedKey);
        }
        iter.Next();
      }
      ScanExhausted(iter.entries, sequence, b, skipping, savedKey);
      savedKey := None;
      valid := false;
    }

    method FindPrevUserEntry(ghost b: Bound)
      requires Merged(iter.entries) && Unique(Entries()) && iter.InRange() && iter.pos < |iter.entries|
      requires direction.Reverse? && (b.Unbounded? || b.Below?)
      requires forall j :: 0 <= j <= iter.pos ==> b.Admits(iter.entries[j].key)
      requires forall j :: iter.pos < j < |iter.entries| && iter.entries[j].sequence <= sequence ==>
                 !b.Admits(iter.entries[j].key)
      modifies this, iter`pos
      ensures Inv()
      ensures LargestLive(Entries(), sequence, b, Cursor())
    {
      hide Elems, Lookup, Unique, Merged, Live, Newest, LargestLive, BackScanning, BeforeEntriesOf;
      ghost var top := iter.pos;
      ghost var low: Option<nat> := None;
      var valueType := TypeDeletion;
      BackScanStart(iter.entries, sequence, top, b);
      if iter.Valid() {
        while iter.Valid()
          invariant direction.Reverse? && -1 <= iter.pos <= top < |iter.entries|
          invariant low.Some? ==> iter.pos < low.value <= top
          invariant BackScanning(iter.entries, sequence, iter.pos, top, low, b)
          invariant valueType == if low.Some? then iter.entries[low.value].kind else TypeDeletion
          invariant valueType.TypeValue? ==>
                      savedKey == Some(iter.entries[low.value].key) && savedValue == iter.entries[low.value].value
          decreases iter.pos
        {
          var ikey := iter.entries[iter.pos];
          if ikey.sequence <= sequence {
            if !valueType.TypeDeletion? && ikey.key < savedKey.value {
              break;   // a non-deleted value of the keys already passed was found
            }
            BackScanTake(iter.entries, sequence, iter.pos, top, low, b);
            low := Some(iter.pos);
            valueType := ikey.kind;
            if valueType.TypeDeletion? {
              savedKey := None;
              savedValue := "";
            } else {
              savedKey := Some(ikey.key);
              savedValue := ikey.value;
            }
          } else {
            BackScanSkip(iter.entries, sequence, iter.pos, top, low, b);
          }
          iter.Prev();
        }
      }
      BackScanResult(iter.entries, sequence, iter.pos, top, low, b);
      if valueType.TypeDeletion? {
        valid := false;
        savedKey := None;
        savedValue := "";
        direction := Forward;
      } else {
        BackScanPosition(iter.entries, sequence, iter.pos, top, low.value, b);
        valid := true;
      }
    }

    method Next()
      requires Inv() && valid
      modifies this, iter`pos
      ensures Inv()
      ensures CursorStep(Entries(), sequence, CursorOp.Next, old(Cursor()), Cursor())
    {
      hide Elems, Lookup, Unique, Merged, Live;
      ghost var b := Above(Key());
      ghost var es := iter.entries;
      StartAbove(es, sequence, iter.pos, Key(), direction);
      if direction.Reverse? {
        direction := Forward;
        if !iter.Valid() {
          iter.SeekToFirst();
        } else {
          iter.Next();
        }
      } else {
        savedKey := Some(iter.entries[iter.pos].key);
        iter.Next();
      }
      if !iter.Valid() {
        ScanExhausted(es, sequence, b, true, savedKey);
        valid := false;
        savedKey := None;
        return;
      }
      FindNextUserEntry(true, b);
    }

    method Prev()
      requires Inv() && valid
      modifies this, iter`pos
      ensures Inv()
      ensures CursorStep(Entries(), sequence, CursorOp.Prev, old(Cursor()), Cursor())
    {
      hide Elems, Lookup, Unique, Merged, Live;
      ghost var b := Below(Key());
      if direction.Forward? {
        KeysAround(iter.entries, iter.pos);
        savedKey := Some(iter.entries[iter.pos].key);
        while true
          invariant iter.Valid() && savedKey == Some(b.k) && direction.Forward?
          invariant forall j :: iter.pos <= j < |iter.entries| ==> iter.entries[j].key >= b.k
          decreases iter.pos
        {
          iter.Prev();
          if !iter.Valid() {
            NothingLiveBelow(iter.entries, sequence, b.k);
            valid := false;
            savedKey := None;
            savedValue := "";
            return;
          }
          if iter.entries[iter.pos].key < savedKey.value {
            break;
          }
        }
        KeysAround(iter.entries, iter.pos);
        direction := Reverse;
      }
      FindPrevUserEntry(b);
    }

    method Seek(target: UserKey)
      requires Inv()
      modifies this, iter`pos
      ensures Inv()
      ensures CursorStep(Entries(), sequence, SeekTo(target), old(Cursor()), Cursor())
    {
      direction := Forward;
      savedValue := "";
      savedKey := None;   // holds the seek key, which is only passed to the inner iterator
      iter.Seek(Entry(target, sequence, TypeValue, ""));
      if iter.Valid() {
        FindNextUserEntry(false, AtLeast(target));
      } else {
        valid := false;
      }
    }

    method SeekToFirst()
      requires Inv()
      modifies this, iter`pos
      ensures Inv()
      ensures CursorStep(Entries(), sequence, First, old(Cursor()), Cursor())
    {
      direction := Forward;
      savedValue := "";
      iter.SeekToFirst();
      if iter.Valid() {
        FindNextUserEntry(false, Unbounded);
      } else {
        valid := false;
      }
    }

    method SeekToLast()
      requires Inv()
      modifies this, iter`pos
      ensures Inv()
      ensures CursorStep(Entries(), sequence, Last, old(Cursor()), Cursor())
    {
      direction := Reverse;
      savedValue := "";
      iter.SeekToLast();
      FindPrevUserEntry(Unbounded);
    }

    /**
     Between two calls of the client, writers go on inserting into the memtable below.  What the
     client sees stays as it is, and so does what any operation may lead to.
     */
    method EntriesAppear(es: seq<Entry>, p: int)
      requires Inv() && Merged(es) && Unique(Elems(es)) && SameView(iter.entries, iter.pos, es, p, sequence)
      modifies iter
      ensures Inv() && iter.entries == es && Cursor() == old(Cursor()) && (valid ==> Value() == old(Value()))
      ensures forall op, before, after ::
                CursorStep(Entries(), sequence, op, before, after) <==> CursorStep(old(Entries()), sequence, op, before, after)
    {
      hide CursorStep, Live, Lookup, Before, After;
      ghost var E := Entries();
      SameVisible(iter.entries, iter.pos, es, p, sequence);
      forall op, before, after
        ensures CursorStep(Elems(es), sequence, op, before, after) <==> CursorStep(E, sequence, op, before, after)
      {
        StepsAreTheSame(Elems(es), E, sequence, op, before, after);
      }
      if valid {
        LookupFrame(E, Elems(es), Key(), sequence);
        if direction.Reverse? {
          StillBeforeEntries(iter.entries, iter.pos, es, p, sequence, savedKey.value);
        }
      }
      iter.entries := es;
      iter.pos := p;
    }
  }
}
