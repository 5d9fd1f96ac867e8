/**
 The simple meaning of the store: a set of versioned entries, and what a reader at
 a given sequence number finds in it.

 A user key is represented by its rank under the user comparator: two keys that the
 comparator calls equal have the same rank.  A run touches finitely many keys, and
 module DbFormat proves that every finite set of keys has such ranks.
 */
module History {
  import opened Wrappers

  type UserKey = int
  type Bytes = string

  const MAX_SEQUENCE: nat := 0x100_0000_0000_0000 - 1

  datatype ValueType = TypeDeletion | TypeValue

  datatype Entry = Entry(key: UserKey, sequence: nat, kind: ValueType, value: Bytes) {
    /** What a reader that stops at this entry returns. */
    function Read(): Option<Bytes> {
      if kind.TypeValue? then Some(value) else None
    }
  }

  /** Order of internal keys: user key up, sequence down, type down. */
  predicate InternalLess(a: Entry, b: Entry) {
    || a.key < b.key
    || (a.key == b.key && a.sequence > b.sequence)
    || (a.key == b.key && a.sequence == b.sequence && a.kind.TypeValue? && b.kind.TypeDeletion?)
  }

  ghost predicate Sorted(es: seq<Entry>) {
    forall i, j :: 0 <= i < j < |es| ==> InternalLess(es[i], es[j])
  }

  /**
   The order of a merge: internal keys ascend, and an entry that several tables hold occurs
   several times in a row.
   */
  ghost predicate Merged(es: seq<Entry>) {
    forall i, j :: 0 <= i < j < |es| ==> es[i] == es[j] || InternalLess(es[i], es[j])
  }

  ghost function Elems(es: seq<Entry>): set<Entry> {
    set e | e in es
  }

  /** No two entries of one user key carry the same sequence number. */
  ghost predicate Unique(S: set<Entry>) {
    forall e, f :: e in S && f in S && e.key == f.key && e.sequence == f.sequence ==> e == f
  }

  predicate Visible(e: Entry, k: UserKey, s: nat) {
    e.key == k && e.sequence <= s
  }

  ghost predicate Newest(S: set<Entry>, k: UserKey, s: nat, e: Entry) {
    && e in S
    && Visible(e, k, s)
    && forall f :: f in S && Visible(f, k, s) ==> f.sequence <= e.sequence
  }

  /** What a read of k at sequence number s returns; a deleted key and an absent one are the same. */
  ghost function Lookup(S: set<Entry>, k: UserKey, s: nat): Option<Bytes> {
    if exists e :: Newest(S, k, s, e)
    then var e :| Newest(S, k, s, e); e.Read()
    else None
  }

  /** A key with a visible entry has a newest visible entry. */
  lemma {:induction false} NewestExists(S: set<Entry>, k: UserKey, s: nat, e: Entry) returns (n: Entry)
    requires e in S && Visible(e, k, s)
    ensures Newest(S, k, s, n)
    decreases S
  {
    if f :| f in S && Visible(f, k, s) && f.sequence > e.sequence {
      n := NewestExists(S - {e}, k, s, f);
    } else {
      n := e;
    }
  }

  /** In a store with unique sequence numbers the newest visible entry decides the read. */
  lemma LookupIs(S: set<Entry>, k: UserKey, s: nat, e: Entry)
    requires Unique(S) && Newest(S, k, s, e)
    ensures Lookup(S, k, s) == e.Read()
  {
    forall f | Newest(S, k, s, f) ensures f == e {
      assert Visible(f, k, s) && Visible(e, k, s);
    }
  }

  lemma LookupNone(S: set<Entry>, k: UserKey, s: nat)
    requires forall e :: e in S ==> !Visible(e, k, s)
    ensures Lookup(S, k, s) == None
  {
  }

  /** Entries a reader cannot see do not matter to it. */
  lemma LookupFrame(S: set<Entry>, T: set<Entry>, k: UserKey, s: nat)
    requires Unique(S) && Unique(T)
    requires forall e :: Visible(e, k, s) ==> (e in S <==> e in T)
    ensures Lookup(S, k, s) == Lookup(T, k, s)
  {
    if e :| e in S && Visible(e, k, s) {
      var n := NewestExists(S, k, s, e);
      assert Newest(T, k, s, n);
      LookupIs(S, k, s, n);
      LookupIs(T, k, s, n);
    }
  }
}
