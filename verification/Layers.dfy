/**
 Reading a store that is spread over layers (db/db_impl.cc, Get): memtable, immutable
 memtable, tables.  When nothing in a layer is older than anything of the same key below
 it, stopping at the first layer with a visible entry answers as a search of everything.
 */
module Layers {
  import opened Wrappers
  import opened History

  /** Two stores give every reader from number floor on the same answers. */
  ghost predicate Agree(S: set<Entry>, T: set<Entry>, floor: nat) {
    forall k, s :: s >= floor ==> Lookup(S, k, s) == Lookup(T, k, s)
  }

  /** For every key, upper holds only entries newer than those of lower. */
  ghost predicate Above(upper: set<Entry>, lower: set<Entry>) {
    forall e, f :: e in upper && f in lower ==> f.sequence < e.sequence
  }

  ghost predicate Hits(S: set<Entry>, k: UserKey, s: nat) {
    exists e :: e in S && Visible(e, k, s)
  }

  /** MemTable::Get on mem, then on imm, then Version::Get. */
  ghost function FirstHit(mem: set<Entry>, imm: set<Entry>, tables: set<Entry>, k: UserKey, s: nat): Option<Bytes> {
    if Hits(mem, k, s) then Lookup(mem, k, s)
    else if Hits(imm, k, s) then Lookup(imm, k, s)
    else Lookup(tables, k, s)
  }

  /** A layer that has a visible entry hides everything below it. */
  lemma UpperDecides(upper: set<Entry>, lower: set<Entry>, k: UserKey, s: nat)
    requires Unique(upper + lower) && Above(upper, lower) && Hits(upper, k, s)
    ensures Lookup(upper + lower, k, s) == Lookup(upper, k, s)
  {
    var e :| e in upper && Visible(e, k, s);
    var n := NewestExists(upper, k, s, e);
    assert Newest(upper + lower, k, s, n);
    LookupIs(upper + lower, k, s, n);
    LookupIs(upper, k, s, n);
  }

  /** A layer without a visible entry does not matter. */
  lemma LowerDecides(upper: set<Entry>, lower: set<Entry>, k: UserKey, s: nat)
    requires Unique(upper + lower) && !Hits(upper, k, s)
    ensures Lookup(upper + lower, k, s) == Lookup(lower, k, s)
  {
    LookupFrame(upper + lower, lower, k, s);
  }

  /** First-hit search answers as a search of all three layers together. */
  lemma FirstHitIsLookup(mem: set<Entry>, imm: set<Entry>, tables: set<Entry>, k: UserKey, s: nat)
    requires Unique(mem + imm + tables) && Above(mem, imm + tables) && Above(imm, tables)
    ensures FirstHit(mem, imm, tables, k, s) == Lookup(mem + imm + tables, k, s)
  {
    var lower := imm + tables;
    assert mem + imm + tables == mem + lower;
    if Hits(mem, k, s) {
      UpperDecides(mem, lower, k, s);
    } else {
      LowerDecides(mem, lower, k, s);
      if Hits(imm, k, s) {
        UpperDecides(imm, tables, k, s);
      } else {
        LowerDecides(imm, tables, k, s);
      }
    }
  }

  /**
   Putting the same entries X on top of two stores that agree: F is everything ever stored
   below and T what is left of it after compactions.  X may repeat entries of F, but an
   entry that compaction has removed must be older than all of X.
   */
  lemma AgreeUnder(T: set<Entry>, F: set<Entry>, X: set<Entry>, floor: nat)
    requires T <= F && Unique(F + X) && Agree(T, F, floor)
    requires forall x, f :: x in X && f in F && f !in T && f !in X ==> f.sequence < x.sequence
    ensures Agree(T + X, F + X, floor)
  {
    forall k, s | s >= floor ensures Lookup(T + X, k, s) == Lookup(F + X, k, s) {
      AgreeUnderAt(T, F, X, floor, k, s);
    }
  }

  lemma AgreeUnderAt(T: set<Entry>, F: set<Entry>, X: set<Entry>, floor: nat, k: UserKey, s: nat)
    requires T <= F && Unique(F + X) && Agree(T, F, floor) && s >= floor
    requires forall x, f :: x in X && f in F && f !in T && f !in X ==> f.sequence < x.sequence
    ensures Lookup(T + X, k, s) == Lookup(F + X, k, s)
  {
    if Hits(F + X, k, s) {
      var e :| e in F + X && Visible(e, k, s);
      var n := NewestExists(F + X, k, s, e);
      LookupIs(F + X, k, s, n);
      if n in T + X {
        assert Newest(T + X, k, s, n);
        LookupIs(T + X, k, s, n);
      } else {
        forall x | x in X ensures !Visible(x, k, s) {
          assert x in F + X && n in F && n !in T && n !in X;
          assert n.sequence < x.sequence;
        }
        assert Newest(F, k, s, n);
        LookupIs(F, k, s, n);
        LookupFrame(T + X, T, k, s);
      }
    } else {
      LookupNone(F + X, k, s);
      LookupNone(T + X, k, s);
    }
  }

  lemma AgreeTransitive(S: set<Entry>, T: set<Entry>, U: set<Entry>, f: nat, g: nat)
    requires Agree(S, T, f) && Agree(T, U, g)
    ensures Agree(S, U, if f > g then f else g)
  {
  }

  /** A store that grew only by entries beyond s answers reads at s as before. */
  lemma StableBelow(H: set<Entry>, J: set<Entry>, s: nat, k: UserKey)
    requires Unique(H) && Unique(J)
    requires forall e: Entry :: e.sequence <= s ==> (e in H <==> e in J)
    ensures Lookup(H, k, s) == Lookup(J, k, s)
  {
    LookupFrame(H, J, k, s);
  }
}
