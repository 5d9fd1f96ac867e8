/**
 The merging loop of a table compaction (db/db_impl.cc, DoCompactionWork) and why
 dropping entries there is invisible to every reader that can still exist.
 */
module Compaction {
  import opened Wrappers
  import opened History

  /** IsBaseLevelForKey: no level below the output level may hold data for the key. */
  type BaseLevel = UserKey -> bool

  /** Value of last_sequence_for_key when the loop looks at input[i]. */
  function LastSequenceForKey(input: seq<Entry>, i: nat): nat
    requires i < |input|
  {
    if i > 0 && input[i - 1].key == input[i].key then input[i - 1].sequence else MAX_SEQUENCE
  }

  /** The loop's verdict on input[i]. */
  predicate Dropped(input: seq<Entry>, i: nat, smallest: nat, base: BaseLevel)
    requires i < |input|
  {
    || LastSequenceForKey(input, i) <= smallest
    || (input[i].kind.TypeDeletion? && input[i].sequence <= smallest && base(input[i].key))
  }

  /** The entries among the first n that survive, in order. */
  function Kept(input: seq<Entry>, n: nat, smallest: nat, base: BaseLevel): seq<Entry>
    requires n <= |input|
  {
    if n == 0 then []
    else if Dropped(input, n - 1, smallest, base) then Kept(input, n - 1, smallest, base)
    else Kept(input, n - 1, smallest, base) + [input[n - 1]]
  }

  function Survivors(input: seq<Entry>, smallest: nat, base: BaseLevel): seq<Entry> {
    Kept(input, |input|, smallest, base)
  }

  /** Membership in Kept, by position. */
  lemma {:induction false} KeptMembers(input: seq<Entry>, n: nat, smallest: nat, base: BaseLevel)
    requires n <= |input|
    ensures forall e :: e in Kept(input, n, smallest, base)
                   <==> exists i :: 0 <= i < n && input[i] == e && !Dropped(input, i, smallest, base)
  {
    if n > 0 {
      KeptMembers(input, n - 1, smallest, base);
      var k := Kept(input, n - 1, smallest, base);
      forall e ensures e in Kept(input, n, smallest, base)
                  <==> exists i :: 0 <= i < n && input[i] == e && !Dropped(input, i, smallest, base)
      {
        if !Dropped(input, n - 1, smallest, base) {
          assert e in k + [input[n - 1]] <==> e in k || e == input[n - 1];
        }
      }
    }
  }

  /** Survivors are written in input order, so every output table is in order, and strictly so when the input is. */
  lemma {:induction false} KeptSorted(input: seq<Entry>, n: nat, smallest: nat, base: BaseLevel)
    requires n <= |input| && Merged(input)
    ensures Merged(Kept(input, n, smallest, base))
    ensures Sorted(input) ==> Sorted(Kept(input, n, smallest, base))
  {
    if n > 0 {
      KeptSorted(input, n - 1, smallest, base);
      KeptMembers(input, n - 1, smallest, base);
      var k := Kept(input, n - 1, smallest, base);
      forall x | 0 <= x < |k|
        ensures k[x] == input[n - 1] || InternalLess(k[x], input[n - 1])
        ensures Sorted(input) ==> InternalLess(k[x], input[n - 1])
      {
        assert k[x] in k;
      }
    }
  }

  /**
   Where base holds, whatever lies outside the compaction is newer than the inputs of that
   key, or is a second copy of one of them.
   */
  ghost predicate BaseLevelSound(I: set<Entry>, rest: set<Entry>, base: BaseLevel) {
    forall r, e :: r in rest && e in I && e.key == r.key && base(e.key) ==> r == e || r.sequence > e.sequence
  }

  /** An entry dropped as obsolete deletion takes every older input of its key with it. */
  lemma NothingKeptBelowTombstone(input: seq<Entry>, i: nat, j: nat, smallest: nat, base: BaseLevel)
    requires Merged(input) && 0 <= i < j < |input|
    requires input[i].key == input[j].key && input[i].sequence <= smallest
    ensures Dropped(input, j, smallest, base)
  {
    assert j - 1 == i || input[i] == input[j - 1] || InternalLess(input[i], input[j - 1]);
    assert input[j - 1] == input[j] || InternalLess(input[j - 1], input[j]);
  }

  /** Rule (A) drops the first copy of an entry only when a newer visible entry stays ahead of it. */
  lemma HiddenIsNotNewest(input: seq<Entry>, i: nat, U: set<Entry>, smallest: nat, k: UserKey, s: nat)
    requires Merged(input) && i < |input| && Elems(input) <= U && Unique(U)
    requires i > 0 ==> input[i - 1] != input[i]
    requires smallest < MAX_SEQUENCE && s >= smallest
    requires LastSequenceForKey(input, i) <= smallest
    ensures !Newest(U, k, s, input[i])
  {
    var p := input[i - 1];
    assert InternalLess(p, input[i]);
    assert p in Elems(input) && input[i] in Elems(input);
    assert Visible(input[i], k, s) ==> Visible(p, k, s);
  }

  /**
   When the newest visible entry is an obsolete deletion of which nothing outside the
   compaction holds a copy, no survivor is visible either.
   */
  lemma NothingVisibleAfterTombstone(input: seq<Entry>, i: nat, rest: set<Entry>, smallest: nat, base: BaseLevel,
                                     k: UserKey, s: nat, w: Entry)
    requires Merged(input) && i < |input| && Unique(Elems(input) + rest) && input[i] !in rest
    requires forall j :: 0 <= j < i ==> input[j] != input[i]
    requires BaseLevelSound(Elems(input), rest, base)
    requires Newest(Elems(input) + rest, k, s, input[i])
    requires input[i].sequence <= smallest && base(k) && Dropped(input, i, smallest, base)
    requires w in Elems(Survivors(input, smallest, base)) + rest
    ensures !Visible(w, k, s)
  {
    KeptMembers(input, |input|, smallest, base);
    assert input[i] in Elems(input);
    forall j | 0 <= j < |input| && Visible(input[j], k, s) ensures Dropped(input, j, smallest, base) {
      assert input[j] in Elems(input) + rest;
      if i < j { NothingKeptBelowTombstone(input, i, j, smallest, base); }
    }
  }

  lemma {:induction false} FirstCopy(input: seq<Entry>, n: nat, e: Entry) returns (i: nat)
    requires n <= |input| && e in input[..n]
    ensures i < n && input[i] == e && forall j :: 0 <= j < i ==> input[j] != e
  {
    if e in input[..n - 1] {
      i := FirstCopy(input, n - 1, e);
    } else {
      i := n - 1;
      forall j | 0 <= j < i ensures input[j] != e { assert input[j] in input[..n - 1]; }
    }
  }

  /**
   Main theorem.  Every read of every key at every sequence number a live reader may use
   gives the same answer before and after the inputs are replaced by the survivors.
   */
  lemma CompactionPreservesReads(input: seq<Entry>, rest: set<Entry>, smallest: nat, base: BaseLevel,
                                 k: UserKey, s: nat)
    requires Merged(input) && Unique(Elems(input) + rest)
    requires BaseLevelSound(Elems(input), rest, base)
    requires smallest < MAX_SEQUENCE && s >= smallest
    ensures Lookup(Elems(Survivors(input, smallest, base)) + rest, k, s) == Lookup(Elems(input) + rest, k, s)
  {
    KeptMembers(input, |input|, smallest, base);
    var U := Elems(input) + rest;
    var V := Elems(Survivors(input, smallest, base)) + rest;
    if v :| v in U && Visible(v, k, s) {
      var n := NewestExists(U, k, s, v);
      LookupIs(U, k, s, n);
      if n in V {
        assert V <= U;
        LookupIs(V, k, s, n);
      } else {
        assert input[..|input|] == input;
        var i := FirstCopy(input, |input|, n);
        assert Dropped(input, i, smallest, base);
        if LastSequenceForKey(input, i) <= smallest {
          HiddenIsNotNewest(input, i, U, smallest, k, s);
        } else {
          forall w | w in V ensures !Visible(w, k, s) {
            NothingVisibleAfterTombstone(input, i, rest, smallest, base, k, s, w);
          }
          LookupNone(V, k, s);
        }
      }
    } else {
      LookupNone(U, k, s);
      assert V <= U;
      LookupNone(V, k, s);
    }
  }

  // ----- what is written, without the loop's own verdict ------------------------------------------

  /** A deletion marker that no live reader needs and that nothing older lies below. */
  predicate ObsoleteMarker(e: Entry, smallest: nat, base: BaseLevel) {
    e.kind.TypeDeletion? && e.sequence <= smallest && base(e.key)
  }

  /** A newer entry of the same key is already visible to every live reader. */
  ghost predicate Superseded(S: set<Entry>, e: Entry, smallest: nat) {
    exists f :: f in S && f.key == e.key && e.sequence < f.sequence <= smallest
  }

  /**
   The survivors are the input entries that are neither an obsolete deletion nor superseded:
   no marker and no hidden entry stays, and nothing else is lost.
   */
  lemma SurvivesIff(input: seq<Entry>, smallest: nat, base: BaseLevel, e: Entry)
    requires Merged(input) && Unique(Elems(input)) && smallest < MAX_SEQUENCE
    ensures e in Survivors(input, smallest, base) <==>
            e in input && !ObsoleteMarker(e, smallest, base) && !Superseded(Elems(input), e, smallest)
  {
    KeptMembers(input, |input|, smallest, base);
    if i :| 0 <= i < |input| && input[i] == e && !Dropped(input, i, smallest, base) {
      forall f | f in Elems(input) && f.key == e.key && e.sequence < f.sequence ensures f.sequence > smallest {
        var j :| 0 <= j < |input| && input[j] == f;
        assert i < j ==> InternalLess(e, f);
        assert j < i;
        if f.sequence <= smallest { NothingKeptBelowTombstone(input, j, i, smallest, base); }
      }
    }
    if e in input && !ObsoleteMarker(e, smallest, base) && !Superseded(Elems(input), e, smallest) {
      assert input[..|input|] == input;
      var i := FirstCopy(input, |input|, e);
      if i > 0 && input[i - 1].key == e.key {
        assert InternalLess(input[i - 1], e) && input[i - 1] in Elems(input) && e in Elems(input);
        assert input[i - 1].sequence > e.sequence;
      }
      assert !Dropped(input, i, smallest, base);
    }
  }

  lemma WrittenEntries(input: seq<Entry>, smallest: nat, base: BaseLevel)
    ensures Merged(input) && Unique(Elems(input)) && smallest < MAX_SEQUENCE ==>
              forall e :: e in Survivors(input, smallest, base) <==>
                e in input && !ObsoleteMarker(e, smallest, base) && !Superseded(Elems(input), e, smallest)
    ensures Merged(input) ==> Merged(Survivors(input, smallest, base)) && (Sorted(input) ==> Sorted(Survivors(input, smallest, base)))
  {
    hide Superseded, Merged, Sorted, Unique, Elems, Survivors;
    if Merged(input) {
      SurvivorsInOrder(input, smallest, base);
      if Unique(Elems(input)) && smallest < MAX_SEQUENCE {
        forall e ensures e in Survivors(input, smallest, base) <==>
                         e in input && !ObsoleteMarker(e, smallest, base) && !Superseded(Elems(input), e, smallest)
        {
          SurvivesIff(input, smallest, base, e);
        }
      }
    }
  }

  lemma SurvivorsInOrder(input: seq<Entry>, smallest: nat, base: BaseLevel)
    requires Merged(input)
    ensures Merged(Survivors(input, smallest, base)) && (Sorted(input) ==> Sorted(Survivors(input, smallest, base)))
  {
    KeptSorted(input, |input|, smallest, base);
  }

  /** Of one key at most one entry at or below the smallest snapshot survives. */
  lemma OneSurvivorPerKey(input: seq<Entry>, smallest: nat, base: BaseLevel, e: Entry, f: Entry)
    requires Merged(input) && Unique(Elems(input)) && smallest < MAX_SEQUENCE
    requires e in Survivors(input, smallest, base) && f in Survivors(input, smallest, base)
    requires e.key == f.key && e.sequence <= smallest && f.sequence <= smallest
    ensures e == f
  {
    SurvivesIff(input, smallest, base, e);
    SurvivesIff(input, smallest, base, f);
    assert e in Elems(input) && f in Elems(input);
    assert !(e.sequence < f.sequence) && !(f.sequence < e.sequence);
  }

  /**
   The bound on smallest is needed: last_sequence_for_key starts at kMaxSequenceNumber, so a
   compaction run with that number as its smallest snapshot would discard every entry.
   */
  lemma {:induction false} MaxSnapshotDropsEverything(input: seq<Entry>, n: nat, smallest: nat, base: BaseLevel)
    requires n <= |input| && smallest >= MAX_SEQUENCE
    requires forall e :: e in input ==> e.sequence <= MAX_SEQUENCE
    ensures Kept(input, n, smallest, base) == []
  {
    if n > 0 {
      MaxSnapshotDropsEverything(input, n - 1, smallest, base);
      assert input[n - 1] in input;
      if n > 1 { assert input[n - 2] in input; }
    }
  }

  ghost predicate WellFormedInput(input: seq<Entry>, rest: set<Entry>, base: BaseLevel) {
    && Merged(input) && Unique(Elems(input) + rest)
    && BaseLevelSound(Elems(input), rest, base)
    && forall e :: e in input ==> e.sequence <= MAX_SEQUENCE
  }

  ghost predicate PreservesReads(input: seq<Entry>, rest: set<Entry>, smallest: nat, base: BaseLevel) {
    forall k, s :: s >= smallest ==>
      Lookup(Elems(Survivors(input, smallest, base)) + rest, k, s) == Lookup(Elems(input) + rest, k, s)
  }

  /** Compaction preserves reads on all well-formed inputs exactly when smallest is below kMaxSequenceNumber. */
  lemma ReadsSurviveIffBelowMax(smallest: nat)
    ensures smallest < MAX_SEQUENCE <==>
            forall input, rest, base :: WellFormedInput(input, rest, base) ==> PreservesReads(input, rest, smallest, base)
  {
    if smallest < MAX_SEQUENCE {
      forall input, rest, base | WellFormedInput(input, rest, base)
        ensures PreservesReads(input, rest, smallest, base)
      {
        forall k, s | s >= smallest
          ensures Lookup(Elems(Survivors(input, smallest, base)) + rest, k, s) == Lookup(Elems(input) + rest, k, s)
        {
          CompactionPreservesReads(input, rest, smallest, base, k, s);
        }
      }
    } else {
      var e := Entry(0, 0, TypeValue, "");
      var base: BaseLevel := _ => true;
      MaxSnapshotDropsEverything([e], 1, smallest, base);
      assert Survivors([e], smallest, base) == [];
      assert Newest(Elems([e]) + {}, 0, smallest, e);
      LookupIs(Elems([e]) + {}, 0, smallest, e);
      LookupNone(Elems([]) + {}, 0, smallest);
      assert WellFormedInput([e], {}, base) && !PreservesReads([e], {}, smallest, base);
    }
  }

  /** What the environment decides while the loop runs, by input position or output index. */
  datatype Env = Env(
    stopBefore: nat -> bool,   // ShouldStopBefore(key)
    full: nat -> bool,         // FileSize() >= MaxOutputFileSize() after adding input[i]
    shutdown: nat -> bool,     // shutting_down_ seen at iteration i
    openFails: nat -> bool,    // OpenCompactionOutputFile of output j
    finishFails: nat -> bool)  // FinishCompactionOutputFile of output j

  datatype Output = Output(smallest: Option<Entry>, largest: Option<Entry>, entries: seq<Entry>)

  ghost function Flatten(outputs: seq<Output>): seq<Entry> {
    if outputs == [] then [] else Flatten(outputs[..|outputs| - 1]) + outputs[|outputs| - 1].entries
  }

  /** A finished table is non-empty and records its first and last entry as its bounds. */
  ghost predicate WellBounded(o: Output) {
    && o.entries != []
    && o.smallest == Some(o.entries[0])
    && o.largest == Some(o.entries[|o.entries| - 1])
  }

  ghost predicate AllBounded(outputs: seq<Output>) {
    forall i :: 0 <= i < |outputs| ==> WellBounded(outputs[i])
  }

  // ----- where one output table ends and the next begins -------------------------------------------

  /** at[j] are the input positions of the entries of outputs[j]. */
  ghost predicate Placed(input: seq<Entry>, outputs: seq<Output>, at: seq<seq<nat>>) {
    && |at| == |outputs|
    && forall j :: 0 <= j < |outputs| ==> PlacedOne(input, outputs[j].entries, at[j])
  }

  ghost predicate PlacedOne(input: seq<Entry>, es: seq<Entry>, ps: seq<nat>) {
    |ps| == |es| && forall x :: 0 <= x < |ps| ==> ps[x] < |input| && es[x] == input[ps[x]]
  }

  /** Between the entries at positions p and q the table has to be changed. */
  ghost predicate Switches(env: Env, p: nat, q: nat) {
    env.full(p) || exists k: nat :: p < k <= q && env.stopBefore(k)
  }

  /** Neighbouring entries are in one table exactly when nothing between them calls for a change. */
  ghost predicate SwitchedRight(env: Env, at: seq<seq<nat>>) {
    forall j :: 0 <= j < |at| ==>
      Together(env, at[j]) && at[j] != [] && (j > 0 ==> at[j - 1] != [] && Apart(env, at[j - 1], at[j]))
  }

  ghost predicate Together(env: Env, ps: seq<nat>) {
    forall x :: 0 < x < |ps| ==> ps[x - 1] < ps[x] && !Switches(env, ps[x - 1], ps[x])
  }

  ghost predicate Apart(env: Env, ps: seq<nat>, qs: seq<nat>)
    requires ps != [] && qs != []
  {
    ps[|ps| - 1] < qs[0] && Switches(env, ps[|ps| - 1], qs[0])
  }

  /** The last table is open exactly when nothing from its last entry to position q closed it; i comes next. */
  ghost predicate SwitchState(env: Env, at: seq<seq<nat>>, building: bool, i: nat, q: int) {
    && SwitchedRight(env, at) && (building ==> at != [])
    && (at != [] ==>
          var ps := at[|at| - 1];
          ps != [] && ps[|ps| - 1] < i && ps[|ps| - 1] <= q && (building <==> !Switches(env, ps[|ps| - 1], q)))
  }

  lemma StopChecked(env: Env, at: seq<seq<nat>>, building: bool, i: nat)
    requires SwitchState(env, at, building, i, i - 1)
    ensures SwitchState(env, at, building && !env.stopBefore(i), i, i)
    ensures SwitchState(env, at, building && !env.stopBefore(i), i + 1, i)
  {
    hide SwitchedRight;
    if at != [] {
      var p := at[|at| - 1][|at[|at| - 1]| - 1];
      assert Switches(env, p, i) <==> Switches(env, p, i - 1) || env.stopBefore(i);
    }
  }

  function PutAt(at: seq<seq<nat>>, building: bool, i: nat): (r: seq<seq<nat>>)
    requires building ==> at != []
    ensures r != []
  {
    if building then at[..|at| - 1] + [at[|at| - 1] + [i]] else at + [[i]]
  }

  lemma PutKeepsSwitches(env: Env, at: seq<seq<nat>>, building: bool, i: nat)
    requires SwitchState(env, at, building, i, i)
    ensures SwitchState(env, PutAt(at, building, i), !env.full(i), i + 1, i)
  {
    hide Switches, Together, Apart;
    var to := PutAt(at, building, i);
    if building { LongerTogether(env, at[|at| - 1], i); } else { AloneTogether(env, i); }
    forall j | 0 <= j < |to|
      ensures Together(env, to[j]) && to[j] != [] && (j > 0 ==> to[j - 1] != [] && Apart(env, to[j - 1], to[j]))
    {
      if j < |to| - 1 {
        assert to[j] == at[j] && (j > 0 ==> to[j - 1] == at[j - 1]);
      } else if j > 0 {
        assert to[j - 1] == at[j - 1];
        LastApart(env, at, building, i);
      }
    }
    NothingBetween(env, i);
  }

  lemma LongerTogether(env: Env, ps: seq<nat>, i: nat)
    requires ps != [] && Together(env, ps) && ps[|ps| - 1] < i && !Switches(env, ps[|ps| - 1], i)
    ensures Together(env, ps + [i])
  {
    hide Switches;
  }

  lemma AloneTogether(env: Env, i: nat)
    ensures Together(env, [i])
  {
  }

  lemma LastApart(env: Env, at: seq<seq<nat>>, building: bool, i: nat)
    requires SwitchState(env, at, building, i, i) && at != []
    ensures !building ==> Apart(env, at[|at| - 1], [i])
    ensures building && |at| > 1 ==> at[|at| - 2] != [] && Apart(env, at[|at| - 2], at[|at| - 1] + [i])
  {
    hide Switches, Together;
    if building && |at| > 1 {
      var j := |at| - 1;
      assert at[j] != [] && at[j - 1] != [] && Apart(env, at[j - 1], at[j]);
    }
  }

  lemma NothingBetween(env: Env, i: nat)
    ensures Switches(env, i, i) <==> env.full(i)
  {
  }

  lemma PutPlaces(input: seq<Entry>, was: seq<Output>, now: seq<Output>, at: seq<seq<nat>>, open: bool, i: nat)
    requires Placed(input, was, at) && i < |input| && (open ==> at != [])
    requires now != [] && |now| == |was| + (if open then 0 else 1)
    requires now[..|now| - 1] == if open then was[..|was| - 1] else was
    requires now[|now| - 1].entries == (if open then was[|was| - 1].entries else []) + [input[i]]
    ensures Placed(input, now, PutAt(at, open, i))
  {
    var to := PutAt(at, open, i);
    forall j | 0 <= j < |now| ensures PlacedOne(input, now[j].entries, to[j]) {
      if j < |now| - 1 {
        assert now[j] == now[..|now| - 1][j] == was[j] && to[j] == at[j];
        assert PlacedOne(input, was[j].entries, at[j]);
      } else if open {
        assert PlacedOne(input, was[j].entries, at[j]);
      }
    }
  }

  lemma OpenHasOutput(env: Env, at: seq<seq<nat>>, building: bool, i: nat)
    requires SwitchState(env, at, building, i, i)
    ensures building ==> at != []
  {
  }

  lemma EndsSwitched(env: Env, at: seq<seq<nat>>, building: bool, i: nat)
    requires SwitchState(env, at, building, i, i - 1)
    ensures SwitchedRight(env, at)
  {
  }

  lemma NothingWritten(input: seq<Entry>, env: Env)
    ensures Flatten([]) == [] && Placed(input, [], []) && SwitchState(env, [], false, 0, -1)
  {
  }

  class CompactionState {
    const smallestSnapshot: nat
    const env: Env
    var outputs: seq<Output>
    var building: bool        // builder != nullptr: the last output is still open

    constructor (smallest: nat, env: Env)
      ensures smallestSnapshot == smallest && this.env == env && outputs == [] && !building
    {
      smallestSnapshot := smallest;
      this.env := env;
      outputs := [];
      building := false;
    }

    ghost predicate Valid() reads this {
      && (building ==> outputs != [])
      && AllBounded(outputs)
    }

    method OpenCompactionOutputFile() returns (status: Status)
      requires Valid() && !building
      modifies this
      ensures status == if env.openFails(|old(outputs)|) then IOError else OK
      ensures outputs == old(outputs) + [Output(None, None, [])]
      ensures building == status.OK?
      ensures Flatten(outputs) == old(Flatten(outputs))
    {
      assert (outputs + [Output(None, None, [])])[..|outputs|] == outputs;
      status := if env.openFails(|outputs|) then IOError else OK;
      outputs := outputs + [Output(None, None, [])];
      building := status.OK?;
    }

    method FinishCompactionOutputFile() returns (status: Status)
      requires Valid() && building
      modifies this`building
      ensures status == if env.finishFails(|outputs| - 1) then IOError else OK
      ensures !building && Valid()
    {
      status := if env.finishFails(|outputs| - 1) then IOError else OK;
      building := false;
    }

    /** builder->Add together with the bookkeeping of smallest and largest. */
    method Add(e: Entry)
      requires building && outputs != [] && AllBounded(outputs[..|outputs| - 1])
      requires var o := outputs[|outputs| - 1]; o == Output(None, None, []) || WellBounded(o)
      modifies this`outputs
      ensures Valid() && building && |outputs| == |old(outputs)|
      ensures Flatten(outputs) == old(Flatten(outputs)) + [e]
      ensures outputs[..|outputs| - 1] == old(outputs[..|outputs| - 1])
      ensures outputs[|outputs| - 1].entries == old(outputs[|outputs| - 1].entries) + [e]
    {
      var last := |outputs| - 1;
      var o := outputs[last];
      if o.entries == [] {
        o := o.(smallest := Some(e));
      }
      o := o.(largest := Some(e), entries := o.entries + [e]);
      assert outputs[last := o][..last] == outputs[..last];
      outputs := outputs[last := o];
    }

    /** Write one surviving entry, opening and closing output tables as needed. */
    method Emit(e: Entry, i: nat) returns (status: Status)
      requires Valid()
      modifies this
      ensures Flatten(outputs) == old(Flatten(outputs)) || Flatten(outputs) == old(Flatten(outputs)) + [e]
      ensures status.OK? ==> Valid() && Flatten(outputs) == old(Flatten(outputs)) + [e]
      ensures |outputs| == |old(outputs)| + if old(building) then 0 else 1
      ensures status.OK? ==> building == !env.full(i)
      ensures status.OK? ==> outputs[..|outputs| - 1] == if old(building) then old(outputs[..|outputs| - 1]) else old(outputs)
      ensures status.OK? ==> outputs[|outputs| - 1].entries == (if old(building) then old(outputs[|outputs| - 1].entries) else []) + [e]
      ensures status.IOError? ==> exists j: nat :: env.openFails(j) || env.finishFails(j)
    {
      hide Flatten;
      if !building {
        ghost var before := outputs;
        status := OpenCompactionOutputFile();
        assert outputs[..|outputs| - 1] == before;
        if !status.ok() { return; }
      }
      Add(e);
      status := OK;
      if env.full(i) {
        status := FinishCompactionOutputFile();
      }
    }

    /**
     The compaction loop.  On success the finished tables hold exactly the survivors, in
     order; on any failure what was written is the survivors of a prefix of the input.
     */
    method DoCompactionWork(input: seq<Entry>, base: BaseLevel) returns (status: Status, ghost at: seq<seq<nat>>)
      requires outputs == [] && !building
      modifies this
      ensures exists n :: 0 <= n <= |input| && Flatten(outputs) == Kept(input, n, smallestSnapshot, base)
      ensures status.OK? ==> !building && AllBounded(outputs)
      ensures status.OK? ==> Flatten(outputs) == Survivors(input, smallestSnapshot, base)
      // the same without the loop's verdict: what is written, and in which order
      ensures status.OK? && Merged(input) && Unique(Elems(input)) && smallestSnapshot < MAX_SEQUENCE ==>
                forall e :: e in Flatten(outputs) <==>
                  e in input && !ObsoleteMarker(e, smallestSnapshot, base) && !Superseded(Elems(input), e, smallestSnapshot)
      ensures status.OK? && Merged(input) ==> Merged(Flatten(outputs)) && (Sorted(input) ==> Sorted(Flatten(outputs)))
      // and which table each entry is in
      ensures status.OK? ==> Placed(input, outputs, at) && SwitchedRight(env, at)
      ensures status.IOError? ==>
                exists j: nat :: env.shutdown(j) || env.openFails(j) || env.finishFails(j)
    {
      hide Placed, SwitchedRight, SwitchState, Switches, Flatten;
      status, at := OK, [];
      NothingWritten(input, env);
      var i := 0;
      var currentUserKey: Option<UserKey> := None;   // has_current_user_key is Some?
      var lastSequenceForKey := MAX_SEQUENCE;
      while i < |input| && !env.shutdown(i)
        invariant 0 <= i <= |input| && status.OK? && Valid()
        invariant Flatten(outputs) == Kept(input, i, smallestSnapshot, base)
        invariant Placed(input, outputs, at) && SwitchState(env, at, building, i, i - 1)
        invariant currentUserKey == if i == 0 then None else Some(input[i - 1].key)
        invariant i > 0 ==> lastSequenceForKey == input[i - 1].sequence
      {
        var ikey := input[i];
        StopChecked(env, at, building, i);
        if env.stopBefore(i) && building {
          status := FinishCompactionOutputFile();
          if !status.ok() { return; }
        }
        if currentUserKey != Some(ikey.key) {
          currentUserKey := Some(ikey.key);
          lastSequenceForKey := MAX_SEQUENCE;
        }
        assert lastSequenceForKey == LastSequenceForKey(input, i);
        var drop := false;
        if lastSequenceForKey <= smallestSnapshot {
          drop := true;   // (A) hidden by a newer entry for the same key
        } else if ikey.kind.TypeDeletion? && ikey.sequence <= smallestSnapshot && base(ikey.key) {
          drop := true;   // obsolete deletion
        }
        lastSequenceForKey := ikey.sequence;
        if !drop {
          ghost var was, open := outputs, building;
          status := Emit(ikey, i);
          assert Kept(input, i + 1, smallestSnapshot, base) == Kept(input, i, smallestSnapshot, base) + [ikey];
          if !status.ok() { return; }
          OpenHasOutput(env, at, open, i);
          PutPlaces(input, was, outputs, at, open, i);
          PutKeepsSwitches(env, at, open, i);
          at := PutAt(at, open, i);
        }
        i := i + 1;
      }
      EndsSwitched(env, at, building, i);
      if i < |input| {
        status := IOError;   // "Deleting DB during compaction"
      }
      if status.ok() && building {
        status := FinishCompactionOutputFile();
      }
      WrittenEntries(input, smallestSnapshot, base);
      
    }
  }
}
