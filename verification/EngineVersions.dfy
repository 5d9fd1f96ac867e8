/**
 Versions, table files and the manifest over whole runs: flushes and compactions keep every
 read, in the installed version, in the one the manifest describes, and in those that
 readers still hold.
 */
module EngineVersions {
  import opened Wrappers
  import opened History
  import opened Layers
  import opened Compaction
  import opened WriteGroup
  import opened EngineState
  import opened EngineSteps
  import opened EngineInvariants
  import opened EngineMemory

  // ----- edits keep the reads of a version --------------------------------------------------------

  /** Versions depend on the files they refer to only. */
  lemma VersionFrame(t: map<nat, set<Entry>>, u: map<nat, set<Entry>>, v: Version)
    requires VersionOk(t, v)
    requires forall n :: n in v.files ==> n in u && (n in t ==> t[n] == u[n])
    ensures VersionOk(u, v) && TablesOf(u, v.files) == TablesOf(t, v.files)
  {
    hide TablesOf, Agree, Unique;
    TablesFrame(t, u, v.files);
  }

  /** A flush: what compactions dropped before is older than all that is flushed now. */
  lemma FlushKeepsReads(tables: map<nat, set<Entry>>, v: Version, e: Edit)
    requires VersionOk(tables, v) && e.added <= tables.Keys && e.removed == {} && e.smallest == 0
    requires e.flushes == TablesOf(tables, e.added) && Unique(v.flushed + e.flushes)
    requires forall f, x :: f in v.flushed && f !in TablesOf(tables, v.files) && x in e.flushes && f !in e.flushes ==>
                              f.sequence < x.sequence
    ensures VersionOk(tables, ApplyEdit(v, e))
    ensures TablesOf(tables, ApplyEdit(v, e).files) == TablesOf(tables, v.files) + e.flushes
  {
    hide TablesOf, Agree, Unique;
    assert v.files - e.removed + e.added == v.files + e.added;
    TablesSplit(tables, v.files, e.added);
    AgreeUnder(TablesOf(tables, v.files), v.flushed, e.flushes, v.floor);
  }

  /** A compaction: the survivors stand for the inputs from the smallest snapshot on. */
  lemma CompactKeepsReads(tables: map<nat, set<Entry>>, v: Version, c: Comp, e: Edit)
    requires VersionOk(tables, v) && CompOk(tables, c, v)
    requires Merged(c.input) && Elems(c.input) == TablesOf(tables, c.inputs) && c.smallest < MAX_SEQUENCE
    requires e.added == c.outputs && e.removed == c.inputs && e.flushes == {} && e.smallest == c.smallest
    requires e.added <= tables.Keys
    requires TablesOf(tables, e.added) == Elems(Survivors(c.input, c.smallest, c.base))
    ensures VersionOk(tables, ApplyEdit(v, e))
    ensures TablesOf(tables, v.files) <= TablesOf(tables, ApplyEdit(v, e).files) + Elems(c.input)
  {
    hide TablesOf, Agree, Unique, Merged, BaseLevelSound, Elems, Survivors;
    var rest := TablesOf(tables, v.files - c.inputs);
    var before, after := TablesOf(tables, v.files), TablesOf(tables, ApplyEdit(v, e).files);
    assert v.files == c.inputs + (v.files - c.inputs);
    TablesSplit(tables, c.inputs, v.files - c.inputs);
    assert ApplyEdit(v, e).files == e.added + (v.files - c.inputs);
    TablesSplit(tables, e.added, v.files - c.inputs);
    assert before == Elems(c.input) + rest;
    assert after == Elems(Survivors(c.input, c.smallest, c.base)) + rest;
    SurvivorsAreInputs(c.input, c.smallest, c.base);
    UniqueSubset(before, v.flushed);
    assert Agree(after, before, c.smallest) by { CompactionAgrees(c.input, rest, c.smallest, c.base); }
    AgreeTransitive(after, before, v.flushed, c.smallest, v.floor);
    assert v.flushed + e.flushes == v.flushed;
  }

  lemma UniqueSubset(S: set<Entry>, T: set<Entry>)
    requires Unique(T) && S <= T
    ensures Unique(S)
  {
  }

  lemma SurvivorsAreInputs(input: seq<Entry>, smallest: nat, base: BaseLevel)
    ensures Elems(Survivors(input, smallest, base)) <= Elems(input)
  {
    KeptMembers(input, |input|, smallest, base);
  }

  lemma CompactionAgrees(input: seq<Entry>, rest: set<Entry>, smallest: nat, base: BaseLevel)
    requires Merged(input) && Unique(Elems(input) + rest) && BaseLevelSound(Elems(input), rest, base)
    requires smallest < MAX_SEQUENCE
    ensures Agree(Elems(Survivors(input, smallest, base)) + rest, Elems(input) + rest, smallest)
  {
    hide Merged, Unique, BaseLevelSound, Elems, Survivors;
    forall k, s | s >= smallest
      ensures Lookup(Elems(Survivors(input, smallest, base)) + rest, k, s) == Lookup(Elems(input) + rest, k, s)
    {
      CompactionPreservesReads(input, rest, smallest, base, k, s);
    }
  }

  lemma MoveKeepsReads(tables: map<nat, set<Entry>>, v: Version, e: Edit)
    requires VersionOk(tables, v) && e.added == {} && e.removed == {} && e.flushes == {} && e.smallest == 0
    ensures VersionOk(tables, ApplyEdit(v, e))
    ensures ApplyEdit(v, e) == v.(logNumber := e.logNumber)
  {
    hide TablesOf, Agree, Unique;
    assert v.files - {} + {} == v.files && v.flushed + {} == v.flushed;
    assert ApplyEdit(v, e) == v.(logNumber := e.logNumber);
  }

  // ----- one edit, applied to the manifest and to the installed version ---------------------------

  /** What the proofs about the background thread rest on. */
  ghost predicate VersionsHold(s: State) {
    && MemInv(s.m, s.vs.current.flushed, s.q.leader)
    && LogInv(s.f.logs, s.m, s.vs.current, s.q.leader)
    && DiskInv(s.f, s.m, s.vs.current)
    && VersionsInv(s.f, s.vs.current, s.r.active)
    && NumbersInv(s) && PhaseInv(s)
  }

  /** The edit under way keeps the reads of the version the manifest describes. */
  lemma EditKeepsDisk(s: State, e: Edit, kind: Kind, comp: Option<Comp>)
    requires VersionsHold(s) && EditOk(s, e, kind, comp)
    requires comp.Some? ==> CompInv(s, comp.value, Applying(e, kind))
    ensures VersionOk(s.f.tables, ApplyEdit(s.f.disk, e))
    ensures DiskInv(s.f.(disk := ApplyEdit(s.f.disk, e), diskLastSequence := e.lastSequence), s.m, s.vs.current)
    ensures e.flushes <= ApplyEdit(s.f.disk, e).flushed
  {
    hide TablesOf, Agree, LogCovers, PhaseInv, NumbersInv, Survivors, BaseLevelSound, Merged, Elems, WorkInv;
    match kind
    case Flush =>
      hide CompInv;
      UniqueSubset(s.f.disk.flushed + e.flushes, s.vs.current.flushed + ImmSet(s.m) + MemSet(s.m));
      FlushKeepsReads(s.f.tables, s.f.disk, e);
    case Compact =>
      var c := comp.value;
      CompactKeepsReads(s.f.tables, s.f.disk, c, e);
      assert Elems(c.input) <= s.vs.current.flushed by { InputsFlushed(s, c); }
    case Move =>
      MoveKeepsReads(s.f.tables, s.f.disk, e);
  }

  lemma InputsFlushed(s: State, c: Comp)
    requires VersionOk(s.f.tables, s.vs.current) && c.inputs <= s.vs.current.files
    requires Elems(c.input) == TablesOf(s.f.tables, c.inputs)
    ensures Elems(c.input) <= s.vs.current.flushed
  {
    hide Agree, Unique;
  }

  lemma EditKeepsCurrent(s: State, e: Edit, kind: Kind, comp: Option<Comp>, w: Work)
    requires VersionsHold(s) && EditOk(s, e, kind, comp)
    requires comp.Some? ==> CompInv(s, comp.value, w)
    ensures VersionOk(s.f.tables, ApplyEdit(s.vs.current, e))
  {
    hide TablesOf, Agree, LogInv, DiskInv, PhaseInv, NumbersInv, Survivors, BaseLevelSound, Merged, Elems, WorkInv;
    match kind
    case Flush =>
      hide CompInv;
      UniqueSubset(s.vs.current.flushed + e.flushes, s.vs.current.flushed + ImmSet(s.m) + MemSet(s.m));
      FlushKeepsReads(s.f.tables, s.vs.current, e);
    case Compact => CompactKeepsReads(s.f.tables, s.vs.current, comp.value, e);
    case Move => MoveKeepsReads(s.f.tables, s.vs.current, e);
  }
}
