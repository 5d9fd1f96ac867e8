/**
 Iterators over the engine (db/db_impl.cc, NewIterator): what DBIter shows when it runs over
 the memtables and tables that a reader holds is the store at the reader's sequence number,
 and it stays so while the engine goes on.
 */
module EngineIterator {
  import opened Wrappers
  import opened History
  import opened Layers
  import opened Compaction
  import opened EngineState
  import opened EngineSteps
  import opened EngineInvariants
  import opened EngineBackground
  import opened EngineReaders
  import opened EngineRun
  import opened EngineVersions
  import opened EngineWriters
  import opened EngineMemory
  import DBIterator

  /** A step of the client's cursor means the same over two contents. */
  ghost predicate SameSteps(E: set<Entry>, F: set<Entry>, n: nat) {
    forall op, before, after :: DBIterator.CursorStep(E, n, op, before, after) <==> DBIterator.CursorStep(F, n, op, before, after)
  }

  /**
   Whatever the merged layers of a reader are, DBIter may run over them, and each of its
   operations is the step of a cursor over the live keys of the whole store.
   */
  lemma IteratorShowsStore(s: State, id: nat, es: seq<Entry>)
    requires Inv(s) && id in s.r.active && Elems(es) == ReaderLayers(s, s.r.active[id])
    ensures Unique(Elems(es)) && SameSteps(Elems(es), Hist(s), s.r.active[id].snapshot)
    ensures forall k :: Lookup(Elems(es), k, s.r.active[id].snapshot) == Lookup(Hist(s), k, s.r.active[id].snapshot)
  {
    var r := s.r.active[id];
    ActiveReaderOk(s, id);
    assert VersionOk(s.f.tables, r.version) && Unique(Hist(s));
    hide Inv, ReaderOk, VersionOk, ReaderLayers, Hist;
    forall k ensures Lookup(Elems(es), k, r.snapshot) == Lookup(Hist(s), k, r.snapshot) && Elems(es) <= Hist(s) {
      LayersOfReader(s, r, k);
    }
    UniqueSubset(Elems(es), Hist(s));
    SameReadsSameSteps(Elems(es), Hist(s), r.snapshot);
  }

  lemma SameReadsSameSteps(E: set<Entry>, F: set<Entry>, n: nat)
    requires forall k :: Lookup(E, k, n) == Lookup(F, k, n)
    ensures SameSteps(E, F, n)
  {
    hide Lookup;
    forall k ensures DBIterator.Live(E, n, k) <==> DBIterator.Live(F, n, k) {}
  }

  // ----- while the engine goes on ---------------------------------------------------------------------

  /** The same entries up to number n, and nothing taken away beyond it. */
  ghost predicate GrowsBeyond(E: set<Entry>, F: set<Entry>, n: nat) {
    E <= F && forall e :: e in F && e !in E ==> e.sequence > n
  }

  /** A step of anybody leaves a reader's layers as they are, or adds entries it cannot see. */
  lemma StepKeepsLayers(s: State, a: Action, s': State, r: Reader)
    requires Inv(s) && Next(s, a, s') && !a.Crash? && r in s.r.active.Values
    ensures GrowsBeyond(ReaderLayers(s, r), ReaderLayers(s', r), r.snapshot)
  {
    hide Inv, Holds, StoreHolds, WorkHolds, ReaderOk, WriterStep, ReaderStep, BackStep, Hist, TablesOf;
    InvParts(s);
    var id :| id in s.r.active && s.r.active[id] == r;
    ActiveReaderOk(s, id);
    match a {
      case OfWriter(w) => WriterKeepsLayers(s, w, s', r);
      case OfReader(x) =>
        ReaderKeepsHist(s, x, s');
        ReaderKeepsFiles(s, x, s');
      case OfBackground(b) =>
        BackKeepsHist(s, b, s');
        BackKeepsReaderTables(s, b, s', id);
    }
  }

  lemma ActiveReaderOk(s: State, id: nat)
    requires Inv(s) && id in s.r.active
    ensures ReaderOk(s, s.r.active[id])
  {
    hide QueueInv, MemInv, LogInv, DiskInv, PromiseInv, VersionsInv, NumbersInv, PhaseInv, ManifestInv, WakeInv, AtomicInv, ReaderOk;
  }

  lemma ReaderKeepsFiles(s: State, a: ReaderAction, s': State)
    requires ReaderStep(s, a, s')
    ensures s'.f == s.f
  {
  }

  lemma WriterKeepsLayers(s: State, a: WriterAction, s': State, r: Reader)
    requires Holds(s) && s.m.memId < s.vs.nextFile && WriterStep(s, a, s') && ReaderOk(s, r)
    ensures GrowsBeyond(ReaderLayers(s, r), ReaderLayers(s', r), r.snapshot)
  {
    WriterFrames(s, a, s');
    if a.AInsert? {
      InsertIsNewest(s, s');
      hide Holds, Hist, Above, TablesOf;
      assert s.q.leader.g.entries[s.q.leader.n].sequence > r.snapshot;
    } else {
      OldMemtables(s, a, s');
      hide Holds, Hist, Above, TablesOf, WriterStep;
    }
  }

  /** Tables being written are not referenced, and tables that are deleted are not either. */
  lemma BackKeepsReaderTables(s: State, a: BackAction, s': State, id: nat)
    requires StoreHolds(s) && WorkHolds(s) && BackStep(s, a, s') && id in s.r.active
    ensures var files := s.r.active[id].version.files; TablesOf(s'.f.tables, files) == TablesOf(s.f.tables, files)
  {
    hide TablesOf, CompOk, MemInv, LogInv, DiskInv, PromiseInv, Obsolete, Unique, Agree, ApplyEdit, FlushEdit, CompactEdit,
      Survivors, Merged, BaseLevelSound, IsSmallestSnapshot, ImmSet, ManifestInv, EditOk;
    TablesFrame(s.f.tables, s'.f.tables, s.r.active[id].version.files);
  }
  /** Over any stretch of a run without a crash, all an open iterator gains is beyond its sequence number. */
  lemma {:induction false} LayersAlong(states: seq<State>, actions: seq<Action>, log: nat, i: nat, j: nat, id: nat, r: Reader)
    requires IsRun(states, actions, log) && i <= j < |states| && NoCrash(actions, i, j)
    requires forall x :: i <= x <= j ==> id in states[x].r.active && states[x].r.active[id] == r
    ensures GrowsBeyond(ReaderLayers(states[i], r), ReaderLayers(states[j], r), r.snapshot)
    decreases j
  {
    hide Inv, Next, ReaderLayers;
    if i < j {
      LayersAlong(states, actions, log, i, j - 1, id, r);
      RunsAreSafe(states, actions, log, j - 1);
      StepKeepsLayers(states[j - 1], actions[j - 1], states[j], r);
    }
  }
}
