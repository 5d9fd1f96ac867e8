/**
 Garbage collection (db/db_impl.cc, RemoveObsoleteFiles) over whole runs: everything that is
 dead when a collection begins is picked, is gone when the picked files are deleted, and does
 not come back; everything else stays.
 */
module EngineGarbage {
  import opened Wrappers
  import opened History
  import opened Compaction
  import opened EngineState
  import opened EngineSteps
  import opened EngineInvariants
  import opened EngineBackground
  import opened EngineReaders
  import opened EngineRun
  import opened EngineRecovery
  import opened EngineMemory
  import opened EngineWriters
  import opened LogReplay

  predicate Collects(s: State) {
    s.b.phase.Running? && s.b.phase.work.Collecting?
  }

  function Picked(s: State): Doomed
    requires Collects(s)
  {
    s.b.phase.work.doomed
  }

  /** Table n is an unfinished output, or in the current version, or in one that a reader holds. */
  ghost predicate InUse(s: State, n: nat) {
    || n in s.vs.pending || n in s.vs.current.files
    || exists id :: id in s.r.active && n in s.r.active[id].version.files
  }

  /** A collection begins with exactly the dead files of the directory. */
  ghost predicate PickedIsDead(s: State)
    requires Collects(s)
  {
    && (forall n :: n in Picked(s).tables <==> n in s.f.tables && !InUse(s, n))
    && (forall n :: n in Picked(s).logs <==> n in s.f.logs && n < s.vs.current.logNumber)
    && (forall n :: n in Picked(s).manifests <==> n in s.f.manifests && n < s.vs.manifestNumber)
  }

  /** Installing a flush or a compaction begins a collection, unless there is an error. */
  lemma InstallCollects(s: State, s': State, level0: nat, needs: bool)
    requires Inv(s) && Install(s, s', level0, needs) && !s.b.bgError && !s.b.phase.work.kind.Move?
    ensures Collects(s') && PickedIsDead(s')
  {
    hide Inv, ApplyEdit, CompactionScore;
  }

  /** There is no other beginning. */
  lemma CollectionBegins(s: State, a: Action, s': State)
    requires Inv(s) && Next(s, a, s') && !Collects(s) && Collects(s')
    ensures PickedIsDead(s')
  {
    hide Inv, Holds, WriterStep, CrashAndOpen, InUse, PickedIsDead, BackStep;
    InvParts(s);
    match a {
      case OfWriter(w) => WriterFrames(s, w, s');
      case OfReader(r) => ReaderKeepsDirectory(s, r, s');
      case OfBackground(b) => BackBegins(s, b, s');
      case Crash(kept, o, numbers, saved) => CrashRests(s, s', kept, o, numbers, saved);
    }
  }

  lemma ReaderKeepsDirectory(s: State, a: ReaderAction, s': State)
    requires ReaderStep(s, a, s')
    ensures s'.f == s.f && s'.b.phase == s.b.phase && s'.vs.pending == s.vs.pending && s'.vs.nextFile == s.vs.nextFile
  {
  }

  lemma CrashRests(s: State, s': State, kept: map<nat, Log>, o: Outcome, numbers: seq<nat>, saved: bool)
    requires CrashAndOpen(s, s', kept, o, numbers, saved)
    ensures !Collects(s')
  {
    hide LogsSurvive, Replays, Stored;
  }

  lemma BackBegins(s: State, a: BackAction, s': State)
    requires Inv(s) && BackStep(s, a, s') && !Collects(s) && Collects(s')
    ensures PickedIsDead(s')
  {
    hide Inv, InUse, PickedIsDead, Obsolete, FlushEdit, CompactEdit, ApplyEdit, Survivors, Merged, BaseLevelSound, TablesOf,
      IsSmallestSnapshot, ImmSet;
    assert a.AInstall? && !s.b.bgError && !s.b.phase.work.kind.Move?;
    InstallCollects(s, s', a.level0, a.needs);
  }

  // ----- while files are deleted ----------------------------------------------------------------------

  /** From s to s' only picked tables go, and none comes. */
  ghost predicate OnlyPickedGo(s: State, s': State)
    requires Collects(s)
  {
    && Collects(s') && Picked(s') == Picked(s)
    && s'.f.tables.Keys <= s.f.tables.Keys && s.f.tables.Keys - s'.f.tables.Keys <= Picked(s).tables
  }

  lemma CollectingStep(s: State, a: Action, s': State)
    requires Inv(s) && Next(s, a, s') && Collects(s) && Collects(s')
    ensures OnlyPickedGo(s, s')
  {
    hide Inv, Holds, WriterStep, CrashAndOpen, BackStep;
    InvParts(s);
    match a {
      case OfWriter(w) => WriterFrames(s, w, s');
      case OfReader(r) => ReaderKeepsDirectory(s, r, s');
      case OfBackground(b) => BackCollects(s, b, s');
      case Crash(kept, o, numbers, saved) => CrashRests(s, s', kept, o, numbers, saved);
    }
  }

  lemma BackCollects(s: State, a: BackAction, s': State)
    requires BackStep(s, a, s') && Collects(s) && Collects(s')
    ensures OnlyPickedGo(s, s')
  {
    hide Obsolete, FlushEdit, CompactEdit, ApplyEdit, Survivors, Merged, BaseLevelSound, TablesOf, IsSmallestSnapshot, ImmSet;
  }

  /** No table n exists, and nobody is going to write one under this number. */
  ghost predicate Gone(s: State, n: nat) {
    n !in s.f.tables && n !in s.vs.pending && n < s.vs.nextFile
  }

  lemma PickedIsNotPending(s: State)
    requires Inv(s) && Collects(s)
    ensures Picked(s).tables !! s.vs.pending
  {
    hide QueueInv, MemInv, LogInv, DiskInv, PromiseInv, VersionsInv, CompInv, ReadersInv, AtomicInv;
  }

  /** States i to j of the run are one collection. */
  ghost predicate OneCollection(states: seq<State>, i: nat, j: nat) {
    i <= j < |states| && forall x :: i <= x <= j ==> Collects(states[x])
  }

  lemma {:induction false} CollectingAlong(states: seq<State>, actions: seq<Action>, log: nat, i: nat, j: nat)
    requires IsRun(states, actions, log) && OneCollection(states, i, j)
    ensures OnlyPickedGo(states[i], states[j])
    decreases j
  {
    hide Inv, Next;
    if i < j {
      CollectingAlong(states, actions, log, i, j - 1);
      RunsAreSafe(states, actions, log, j - 1);
      CollectingStep(states[j - 1], actions[j - 1], states[j]);
    }
  }

  /**
   When a collection has deleted everything it picked, what is left of the tables that were
   there at its beginning is exactly what was in use then, and nobody is about to write the rest.
   */
  lemma GarbageIsGone(states: seq<State>, actions: seq<Action>, log: nat, i: nat, j: nat)
    requires IsRun(states, actions, log) && OneCollection(states, i + 1, j) && !Collects(states[i])
    requires Picked(states[i + 1]).tables !! states[j].f.tables.Keys
    ensures forall n :: n in states[j].f.tables <==> n in states[i + 1].f.tables && InUse(states[i + 1], n)
    ensures forall n :: n in Picked(states[i + 1]).tables && n < states[j].vs.nextFile ==> Gone(states[j], n)
  {
    hide Inv, Next, InUse;
    RunsAreSafe(states, actions, log, j);
    PickedIsNotPending(states[j]);
    RunsAreSafe(states, actions, log, i);
    CollectionBegins(states[i], actions[i], states[i + 1]);
    CollectingAlong(states, actions, log, i + 1, j);
  }

  // ----- and afterwards -------------------------------------------------------------------------------

  /** Tables are written under pending numbers only, and these are new. */
  ghost predicate NewTablesArePending(s: State, s': State) {
    && s'.f.tables.Keys <= s.f.tables.Keys + s.vs.pending
    && s'.vs.pending <= s.vs.pending + {s.vs.nextFile} && s'.vs.nextFile >= s.vs.nextFile
  }

  lemma BackWritesPending(s: State, a: BackAction, s': State)
    requires WorkHolds(s) && BackStep(s, a, s')
    ensures NewTablesArePending(s, s')
  {
    hide Obsolete, FlushEdit, CompactEdit, ApplyEdit, Survivors, Merged, BaseLevelSound, TablesOf, IsSmallestSnapshot, ImmSet,
      CompOk, EditOk, NumbersInv, ManifestInv;
  }

  lemma StaysGoneStep(s: State, a: Action, s': State, n: nat)
    requires Inv(s) && Next(s, a, s') && !a.Crash? && Gone(s, n)
    ensures Gone(s', n)
  {
    hide Inv, Holds, WorkHolds, WriterStep, BackStep;
    InvParts(s);
    match a {
      case OfWriter(w) => WriterFrames(s, w, s');
      case OfReader(r) => ReaderKeepsDirectory(s, r, s');
      case OfBackground(b) => BackWritesPending(s, b, s');
    }
  }

  /** File numbers are not used twice: a deleted table does not come back before the next crash. */
  lemma {:induction false} StaysGone(states: seq<State>, actions: seq<Action>, log: nat, i: nat, j: nat, n: nat)
    requires IsRun(states, actions, log) && i <= j < |states| && NoCrash(actions, i, j) && Gone(states[i], n)
    ensures n !in states[j].f.tables && Gone(states[j], n)
    decreases j
  {
    hide Inv, Next;
    if i < j {
      StaysGone(states, actions, log, i, j - 1, n);
      RunsAreSafe(states, actions, log, j - 1);
      StaysGoneStep(states[j - 1], actions[j - 1], states[j], n);
    }
  }
}
