/**
 Whole runs of the storage engine, crashes included: the invariant holds in every reachable
 state, and the promises of the store follow from it.
 */
module EngineRun {
  import opened Wrappers
  import opened History
  import opened Layers
  import opened Compaction
  import opened WriteGroup
  import opened EngineState
  import opened EngineSteps
  import opened EngineInvariants
  import opened EngineQueue
  import opened EngineMemory
  import opened EngineLogs
  import opened EngineVersions
  import opened EngineBackground
  import opened EngineWriters
  import opened EngineReaders
  import opened EngineWake
  import opened EngineRecovery
  import opened LogReplay

  datatype Action =
    | OfWriter(w: WriterAction)
    | OfReader(r: ReaderAction)
    | OfBackground(b: BackAction)
    | Crash(kept: map<nat, Log>, o: Outcome, numbers: seq<nat>, saved: bool)

  ghost predicate Next(s: State, a: Action, s': State) {
    match a
    case OfWriter(w) => WriterStep(s, w, s')
    case OfReader(r) => ReaderStep(s, r, s')
    case OfBackground(b) => BackStep(s, b, s')
    case Crash(kept, o, numbers, saved) => CrashAndOpen(s, s', kept, o, numbers, saved)
  }

  /** A new database, just opened: an empty version, one empty log and an empty memtable. */
  ghost predicate Init(s: State, log: nat) {
    && s.q == Queue([], Idle, [], [], [], {})
    && s.m == Mem(0, map[log := {}], log, None)
    && s.f == Files(map[], map[log := Log([], 0)], {s.vs.manifestNumber}, Version({}, log, {}, 0), 0)
    && s.vs == Vs(log + 1, Version({}, log, {}, 0), {}, s.vs.manifestNumber, 0, false)
    && s.b == Back(false, false, 0, Resting, false, false)
    && s.r == Readers(map[], map[])
  }

  lemma InitHolds(s: State, log: nat)
    requires Init(s, log)
    ensures Inv(s)
  {
    assert TablesOf(s.f.tables, {}) == {};
    assert LogSet(Log([], 0)) == {} && SyncedSet(Log([], 0)) == {};
    assert ImmSet(s.m) == {} && MemSet(s.m) == {} && Hist(s) == {};
  }

  // ----- the invariant --------------------------------------------------------------------------------

  lemma WriterKeepsInv(s: State, a: WriterAction, s': State)
    requires Inv(s) && WriterStep(s, a, s')
    ensures Inv(s')
  {
    hide QueueInv, MemInv, LogInv, DiskInv, PromiseInv, VersionsInv, PhaseInv, ManifestInv, WakeInv, ReadersInv, AtomicInv, WriterStep;
    WriterKeepsQueue(s, a, s');
    WriterKeepsStore(s, a, s');
    WriterKeepsWake(s, a, s');
    WriterKeepsReaders(s, a, s');
    WriterKeepsAtomic(s, a, s');
  }

  lemma ReaderKeepsInv(s: State, a: ReaderAction, s': State)
    requires Inv(s) && ReaderStep(s, a, s')
    ensures Inv(s')
  {
    hide QueueInv, MemInv, LogInv, DiskInv, PromiseInv, VersionsInv, PhaseInv, ManifestInv, WakeInv, ReadersInv, AtomicInv;
    ReaderKeepsStore(s, a, s');
    ReaderKeepsWake(s, a, s');
    ReaderKeepsReaders(s, a, s');
    ReaderKeepsAtomic(s, a, s');
    assert s'.q == s.q && s'.m == s.m;
  }

  lemma BackKeepsInv(s: State, a: BackAction, s': State)
    requires Inv(s) && BackStep(s, a, s')
    ensures Inv(s')
  {
    assert SnapshotsHold(s);
    hide QueueInv, MemInv, LogInv, DiskInv, PromiseInv, VersionsInv, PhaseInv, ManifestInv, WakeInv, ReadersInv, AtomicInv, BackStep, NumbersInv, SnapshotsHold;
    BackKeepsQueue(s, a, s');
    BackKeepsStore(s, a, s');
    BackKeepsWake(s, a, s');
    BackKeepsReaders(s, a, s');
    BackKeepsAtomic(s, a, s');
  }

  lemma NextKeepsInv(s: State, a: Action, s': State)
    requires Inv(s) && Next(s, a, s')
    ensures Inv(s')
  {
    hide Inv, WriterStep, ReaderStep, BackStep, CrashAndOpen;
    match a
    case OfWriter(w) => WriterKeepsInv(s, w, s');
    case OfReader(r) => ReaderKeepsInv(s, r, s');
    case OfBackground(b) => BackKeepsInv(s, b, s');
    case Crash(kept, o, numbers, saved) => CrashKeepsInv(s, s', kept, o, numbers, saved);
  }

  // ----- runs -----------------------------------------------------------------------------------------

  ghost predicate IsRun(states: seq<State>, actions: seq<Action>, log: nat) {
    && |states| == |actions| + 1 && Init(states[0], log)
    && forall i :: 0 <= i < |actions| ==> Next(states[i], actions[i], states[i + 1])
  }

  /** Every state of every run satisfies the invariant. */
  lemma {:induction false} RunsAreSafe(states: seq<State>, actions: seq<Action>, log: nat, i: nat)
    requires IsRun(states, actions, log) && i < |states|
    ensures Inv(states[i])
  {
    hide Inv, Next;
    if i == 0 {
      InitHolds(states[0], log);
    } else {
      RunsAreSafe(states, actions, log, i - 1);
      NextKeepsInv(states[i - 1], actions[i - 1], states[i]);
    }
  }

  // ----- reads ------------------------------------------------------------------------------------------

  /**
   Searching memtable, immutable memtable and tables in this order, and stopping at the first
   hit, answers as a search of everything ever written.
   */
  lemma GetIsLookup(s: State, id: nat, k: UserKey)
    requires Inv(s) && id in s.r.active
    ensures Get(s, s.r.active[id], k) == Lookup(Hist(s), k, s.r.active[id].snapshot)
  {
    var r := s.r.active[id];
    assert ReaderOk(s, r) && VersionOk(s.f.tables, r.version) && Unique(Hist(s));
    hide Inv;
    GetOfReader(s, r, k);
  }

  lemma GetOfReader(s: State, r: Reader, k: UserKey)
    requires ReaderOk(s, r) && VersionOk(s.f.tables, r.version) && Unique(Hist(s))
    ensures Get(s, r, k) == Lookup(Hist(s), k, r.snapshot)
  {
    LayersOfReader(s, r, k);
    hide TablesOf, Hist, Memtable, ReaderImm, FirstHit, Unique, Above;
    var mem, imm, tables := Memtable(s.m, r.memId), ReaderImm(s.m, r), TablesOf(s.f.tables, r.version.files);
    assert imm == if r.imm.Some? then Memtable(s.m, r.imm.value) else {} by { ReaderImmIs(s.m, r); }
    UniqueSubset(mem + imm + tables, Hist(s));
    AboveSubset(mem, r.version.flushed + imm, imm + tables);
    AboveSubset(imm, r.version.flushed, tables);
    FirstHitIsLookup(mem, imm, tables, k, r.snapshot);
  }

  /** Everything a reader holds references to. */
  ghost function ReaderLayers(s: State, r: Reader): set<Entry> {
    Memtable(s.m, r.memId) + ReaderImm(s.m, r) + TablesOf(s.f.tables, r.version.files)
  }

  lemma LayersOfReader(s: State, r: Reader, k: UserKey)
    requires ReaderOk(s, r) && VersionOk(s.f.tables, r.version) && Unique(Hist(s))
    ensures ReaderLayers(s, r) <= Hist(s) && Lookup(ReaderLayers(s, r), k, r.snapshot) == Lookup(Hist(s), k, r.snapshot)
  {
    hide TablesOf, Hist, Memtable, ReaderImm, Unique, Above;
    var mem, imm, tables := Memtable(s.m, r.memId), ReaderImm(s.m, r), TablesOf(s.f.tables, r.version.files);
    var F := r.version.flushed;
    var all := F + imm + mem;
    UniqueSubset(all, Hist(s));
    UniqueSubset(F + (imm + mem), Hist(s));
    AboveDropped(mem, imm, F, tables);
    AgreeUnder(tables, F, imm + mem, r.version.floor);
    assert ReaderLayers(s, r) == tables + (imm + mem) && all == F + (imm + mem);
    StableBelow(all, Hist(s), r.snapshot, k);
  }

  lemma ReaderImmIs(m: Mem, r: Reader)
    ensures ReaderImm(m, r) == if r.imm.Some? then Memtable(m, r.imm.value) else {}
  {
  }

  lemma AboveSubset(upper: set<Entry>, lower: set<Entry>, part: set<Entry>)
    requires Above(upper, lower) && part <= lower
    ensures Above(upper, part)
  {
  }

  lemma AboveDropped(mem: set<Entry>, imm: set<Entry>, F: set<Entry>, tables: set<Entry>)
    requires Above(mem, F + imm) && Above(imm, F)
    ensures forall x, f :: x in imm + mem && f in F && f !in tables && f !in imm + mem ==> f.sequence < x.sequence
  {
  }

  lemma InvParts(s: State)
    requires Inv(s)
    ensures Holds(s) && StoreHolds(s) && WorkHolds(s) && s.m.memId < s.vs.nextFile && Unique(Hist(s))
  {
    hide QueueInv, LogInv, DiskInv, PromiseInv, VersionsInv, PhaseInv, ManifestInv, WakeInv, ReadersInv, AtomicInv;
  }

  /** The history grows by the inserted entry when one is inserted, and not otherwise. */
  lemma HistoryIsWhatWasInserted(s: State, a: Action, s': State)
    requires Inv(s) && Next(s, a, s') && !a.Crash?
    ensures if a == OfWriter(AInsert)
            then s.q.leader.Inserting? && s.q.leader.n < |s.q.leader.g.entries|
                 && Hist(s') == Hist(s) + {s.q.leader.g.entries[s.q.leader.n]}
            else Hist(s') == Hist(s)
  {
    hide Inv, Holds, StoreHolds, WorkHolds, Hist, BackStep;
    InvParts(s);
    match a {
      case OfWriter(w) =>
        if w.AInsert? {
          InsertIsNewest(s, s');
        } else {
          OldMemtables(s, w, s');
        }
      case OfReader(r) => ReaderKeepsHist(s, r, s');
      case OfBackground(b) => BackKeepsHist(s, b, s');
    }
  }

  /** Steps other than crashes add to the history only beyond the last published number. */
  lemma StepExtendsHist(s: State, a: Action, s': State)
    requires Inv(s) && Next(s, a, s') && !a.Crash?
    ensures forall e: Entry :: e.sequence <= s.m.lastSequence ==> (e in Hist(s) <==> e in Hist(s'))
    ensures s'.m.lastSequence >= s.m.lastSequence
  {
    hide Inv, Holds, StoreHolds, WorkHolds, Hist, WriterStep, BackStep;
    InvParts(s);
    match a {
      case OfWriter(w) => WriterExtendsHist(s, w, s');
      case OfReader(r) => ReaderKeepsHist(s, r, s');
      case OfBackground(b) => BackKeepsHist(s, b, s');
    }
  }

  lemma ReaderKeepsHist(s: State, a: ReaderAction, s': State)
    requires ReaderStep(s, a, s')
    ensures Hist(s') == Hist(s) && s'.m == s.m && s'.q == s.q
  {
  }

  /** One step, unless it is a crash, leaves what any published number reads as it was. */
  lemma StepKeepsReads(s: State, a: Action, s': State, n: nat, k: UserKey)
    requires Inv(s) && Next(s, a, s') && !a.Crash? && n <= s.m.lastSequence
    ensures Lookup(Hist(s'), k, n) == Lookup(Hist(s), k, n)
    ensures n <= s'.m.lastSequence
  {
    hide Inv, Next, Hist, Holds, StoreHolds, WorkHolds, Unique;
    NextKeepsInv(s, a, s');
    InvParts(s);
    InvParts(s');
    StepExtendsHist(s, a, s');
    StableBelow(Hist(s'), Hist(s), n, k);
  }

  ghost predicate NoCrash(actions: seq<Action>, i: nat, j: nat) {
    forall x :: i <= x < j && x < |actions| ==> !actions[x].Crash?
  }

  /**
   Snapshot stability: however writers, flushes, compactions and deletions are interleaved,
   what a published sequence number reads for a key stays the same.
   */
  lemma {:induction false} PublishedReadsAreStable(states: seq<State>, actions: seq<Action>, log: nat, i: nat, j: nat, n: nat, k: UserKey)
    requires IsRun(states, actions, log) && i <= j < |states| && NoCrash(actions, i, j)
    requires n <= states[i].m.lastSequence
    ensures Lookup(Hist(states[j]), k, n) == Lookup(Hist(states[i]), k, n)
    ensures n <= states[j].m.lastSequence
    decreases j
  {
    hide Inv, Next, Hist;
    if i < j {
      PublishedReadsAreStable(states, actions, log, i, j - 1, n, k);
      RunsAreSafe(states, actions, log, j - 1);
      StepKeepsReads(states[j - 1], actions[j - 1], states[j], n, k);
    }
  }

  /** Two readers at one number, whenever they run, get one answer. */
  lemma ReadersOfOneSnapshotAgree(states: seq<State>, actions: seq<Action>, log: nat, i: nat, j: nat, a: nat, b: nat, k: UserKey)
    requires IsRun(states, actions, log) && i <= j < |states| && NoCrash(actions, i, j)
    requires a in states[i].r.active && b in states[j].r.active
    requires states[i].r.active[a].snapshot == states[j].r.active[b].snapshot
    ensures Get(states[i], states[i].r.active[a], k) == Get(states[j], states[j].r.active[b], k)
  {
    RunsAreSafe(states, actions, log, i);
    RunsAreSafe(states, actions, log, j);
    GetIsLookup(states[i], a, k);
    GetIsLookup(states[j], b, k);
    assert states[i].r.active[a].snapshot <= states[i].m.lastSequence by { assert ReaderOk(states[i], states[i].r.active[a]); }
    hide Inv, Next, Hist, Get;
    PublishedReadsAreStable(states, actions, log, i, j, states[i].r.active[a].snapshot, k);
  }

  // ----- groups -----------------------------------------------------------------------------------------

  /** A reader sees all of a successful group, or nothing of it. */
  lemma GroupsAreAtomic(s: State, id: nat, c: Commit)
    requires Inv(s) && id in s.r.active && c in s.q.commits && c.ok
    ensures var n := s.r.active[id].snapshot;
            || (forall e :: e in c.entries ==> e.sequence <= n && e in Hist(s))
            || (forall e :: e in c.entries ==> e.sequence > n)
  {
    var i :| 0 <= i < |s.q.commits| && s.q.commits[i] == c;
    assert Adjoins(s.q.commits, i, s.m.lastSequence) && Boundary(s.q.commits, s.r.active[id].snapshot);
    assert Elems(c.entries) <= Hist(s);
    hide Inv, Hist;
  }

  /** What is still being inserted is beyond every reader and every snapshot. */
  lemma UnpublishedIsInvisible(s: State, e: Entry)
    requires Inv(s) && e in InFlight(s.q.leader)
    ensures forall id :: id in s.r.active ==> s.r.active[id].snapshot < e.sequence
    ensures forall id :: id in s.r.snapshots ==> s.r.snapshots[id] < e.sequence
  {
    assert Working(s.q.leader).Some? && e in Working(s.q.leader).value.entries;
    assert GroupOk(s.q, Working(s.q.leader).value, s.m.lastSequence);
    assert e.sequence > s.m.lastSequence;
    forall id | id in s.r.active ensures s.r.active[id].snapshot < e.sequence { assert ReaderOk(s, s.r.active[id]); }
  }

  // ----- durability ---------------------------------------------------------------------------------------

  /** What was promised stays promised, through crashes. */
  lemma PromisesGrow(s: State, a: Action, s': State)
    requires Inv(s) && Next(s, a, s')
    ensures s.q.promised <= s'.q.promised
  {
    hide Inv, Holds, StoreHolds, WorkHolds, Hist, WriterStep, BackStep, CrashAndOpen;
    InvParts(s);
    match a {
      case OfWriter(w) => WriterPromises(s, w, s');
      case OfReader(r) => ReaderKeepsHist(s, r, s');
      case OfBackground(b) => BackKeepsHist(s, b, s');
      case Crash(kept, o, numbers, saved) => CrashPromises(s, s', kept, o, numbers, saved);
    }
  }

  lemma WriterPromises(s: State, a: WriterAction, s': State)
    requires WriterStep(s, a, s')
    ensures s.q.promised <= s'.q.promised
  {
    hide AllOps, IsGroup, Retirees, Number, MemSet;
  }

  lemma CrashPromises(s: State, s': State, kept: map<nat, Log>, o: Outcome, numbers: seq<nat>, saved: bool)
    requires CrashAndOpen(s, s', kept, o, numbers, saved)
    ensures s'.q.promised == s.q.promised
  {
    hide LogsSurvive, Replays, Stored;
  }

  lemma {:induction false} PromisesGrowAlong(states: seq<State>, actions: seq<Action>, log: nat, i: nat, j: nat)
    requires IsRun(states, actions, log) && i <= j < |states|
    ensures states[i].q.promised <= states[j].q.promised
    decreases j
  {
    hide Inv, Next;
    if i < j {
      PromisesGrowAlong(states, actions, log, i, j - 1);
      RunsAreSafe(states, actions, log, j - 1);
      PromisesGrow(states[j - 1], actions[j - 1], states[j]);
    }
  }

  /**
   Durability: once a group that syncs has been retired with OK, its entries are in the store
   in every later state, whatever crashes there are.
   */
  lemma SyncedWritesSurvive(states: seq<State>, actions: seq<Action>, log: nat, i: nat, j: nat)
    requires IsRun(states, actions, log) && i + 1 <= j < |states|
    requires actions[i] == OfWriter(AFinish)
    requires states[i].q.leader.Finishing? && states[i].q.leader.ok && states[i].q.leader.g.sync
    ensures Elems(states[i].q.leader.g.entries) <= Hist(states[j])
  {
    assert Finish(states[i], states[i + 1]);
    assert Elems(states[i].q.leader.g.entries) <= states[i + 1].q.promised;
    PromisesGrowAlong(states, actions, log, i + 1, j);
    RunsAreSafe(states, actions, log, j);
    hide Hist;
    assert PromiseInv(states[j]);
  }

  /**
   When a sync writer is told OK, its operations are in records of the current log that are
   on stable storage.
   */
  lemma ToldOkMeansSynced(s: State, s': State, x: nat) returns (from: nat)
    requires Inv(s) && s.q.leader.Finishing? && Finish(s, s') && s.q.leader.ok && x < s.q.leader.g.count && x < |s.q.writers|
    requires s.q.writers[x].sync && s.q.writers[x].batch.Some?
    ensures |s.q.retired| + x < |s'.q.retired| && s'.q.retired[|s.q.retired| + x] == Retired(s.q.writers[x], true)
    ensures s.m.memId in s.f.logs && s'.f == s.f
    ensures var batch := s.q.writers[x].batch.value;
            forall y :: 0 <= y < |batch| ==>
              Entry(batch[y].key, s.m.lastSequence + 1 + from + y, batch[y].kind, batch[y].value)
              in SyncedSet(s.f.logs[s.m.memId])
  {
    hide Inv, QueueInv, SyncedSet, Finish;
    InvQueue(s);
    FinishedIsLogged(s);
    FinishRetires(s, s', x);
    from := BatchInGroup(s.q, s.m.lastSequence, x);
  }

  lemma FinishRetires(s: State, s': State, x: nat)
    requires Finish(s, s') && QueueInv(s.q, s.m.lastSequence) && x < s.q.leader.g.count && x < |s.q.writers|
    ensures s'.f == s.f && s.q.leader.g.count <= |s.q.writers|
    ensures |s.q.retired| + x < |s'.q.retired|
    ensures s'.q.retired[|s.q.retired| + x] == Retired(s.q.writers[x], s.q.leader.ok)
    ensures Working(s.q.leader) == Some(s.q.leader.g)
  {
    WorkingIsOk(s.q, s.m.lastSequence);
    hide QueueInv, AllOps, Number, Contiguous;
  }

  lemma FinishedIsLogged(s: State)
    requires Inv(s) && s.q.leader.Finishing? && s.q.leader.ok
    ensures s.m.memId in s.f.logs
    ensures s.q.leader.g.sync ==> Elems(s.q.leader.g.entries) <= SyncedSet(s.f.logs[s.m.memId])
  {
    hide QueueInv, MemInv, LogOrder, DiskInv, PromiseInv, VersionsInv, PhaseInv, ReadersInv, AtomicInv, SyncedSet, LogSet;
  }

  /** A sync writer that is told OK finds each operation of its batch in every later state. */
  lemma AcknowledgedSyncSurvives(states: seq<State>, actions: seq<Action>, log: nat, i: nat, j: nat, x: nat) returns (from: nat)
    requires IsRun(states, actions, log) && i + 1 <= j < |states| && actions[i] == OfWriter(AFinish)
    requires states[i].q.leader.Finishing? && states[i].q.leader.ok && x < states[i].q.leader.g.count
    requires x < |states[i].q.writers| && states[i].q.writers[x].sync && states[i].q.writers[x].batch.Some?
    ensures var batch := states[i].q.writers[x].batch.value;
            forall y :: 0 <= y < |batch| ==>
              Entry(batch[y].key, states[i].m.lastSequence + 1 + from + y, batch[y].kind, batch[y].value) in Hist(states[j])
  {
    assert |states| == |actions| + 1;
    hide IsRun, Inv, Hist, QueueInv;
    RunsAreSafe(states, actions, log, i);
    InvQueue(states[i]);
    from := BatchInGroup(states[i].q, states[i].m.lastSequence, x);
    SyncedWritesSurvive(states, actions, log, i, j);
  }

  lemma InvQueue(s: State)
    requires Inv(s)
    ensures QueueInv(s.q, s.m.lastSequence)
  {
  }

  // ----- liveness of waiting writers ------------------------------------------------------------------------

  /** With a full or flushing memtable, or a compaction due, and no error, one background call is pending. */
  lemma NoStuckWriter(s: State)
    requires Inv(s) && !s.b.bgError && !s.b.shuttingDown
    requires s.m.imm.Some? || s.vs.needsCompaction || s.q.leader.Waiting?
    ensures s.b.scheduled && s.b.calls == 1 && s.b.hasImm == s.m.imm.Some?
  {
    hide MemInv, LogInv, PhaseInv, QueueInv, ReadersInv;
  }

  /** A background call is scheduled for a reason only: there is work and nothing forbids it. */
  lemma ScheduledForAReason(s: State, a: Action, s': State)
    requires Inv(s) && Next(s, a, s') && !a.Crash?
    requires s'.b.calls > s.b.calls - if a == OfBackground(ACallEnd) then 1 else 0
    ensures s'.m.imm.Some? || s'.vs.needsCompaction
    ensures !s'.b.bgError && !s'.b.shuttingDown && s'.b.scheduled
  {
    hide Inv;
    match a {
      case OfWriter(w) => hide AllOps, IsGroup, Retirees, Number, MemSet;
      case OfReader(r) =>
      case OfBackground(b) => BackSchedules(s, b, s');
    }
  }

  lemma BackSchedules(s: State, a: BackAction, s': State)
    requires BackStep(s, a, s')
    ensures !a.ACallEnd? ==> s'.b.calls == s.b.calls
    ensures a.ACallEnd? && s'.b.calls >= s.b.calls ==>
              s'.b.scheduled && (s'.m.imm.Some? || s'.vs.needsCompaction) && !s'.b.bgError && !s'.b.shuttingDown
  {
    hide LiveFiles, CompactionScore, MemSet, LogSet, Obsolete, ApplyEdit, Survivors, Merged, TablesOf, ImmSet, BaseLevelSound, IsSmallestSnapshot, FlushEdit, CompactEdit;
  }

  /** A waiting writer is released by an error or by the end of the pending call. */
  lemma WaiterIsReleased(s: State, a: BackAction, s': State)
    requires Inv(s) && BackStep(s, a, s') && s.q.leader.Waiting?
    requires a.ACallEnd? || s'.b.bgError
    ensures s'.q.leader == Room(s.q.leader.force, s.q.leader.allowDelay)
  {
    assert !s.b.bgError by { assert WakeInv(s); }
    hide Inv;
    ErrorSignals(s, a, s');
  }

  lemma ErrorSignals(s: State, a: BackAction, s': State)
    requires BackStep(s, a, s') && !s.b.bgError && (a.ACallEnd? || s'.b.bgError)
    ensures s'.q == SignalAll(s.q)
  {
    hide Obsolete, ApplyEdit, Survivors, Merged, TablesOf, ImmSet, BaseLevelSound, IsSmallestSnapshot, FlushEdit, CompactEdit;
  }

  /**
   While the front writer waits, only arrivals happen in the queue, and the writer may go back
   to its tests without having been woken.
   */
  lemma WaitingLeaderStays(s: State, a: WriterAction, s': State)
    requires WriterStep(s, a, s') && s.q.leader.Waiting?
    ensures s'.q.leader == if a.ARoomWake? then Room(s.q.leader.force, s.q.leader.allowDelay) else s.q.leader
    ensures s'.b == s.b && (a.ARoomWake? || a.AArrive?) && s.q.writers <= s'.q.writers
  {
    hide AllOps, IsGroup, MemSet;
  }

  // ----- garbage collection -----------------------------------------------------------------------------------

  /** Everything some part of the system may still need. */
  ghost predicate Needed(s: State, tables: set<nat>, logs: set<nat>, manifests: set<nat>) {
    || !(tables !! s.vs.pending) || !Unreferenced(tables, s.f.disk, s.vs.current, s.r.active)
    || (exists n :: n in logs && (n >= s.vs.current.logNumber || n >= s.f.disk.logNumber))
    || s.vs.manifestNumber in manifests
  }

  /** No file that is deleted is needed at the moment of its deletion, though it was chosen earlier. */
  lemma DeletionsAreSafe(s: State, s': State, tables: set<nat>, logs: set<nat>, manifests: set<nat>)
    requires Inv(s) && Delete(s, s', tables, logs, manifests)
    ensures !Needed(s, tables, logs, manifests)
  {
    hide MemInv, LogInv, QueueInv, ReadersInv, VersionOk, TablesOf, CompInv;
    var d := s.b.phase.work.doomed;
    assert WorkInv(s, s.b.phase.comp, Collecting(d));
  }
}
