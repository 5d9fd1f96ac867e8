/**
 The background thread over whole runs: building, installing, compacting and deleting keep
 the store readable, on disk and in memory, although the pending mark of a flushed file is
 dropped before its edit is applied and files are deleted without the mutex.
 */
module EngineBackground {
  import opened Wrappers
  import opened History
  import opened Layers
  import opened Compaction
  import opened WriteGroup
  import opened EngineState
  import opened EngineSteps
  import opened EngineInvariants
  import opened EngineMemory
  import opened EngineLogs
  import opened EngineVersions

  /** The contents of the store: memory, logs, manifest and versions. */
  ghost predicate StoreHolds(s: State) {
    && MemInv(s.m, s.vs.current.flushed, s.q.leader)
    && LogInv(s.f.logs, s.m, s.vs.current, s.q.leader)
    && DiskInv(s.f, s.m, s.vs.current)
    && PromiseInv(s)
    && VersionsInv(s.f, s.vs.current, s.r.active)
  }

  /** The bookkeeping around it. */
  ghost predicate WorkHolds(s: State) {
    NumbersInv(s) && PhaseInv(s) && ManifestInv(s)
  }

  ghost predicate SnapshotsHold(s: State) {
    forall id :: id in s.r.snapshots ==> s.r.snapshots[id] <= s.m.lastSequence
  }

  ghost predicate Unchanged(s: State, s': State) {
    && s'.m == s.m && s'.f == s.f && s'.vs.current == s.vs.current && s'.r == s.r
    && (s'.q == s.q || s'.q == SignalAll(s.q))
  }

  lemma UnchangedStore(s: State, s': State)
    requires StoreHolds(s) && Unchanged(s, s')
    ensures StoreHolds(s')
  {
    SignalKeepsMem(s.m, s.vs.current.flushed, s.q);
    SignalKeepsLogs(s.f.logs, s.m, s.vs.current, s.q);
    hide MemInv, LogInv, DiskInv, VersionsInv;
    assert Hist(s') == Hist(s);
  }

  // ----- steps that change no contents ------------------------------------------------------------

  lemma FlushBeginHolds(s: State, s': State)
    requires StoreHolds(s) && WorkHolds(s) && FlushBegin(s, s')
    ensures StoreHolds(s') && WorkHolds(s')
  {
    UnchangedStore(s, s');
    hide StoreHolds, CompOk, TablesOf, Merged;
  }

  lemma FlushApplyHolds(s: State, s': State)
    requires StoreHolds(s) && WorkHolds(s) && FlushApply(s, s')
    ensures StoreHolds(s') && WorkHolds(s')
  {
    hide StoreHolds, CompInv, EditOk, Unreferenced, UpTo;
    UnchangedStore(s, s');
    var n, comp := s.b.phase.work.file, s.b.phase.comp;
    if s.b.phase.work.ok && !s.b.shuttingDown {
      FlushEditOk(s, s', n, comp);
    }
    if comp.Some? { CompKept(s, s', comp.value, s.b.phase.work, s'.b.phase.work, {n}); }
  }

  lemma FlushEditOk(s: State, s': State, n: nat, comp: Option<Comp>)
    requires StoreHolds(s) && WorkInv(s, comp, Built(n, true))
    requires s'.m == s.m && s'.f == s.f && s'.vs.current == s.vs.current && s'.r == s.r
    ensures EditOk(s', FlushEdit(s, n), Flush, comp)
    ensures Unreferenced(FlushEdit(s, n).added, s.f.disk, s.vs.current, s.r.active)
  {
    hide LogInv, PromiseInv, VersionsInv, Unique, Above;
    assert TablesOf(s.f.tables, FlushEdit(s, n).added) == ImmSet(s.m);
  }

  /** A running compaction is not affected by file numbers that are none of its own. */
  lemma CompKept(s: State, s': State, c: Comp, w: Work, w': Work, X: set<nat>)
    requires CompInv(s, c, w) && X !! c.outputs && OnDisk(w') == OnDisk(w)
    requires s'.m == s.m && s'.f == s.f && s'.vs.current == s.vs.current && s'.r == s.r
    requires s.vs.pending - X <= s'.vs.pending
    ensures CompInv(s', c, w')
  {
    hide CompOk, TablesOf, Merged;
  }

  lemma CompactBeginHolds(s: State, s': State, inputs: set<nat>, input: seq<Entry>, smallest: nat, base: BaseLevel)
    requires StoreHolds(s) && WorkHolds(s) && SnapshotsHold(s) && CompactBegin(s, s', inputs, input, smallest, base)
    ensures StoreHolds(s') && WorkHolds(s')
  {
    UnchangedStore(s, s');
    hide StoreHolds, Merged, BaseLevelSound, TablesOf;
  }

  lemma MoveBeginHolds(s: State, s': State)
    requires StoreHolds(s) && WorkHolds(s) && MoveBegin(s, s')
    ensures StoreHolds(s') && WorkHolds(s')
  {
    UnchangedStore(s, s');
    hide MemInv, LogInv, PromiseInv, VersionsInv, TablesOf;
  }

  lemma CompactOpenHolds(s: State, s': State)
    requires StoreHolds(s) && WorkHolds(s) && CompactOpen(s, s')
    ensures StoreHolds(s') && WorkHolds(s')
  {
    UnchangedStore(s, s');
    hide StoreHolds, CompOk, TablesOf, Merged;
  }

  lemma CompactDoneHolds(s: State, s': State)
    requires StoreHolds(s) && WorkHolds(s) && CompactDone(s, s')
    ensures StoreHolds(s') && WorkHolds(s')
  {
    UnchangedStore(s, s');
    hide MemInv, LogInv, PromiseInv, VersionsInv, CompOk, TablesOf, Merged, Survivors;
  }

  lemma CompactAbortHolds(s: State, s': State)
    requires StoreHolds(s) && WorkHolds(s) && CompactAbort(s, s')
    ensures StoreHolds(s') && WorkHolds(s')
  {
    UnchangedStore(s, s');
    hide StoreHolds, CompInv;
  }

  lemma InstallFailsHolds(s: State, s': State)
    requires StoreHolds(s) && WorkHolds(s) && InstallFails(s, s')
    ensures StoreHolds(s') && WorkHolds(s')
  {
    hide StoreHolds, CompInv;
    UnchangedStore(s, s');
    var comp := s.b.phase.comp;
    if comp.Some? && s.b.phase.work.kind.Flush? {
      CompKept(s, s', comp.value, s.b.phase.work, s'.b.phase.work, {});
    }
  }

  lemma CollectEndHolds(s: State, s': State)
    requires StoreHolds(s) && WorkHolds(s) && CollectEnd(s, s')
    ensures StoreHolds(s') && WorkHolds(s')
  {
    UnchangedStore(s, s');
    hide StoreHolds, CompOk, TablesOf, Merged;
  }

  lemma CallStepHolds(s: State, a: BackAction, s': State)
    requires StoreHolds(s) && WorkHolds(s) && BackStep(s, a, s')
    requires a.ACallIdle? || a.ACallEnd? || a.AShutDown?
    ensures StoreHolds(s') && WorkHolds(s')
  {
    hide StoreHolds, CompInv;
    UnchangedStore(s, s');
    if a.AShutDown? {
      ShutDownHolds(s, s');
    }
  }

  lemma ShutDownHolds(s: State, s': State)
    requires WorkHolds(s) && ShutDown(s, s')
    ensures WorkHolds(s')
  {
    hide CompOk, TablesOf, Merged, Survivors, MemInv;
  }

  // ----- table files change -----------------------------------------------------------------------

  /** A change to files no version refers to. */
  ghost predicate TablesChange(t: map<nat, set<Entry>>, u: map<nat, set<Entry>>, X: set<nat>) {
    forall n :: n !in X ==> (n in t <==> n in u) && (n in t ==> t[n] == u[n])
  }

  lemma OtherTablesStore(s: State, s': State, X: set<nat>)
    requires StoreHolds(s) && Unreferenced(X, s.f.disk, s.vs.current, s.r.active)
    requires s'.m == s.m && s'.q == s.q && s'.vs == s.vs && s'.r == s.r
    requires s'.f.disk == s.f.disk && s'.f.diskLastSequence == s.f.diskLastSequence
    requires LogInv(s'.f.logs, s.m, s.vs.current, s.q.leader) && PromiseInv(s')
    requires TablesChange(s.f.tables, s'.f.tables, X)
    ensures StoreHolds(s')
  {
    hide MemInv, LogInv, PromiseInv, TablesOf, VersionOk;
    VersionChange(s.f.tables, s'.f.tables, s.vs.current, X);
    VersionChange(s.f.tables, s'.f.tables, s.f.disk, X);
    forall id | id in s.r.active ensures VersionOk(s'.f.tables, s.r.active[id].version) {
      VersionChange(s.f.tables, s'.f.tables, s.r.active[id].version, X);
    }
  }

  lemma VersionChange(t: map<nat, set<Entry>>, u: map<nat, set<Entry>>, v: Version, X: set<nat>)
    requires VersionOk(t, v) && X !! v.files && TablesChange(t, u, X)
    ensures VersionOk(u, v) && TablesOf(u, v.files) == TablesOf(t, v.files)
  {
    hide Agree, Unique, TablesOf;
    TablesFrame(t, u, v.files);
    forall n | n in v.files ensures n in u { assert n !in X && n in t; }
  }

  /** A running compaction depends on the files of the versions it works on only. */
  lemma OtherTablesComp(s: State, s': State, X: set<nat>, c: Comp, w: Work, w': Work)
    requires CompInv(s, c, w) && X !! s.vs.current.files && X !! s.f.disk.files
    requires TablesChange(s.f.tables, s'.f.tables, X)
    requires s'.m == s.m && s'.vs == s.vs && s'.r == s.r && s'.f.disk == s.f.disk
    requires OnDisk(w') == OnDisk(w)
    ensures CompInv(s', c, w')
  {
    hide TablesOf, Merged, BaseLevelSound;
    TablesFrame(s.f.tables, s'.f.tables, c.inputs);
    TablesFrame(s.f.tables, s'.f.tables, s.vs.current.files - c.inputs);
    TablesFrame(s.f.tables, s'.f.tables, s.f.disk.files - c.inputs);
  }

  lemma BuildTableHolds(s: State, s': State, ok: bool, garbage: set<Entry>)
    requires StoreHolds(s) && WorkHolds(s) && BuildTable(s, s', ok, garbage)
    ensures StoreHolds(s') && WorkHolds(s')
  {
    hide MemInv, LogInv, DiskInv, VersionsInv, CompOk, TablesOf, Merged, SyncedSet;
    var n := s.b.phase.work.file;
    assert PromiseInv(s');
    OtherTablesStore(s, s', {n});
    if s.b.phase.comp.Some? {
      OtherTablesComp(s, s', {n}, s.b.phase.comp.value, s.b.phase.work, s'.b.phase.work);
    }
  }

  lemma CompactWriteHolds(s: State, s': State, n: nat, content: set<Entry>)
    requires StoreHolds(s) && WorkHolds(s) && CompactWrite(s, s', n, content)
    ensures StoreHolds(s') && WorkHolds(s')
  {
    hide MemInv, LogInv, DiskInv, VersionsInv, CompOk, TablesOf, Merged, SyncedSet;
    assert PromiseInv(s');
    OtherTablesStore(s, s', {n});
    OtherTablesComp(s, s', {n}, s.b.phase.comp.value, Ready, Ready);
  }

  lemma DeleteHolds(s: State, s': State, tables: set<nat>, logs: set<nat>, manifests: set<nat>)
    requires StoreHolds(s) && WorkHolds(s) && Delete(s, s', tables, logs, manifests)
    ensures StoreHolds(s') && WorkHolds(s')
  {
    hide DiskInv, VersionsInv, CompOk, TablesOf, Merged, SyncedSet, LogSet, Unique;
    assert s.m.imm.Some? ==> s.m.imm.value < s.m.memId;
    DeleteKeepsLogs(s.f.logs, logs, s.m, s.vs.current, s.q.leader);
    assert PromiseInv(s');
    OtherTablesStore(s, s', tables);
    if s.b.phase.comp.Some? {
      OtherTablesComp(s, s', tables, s.b.phase.comp.value, s.b.phase.work, s.b.phase.work);
    }
  }

  // ----- LogAndApply ------------------------------------------------------------------------------

  /** Newly flushed files do not disturb a running compaction: they are newer than all its inputs. */
  lemma FlushKeepsComp(tables: map<nat, set<Entry>>, c: Comp, v: Version, e: Edit)
    requires CompOk(tables, c, v) && e.removed == {} && Above(TablesOf(tables, e.added), Elems(c.input))
    ensures CompOk(tables, c, ApplyEdit(v, e))
  {
    hide TablesOf, Elems;
    assert ApplyEdit(v, e).files == v.files + e.added;
    assert v.files + e.added - c.inputs == (v.files - c.inputs) + (e.added - c.inputs);
    TablesSplit(tables, v.files - c.inputs, e.added - c.inputs);
    TablesSplit(tables, e.added - c.inputs, e.added);
    assert (e.added - c.inputs) + e.added == e.added;
  }

  /** The entries to be flushed are newer than the inputs of the compaction that is interrupted. */
  lemma ImmAboveInputs(s: State, c: Comp, w: Work)
    requires StoreHolds(s) && CompInv(s, c, w)
    ensures Above(ImmSet(s.m), Elems(c.input))
  {
    InputsFlushed(s, c);
    hide TablesOf, LogInv, Unique;
  }

  lemma ManifestWriteHolds(s: State, s': State, ok: bool, applied: bool)
    requires StoreHolds(s) && WorkHolds(s) && ManifestWrite(s, s', ok, applied)
    ensures StoreHolds(s') && WorkHolds(s')
  {
    ManifestWriteStore(s, s', ok, applied);
    ManifestWriteFiles(s, s', ok, applied);
    hide StoreHolds, CompInv, WorkInv;
    var comp := s.b.phase.comp;
    if comp.Some? {
      ManifestWriteComp(s, s', ok, applied, comp.value);
    }
    ManifestWriteWork(s, s', ok, applied);
  }

  lemma ManifestWriteFiles(s: State, s': State, ok: bool, applied: bool)
    requires WorkHolds(s) && ManifestWrite(s, s', ok, applied)
    ensures NumbersInv(s') && ManifestInv(s')
  {
    hide CompInv, EditOk;
  }

  lemma ManifestWriteWork(s: State, s': State, ok: bool, applied: bool)
    requires WorkHolds(s) && ManifestWrite(s, s', ok, applied)
    requires applied ==> s.b.phase.work.edit.flushes <= s'.f.disk.flushed
    ensures WorkInv(s', s'.b.phase.comp, s'.b.phase.work)
  {
    hide CompInv, TablesOf, Survivors, NumbersInv, ManifestInv;
  }

  lemma ManifestWriteStore(s: State, s': State, ok: bool, applied: bool)
    requires StoreHolds(s) && WorkHolds(s) && ManifestWrite(s, s', ok, applied)
    ensures StoreHolds(s')
    ensures applied ==> s.b.phase.work.edit.flushes <= s'.f.disk.flushed
  {
    var edit, kind := s.b.phase.work.edit, s.b.phase.work.kind;
    if applied {
      EditKeepsDisk(s, edit, kind, s.b.phase.comp);
    }
    hide MemInv, LogInv, DiskInv, VersionOk, SyncedSet, CompInv, WorkInv;
    assert PromiseInv(s');
  }

  lemma ManifestWriteComp(s: State, s': State, ok: bool, applied: bool, c: Comp)
    requires StoreHolds(s) && WorkHolds(s) && ManifestWrite(s, s', ok, applied) && s.b.phase.comp == Some(c)
    ensures CompInv(s', c, s'.b.phase.work)
  {
    var edit, kind := s.b.phase.work.edit, s.b.phase.work.kind;
    if kind.Flush? && applied {
      ImmAboveInputs(s, c, s.b.phase.work);
      FlushKeepsComp(s.f.tables, c, s.f.disk, edit);
    }
    hide StoreHolds, CompOk, TablesOf, Merged, Survivors;
  }

  ghost predicate FlushInstalled(s: State, s1: State) {
    && s.b.phase.Running? && s.b.phase.work.Written? && s.b.phase.work.kind.Flush?
    && s1.m == s.m.(imm := None) && s1.f == s.f && s1.r == s.r && (s1.q == s.q || s1.q == SignalAll(s.q))
    && s1.vs.current == ApplyEdit(s.vs.current, s.b.phase.work.edit)
  }

  lemma InstallFlushStore(s: State, s1: State)
    requires StoreHolds(s) && WorkHolds(s) && FlushInstalled(s, s1)
    ensures StoreHolds(s1) && Hist(s1) == Hist(s)
  {
    hide MemInv, LogInv, DiskInv, PromiseInv, VersionsInv, CompInv;
    InstallFlushMemory(s, s1);
    InstallFlushDisk(s, s1);
    InstallVersions(s);
  }

  lemma InstallFlushMemory(s: State, s1: State)
    requires StoreHolds(s) && WorkHolds(s) && FlushInstalled(s, s1)
    ensures MemInv(s1.m, s1.vs.current.flushed, s1.q.leader) && LogInv(s1.f.logs, s1.m, s1.vs.current, s1.q.leader)
  {
    hide TablesOf, LogInv, DiskInv, VersionsInv, PromiseInv, CompInv, Unique, Above, UpTo, InsertedPart;
    FlushInstalledKeepsMem(s.m, s.vs.current.flushed, s.q.leader);
    SignalKeepsMem(s1.m, s1.vs.current.flushed, s.q);
    FlushInstalledKeepsLogs(s.f.logs, s.m, s.vs.current, s.q.leader, s1.vs.current.files, s1.vs.current.floor);
    SignalKeepsLogs(s.f.logs, s1.m, s1.vs.current, s.q);
  }

  lemma InstallFlushDisk(s: State, s1: State)
    requires StoreHolds(s) && WorkHolds(s) && FlushInstalled(s, s1)
    ensures DiskInv(s1.f, s1.m, s1.vs.current) && PromiseInv(s1) && Hist(s1) == Hist(s)
  {
    hide TablesOf, LogInv, VersionsInv, MemInv, CompInv, UpTo, SyncedSet;
    assert MemSet(s1.m) == MemSet(s.m) && ImmSet(s1.m) == {};
    assert s.vs.current.flushed + ImmSet(s.m) == s1.vs.current.flushed;
    assert Hist(s1) == Hist(s);
  }

  lemma InstallVersions(s: State)
    requires StoreHolds(s) && WorkHolds(s) && s.b.phase.Running? && s.b.phase.work.Written?
    ensures VersionsInv(s.f, ApplyEdit(s.vs.current, s.b.phase.work.edit), s.r.active)
  {
    var e, kind := s.b.phase.work.edit, s.b.phase.work.kind;
    EditKeepsCurrent(s, e, kind, s.b.phase.comp, s.b.phase.work);
  }

  lemma InstallMoveHolds(s: State, s': State, level0: nat, needs: bool)
    requires StoreHolds(s) && WorkHolds(s) && Install(s, s', level0, needs) && s.b.phase.work.kind.Move?
    ensures StoreHolds(s') && WorkHolds(s') && Hist(s') == Hist(s)
  {
    MoveKeepsReads(s.f.tables, s.vs.current, s.b.phase.work.edit);
    assert s'.vs.current == s.vs.current;
    UnchangedStore(s, s');
    hide StoreHolds, VersionOk;
  }

  lemma InstallCompactStore(s: State, s1: State)
    requires StoreHolds(s) && WorkHolds(s) && s.b.phase.Running? && s.b.phase.work.Written? && s.b.phase.work.kind.Compact?
    requires s1.m == s.m && s1.f == s.f && s1.r == s.r && (s1.q == s.q || s1.q == SignalAll(s.q))
    requires s1.vs.current == ApplyEdit(s.vs.current, s.b.phase.work.edit)
    ensures StoreHolds(s1) && Hist(s1) == Hist(s)
  {
    var e := s.b.phase.work.edit;
    hide TablesOf, Unique, LogSet, SyncedSet, CompInv, Agree, Survivors;
    InstallVersions(s);
    assert s1.vs.current.flushed == s.vs.current.flushed && s1.vs.current.logNumber == s.vs.current.logNumber;
    SignalKeepsMem(s.m, s.vs.current.flushed, s.q);
    SignalKeepsLogs(s.f.logs, s.m, s.vs.current, s.q);
    hide MemInv, LogInv, VersionOk;
    LogsIgnoreFiles(s.f.logs, s.m, s.vs.current, s1.vs.current, s1.q.leader);
  }

  lemma LogsIgnoreFiles(logs: map<nat, Log>, m: Mem, v: Version, v': Version, l: Leader)
    requires LogInv(logs, m, v, l) && v'.logNumber == v.logNumber && v'.flushed == v.flushed
    ensures LogInv(logs, m, v', l)
  {
    hide LogSet, Above, UpTo, Appended;
  }

  /** What RemoveObsoleteFiles finds is referred to by nobody, in memory or on disk. */
  lemma ObsoleteIsUnreferenced(s: State)
    requires s.f.disk == s.vs.current
    ensures var d := Obsolete(s);
            && Unreferenced(d.tables, s.f.disk, s.vs.current, s.r.active) && d.tables !! s.vs.pending
            && (forall n :: n in d.logs ==> n < s.vs.current.logNumber)
            && (forall n :: n in d.manifests ==> n < s.vs.manifestNumber)
  {
    var d, live := Obsolete(s), LiveFiles(s.vs, s.r);
    forall id | id in s.r.active ensures d.tables !! s.r.active[id].version.files {
      forall n | n in s.r.active[id].version.files ensures n in live {
      }
    }
  }

  lemma InstallFlushHolds(s: State, s': State, level0: nat, needs: bool)
    requires StoreHolds(s) && WorkHolds(s) && Install(s, s', level0, needs) && s.b.phase.work.kind.Flush?
    ensures StoreHolds(s') && WorkHolds(s') && Hist(s') == Hist(s)
  {
    hide StoreHolds, CompInv, EditOk, Unreferenced, Obsolete, Hist, NumbersInv;
    InstallFlushStore(s, s');
    var comp := s.b.phase.comp;
    if comp.Some? { InstallFlushComp(s, s', level0, needs, comp.value); }
    InstallNumbers(s, s', level0, needs);
    if !s.b.bgError {
      InstalledIsOnDisk(s, s', level0, needs);
      ObsoleteIsUnreferenced(s');
    }
  }

  lemma InstallNumbers(s: State, s': State, level0: nat, needs: bool)
    requires WorkHolds(s) && Install(s, s', level0, needs) && !s.b.phase.work.kind.Move?
    ensures NumbersInv(s')
  {
    hide CompInv, EditOk, Unreferenced, Obsolete, ManifestInv;
  }

  lemma InstalledIsOnDisk(s: State, s': State, level0: nat, needs: bool)
    requires WorkHolds(s) && Install(s, s', level0, needs) && !s.b.phase.work.kind.Move? && !s.b.bgError
    ensures s'.f.disk == s'.vs.current && Obsolete(s') == s'.b.phase.work.doomed
  {
    hide CompInv, EditOk, Unreferenced, NumbersInv, WorkInv;
  }

  lemma InstallFlushComp(s: State, s': State, level0: nat, needs: bool, c: Comp)
    requires StoreHolds(s) && WorkHolds(s) && Install(s, s', level0, needs) && s.b.phase.work.kind.Flush?
    requires s.b.phase.comp == Some(c)
    ensures CompInv(s', c, s'.b.phase.work)
  {
    var edit := s.b.phase.work.edit;
    ImmAboveInputs(s, c, s.b.phase.work);
    FlushKeepsComp(s.f.tables, c, s.vs.current, edit);
    hide StoreHolds, CompOk, TablesOf, Merged, Survivors;
  }

  lemma InstallCompactHolds(s: State, s': State, level0: nat, needs: bool)
    requires StoreHolds(s) && WorkHolds(s) && Install(s, s', level0, needs) && s.b.phase.work.kind.Compact?
    ensures StoreHolds(s') && WorkHolds(s') && Hist(s') == Hist(s)
  {
    hide StoreHolds, CompInv, EditOk, Unreferenced, Obsolete, Hist, NumbersInv;
    InstallCompactStore(s, s');
    InstallNumbers(s, s', level0, needs);
    if !s.b.bgError {
      InstalledIsOnDisk(s, s', level0, needs);
      ObsoleteIsUnreferenced(s');
    }
  }

  /** Every step of the background thread keeps the store and its bookkeeping intact. */
  lemma BackKeepsStore(s: State, a: BackAction, s': State)
    requires StoreHolds(s) && WorkHolds(s) && SnapshotsHold(s) && BackStep(s, a, s')
    ensures StoreHolds(s') && WorkHolds(s')
  {
    match a
    case AFlushBegin => FlushBeginHolds(s, s');
    case ABuildTable(ok, garbage) => BuildTableHolds(s, s', ok, garbage);
    case AFlushApply => FlushApplyHolds(s, s');
    case AManifestWrite(ok, applied) => ManifestWriteHolds(s, s', ok, applied);
    case AInstall(level0, needs) =>
      if s.b.phase.work.kind.Flush? { InstallFlushHolds(s, s', level0, needs); }
      else if s.b.phase.work.kind.Compact? { InstallCompactHolds(s, s', level0, needs); }
      else { InstallMoveHolds(s, s', level0, needs); }
    case AInstallFails => InstallFailsHolds(s, s');
    case ADelete(tables, logs, manifests) => DeleteHolds(s, s', tables, logs, manifests);
    case ACollectEnd => CollectEndHolds(s, s');
    case ACompactBegin(inputs, input, smallest, base) => CompactBeginHolds(s, s', inputs, input, smallest, base);
    case AMoveBegin => MoveBeginHolds(s, s');
    case ACompactOpen => CompactOpenHolds(s, s');
    case ACompactWrite(file, content) => CompactWriteHolds(s, s', file, content);
    case ACompactDone => CompactDoneHolds(s, s');
    case ACompactAbort => CompactAbortHolds(s, s');
    case _ => CallStepHolds(s, a, s');
  }
}
