/**
 The writers over whole runs: whatever the leader does, the store and what the background
 thread is in the middle of stay intact.
 */
module EngineWriters {
  import opened Wrappers
  import opened History
  import opened Layers
  import opened Compaction
  import opened WriteGroup
  import opened EngineState
  import opened EngineSteps
  import opened EngineInvariants
  import opened EngineMemory
  import opened EngineLogs
  import opened EngineVersions
  import opened EngineBackground

  /** What a writer's step leaves alone: table files, versions, readers and the background thread's work. */
  ghost predicate WriterFrame(s: State, s': State) {
    && s'.r == s.r && s'.f == s.f.(logs := s'.f.logs) && s'.vs == s.vs.(nextFile := s'.vs.nextFile)
    && s'.vs.nextFile >= s.vs.nextFile && s'.m.lastSequence >= s.m.lastSequence && s'.m.memId < s'.vs.nextFile
    && s'.b.phase == s.b.phase && (s.b.bgError ==> s'.b.bgError)
    && ((s'.m.memId == s.m.memId && s'.m.imm == s.m.imm && ImmSet(s'.m) == ImmSet(s.m))
        || (s.m.imm.None? && s'.m.memId > s.m.memId && s'.m.imm == Some(s.m.memId)))
  }

  lemma WriterFrames(s: State, a: WriterAction, s': State)
    requires Holds(s) && s.m.memId < s.vs.nextFile && WriterStep(s, a, s')
    ensures WriterFrame(s, s')
  {
    match a
    case AInsert => InsertKeepsMem(s, s');
    case AFinish => hide QueueInv, MemInv; assert s'.f == s.f;
    case _ =>
      hide QueueInv, MemInv;
  }

  lemma FrameKeepsDisk(s: State, s': State)
    requires DiskInv(s.f, s.m, s.vs.current) && WriterFrame(s, s')
    ensures DiskInv(s'.f, s'.m, s'.vs.current)
  {
    hide TablesOf, UpTo;
  }

  lemma FrameKeepsWork(s: State, s': State)
    requires WorkHolds(s) && WriterFrame(s, s')
    ensures WorkHolds(s')
  {
    hide CompInv, EditOk, Unreferenced;
    if s.b.phase.Running? {
      var comp, w := s.b.phase.comp, s.b.phase.work;
      if comp.Some? { FrameKeepsComp(s, s', comp.value, w); }
      if w.Applying? || w.Written? { FrameKeepsEdit(s, s', w.edit, w.kind, comp); }
    }
  }

  lemma FrameKeepsComp(s: State, s': State, c: Comp, w: Work)
    requires CompInv(s, c, w) && WriterFrame(s, s')
    ensures CompInv(s', c, w)
  {
    hide CompOk, TablesOf, Merged;
  }

  lemma FrameKeepsEdit(s: State, s': State, e: Edit, kind: Kind, comp: Option<Comp>)
    requires EditOk(s, e, kind, comp) && WriterFrame(s, s')
    ensures EditOk(s', e, kind, comp)
  {
    hide TablesOf, Survivors, UpTo;
  }

  lemma WriterKeepsStore(s: State, a: WriterAction, s': State)
    requires QueueInv(s.q, s.m.lastSequence) && StoreHolds(s) && WorkHolds(s) && WriterStep(s, a, s')
    ensures StoreHolds(s') && WorkHolds(s')
  {
    hide QueueInv, MemInv, LogInv, DiskInv, PromiseInv, VersionsInv, PhaseInv, ManifestInv, WriterFrame;
    WriterKeepsMem(s, a, s');
    WriterKeepsLogs(s, a, s');
    WriterKeepsPromise(s, a, s');
    WriterFrames(s, a, s');
    FrameKeepsDisk(s, s');
    FrameKeepsWork(s, s');
    FrameKeepsVersions(s, s');
  }

  lemma FrameKeepsVersions(s: State, s': State)
    requires VersionsInv(s.f, s.vs.current, s.r.active) && WriterFrame(s, s')
    ensures VersionsInv(s'.f, s'.vs.current, s'.r.active)
  {
    hide VersionOk;
  }

  /** Writers add to the history only what is newer than everything published. */
  lemma WriterExtendsHist(s: State, a: WriterAction, s': State)
    requires Holds(s) && s.m.memId < s.vs.nextFile && WriterStep(s, a, s')
    ensures Hist(s) <= Hist(s')
    ensures forall e :: e in Hist(s') && e !in Hist(s) ==> e.sequence > s.m.lastSequence
    ensures s'.m.lastSequence >= s.m.lastSequence
  {
    match a
    case ARoomSwitch => SwitchKeepsMem(s, s');
    case AInsert => InsertKeepsMem(s, s');
    case _ =>
      hide QueueInv, MemInv;
      assert MemSet(s'.m) == MemSet(s.m) && ImmSet(s'.m) == ImmSet(s.m);
  }

  // ----- readers' steps -----------------------------------------------------------------------------

  lemma ReaderKeepsStore(s: State, a: ReaderAction, s': State)
    requires StoreHolds(s) && WorkHolds(s) && ReaderStep(s, a, s')
    ensures StoreHolds(s') && WorkHolds(s')
  {
    hide MemInv, LogInv, DiskInv, VersionOk;
    assert s'.m == s.m && s'.f == s.f && s'.q == s.q && s'.vs.current == s.vs.current && Hist(s') == Hist(s);
    ReaderKeepsWork(s, a, s');
  }

  lemma ReaderKeepsWork(s: State, a: ReaderAction, s': State)
    requires WorkHolds(s) && ReaderStep(s, a, s')
    ensures WorkHolds(s')
  {
    hide CompInv, EditOk;
    assert s'.m == s.m && s'.f == s.f && s'.vs == s.vs.(needsCompaction := s'.vs.needsCompaction);
    assert s'.b.phase == s.b.phase && s'.b.bgError == s.b.bgError;
    if s.b.phase.Running? {
      var comp, w := s.b.phase.comp, s.b.phase.work;
      if comp.Some? { ReaderKeepsComp(s, a, s', comp.value, w); }
      if w.Applying? || w.Written? { ReaderKeepsEdit(s, s', w.edit, w.kind, comp); }
    }
  }

  lemma ReaderKeepsComp(s: State, a: ReaderAction, s': State, c: Comp, w: Work)
    requires CompInv(s, c, w) && ReaderStep(s, a, s')
    ensures CompInv(s', c, w)
  {
    hide CompOk, TablesOf, Merged;
  }

  lemma ReaderKeepsEdit(s: State, s': State, e: Edit, kind: Kind, comp: Option<Comp>)
    requires EditOk(s, e, kind, comp) && s'.m == s.m && s'.f == s.f && s'.vs.current == s.vs.current
    ensures EditOk(s', e, kind, comp)
  {
    hide TablesOf, Survivors, UpTo;
  }
}
