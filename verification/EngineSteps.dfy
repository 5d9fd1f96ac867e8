/**
 The steps of the storage engine (db/db_impl.cc).  A region of code that runs under the
 mutex is one step, or several when that only allows more interleavings; what runs without
 the mutex (log append, memtable insertion, table building, manifest writes, deletions) is
 cut into its individual effects, so that anything may happen between them.
 */
module EngineSteps {
  import opened Wrappers
  import opened History
  import opened Compaction
  import opened WriteGroup
  import opened EngineState

  // ----- signalling and scheduling --------------------------------------------------------------

  /** background_work_finished_signal_.SignalAll(): only a writer in MakeRoomForWrite waits on it. */
  function SignalAll(q: Queue): Queue {
    if q.leader.Waiting? then q.(leader := Room(q.leader.force, q.leader.allowDelay)) else q
  }

  /** MaybeScheduleCompaction. */
  function MaybeSchedule(b: Back, imm: Option<nat>, needsCompaction: bool): Back {
    if b.scheduled || b.shuttingDown || b.bgError || (imm.None? && !needsCompaction) then b
    else b.(scheduled := true, calls := b.calls + 1)
  }

  /** RecordBackgroundError keeps the first error and wakes the waiting writer. */
  function RecordError(s: State): State {
    if s.b.bgError then s else s.(b := s.b.(bgError := true), q := SignalAll(s.q))
  }

  /** Level 0 alone forces a compaction from kL0_CompactionTrigger files on. */
  predicate CompactionScore(level0: nat, needs: bool) {
    level0 >= L0_COMPACT ==> needs
  }

  // ----- Write ----------------------------------------------------------------------------------

  ghost predicate Arrive(s: State, s': State, w: Writer) {
    s' == s.(q := s.q.(writers := s.q.writers + [w], arrived := s.q.arrived + [w]))
  }

  /** The writer at the front enters MakeRoomForWrite; a null batch forces a memtable switch. */
  ghost predicate Lead(s: State, s': State) {
    && s.q.leader.Idle? && s.q.writers != []
    && var force := s.q.writers[0].batch.None?;
      s' == s.(q := s.q.(leader := Room(force, !force)))
  }

  function Retirees(ws: seq<Writer>, ok: bool): seq<Retired> {
    seq(|ws|, i requires 0 <= i < |ws| => Retired(ws[i], ok))
  }

  /** The loop at the end of Write: everybody up to last_writer leaves with one status. */
  function Retire(q: Queue, count: nat, ok: bool): Queue
    requires count <= |q.writers|
  {
    q.(writers := q.writers[count..], retired := q.retired + Retirees(q.writers[..count], ok), leader := Idle)
  }

  predicate Delays(s: State, l: Leader)
    requires l.Room?
  {
    l.allowDelay && s.vs.level0 >= L0_SLOWDOWN
  }

  ghost predicate RoomError(s: State, s': State) {
    && s.q.leader.Room? && s.b.bgError && s.q.writers != []
    && s' == s.(q := Retire(s.q, 1, false))
  }

  ghost predicate RoomSleep(s: State, s': State) {
    && s.q.leader.Room? && !s.b.bgError && Delays(s, s.q.leader)
    && s' == s.(q := s.q.(leader := Room(s.q.leader.force, false)))
  }

  /** There is room.  A null batch is done; otherwise the leader builds its group. */
  ghost predicate RoomFound(s: State, s': State, count: nat) {
    && s.q.leader.Room? && !s.b.bgError && !Delays(s, s.q.leader) && !s.q.leader.force && s.q.writers != []
    && if s.q.writers[0].batch.None? then s' == s.(q := Retire(s.q, 1, true))
       else
         && IsGroup(s.q.writers, count)
         && var ops := AllOps(s.q.writers[..count]);
            s' == s.(q := s.q.(leader :=
              Logging(Group(count, s.m.lastSequence, Number(ops, s.m.lastSequence), s.q.writers[0].sync))))
  }

  ghost predicate RoomWait(s: State, s': State) {
    && s.q.leader.Room? && !s.b.bgError && !Delays(s, s.q.leader)
    && (s.m.imm.Some? || s.vs.level0 >= L0_STOP)
    && s' == s.(q := s.q.(leader := Waiting(s.q.leader.force, s.q.leader.allowDelay)))
  }

  /** background_work_finished_signal_.Wait() returns without a signal, which it may. */
  ghost predicate RoomWake(s: State, s': State) {
    s.q.leader.Waiting? && s' == s.(q := SignalAll(s.q))
  }

  /** A new log and memtable; the old memtable becomes immutable. */
  ghost predicate RoomSwitch(s: State, s': State) {
    && s.q.leader.Room? && !s.b.bgError && !Delays(s, s.q.leader)
    && s.m.imm.None? && s.vs.level0 < L0_STOP
    && var n := s.vs.nextFile;
      s' == s.(vs := s.vs.(nextFile := n + 1),
               f := s.f.(logs := s.f.logs[n := Log([], 0)]),
               m := s.m.(memtables := s.m.memtables[n := {}], memId := n, imm := Some(s.m.memId)),
               q := s.q.(leader := Room(false, s.q.leader.allowDelay)),
               b := MaybeSchedule(s.b.(hasImm := true), Some(s.m.memId), s.vs.needsCompaction))
  }

  /** The new log cannot be created. */
  ghost predicate RoomSwitchFails(s: State, s': State) {
    && s.q.leader.Room? && !s.b.bgError && !Delays(s, s.q.leader)
    && s.m.imm.None? && s.vs.level0 < L0_STOP && s.q.writers != []
    && s' == s.(q := Retire(s.q, 1, false))
  }

  /** log_->AddRecord; when it fails the record may or may not be in the log. */
  ghost predicate LogAppend(s: State, s': State, ok: bool, appended: bool) {
    && s.q.leader.Logging? && s.m.memId in s.f.logs
    && (ok ==> appended)
    && var g, log := s.q.leader.g, s.f.logs[s.m.memId];
      var log' := if appended then Log(log.records + [g.entries], log.synced) else log;
      s' == s.(f := s.f.(logs := s.f.logs[s.m.memId := log']),
               q := s.q.(leader := if !ok then Finishing(g, false, false) else if g.sync then Syncing(g) else Inserting(g, 0)))
  }

  /** logfile_->Sync. */
  ghost predicate LogSync(s: State, s': State, ok: bool) {
    && s.q.leader.Syncing? && s.m.memId in s.f.logs
    && var g, log := s.q.leader.g, s.f.logs[s.m.memId];
      if ok
      then s' == s.(f := s.f.(logs := s.f.logs[s.m.memId := Log(log.records, |log.records|)]),
                    q := s.q.(leader := Inserting(g, 0)))
      else s' == s.(q := s.q.(leader := Finishing(g, false, true)))
  }

  /** One entry goes into the memtable. */
  ghost predicate Insert(s: State, s': State) {
    && s.q.leader.Inserting? && s.q.leader.n < |s.q.leader.g.entries|
    && var g, n := s.q.leader.g, s.q.leader.n;
      s' == s.(m := s.m.(memtables := s.m.memtables[s.m.memId := MemSet(s.m) + {g.entries[n]}]),
               q := s.q.(leader := Inserting(g, n + 1)))
  }

  /** InsertInto returns; it may fail anywhere. */
  ghost predicate InsertDone(s: State, s': State, ok: bool) {
    && s.q.leader.Inserting?
    && (ok ==> s.q.leader.n == |s.q.leader.g.entries|)
    && s' == s.(q := s.q.(leader := Finishing(s.q.leader.g, ok, false)))
  }

  /** Publish the sequence numbers, whatever the status, and retire the group. */
  ghost predicate Finish(s: State, s': State) {
    && s.q.leader.Finishing? && s.q.leader.g.count <= |s.q.writers|
    && var Finishing(g, ok, syncError) := s.q.leader;
      var q := s.q.(commits := s.q.commits + [Commit(g.base, g.entries, ok)],
                    promised := if ok && g.sync then s.q.promised + Elems(g.entries) else s.q.promised);
      var t := s.(m := s.m.(lastSequence := g.base + |g.entries|), q := Retire(q, g.count, ok));
      s' == if syncError then RecordError(t) else t
  }

  // ----- readers --------------------------------------------------------------------------------

  ghost predicate GetSnapshot(s: State, s': State, id: nat) {
    && id !in s.r.snapshots
    && s' == s.(r := s.r.(snapshots := s.r.snapshots[id := s.m.lastSequence]))
  }

  ghost predicate ReleaseSnapshot(s: State, s': State, id: nat) {
    s' == s.(r := s.r.(snapshots := s.r.snapshots - {id}))
  }

  /** Get or NewIterator takes its references, at a held snapshot or at the latest number. */
  ghost predicate BeginRead(s: State, s': State, id: nat, snapshot: Option<nat>) {
    && id !in s.r.active && (snapshot.Some? ==> snapshot.value in s.r.snapshots)
    && var number := if snapshot.Some? then s.r.snapshots[snapshot.value] else s.m.lastSequence;
      s' == s.(r := s.r.(active := s.r.active[id := Reader(number, s.m.memId, s.m.imm, s.vs.current)]))
  }

  /** The reader drops its references; UpdateStats may find that a file wants compacting. */
  ghost predicate EndRead(s: State, s': State, id: nat, wanted: bool) {
    && var needs := s.vs.needsCompaction || wanted;
      s' == s.(r := s.r.(active := s.r.active - {id}),
               vs := s.vs.(needsCompaction := needs),
               b := if wanted then MaybeSchedule(s.b, s.m.imm, needs) else s.b)
  }

  // ----- background thread: flushing the immutable memtable ---------------------------------------

  /** What follows a flush: the compaction that it interrupted, or the end of the call. */
  function AfterFlush(comp: Option<Comp>): Phase {
    Running(comp, if comp.Some? then Ready else Ending)
  }

  /** A flush inside a compaction wakes MakeRoomForWrite when it is over. */
  function SignalIf(comp: Option<Comp>, q: Queue): Queue {
    if comp.Some? then SignalAll(q) else q
  }

  /** CompactMemTable begins, at the start of a background call or inside the compaction loop. */
  ghost predicate FlushBegin(s: State, s': State) {
    && s.m.imm.Some?
    && (if s.b.phase.Resting? then s.b.calls > 0 && !s.b.shuttingDown && !s.b.bgError
        else s.b.phase.work.Ready? && s.b.phase.comp.Some?)
    && var n := s.vs.nextFile;
      var comp := if s.b.phase.Resting? then None else s.b.phase.comp;
      s' == s.(vs := s.vs.(nextFile := n + 1, pending := s.vs.pending + {n}),
               b := s.b.(phase := Running(comp, Building(n))))
  }

  /** BuildTable; after a failure the file may hold anything. */
  ghost predicate BuildTable(s: State, s': State, ok: bool, garbage: set<Entry>) {
    && s.b.phase.Running? && s.b.phase.work.Building?
    && var n := s.b.phase.work.file;
      s' == s.(f := s.f.(tables := s.f.tables[n := if ok then ImmSet(s.m) else garbage]),
               b := s.b.(phase := s.b.phase.(work := Built(n, ok))))
  }

  /** The edit of a flush: an empty memtable leaves no file. */
  ghost function FlushEdit(s: State, n: nat): Edit {
    Edit(if ImmSet(s.m) == {} then {} else {n}, {}, s.m.memId, s.m.lastSequence, ImmSet(s.m), 0)
  }

  /** The pending mark goes before the edit is applied. */
  ghost predicate FlushApply(s: State, s': State) {
    && s.b.phase.Running? && s.b.phase.work.Built?
    && var n, ok := s.b.phase.work.file, s.b.phase.work.ok;
      var vs := s.vs.(pending := s.vs.pending - {n});
      if ok && !s.b.shuttingDown
      then s' == s.(vs := vs, b := s.b.(phase := s.b.phase.(work := Applying(FlushEdit(s, n), Flush))))
      else
        var t := RecordError(s.(vs := vs, b := s.b.(phase := AfterFlush(s.b.phase.comp))));
        s' == t.(q := SignalIf(s.b.phase.comp, t.q))
  }

  // ----- background thread: LogAndApply -----------------------------------------------------------

  /** The manifest record is written; when that fails it may or may not have reached the file. */
  ghost predicate ManifestWrite(s: State, s': State, ok: bool, applied: bool) {
    && s.b.phase.Running? && s.b.phase.work.Applying?
    && (ok ==> applied)
    && var edit, kind := s.b.phase.work.edit, s.b.phase.work.kind;
      s' == s.(f := if applied then s.f.(disk := ApplyEdit(s.f.disk, edit), diskLastSequence := edit.lastSequence) else s.f,
               b := s.b.(phase := s.b.phase.(work := if ok then Written(edit, kind) else WriteFailed(kind))))
  }

  /** The table files of every version that somebody still refers to. */
  ghost function LiveFiles(vs: Vs, r: Readers): set<nat> {
    vs.pending + vs.current.files + set id, n | id in r.active && n in r.active[id].version.files :: n
  }

  /** What RemoveObsoleteFiles decides to delete. */
  ghost function Obsolete(s: State): Doomed {
    Doomed(set n | n in s.f.tables && n !in LiveFiles(s.vs, s.r),
           set n | n in s.f.logs && n < s.vs.current.logNumber,
           set n | n in s.f.manifests && n < s.vs.manifestNumber)
  }

  /** RemoveObsoleteFiles does nothing after a background error. */
  ghost function StartCollecting(s: State, comp: Option<Comp>): State {
    if s.b.bgError
    then s.(b := s.b.(phase := AfterFlush(comp)), q := SignalIf(comp, s.q))
    else s.(b := s.b.(phase := Running(comp, Collecting(Obsolete(s)))))
  }

  /** Install the new version, then collect garbage (a trivial move does not). */
  ghost predicate Install(s: State, s': State, level0: nat, needs: bool) {
    && s.b.phase.Running? && s.b.phase.work.Written? && CompactionScore(level0, needs)
    && var comp := s.b.phase.comp;
      var Written(edit, kind) := s.b.phase.work;
      var vs := s.vs.(current := ApplyEdit(s.vs.current, edit), level0 := level0, needsCompaction := needs);
      match kind
      case Flush =>
        s' == StartCollecting(s.(vs := vs, m := s.m.(imm := None), b := s.b.(hasImm := false)), comp)
      case Compact =>
        && comp.Some?
        && s' == StartCollecting(s.(vs := vs.(pending := vs.pending - comp.value.outputs)), None)
      case Move =>
        s' == s.(vs := vs, b := s.b.(phase := Running(None, Ending)))
  }

  ghost predicate InstallFails(s: State, s': State) {
    && s.b.phase.Running? && s.b.phase.work.WriteFailed?
    && var comp := s.b.phase.comp;
      match s.b.phase.work.kind
      case Flush =>
        var t := RecordError(s.(b := s.b.(phase := AfterFlush(comp))));
        s' == t.(q := SignalIf(comp, t.q))
      case Compact =>
        && comp.Some?
        && s' == RecordError(s.(vs := s.vs.(pending := s.vs.pending - comp.value.outputs),
                                b := s.b.(phase := Running(None, Ending))))
      case Move =>
        s' == RecordError(s.(b := s.b.(phase := Running(None, Ending))))
  }

  /** One doomed file is deleted, without the mutex. */
  ghost predicate Delete(s: State, s': State, tables: set<nat>, logs: set<nat>, manifests: set<nat>) {
    && s.b.phase.Running? && s.b.phase.work.Collecting?
    && var d := s.b.phase.work.doomed;
      && tables <= d.tables && logs <= d.logs && manifests <= d.manifests
      && s' == s.(f := s.f.(tables := s.f.tables - tables, logs := s.f.logs - logs, manifests := s.f.manifests - manifests))
  }

  ghost predicate CollectEnd(s: State, s': State) {
    && s.b.phase.Running? && s.b.phase.work.Collecting?
    && s' == s.(b := s.b.(phase := AfterFlush(s.b.phase.comp)), q := SignalIf(s.b.phase.comp, s.q))
  }

  // ----- background thread: compactions ---------------------------------------------------------

  predicate CanCompact(s: State) {
    s.b.phase.Resting? && s.b.calls > 0 && !s.b.shuttingDown && !s.b.bgError && s.m.imm.None?
  }

  /** snapshots_.oldest()->sequence_number(), or LastSequence() without snapshots. */
  ghost predicate IsSmallestSnapshot(s: State, n: nat) {
    if s.r.snapshots == map[] then n == s.m.lastSequence
    else (exists id :: id in s.r.snapshots && s.r.snapshots[id] == n)
         && forall id :: id in s.r.snapshots ==> n <= s.r.snapshots[id]
  }

  /** Some files of the current version are picked, with their entries in merged order. */
  ghost predicate CompactBegin(s: State, s': State, inputs: set<nat>, input: seq<Entry>, smallest: nat, base: BaseLevel) {
    && CanCompact(s)
    && inputs <= s.vs.current.files
    && Merged(input) && Elems(input) == TablesOf(s.f.tables, inputs)
    && BaseLevelSound(Elems(input), TablesOf(s.f.tables, s.vs.current.files - inputs), base)
    && IsSmallestSnapshot(s, smallest) && smallest < MAX_SEQUENCE
    && s' == s.(b := s.b.(phase := Running(Some(Comp(inputs, input, smallest, base, {})), Ready)))
  }

  /** A file moves down a level: the set of files stays as it is. */
  ghost predicate MoveBegin(s: State, s': State) {
    && CanCompact(s)
    && s' == s.(b := s.b.(phase := Running(None,
         Applying(Edit({}, {}, s.vs.current.logNumber, s.m.lastSequence, {}, 0), Move))))
  }

  predicate Compacting(s: State) {
    s.b.phase.Running? && s.b.phase.work.Ready? && s.b.phase.comp.Some?
  }

  /** OpenCompactionOutputFile. */
  ghost predicate CompactOpen(s: State, s': State) {
    && Compacting(s)
    && var n, c := s.vs.nextFile, s.b.phase.comp.value;
      s' == s.(vs := s.vs.(nextFile := n + 1, pending := s.vs.pending + {n}),
               b := s.b.(phase := Running(Some(c.(outputs := c.outputs + {n})), Ready)))
  }

  /** An output file grows. */
  ghost predicate CompactWrite(s: State, s': State, n: nat, content: set<Entry>) {
    && Compacting(s) && n in s.b.phase.comp.value.outputs
    && s' == s.(f := s.f.(tables := s.f.tables[n := content]))
  }

  ghost function CompactEdit(s: State, c: Comp): Edit {
    Edit(c.outputs, c.inputs, s.vs.current.logNumber, s.m.lastSequence, {}, c.smallest)
  }

  /** The loop is done: the outputs are finished and hold the survivors (DoCompactionWork). */
  ghost predicate CompactDone(s: State, s': State) {
    && Compacting(s)
    && var c := s.b.phase.comp.value;
      && c.outputs <= s.f.tables.Keys
      && TablesOf(s.f.tables, c.outputs) == Elems(Survivors(c.input, c.smallest, c.base))
      && s' == s.(b := s.b.(phase := s.b.phase.(work := Applying(CompactEdit(s, c), Compact))))
  }

  /** The compaction fails, or notices the shutdown. */
  ghost predicate CompactAbort(s: State, s': State) {
    && Compacting(s)
    && s' == RecordError(s.(vs := s.vs.(pending := s.vs.pending - s.b.phase.comp.value.outputs),
                            b := s.b.(phase := Running(None, Ending))))
  }

  // ----- background thread: the call itself -------------------------------------------------------

  /** A call that finds nothing to do, or may not do anything. */
  ghost predicate CallIdle(s: State, s': State) {
    && s.b.phase.Resting? && s.b.calls > 0
    && (s.m.imm.Some? ==> s.b.shuttingDown || s.b.bgError)
    && s' == s.(b := s.b.(phase := Running(None, Ending)))
  }

  /** The end of BackgroundCall: schedule again if there is more to do, and wake the waiting writer. */
  ghost predicate CallEnd(s: State, s': State) {
    && s.b.phase.Running? && s.b.phase.work.Ending? && s.b.calls > 0
    && var b := s.b.(phase := Resting, scheduled := false, calls := s.b.calls - 1);
      s' == s.(b := MaybeSchedule(b, s.m.imm, s.vs.needsCompaction), q := SignalAll(s.q))
  }

  ghost predicate ShutDown(s: State, s': State) {
    s' == s.(b := s.b.(shuttingDown := true))
  }

  // ----- the step relation ------------------------------------------------------------------------

  datatype WriterAction =
    | AArrive(w: Writer) | ALead | ARoomError | ARoomSleep | ARoomFound(count: nat) | ARoomWait | ARoomWake
    | ARoomSwitch | ARoomSwitchFails | ALogAppend(ok: bool, appended: bool) | ALogSync(ok: bool)
    | AInsert | AInsertDone(ok: bool) | AFinish

  datatype ReaderAction =
    | AGetSnapshot(id: nat) | AReleaseSnapshot(id: nat) | ABeginRead(id: nat, at: Option<nat>)
    | AEndRead(id: nat, wanted: bool)

  datatype BackAction =
    | AFlushBegin | ABuildTable(ok: bool, garbage: set<Entry>) | AFlushApply
    | AManifestWrite(ok: bool, applied: bool) | AInstall(level0: nat, needs: bool) | AInstallFails
    | ADelete(tables: set<nat>, logs: set<nat>, manifests: set<nat>) | ACollectEnd
    | ACompactBegin(inputs: set<nat>, input: seq<Entry>, smallest: nat, base: BaseLevel) | AMoveBegin
    | ACompactOpen | ACompactWrite(file: nat, content: set<Entry>) | ACompactDone | ACompactAbort
    | ACallIdle | ACallEnd | AShutDown

  ghost predicate WriterStep(s: State, a: WriterAction, s': State) {
    match a
    case AArrive(w) => Arrive(s, s', w)
    case ALead => Lead(s, s')
    case ARoomError => RoomError(s, s')
    case ARoomSleep => RoomSleep(s, s')
    case ARoomFound(count) => RoomFound(s, s', count)
    case ARoomWait => RoomWait(s, s')
    case ARoomWake => RoomWake(s, s')
    case ARoomSwitch => RoomSwitch(s, s')
    case ARoomSwitchFails => RoomSwitchFails(s, s')
    case ALogAppend(ok, appended) => LogAppend(s, s', ok, appended)
    case ALogSync(ok) => LogSync(s, s', ok)
    case AInsert => Insert(s, s')
    case AInsertDone(ok) => InsertDone(s, s', ok)
    case AFinish => Finish(s, s')
  }

  ghost predicate ReaderStep(s: State, a: ReaderAction, s': State) {
    match a
    case AGetSnapshot(id) => GetSnapshot(s, s', id)
    case AReleaseSnapshot(id) => ReleaseSnapshot(s, s', id)
    case ABeginRead(id, at) => BeginRead(s, s', id, at)
    case AEndRead(id, wanted) => EndRead(s, s', id, wanted)
  }

  ghost predicate BackStep(s: State, a: BackAction, s': State) {
    match a
    case AFlushBegin => FlushBegin(s, s')
    case ABuildTable(ok, garbage) => BuildTable(s, s', ok, garbage)
    case AFlushApply => FlushApply(s, s')
    case AManifestWrite(ok, applied) => ManifestWrite(s, s', ok, applied)
    case AInstall(level0, needs) => Install(s, s', level0, needs)
    case AInstallFails => InstallFails(s, s')
    case ADelete(tables, logs, manifests) => Delete(s, s', tables, logs, manifests)
    case ACollectEnd => CollectEnd(s, s')
    case ACompactBegin(inputs, input, smallest, base) => CompactBegin(s, s', inputs, input, smallest, base)
    case AMoveBegin => MoveBegin(s, s')
    case ACompactOpen => CompactOpen(s, s')
    case ACompactWrite(file, content) => CompactWrite(s, s', file, content)
    case ACompactDone => CompactDone(s, s')
    case ACompactAbort => CompactAbort(s, s')
    case ACallIdle => CallIdle(s, s')
    case ACallEnd => CallEnd(s, s')
    case AShutDown => ShutDown(s, s')
  }
}
