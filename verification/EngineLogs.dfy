/**
 The write-ahead logs over whole runs: whatever is in a memtable is in its log, logs of
 higher number hold newer entries only, and what was acknowledged with sync is in the
 synced part of a live log until the tables have it.
 */
module EngineLogs {
  import opened Wrappers
  import opened History
  import opened Layers
  import opened WriteGroup
  import opened EngineState
  import opened EngineSteps
  import opened EngineInvariants
  import opened EngineMemory

  ghost predicate LogsHold(s: State) {
    && Holds(s)
    && LogInv(s.f.logs, s.m, s.vs.current, s.q.leader)
  }

  lemma AppendKeepsSynced(log: Log, r: seq<Entry>)
    requires log.synced <= |log.records|
    ensures SyncedSet(Log(log.records + [r], log.synced)) == SyncedSet(log)
  {
    var l := Log(log.records + [r], log.synced);
    forall i | 0 <= i < log.synced ensures l.records[i] == log.records[i] {
    }
    forall e | e in SyncedSet(log) ensures e in SyncedSet(l) {
      var i :| 0 <= i < log.synced && i < |log.records| && e in log.records[i];
      assert e in l.records[i];
    }
  }

  lemma NoEntriesUnique()
    ensures Unique({})
  {
  }

  lemma LogIsUnique(logs: map<nat, Log>, m: Mem, current: Version)
    requires LogOrder(logs, m, current) && (m.imm.Some? ==> m.imm.value < m.memId)
    ensures Unique(LogSet(logs[m.memId]))
  {
    hide LogSet;
  }

  lemma SwitchKeepsLogs(s: State, s': State)
    requires LogsHold(s) && s.m.memId < s.vs.nextFile && RoomSwitch(s, s')
    ensures LogInv(s'.f.logs, s'.m, s'.vs.current, s'.q.leader)
  {
    hide QueueInv, Unique;
    var n := s.vs.nextFile;
    assert LogSet(s'.f.logs[n]) == {};
    assert Unique(LogSet(s'.f.logs[n])) by { NoEntriesUnique(); }
    assert ImmSet(s'.m) == MemSet(s.m) && MemSet(s'.m) == {};
    assert forall k :: k in s'.f.logs && k != n ==> k in s.f.logs && s'.f.logs[k] == s.f.logs[k];
  }

  lemma AppendKeepsLogs(s: State, s': State, ok: bool, appended: bool)
    requires LogsHold(s) && LogAppend(s, s', ok, appended)
    ensures LogInv(s'.f.logs, s'.m, s'.vs.current, s'.q.leader)
  {
    hide LogCovers;
    AppendKeepsOrder(s, s', ok, appended);
    AppendKeepsCover(s, s', ok, appended);
  }

  lemma AppendKeepsCover(s: State, s': State, ok: bool, appended: bool)
    requires LogsHold(s) && LogAppend(s, s', ok, appended)
    ensures LogCovers(s'.f.logs, s'.m, s'.q.leader)
  {
    hide LogSet, SyncedSet, LogOrder, QueueInv, MemInv;
    var g, log := s.q.leader.g, s.f.logs[s.m.memId];
    LogAppended(log, g.entries);
    AppendKeepsSynced(log, g.entries);
    assert g.entries == InWork(s.q.leader) == InWork(s'.q.leader);
    assert s.m.imm.Some? && s.m.imm.value != s.m.memId ==> s'.f.logs[s.m.imm.value] == s.f.logs[s.m.imm.value];
  }

  lemma AppendKeepsOrder(s: State, s': State, ok: bool, appended: bool)
    requires LogsHold(s) && LogAppend(s, s', ok, appended)
    ensures LogOrder(s'.f.logs, s'.m, s'.vs.current)
  {
    hide LogSet, SyncedSet, LogOrder, LogCovers, AllOps, Admissible, Contiguous, Unique, Above;
    assert UpTo(s.vs.current.flushed, s.m.lastSequence);
    var g, id := s.q.leader.g, s.m.memId;
    LogAppended(s.f.logs[id], g.entries);
    assert forall e :: e in g.entries ==> e.sequence > s.m.lastSequence;
    AppendKeepsUnique(s, g);
    AppendedOrder(s.f.logs, s'.f.logs, s.m, s.vs.current, Elems(g.entries));
  }

  /** The group's sequence numbers are new, so its record brings no second entry under an old number. */
  lemma AppendKeepsUnique(s: State, g: Group)
    requires LogsHold(s) && Working(s.q.leader) == Some(g)
    ensures Unique(LogSet(s.f.logs[s.m.memId])) && Unique(LogSet(s.f.logs[s.m.memId]) + Elems(g.entries))
  {
    hide LogSet, SyncedSet, Above, MemInv, AllOps, Admissible, Contiguous;
    var L := LogSet(s.f.logs[s.m.memId]);
    assert Unique(L);
    forall e, f | e in L + Elems(g.entries) && f in L + Elems(g.entries) && e.key == f.key && e.sequence == f.sequence ensures e == f {
      if e.sequence > s.m.lastSequence {
        assert e in g.entries && f in g.entries;
      } else {
        assert e in L && f in L;
      }
    }
  }

  ghost function InWork(l: Leader): seq<Entry> {
    if Working(l).Some? then Working(l).value.entries else []
  }

  /** Adding newer entries to the newest log keeps the order among logs. */
  lemma AppendedOrder(logs: map<nat, Log>, logs': map<nat, Log>, m: Mem, current: Version, X: set<Entry>)
    requires LogOrder(logs, m, current) && logs'.Keys == logs.Keys
    requires forall k :: k in logs && k != m.memId ==> logs'[k] == logs[k]
    requires LogSet(logs'[m.memId]) <= LogSet(logs[m.memId]) + X
    requires forall x :: x in X ==> x.sequence > m.lastSequence
    requires UpTo(current.flushed, m.lastSequence) && Unique(LogSet(logs'[m.memId]))
    ensures LogOrder(logs', m, current)
  {
    hide LogSet, Unique;
    forall n, k | n in logs' && k in logs' && current.logNumber <= n < k ensures Above(LogSet(logs'[k]), LogSet(logs'[n])) {
      assert Above(LogSet(logs[k]), LogSet(logs[n])) && UpTo(LogSet(logs[n]), m.lastSequence);
    }
    forall n | n in logs' && n >= current.logNumber ensures Above(LogSet(logs'[n]), current.flushed) {
      assert Above(LogSet(logs[n]), current.flushed);
    }
  }

  lemma SyncKeepsLogs(s: State, s': State, ok: bool)
    requires LogsHold(s) && LogSync(s, s', ok)
    ensures LogInv(s'.f.logs, s'.m, s'.vs.current, s'.q.leader)
  {
    hide LogSet, SyncedSet, LogOrder, QueueInv, Unique, Above;
    var log := s.f.logs[s.m.memId];
    AllSynced(log);
    LogIsUnique(s.f.logs, s.m, s.vs.current);
    AppendedOrder(s.f.logs, s'.f.logs, s.m, s.vs.current, {});
    assert s.m.imm.Some? ==> s'.f.logs[s.m.imm.value] == s.f.logs[s.m.imm.value];
  }

  lemma AllSynced(log: Log)
    ensures LogSet(Log(log.records, |log.records|)) == SyncedSet(Log(log.records, |log.records|)) == LogSet(log)
  {
  }

  lemma InsertKeepsLogs(s: State, s': State)
    requires LogsHold(s) && Insert(s, s')
    ensures LogInv(s'.f.logs, s'.m, s'.vs.current, s'.q.leader)
  {
    hide QueueInv, MemInv, LogSet, SyncedSet, LogOrder;
    InsertKeepsMem(s, s');
    OrderIgnoresMemtables(s.f.logs, s.m, s'.m, s.vs.current);
    var g := s.q.leader.g;
    assert g.entries[s.q.leader.n] in Elems(g.entries);
  }

  lemma OrderIgnoresMemtables(logs: map<nat, Log>, m: Mem, m': Mem, current: Version)
    requires LogOrder(logs, m, current)
    requires m'.memId == m.memId && m'.imm == m.imm && m'.lastSequence >= m.lastSequence
    ensures LogOrder(logs, m', current)
  {
    hide LogSet, Above;
  }

  lemma FinishKeepsLogs(s: State, s': State)
    requires LogsHold(s) && Finish(s, s')
    ensures LogInv(s'.f.logs, s'.m, s'.vs.current, s'.q.leader)
  {
    hide AllOps, Admissible, Contiguous, LogSet, Above, SyncedSet;
    var g := s.q.leader.g;
    assert forall e :: e in g.entries ==> e.sequence <= g.base + |g.entries|;
    OrderIgnoresMemtables(s.f.logs, s.m, s'.m, s.vs.current);
    hide LogOrder;
    assert s'.q.leader.Idle?;
    assert s'.m == s.m.(lastSequence := s'.m.lastSequence) && s'.f == s.f && s'.vs == s.vs;
    assert MemSet(s'.m) == MemSet(s.m) && ImmSet(s'.m) == ImmSet(s.m);
  }

  lemma WriterKeepsLogs(s: State, a: WriterAction, s': State)
    requires LogsHold(s) && s.m.memId < s.vs.nextFile && WriterStep(s, a, s')
    ensures LogInv(s'.f.logs, s'.m, s'.vs.current, s'.q.leader)
  {
    match a
    case ARoomSwitch => SwitchKeepsLogs(s, s');
    case ALogAppend(ok, appended) => AppendKeepsLogs(s, s', ok, appended);
    case ALogSync(ok) => SyncKeepsLogs(s, s', ok);
    case AInsert => InsertKeepsLogs(s, s');
    case AFinish => FinishKeepsLogs(s, s');
    case _ => LeaderKeepsLogs(s, a, s');
  }

  lemma LeaderKeepsLogs(s: State, a: WriterAction, s': State)
    requires LogsHold(s) && WriterStep(s, a, s')
    requires !a.ARoomSwitch? && !a.ALogAppend? && !a.ALogSync? && !a.AInsert? && !a.AFinish?
    ensures LogInv(s'.f.logs, s'.m, s'.vs.current, s'.q.leader)
  {
    hide LogOrder, Above, UpTo, Unique, LogSet, MemInv, QueueInv, AllOps, SyncedSet, IsGroup;
    match a
    case AInsertDone(ok) =>
    case ARoomFound(count) =>
    case _ =>
  }

  lemma SignalKeepsLogs(logs: map<nat, Log>, m: Mem, current: Version, q: Queue)
    requires LogInv(logs, m, current, q.leader)
    ensures LogInv(logs, m, current, SignalAll(q).leader)
  {
    hide LogOrder, LogSet, SyncedSet;
  }

  /** After a flush is installed, only the memtable's own log is live. */
  lemma FlushInstalledKeepsLogs(logs: map<nat, Log>, m: Mem, current: Version, l: Leader, files: set<nat>, floor: nat)
    requires LogInv(logs, m, current, l) && m.imm.Some? && m.imm.value < m.memId
    ensures LogInv(logs, m.(imm := None), Version(files, m.memId, current.flushed + ImmSet(m), floor), l)
  {
    hide UpTo, SyncedSet, LogSet;
    var m' := m.(imm := None);
    assert MemSet(m') == MemSet(m);
    var log := logs[m.memId];
    assert Above(LogSet(log), LogSet(logs[m.imm.value])) && Above(LogSet(log), current.flushed);
  }

  /** Deleting obsolete logs leaves the live ones. */
  lemma DeleteKeepsLogs(logs: map<nat, Log>, dead: set<nat>, m: Mem, current: Version, l: Leader)
    requires LogInv(logs, m, current, l) && forall n :: n in dead ==> n < current.logNumber
    requires m.imm.Some? ==> m.imm.value < m.memId
    ensures LogInv(logs - dead, m, current, l)
  {
    hide Above, UpTo, SyncedSet, LogSet;
  }

  // ----- acknowledged syncs ----------------------------------------------------------------------

  lemma SwitchKeepsPromise(s: State, s': State)
    requires LogsHold(s) && PromiseInv(s) && s.m.memId < s.vs.nextFile && RoomSwitch(s, s')
    ensures PromiseInv(s')
  {
    SwitchKeepsMem(s, s');
    hide QueueInv, MemInv, SyncedSet;
    assert s'.q.promised * MemSet(s'.m) == {};
  }

  lemma LogStepKeepsPromise(s: State, a: WriterAction, s': State)
    requires LogsHold(s) && PromiseInv(s) && (a.ALogAppend? || a.ALogSync?) && WriterStep(s, a, s')
    ensures PromiseInv(s')
  {
    hide QueueInv, LogSet;
    var log := s.f.logs[s.m.memId];
    if a.ALogAppend? {
      AppendKeepsSynced(log, s.q.leader.g.entries);
    } else {
      LogPrefixGrows(log, log.synced, |log.records|);
    }
    assert SyncedSet(log) <= SyncedSet(s'.f.logs[s.m.memId]);
    assert Hist(s') == Hist(s);
  }

  lemma InsertKeepsPromise(s: State, s': State)
    requires LogsHold(s) && PromiseInv(s) && Insert(s, s')
    ensures PromiseInv(s')
  {
    InsertKeepsMem(s, s');
    InsertIsNewest(s, s');
    hide QueueInv, MemInv, SyncedSet, LogSet, Hist;
    var e := s.q.leader.g.entries[s.q.leader.n];
    assert e !in s.q.promised;
    assert s'.q.promised * MemSet(s'.m) == s.q.promised * MemSet(s.m);
  }

  lemma FinishKeepsPromise(s: State, s': State)
    requires LogsHold(s) && PromiseInv(s) && Finish(s, s')
    ensures PromiseInv(s')
    ensures Hist(s') == Hist(s)
  {
    hide QueueInv, SyncedSet, LogSet;
    var g := s.q.leader.g;
    assert MemSet(s'.m) == MemSet(s.m) && ImmSet(s'.m) == ImmSet(s.m);
    if s.q.leader.ok && g.sync && s.m.imm.Some? {
      forall e | e in Elems(g.entries) ensures e !in ImmSet(s.m) {
        assert e in MemSet(s.m);
      }
    }
  }

  lemma WriterKeepsPromise(s: State, a: WriterAction, s': State)
    requires LogsHold(s) && PromiseInv(s) && s.m.memId < s.vs.nextFile && WriterStep(s, a, s')
    ensures PromiseInv(s')
  {
    match a
    case ARoomSwitch => SwitchKeepsPromise(s, s');
    case ALogAppend(_, _) => LogStepKeepsPromise(s, a, s');
    case ALogSync(_) => LogStepKeepsPromise(s, a, s');
    case AInsert => InsertKeepsPromise(s, s');
    case AFinish => FinishKeepsPromise(s, s');
    case _ =>
      hide SyncedSet, LogSet, LogInv, MemInv, QueueInv;
      assert s'.m == s.m && s'.f == s.f && s'.vs.current == s.vs.current && s'.q.promised == s.q.promised;
  }
}
