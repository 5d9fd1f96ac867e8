/**
 Crashes (db/db_impl.cc, Open and Recover).  A crash loses the memory and any unsynced tail
 of each log; opening the database again replays the live logs on top of the manifest's
 version.  The state reached satisfies the invariant, everything acknowledged with sync is
 still there, and nothing but unsynced records is lost.
 */
module EngineRecovery {
  import opened Wrappers
  import opened History
  import opened Layers
  import opened Compaction
  import opened WriteGroup
  import opened EngineState
  import opened EngineSteps
  import opened EngineInvariants
  import opened EngineVersions
  import opened EngineBackground
  import opened LogReplay

  /**
   Each log keeps at least its synced records.  Records that a crash of the process left
   behind unsynced are still unsynced, and a later crash of the machine may take them.
   */
  ghost predicate Survives(log: Log, kept: Log) {
    && |kept.records| <= |log.records| && (log.synced <= |kept.records| || kept.records == log.records)
    && kept.records == log.records[..|kept.records|] && kept.synced == log.synced
  }

  ghost predicate LogsSurvive(logs: map<nat, Log>, kept: map<nat, Log>) {
    && kept.Keys == logs.Keys
    && forall n :: n in logs ==> Survives(logs[n], kept[n])
  }

  /** The tables written during recovery got these file numbers. */
  ghost predicate Stored(tables: map<nat, set<Entry>>, numbers: seq<nat>, ts: seq<set<Entry>>) {
    && |numbers| == |ts|
    && forall i :: 0 <= i < |ts| ==> numbers[i] in tables && tables[numbers[i]] == ts[i]
  }

  /** The version edit of recovery. */
  ghost function RecoveryEdit(numbers: seq<nat>, memId: nat, last: nat, o: Outcome): Edit {
    Edit(set n | n in numbers, {}, memId, last, UnionOf(o.tables), 0)
  }

  /**
   Crash, and open again.  o is the outcome of Recover on the surviving logs; the manifest
   is written when tables were, and may be written anyway.
   */
  ghost predicate CrashAndOpen(s: State, s': State, kept: map<nat, Log>, o: Outcome, numbers: seq<nat>, saved: bool) {
    && LogsSurvive(s.f.logs, kept)
    && Replays(kept, s.f.disk.logNumber, o)
    && (o.saveManifest ==> saved)
    && s'.m.lastSequence == Max(s.f.diskLastSequence, o.maxSequence)
    // the memtable: the last log's contents, or a new log and an empty memtable
    && s'.m == Mem(s'.m.lastSequence, map[s'.m.memId := Reused(o)], s'.m.memId, None)
    && (if o.reuse.Some? then s'.m.memId == o.reuse.value.0 else s'.m.memId !in kept && forall n :: n in kept ==> n < s'.m.memId)
    && s'.m.memId >= s.f.disk.logNumber
    // the manifest
    && s'.f.disk == (if saved then ApplyEdit(s.f.disk, RecoveryEdit(numbers, s'.m.memId, s'.m.lastSequence, o)) else s.f.disk)
    && s'.f.diskLastSequence == (if saved then s'.m.lastSequence else s.f.diskLastSequence)
    && s'.vs.current == s'.f.disk
    // the directory, after RemoveObsoleteFiles
    && Stored(s'.f.tables, numbers, o.tables) && (forall n :: n in numbers ==> n !in s.f.disk.files)
    && (forall n :: n in s.f.disk.files && n in s.f.tables ==> n in s'.f.tables && s'.f.tables[n] == s.f.tables[n])
    && s'.m.memId in s'.f.logs && (o.reuse.None? ==> s'.f.logs[s'.m.memId] == Log([], 0))
    && (forall n :: n in s'.f.logs && (o.reuse.Some? || n != s'.m.memId) ==> n in kept && s'.f.logs[n] == kept[n])
    && s'.vs.manifestNumber in s'.f.manifests
    // counters and the rest
    && s'.m.memId < s'.vs.nextFile && (forall n :: n in s'.f.disk.files ==> n < s'.vs.nextFile) && s'.vs.pending == {}
    && CompactionScore(s'.vs.level0, s'.vs.needsCompaction)
    && s'.q == Queue([], Idle, [], [], [], s.q.promised)
    && s'.b == MaybeSchedule(Back(false, false, 0, Resting, false, false), None, s'.vs.needsCompaction)
    && s'.r == Readers(map[], map[])
  }

  // ----- what survives ------------------------------------------------------------------------------

  lemma SurvivorsAreSubset(log: Log, kept: Log)
    requires Survives(log, kept)
    ensures LogSet(kept) <= LogSet(log) && SyncedSet(log) == SyncedSet(kept) <= LogSet(kept)
  {
    forall e | e in SyncedSet(log) ensures e in SyncedSet(kept) {
      var i :| 0 <= i < log.synced && i < |log.records| && e in log.records[i];
      assert kept.records[i] == log.records[i];
    }
  }

  /** Live logs never give two entries one number, and are newer than everything installed. */
  lemma LiveLogsOrdered(logs: map<nat, Log>, m: Mem, current: Version)
    requires LogOrder(logs, m, current)
    ensures Unique(LiveLogs(logs, current.logNumber)) && Above(LiveLogs(logs, current.logNumber), current.flushed)
  {
    hide LogSet;
    var L := LiveLogs(logs, current.logNumber);
    forall e, f | e in L && f in L && e.key == f.key && e.sequence == f.sequence ensures e == f {
      var n :| n in logs && n >= current.logNumber && e in LogSet(logs[n]);
      var k :| k in logs && k >= current.logNumber && f in LogSet(logs[k]);
      OneLog(logs, m, current, n, k, e, f);
    }
    forall e, f | e in L && f in current.flushed ensures f.sequence < e.sequence {
      var n :| n in logs && n >= current.logNumber && e in LogSet(logs[n]);
      assert Above(LogSet(logs[n]), current.flushed);
    }
  }

  lemma OneLog(logs: map<nat, Log>, m: Mem, current: Version, n: nat, k: nat, e: Entry, f: Entry)
    requires LogOrder(logs, m, current) && n in logs && k in logs && n >= current.logNumber && k >= current.logNumber
    requires e in LogSet(logs[n]) && f in LogSet(logs[k]) && e.key == f.key && e.sequence == f.sequence
    ensures e == f
  {
    hide LogSet;
    if n < k {
      assert false;
    } else if k < n {
      assert false;
    } else {
      assert Unique(LogSet(logs[n]));
    }
  }

  lemma UniqueUnion(upper: set<Entry>, lower: set<Entry>)
    requires Unique(upper) && Unique(lower) && Above(upper, lower)
    ensures Unique(lower + upper)
  {
  }

  /** Everything the disk may know of: installed flushes and the logs not yet flushed. */
  ghost function Known(s: State): set<Entry> {
    s.vs.current.flushed + LiveLogs(s.f.logs, s.vs.current.logNumber)
  }

  lemma KnownOrdered(s: State)
    requires StoreHolds(s)
    ensures Unique(Known(s)) && Above(LiveLogs(s.f.logs, s.vs.current.logNumber), s.vs.current.flushed)
    ensures s.f.disk.flushed <= Known(s) && ImmSet(s.m) <= LiveLogs(s.f.logs, s.vs.current.logNumber)
  {
    LiveLogsOrdered(s.f.logs, s.m, s.vs.current);
    hide LogSet, LogOrder, TablesOf;
    assert s.vs.current.logNumber <= (if s.m.imm.Some? then s.m.imm.value else s.m.memId) by { OrderBounds(s.f.logs, s.m, s.vs.current); }
    UniqueSubset(s.vs.current.flushed, s.vs.current.flushed + ImmSet(s.m) + MemSet(s.m));
    UniqueUnion(LiveLogs(s.f.logs, s.vs.current.logNumber), s.vs.current.flushed);
  }

  lemma OrderBounds(logs: map<nat, Log>, m: Mem, current: Version)
    requires LogOrder(logs, m, current)
    ensures current.logNumber <= (if m.imm.Some? then m.imm.value else m.memId)
    ensures m.memId in logs && forall n :: n in logs ==> n <= m.memId
  {
  }

  lemma KeptLogs(s: State, kept: map<nat, Log>)
    requires StoreHolds(s) && LogsSurvive(s.f.logs, kept)
    ensures LiveLogs(kept, s.f.disk.logNumber) <= LiveLogs(s.f.logs, s.vs.current.logNumber)
    ensures forall n :: n in kept ==> LogSet(kept[n]) <= LogSet(s.f.logs[n])
    ensures forall n :: n in kept ==> SyncedSet(s.f.logs[n]) == SyncedSet(kept[n]) <= LogSet(kept[n])
  {
    forall n | n in kept
      ensures LogSet(kept[n]) <= LogSet(s.f.logs[n])
      ensures SyncedSet(s.f.logs[n]) == SyncedSet(kept[n]) <= LogSet(kept[n])
    {
      SurvivorsAreSubset(s.f.logs[n], kept[n]);
    }
    hide LogSet, SyncedSet, TablesOf, MemInv, LogInv, VersionsInv;
  }

  // ----- the state after opening ----------------------------------------------------------------------

  /** After opening, the store holds what the manifest's version ever held and what the logs kept. */
  lemma RecoveredHist(s: State, s': State, kept: map<nat, Log>, o: Outcome, numbers: seq<nat>, saved: bool)
    requires CrashAndOpen(s, s', kept, o, numbers, saved)
    ensures Hist(s') == s.f.disk.flushed + LiveLogs(kept, s.f.disk.logNumber)
    ensures s'.f.disk.flushed + Reused(o) == Hist(s') && s.f.disk.flushed <= s'.f.disk.flushed
    ensures s'.f.disk.flushed <= s.f.disk.flushed + UnionOf(o.tables)
    ensures MemSet(s'.m) == Reused(o) && ImmSet(s'.m) == {}
  {
    assert MemSet(s'.m) == Reused(o) && ImmSet(s'.m) == {};
    if !saved {
      assert o.tables == [];
      assert UnionOf(o.tables) == {};
    }
    hide LiveLogs, UnionOf, LogsSurvive;
  }

  /** The memtable taken over is newer than everything in the tables. */
  lemma ReusedIsNewest(s: State, kept: map<nat, Log>, o: Outcome)
    requires StoreHolds(s) && LogsSurvive(s.f.logs, kept) && Replays(kept, s.f.disk.logNumber, o)
    ensures Above(Reused(o), s.f.disk.flushed + UnionOf(o.tables))
  {
    if o.reuse.Some? {
      KeptLogs(s, kept);
      KnownOrdered(s);
      var n := o.reuse.value.0;
      OrderBounds(s.f.logs, s.m, s.vs.current);
      hide LogSet, TablesOf, UnionOf;
      assert n == s.m.memId;
      forall e, f | e in Reused(o) && f in s.f.disk.flushed + UnionOf(o.tables) ensures f.sequence < e.sequence {
        OlderThanReused(s, kept, o, e, f);
      }
    }
  }

  lemma OlderThanReused(s: State, kept: map<nat, Log>, o: Outcome, e: Entry, f: Entry)
    requires StoreHolds(s) && LogsSurvive(s.f.logs, kept) && Replays(kept, s.f.disk.logNumber, o)
    requires o.reuse == Some((s.m.memId, Reused(o))) && e in Reused(o) && f in s.f.disk.flushed + UnionOf(o.tables)
    ensures f.sequence < e.sequence
  {
    KeptLogs(s, kept);
    hide LogSet, TablesOf, UnionOf, StoreHolds, LogsSurvive;
    var n: nat := s.m.memId;
    assert e in LogSet(s.f.logs[n]);
    if f in UnionOf(o.tables) {
      var k: nat :| k in kept - {n} && k >= s.f.disk.logNumber && f in LogSet((kept - {n})[k]);
      assert k in kept && f in LogSet(kept[k]);
      OlderLog(s, k, e, f);
    } else {
      OlderFlush(s, e, f);
    }
  }

  lemma OlderLog(s: State, k: nat, e: Entry, f: Entry)
    requires StoreHolds(s) && k in s.f.logs && s.f.disk.logNumber <= k != s.m.memId
    requires s.m.memId in s.f.logs && e in LogSet(s.f.logs[s.m.memId]) && f in LogSet(s.f.logs[k])
    ensures f.sequence < e.sequence
  {
    hide LogSet, TablesOf, VersionsInv, PromiseInv, MemInv, LogCovers, UpTo;
    assert Above(LogSet(s.f.logs[s.m.memId]), LogSet(s.f.logs[k]));
  }

  lemma OlderFlush(s: State, e: Entry, f: Entry)
    requires StoreHolds(s)
    requires s.m.memId in s.f.logs && e in LogSet(s.f.logs[s.m.memId]) && f in s.f.disk.flushed
    ensures f.sequence < e.sequence
  {
    hide LogSet, TablesOf, VersionsInv, PromiseInv, UpTo, Unique;
    if f in s.vs.current.flushed {
      assert Above(LogSet(s.f.logs[s.m.memId]), s.vs.current.flushed);
    } else {
      assert f in ImmSet(s.m) && Above(LogSet(s.f.logs[s.m.memId]), LogSet(s.f.logs[s.m.imm.value]));
    }
  }

  /** Everything recovered is counted in the new last sequence number. */
  lemma RecoveredUpTo(s: State, s': State, kept: map<nat, Log>, o: Outcome, numbers: seq<nat>, saved: bool)
    requires StoreHolds(s) && CrashAndOpen(s, s', kept, o, numbers, saved)
    ensures UpTo(Hist(s'), s'.m.lastSequence)
  {
    RecoveredHist(s, s', kept, o, numbers, saved);
    hide MemInv, LogInv, VersionsInv, PromiseInv, TablesOf, LiveLogs, UnionOf, Hist;
  }

  lemma RecoveredMem(s: State, s': State, kept: map<nat, Log>, o: Outcome, numbers: seq<nat>, saved: bool)
    requires StoreHolds(s) && CrashAndOpen(s, s', kept, o, numbers, saved)
    ensures MemInv(s'.m, s'.vs.current.flushed, s'.q.leader)
    ensures Unique(Hist(s')) && Hist(s') <= Known(s)
  {
    hide StoreHolds, LiveLogs, UnionOf, LogsSurvive, Replays, ApplyEdit, RecoveryEdit, Stored;
    KnownOrdered(s);
    KeptLogs(s, kept);
    RecoveredHist(s, s', kept, o, numbers, saved);
    RecoveredUpTo(s, s', kept, o, numbers, saved);
    ReusedIsNewest(s, kept, o);
    UniqueSubset(Hist(s'), Known(s));
    hide Known;
    assert s'.vs.current.flushed + ImmSet(s'.m) + MemSet(s'.m) == Hist(s');
    assert s'.vs.current.flushed + ImmSet(s'.m) == s'.vs.current.flushed;
  }

  /** A live log other than the one taken over is empty once its contents are in tables of the manifest. */
  lemma RecoveredLogs(s: State, s': State, kept: map<nat, Log>, o: Outcome, numbers: seq<nat>, saved: bool)
    requires StoreHolds(s) && CrashAndOpen(s, s', kept, o, numbers, saved)
    ensures forall n :: n in s'.f.logs && s'.vs.current.logNumber <= n && n != s'.m.memId ==> LogSet(s'.f.logs[n]) == {}
    ensures LogSet(s'.f.logs[s'.m.memId]) == Reused(o)
    ensures s'.f.logs[s'.m.memId].synced <= |s'.f.logs[s'.m.memId].records|
    ensures s'.vs.current.logNumber <= s'.m.memId && forall n :: n in s'.f.logs ==> n <= s'.m.memId
  {
    OrderBounds(s.f.logs, s.m, s.vs.current);
    var id := s'.m.memId;
    if o.reuse.Some? {
      SurvivorsAreSubset(s.f.logs[id], kept[id]);
      KeptLogs(s, kept);
      assert id == s.m.memId;
    } else {
      assert LogSet(Log([], 0)) == {};
    }
    forall n | n in s'.f.logs && s'.vs.current.logNumber <= n && n != id ensures LogSet(s'.f.logs[n]) == {} {
      IdleLogIsEmpty(s, s', kept, o, numbers, saved, n);
    }
    hide LogSet, SyncedSet, StoreHolds, UnionOf;
  }

  lemma IdleLogIsEmpty(s: State, s': State, kept: map<nat, Log>, o: Outcome, numbers: seq<nat>, saved: bool, n: nat)
    requires StoreHolds(s) && CrashAndOpen(s, s', kept, o, numbers, saved)
    requires n in s'.f.logs && s'.vs.current.logNumber <= n && n != s'.m.memId
    ensures LogSet(s'.f.logs[n]) == {}
  {
    KeptLogs(s, kept);
    OrderBounds(s.f.logs, s.m, s.vs.current);
    assert n in kept && s'.f.logs[n] == kept[n];
    hide LogSet, SyncedSet, VersionsInv, PromiseInv, MemInv, TablesOf, LogsSurvive;
    if saved {
      assert false;
    } else {
      assert o.tables == [] && UnionOf(o.tables) == {};
      forall e | e in LogSet(kept[n]) ensures false {
        assert e in LiveLogs(kept, s.f.disk.logNumber) && e in Reused(o);
        assert o.reuse.Some? && s'.m.memId == s.m.memId;
        OlderLog(s, n, e, e);
      }
    }
  }

  lemma RecoveredLogInv(s: State, s': State, kept: map<nat, Log>, o: Outcome, numbers: seq<nat>, saved: bool)
    requires StoreHolds(s) && CrashAndOpen(s, s', kept, o, numbers, saved)
    ensures LogInv(s'.f.logs, s'.m, s'.vs.current, s'.q.leader)
  {
    hide StoreHolds, LogSet, SyncedSet, Hist, UnionOf, LiveLogs, Replays, LogsSurvive, Stored, ApplyEdit, Known, MemInv;
    RecoveredLogs(s, s', kept, o, numbers, saved);
    RecoveredHist(s, s', kept, o, numbers, saved);
    RecoveredUpTo(s, s', kept, o, numbers, saved);
    RecoveredMem(s, s', kept, o, numbers, saved);
    UniqueSubset(Reused(o), Hist(s'));
    assert Above(Reused(o), s'.vs.current.flushed) by { MemAbove(s'.m, s'.vs.current.flushed, s'.q.leader); }
    OneLiveLog(s'.f.logs, s'.m, s'.vs.current);
  }

  lemma MemAbove(m: Mem, flushed: set<Entry>, l: Leader)
    requires MemInv(m, flushed, l)
    ensures Above(MemSet(m), flushed)
  {
  }

  /** The memtable's own log is the only live log that holds anything. */
  lemma OneLiveLog(logs: map<nat, Log>, m: Mem, v: Version)
    requires m.imm.None? && m.memId in logs && v.logNumber <= m.memId && forall n :: n in logs ==> n <= m.memId
    requires forall n :: n in logs && v.logNumber <= n && n != m.memId ==> LogSet(logs[n]) == {}
    requires LogSet(logs[m.memId]) == MemSet(m) && logs[m.memId].synced <= |logs[m.memId].records|
    requires Unique(MemSet(m)) && Above(MemSet(m), v.flushed) && UpTo(MemSet(m), m.lastSequence)
    ensures LogInv(logs, m, v, Idle)
  {
    hide LogSet, SyncedSet, MemSet;
  }

  lemma RecoveredDisk(s: State, s': State, kept: map<nat, Log>, o: Outcome, numbers: seq<nat>, saved: bool)
    requires StoreHolds(s) && CrashAndOpen(s, s', kept, o, numbers, saved)
    ensures DiskInv(s'.f, s'.m, s'.vs.current)
  {
    hide MemInv, LogInv, VersionsInv, PromiseInv, TablesOf, LiveLogs, UnionOf, Hist, LogSet, SyncedSet, Replays, LogsSurvive, Stored;
    RecoveredUpTo(s, s', kept, o, numbers, saved);
    RecoveredHist(s, s', kept, o, numbers, saved);
    RecoveredLogs(s, s', kept, o, numbers, saved);
    assert UpTo(s.f.disk.flushed, s.f.diskLastSequence) && s.f.disk.floor <= s.f.diskLastSequence;
    InstalledIsDisk(s'.f, s'.m, s'.vs.current);
  }

  lemma InstalledIsDisk(f: Files, m: Mem, v: Version)
    requires f.disk == v && v.logNumber <= m.memId && m.imm.None? && f.diskLastSequence <= m.lastSequence
    requires UpTo(v.flushed, f.diskLastSequence) && v.floor <= f.diskLastSequence
    ensures DiskInv(f, m, v)
  {
    hide TablesOf;
  }

  /** Nothing acknowledged with sync is lost. */
  lemma PromisesSurvive(s: State, s': State, kept: map<nat, Log>, o: Outcome, numbers: seq<nat>, saved: bool)
    requires StoreHolds(s) && CrashAndOpen(s, s', kept, o, numbers, saved)
    ensures s'.q.promised == s.q.promised <= Hist(s')
    ensures PromiseInv(s')
  {
    RecoveredHist(s, s', kept, o, numbers, saved);
    RecoveredLogs(s, s', kept, o, numbers, saved);
    KeptLogs(s, kept);
    hide MemInv, LogOrder, LogCovers, VersionsInv, TablesOf, LogSet, SyncedSet, UnionOf, Replays, LogsSurvive, Stored, ApplyEdit;
    forall e | e in s.q.promised ensures e in s.f.disk.flushed + LiveLogs(kept, s.f.disk.logNumber) {
      PromiseIsDurable(s, kept, e);
    }
    if o.reuse.Some? {
      forall e | e in s.q.promised * Reused(o) ensures e in SyncedSet(s'.f.logs[s'.m.memId]) {
        PromiseStaysSynced(s, kept, o, e);
      }
    }
    hide LiveLogs;
  }

  /** A promised entry in the log taken over is in its synced part, as before. */
  lemma PromiseStaysSynced(s: State, kept: map<nat, Log>, o: Outcome, e: Entry)
    requires StoreHolds(s) && LogsSurvive(s.f.logs, kept) && Replays(kept, s.f.disk.logNumber, o)
    requires o.reuse.Some? && e in s.q.promised && e in Reused(o)
    ensures o.reuse.value.0 == s.m.memId && s.m.memId in kept && e in SyncedSet(kept[s.m.memId])
  {
    OrderBounds(s.f.logs, s.m, s.vs.current);
    KeptLogs(s, kept);
    assert o.reuse.value.0 == s.m.memId;
    assert e in LogSet(s.f.logs[s.m.memId]);
    OnlyInMemtable(s, e);
  }

  /** An entry of the store that is in the memtable's log is in the memtable. */
  lemma OnlyInMemtable(s: State, e: Entry)
    requires StoreHolds(s) && s.m.memId in s.f.logs && e in LogSet(s.f.logs[s.m.memId]) && e in Hist(s)
    ensures e in MemSet(s.m)
  {
    MemtableLogIsNewest(s);
    hide LogSet, StoreHolds;
  }

  lemma MemtableLogIsNewest(s: State)
    requires StoreHolds(s)
    ensures s.m.memId in s.f.logs && Above(LogSet(s.f.logs[s.m.memId]), s.vs.current.flushed + ImmSet(s.m))
  {
    hide LogSet, VersionsInv, DiskInv, PromiseInv, TablesOf, UpTo, Unique;
    assert Above(LogSet(s.f.logs[s.m.memId]), s.vs.current.flushed);
    if s.m.imm.Some? {
      assert Above(LogSet(s.f.logs[s.m.memId]), LogSet(s.f.logs[s.m.imm.value]));
    }
  }

  lemma PromiseIsDurable(s: State, kept: map<nat, Log>, e: Entry)
    requires StoreHolds(s) && LogsSurvive(s.f.logs, kept) && e in s.q.promised
    ensures e in s.f.disk.flushed + LiveLogs(kept, s.f.disk.logNumber)
  {
    KeptLogs(s, kept);
    hide MemInv, LogInv, VersionsInv, TablesOf, LogSet, SyncedSet;
    if e in MemSet(s.m) {
      assert s.m.memId in kept && e in LogSet(kept[s.m.memId]);
    } else if e in ImmSet(s.m) && !(ImmSet(s.m) <= s.f.disk.flushed) {
      assert s.m.imm.value in kept && e in LogSet(kept[s.m.imm.value]);
    }
  }

  // ----- the tables after opening ---------------------------------------------------------------------

  lemma StoredUnion(tables: map<nat, set<Entry>>, numbers: seq<nat>, ts: seq<set<Entry>>)
    requires Stored(tables, numbers, ts)
    ensures TablesOf(tables, set n | n in numbers) == UnionOf(ts)
  {
    var files := set n | n in numbers;
    forall e | e in UnionOf(ts) ensures e in TablesOf(tables, files) {
      var i :| 0 <= i < |ts| && e in ts[i];
      assert numbers[i] in files;
    }
    forall e | e in TablesOf(tables, files) ensures e in UnionOf(ts) {
      var n :| n in files && n in tables && e in tables[n];
      var i :| 0 <= i < |numbers| && numbers[i] == n;
    }
  }

  lemma RecoveredVersions(s: State, s': State, kept: map<nat, Log>, o: Outcome, numbers: seq<nat>, saved: bool)
    requires StoreHolds(s) && CrashAndOpen(s, s', kept, o, numbers, saved)
    ensures VersionsInv(s'.f, s'.vs.current, s'.r.active)
  {
    hide MemInv, LogInv, PromiseInv, TablesOf, Agree, Unique, UnionOf, LogsSurvive, Replays, Stored, Known, LiveLogs, UpTo;
    assert VersionOk(s'.f.tables, s.f.disk) by { VersionFrame(s.f.tables, s'.f.tables, s.f.disk); }
    if saved {
      var e := RecoveryEdit(numbers, s'.m.memId, s'.m.lastSequence, o);
      StoredUnion(s'.f.tables, numbers, o.tables);
      assert e.added <= s'.f.tables.Keys by { StoredKeys(s'.f.tables, numbers, o.tables); }
      RecoveredUnique(s, s', kept, o, numbers, saved);
      forall f, x | f in s.f.disk.flushed && f !in TablesOf(s.f.tables, s.f.disk.files) && x in e.flushes
        ensures f.sequence < x.sequence
      {
        assert f in s.vs.current.flushed;
        ReplayedIsNewer(s, kept, o, f, x);
      }
      VersionFrame(s.f.tables, s'.f.tables, s.f.disk);
      FlushKeepsReads(s'.f.tables, s.f.disk, e);
    }
  }

  lemma StoredKeys(tables: map<nat, set<Entry>>, numbers: seq<nat>, ts: seq<set<Entry>>)
    requires Stored(tables, numbers, ts)
    ensures (set n | n in numbers) <= tables.Keys
  {
  }

  lemma RecoveredUnique(s: State, s': State, kept: map<nat, Log>, o: Outcome, numbers: seq<nat>, saved: bool)
    requires StoreHolds(s) && CrashAndOpen(s, s', kept, o, numbers, saved) && saved
    ensures Unique(s.f.disk.flushed + UnionOf(o.tables))
  {
    hide StoreHolds, LogsSurvive, Replays, Stored, Unique;
    RecoveredMem(s, s', kept, o, numbers, saved);
    RecoveredHist(s, s', kept, o, numbers, saved);
    UniqueSubset(s.f.disk.flushed + UnionOf(o.tables), Hist(s'));
  }

  lemma ReplayedIsNewer(s: State, kept: map<nat, Log>, o: Outcome, f: Entry, x: Entry)
    requires StoreHolds(s) && LogsSurvive(s.f.logs, kept) && Replays(kept, s.f.disk.logNumber, o)
    requires f in s.vs.current.flushed && x in UnionOf(o.tables)
    ensures f.sequence < x.sequence
  {
    KeptLogs(s, kept);
    KnownOrdered(s);
    hide StoreHolds, LogsSurvive, UnionOf, Known;
    assert x in LiveLogs(kept, s.f.disk.logNumber);
  }

  /** Crashing and opening again leads to a state that satisfies the whole invariant. */
  lemma CrashKeepsInv(s: State, s': State, kept: map<nat, Log>, o: Outcome, numbers: seq<nat>, saved: bool)
    requires Inv(s) && CrashAndOpen(s, s', kept, o, numbers, saved)
    ensures Inv(s')
  {
    hide MemInv, LogInv, DiskInv, PromiseInv, VersionsInv, Replays, LogsSurvive, Stored, Hist;
    RecoveredMem(s, s', kept, o, numbers, saved);
    RecoveredLogInv(s, s', kept, o, numbers, saved);
    RecoveredDisk(s, s', kept, o, numbers, saved);
    PromisesSurvive(s, s', kept, o, numbers, saved);
    RecoveredVersions(s, s', kept, o, numbers, saved);
    RecoveredRest(s, s', kept, o, numbers, saved);
  }

  lemma RecoveredRest(s: State, s': State, kept: map<nat, Log>, o: Outcome, numbers: seq<nat>, saved: bool)
    requires DiskInv(s.f, s.m, s.vs.current) && CrashAndOpen(s, s', kept, o, numbers, saved)
    ensures QueueInv(s'.q, s'.m.lastSequence) && NumbersInv(s') && PhaseInv(s') && ManifestInv(s') && WakeInv(s')
    ensures ReadersInv(s') && AtomicInv(s')
  {
    hide Replays, LogsSurvive, Stored, Hist, TablesOf, UpTo, UnionOf;
  }

  // ----- what may be lost -----------------------------------------------------------------------------

  /** Only records behind the synced part of their log can be lost, and nothing is lost when all records survive. */
  lemma OnlyUnsyncedIsLost(s: State, s': State, kept: map<nat, Log>, o: Outcome, numbers: seq<nat>, saved: bool, e: Entry)
    requires Inv(s) && CrashAndOpen(s, s', kept, o, numbers, saved)
    requires e in Hist(s) && e !in Hist(s')
    ensures exists n :: n in kept && e in LogSet(s.f.logs[n]) && e !in LogSet(kept[n]) && e !in SyncedSet(s.f.logs[n])
  {
    RecoveredHist(s, s', kept, o, numbers, saved);
    KeptLogs(s, kept);
    hide LogSet, SyncedSet, VersionsInv, PhaseInv, ReadersInv, AtomicInv, QueueInv, MemInv, TablesOf, LogOrder, Replays, Stored, LogsSurvive;
    if e in MemSet(s.m) {
      LostWith(s, kept, s.m.memId, e);
    } else {
      assert e in ImmSet(s.m);
      LostWith(s, kept, s.m.imm.value, e);
    }
  }

  lemma LostWith(s: State, kept: map<nat, Log>, n: nat, e: Entry)
    requires LogsSurvive(s.f.logs, kept) && n in kept && n >= s.f.disk.logNumber && e in LogSet(s.f.logs[n])
    requires e !in LiveLogs(kept, s.f.disk.logNumber) && SyncedSet(s.f.logs[n]) <= LogSet(kept[n])
    ensures e !in LogSet(kept[n]) && e !in SyncedSet(s.f.logs[n])
  {
    hide LogSet, SyncedSet;
  }

  /** Recovery finds every entry of the old run, when no record is lost. */
  lemma NothingIsLost(s: State, s': State, o: Outcome, numbers: seq<nat>, saved: bool, kept: map<nat, Log>)
    requires Inv(s) && CrashAndOpen(s, s', kept, o, numbers, saved)
    requires forall n :: n in kept ==> kept[n].records == s.f.logs[n].records
    ensures Hist(s) <= Hist(s')
  {
    forall e | e in Hist(s) ensures e in Hist(s') {
      if e !in Hist(s') {
        OnlyUnsyncedIsLost(s, s', kept, o, numbers, saved, e);
        assert false;
      }
    }
  }

  lemma {:induction false} BoundOf(S: set<Entry>) returns (n: nat)
    ensures UpTo(S, n)
    decreases S
  {
    if S == {} {
      n := 0;
    } else {
      var e :| e in S;
      n := BoundOf(S - {e});
      n := Max(n, e.sequence);
    }
  }

  /** The state after opening with all live log contents in one new table, or none if there are none. */
  ghost function Reopened(s: State, live: set<Entry>, last: nat): State {
    var table, log := s.vs.nextFile, s.vs.nextFile + 1;
    var numbers := if live == {} then [] else [table];
    var m := Mem(Max(s.f.diskLastSequence, last), map[log := {}], log, None);
    var disk := ApplyEdit(s.f.disk, RecoveryEdit(numbers, log, m.lastSequence, OneTable(live, last)));
    State(Queue([], Idle, [], [], [], s.q.promised), m,
          Files(if live == {} then s.f.tables else s.f.tables[table := live], map[log := Log([], 0)],
                {s.vs.manifestNumber}, disk, m.lastSequence),
          Vs(log + 1, disk, {}, s.vs.manifestNumber, 0, false),
          Back(false, false, 0, Resting, false, false), Readers(map[], map[]))
  }

  ghost function OneTable(live: set<Entry>, last: nat): Outcome {
    Outcome(if live == {} then [] else [live], None, last, true)
  }

  /** A crashed database can always be opened again: a crash step exists from every state. */
  lemma ReopenIsPossible(s: State) returns (s': State, o: Outcome, numbers: seq<nat>)
    requires Inv(s)
    ensures CrashAndOpen(s, s', s.f.logs, o, numbers, true)
  {
    hide Inv, LiveLogs;
    NumberFacts(s);
    var kept := s.f.logs;
    var live := LiveLogs(kept, s.f.disk.logNumber);
    var last := BoundOf(live);
    o := OneTable(live, last);
    numbers := if live == {} then [] else [s.vs.nextFile];
    s' := Reopened(s, live, last);
    assert forall n :: n in s.f.logs ==> Survives(s.f.logs[n], kept[n]);
    assert UnionOf(o.tables) == live by {
      assert UnionOf([]) == {} && [] + [live] == [live];
      UnionOfAppend([], live);
    }
    ReopenedOk(s, kept, live, last);
  }

  lemma NumberFacts(s: State)
    requires Inv(s)
    ensures s.m.memId < s.vs.nextFile && s.f.disk.logNumber <= s.m.memId
    ensures forall n :: n in s.f.disk.files ==> n < s.vs.nextFile
    ensures forall n :: n in s.f.logs ==> n <= s.m.memId
  {
    OrderBounds(s.f.logs, s.m, s.vs.current);
    hide MemInv, LogInv, VersionsInv, PhaseInv, ReadersInv, QueueInv, AtomicInv, PromiseInv, TablesOf, UpTo;
  }

  lemma ReopenedOk(s: State, kept: map<nat, Log>, live: set<Entry>, last: nat)
    requires s.m.memId < s.vs.nextFile && s.f.disk.logNumber <= s.m.memId
    requires forall n :: n in s.f.disk.files ==> n < s.vs.nextFile
    requires forall n :: n in kept ==> n <= s.m.memId
    requires LogsSurvive(s.f.logs, kept) && Replays(kept, s.f.disk.logNumber, OneTable(live, last))
    ensures CrashAndOpen(s, Reopened(s, live, last), kept, OneTable(live, last), if live == {} then [] else [s.vs.nextFile], true)
  {
    hide LogsSurvive, Replays, UnionOf;
    var s' := Reopened(s, live, last);
    assert s'.f.tables == if live == {} then s.f.tables else s.f.tables[s.vs.nextFile := live];
  }
}
