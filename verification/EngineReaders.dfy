/**
 Readers and snapshots over whole runs: a reader finds, layer by layer, exactly what the
 store held at its sequence number, nothing changes that later, and no number a reader can
 have splits a group of writes.
 */
module EngineReaders {
  import opened Wrappers
  import opened History
  import opened Layers
  import opened Compaction
  import opened WriteGroup
  import opened EngineState
  import opened EngineSteps
  import opened EngineInvariants
  import opened EngineMemory
  import opened EngineLogs
  import opened EngineVersions
  import opened EngineBackground
  import opened EngineWriters
  import opened EngineQueue

  // ----- history changes ----------------------------------------------------------------------------

  lemma BackKeepsHist(s: State, a: BackAction, s': State)
    requires StoreHolds(s) && WorkHolds(s) && BackStep(s, a, s')
    ensures Hist(s') == Hist(s) && s'.m.lastSequence == s.m.lastSequence && s'.m.memtables == s.m.memtables
    ensures s'.m.memId == s.m.memId && s'.r == s.r && s'.q.commits == s.q.commits && s'.q.promised == s.q.promised
    ensures !a.AInstall? ==> s'.vs.current == s.vs.current
  {
    if a.AInstall? {
      hide StoreHolds, WorkHolds, Hist, Obsolete;
      if s.b.phase.work.kind.Flush? { InstallFlushHolds(s, s', a.level0, a.needs); }
      else if s.b.phase.work.kind.Compact? { InstallCompactHolds(s, s', a.level0, a.needs); }
      else { InstallMoveHolds(s, s', a.level0, a.needs); }
    } else {
      hide StoreHolds, WorkHolds, Obsolete, ImmSet, MemSet;
      OtherBackSteps(s, a, s');
    }
  }

  lemma OtherBackSteps(s: State, a: BackAction, s': State)
    requires BackStep(s, a, s') && !a.AInstall?
    ensures s'.m == s.m && s'.vs.current == s.vs.current && s'.r == s.r
    ensures s'.q == s.q || s'.q == SignalAll(s.q)
  {
    hide Obsolete, FlushEdit, CompactEdit, ApplyEdit, Survivors, Merged, BaseLevelSound, TablesOf;
  }

  // ----- readers --------------------------------------------------------------------------------

  lemma ReaderAfterInsert(s: State, s': State, r: Reader)
    requires Holds(s) && Insert(s, s') && ReaderOk(s, r)
    ensures ReaderOk(s', r)
  {
    hide Holds, MemSet, ImmSet, Above;
    var e := s.q.leader.g.entries[s.q.leader.n];
    assert MemSet(s.m) == Memtable(s.m, s.m.memId) by { assert MemSet(s.m) == Memtable(s.m, s.m.memId) by { MemSetIs(s.m); } }
    InsertIsNewest(s, s');
    InsertKeepsMem(s, s');
    assert e.sequence > s.m.lastSequence;
    assert s'.m.lastSequence == s.m.lastSequence;
    assert ReaderImm(s'.m, r) == ReaderImm(s.m, r);
    var lower := r.version.flushed + ReaderImm(s.m, r);
    var old_, new_ := Memtable(s.m, r.memId), Memtable(s'.m, r.memId);
    assert new_ == if r.memId == s.m.memId then old_ + {e} else old_;
    assert Above(new_, lower) by { AboveWith(old_, lower, e); }
  }

  lemma MemSetIs(m: Mem)
    ensures MemSet(m) == Memtable(m, m.memId)
  {
  }

  lemma AboveWith(upper: set<Entry>, lower: set<Entry>, e: Entry)
    requires Above(upper, lower) && forall f :: f in lower ==> f.sequence < e.sequence
    ensures Above(upper + {e}, lower)
  {
  }

  lemma ReaderAfterWriter(s: State, a: WriterAction, s': State, r: Reader)
    requires Holds(s) && s.m.memId < s.vs.nextFile && WriterStep(s, a, s') && ReaderOk(s, r)
    ensures ReaderOk(s', r)
  {
    if a.AInsert? {
      ReaderAfterInsert(s, s', r);
    } else {
      WriterExtendsHist(s, a, s');
      OldMemtables(s, a, s');
      hide Hist, Above, MemInv, QueueInv;
      assert ReaderImm(s'.m, r) == ReaderImm(s.m, r) && Memtable(s'.m, r.memId) == Memtable(s.m, r.memId);
    }
  }

  /** Memtables that exist keep their contents, unless an entry is being inserted. */
  lemma OldMemtables(s: State, a: WriterAction, s': State)
    requires Holds(s) && s.m.memId < s.vs.nextFile && WriterStep(s, a, s') && !a.AInsert?
    ensures Hist(s') == Hist(s) && s'.m.lastSequence >= s.m.lastSequence
    ensures forall id :: id in s.m.memtables ==> id in s'.m.memtables && s'.m.memtables[id] == s.m.memtables[id]
    ensures s'.m.memId == s.m.memId || s'.m.memId !in s.m.memtables
  {
    if a.ARoomSwitch? {
      SwitchKeepsMem(s, s');
    } else {
      hide MemInv, MemSet, ImmSet;
      WriterFramesHist(s, a, s');
    }
  }

  lemma WriterFramesHist(s: State, a: WriterAction, s': State)
    requires QueueInv(s.q, s.m.lastSequence) && WriterStep(s, a, s') && !a.AInsert? && !a.ARoomSwitch?
    ensures s'.m == s.m.(lastSequence := s'.m.lastSequence) && s'.m.lastSequence >= s.m.lastSequence
    ensures s'.vs.current == s.vs.current && Hist(s') == Hist(s)
  {
    hide AllOps, Contiguous, Admissible, IsGroup, Retirees;
    assert s'.m == s.m.(lastSequence := s'.m.lastSequence);
    assert MemSet(s'.m) == MemSet(s.m) && ImmSet(s'.m) == ImmSet(s.m);
  }

  lemma WriterKeepsReaders(s: State, a: WriterAction, s': State)
    requires Holds(s) && s.m.memId < s.vs.nextFile && ReadersInv(s) && WriterStep(s, a, s')
    ensures ReadersInv(s')
  {
    WriterFrames(s, a, s');
    hide Holds, ReaderOk;
    forall id | id in s'.r.active ensures ReaderOk(s', s'.r.active[id]) {
      ReaderAfterWriter(s, a, s', s.r.active[id]);
    }
  }

  lemma BackKeepsReaders(s: State, a: BackAction, s': State)
    requires StoreHolds(s) && WorkHolds(s) && ReadersInv(s) && BackStep(s, a, s')
    ensures ReadersInv(s')
  {
    hide StoreHolds, WorkHolds, Hist, BackStep, ReaderOk;
    BackKeepsHist(s, a, s');
    FloorStaysBelow(s, a, s');
    forall id | id in s'.r.active ensures ReaderOk(s', s'.r.active[id]) {
      SameReader(s, s', s.r.active[id]);
    }
  }

  lemma SameReader(s: State, s': State, r: Reader)
    requires ReaderOk(s, r) && Hist(s') == Hist(s) && s'.m.memtables == s.m.memtables
    requires s'.m.memId == s.m.memId && s'.m.lastSequence == s.m.lastSequence
    ensures ReaderOk(s', r)
  {
    hide Hist, Above;
  }

  /** No compaction goes beyond a snapshot that is held while it runs. */
  lemma FloorStaysBelow(s: State, a: BackAction, s': State)
    requires StoreHolds(s) && WorkHolds(s) && ReadersInv(s) && BackStep(s, a, s')
    ensures s'.vs.current.floor <= s.m.lastSequence
    ensures forall id :: id in s.r.snapshots ==> s'.vs.current.floor <= s.r.snapshots[id]
  {
    hide StoreHolds, Obsolete, ReaderOk;
    if a.AInstall? {
      hide NumbersInv, ManifestInv, TablesOf, Survivors, CompOk;
    } else {
      OtherBackSteps(s, a, s');
    }
  }

  lemma ReaderKeepsReaders(s: State, a: ReaderAction, s': State)
    requires MemInv(s.m, s.vs.current.flushed, s.q.leader) && ReadersInv(s) && ReaderStep(s, a, s')
    ensures ReadersInv(s')
  {
    hide Unique, UpTo;
    assert s'.m == s.m && s'.vs.current == s.vs.current;
    assert Hist(s') == Hist(s);
    forall id | id in s'.r.active ensures ReaderOk(s', s'.r.active[id]) {
      if id in s.r.active && !(a.ABeginRead? && a.id == id) {
        assert ReaderOk(s, s.r.active[id]);
      }
    }
  }

  // ----- groups are seen whole ----------------------------------------------------------------------

  lemma WriterKeepsAtomic(s: State, a: WriterAction, s': State)
    requires Holds(s) && s.m.memId < s.vs.nextFile && ReadersInv(s) && AtomicInv(s) && WriterStep(s, a, s')
    ensures AtomicInv(s')
  {
    hide Holds, Hist, ReadersInv, Boundary, Arrive, Lead, RoomFound, RoomSwitch, LogAppend, LogSync, Insert, Finish;
    WriterFrames(s, a, s');
    WriterExtendsHist(s, a, s');
    if a.AFinish? {
      FinishKeepsAtomic(s, s');
    } else {
      SameCommits(s, a, s');
    }
  }

  lemma SameCommits(s: State, a: WriterAction, s': State)
    requires WriterStep(s, a, s') && !a.AFinish?
    ensures s'.q.commits == s.q.commits
  {
    hide AllOps, IsGroup, MemSet;
  }

  lemma FinishKeepsAtomic(s: State, s': State)
    requires Holds(s) && ReadersInv(s) && AtomicInv(s) && Finish(s, s') && Hist(s) <= Hist(s')
    ensures AtomicInv(s')
  {
    hide ReaderOk, Unique, Above, UpTo, QueueInv, Hist;
    var c := Commit(s.q.leader.g.base, s.q.leader.g.entries, s.q.leader.ok);
    assert s'.q.commits == s.q.commits + [c];
    WorkingIsOk(s.q, s.m.lastSequence);
    assert c.base == s.m.lastSequence;
    if c.ok { MemInHist(s); }
    forall id | id in s.r.active ensures s.r.active[id].snapshot <= s.m.lastSequence { SnapshotPublished(s, s.r.active[id]); }
  }

  lemma MemInHist(s: State)
    ensures MemSet(s.m) <= Hist(s)
  {
  }

  lemma SnapshotPublished(s: State, r: Reader)
    requires ReaderOk(s, r)
    ensures r.snapshot <= s.m.lastSequence
  {
  }

  lemma WorkingIsOk(q: Queue, last: nat)
    requires QueueInv(q, last) && q.leader.Finishing?
    ensures GroupOk(q, q.leader.g, last)
  {
  }

  lemma ReaderKeepsAtomic(s: State, a: ReaderAction, s': State)
    requires QueueInv(s.q, s.m.lastSequence) && AtomicInv(s) && ReaderStep(s, a, s')
    ensures AtomicInv(s')
  {
    assert Boundary(s.q.commits, s.m.lastSequence) by {
      forall c | c in s.q.commits ensures s.m.lastSequence >= c.base + |c.entries| {
        var i :| 0 <= i < |s.q.commits| && s.q.commits[i] == c;
        CommitBelowLast(s.q.commits, s.m.lastSequence, i);
      }
    }
    hide Boundary, QueueInv;
    assert Hist(s') == Hist(s) && s'.q == s.q;
  }

  lemma BackKeepsAtomic(s: State, a: BackAction, s': State)
    requires StoreHolds(s) && WorkHolds(s) && AtomicInv(s) && BackStep(s, a, s')
    ensures AtomicInv(s')
  {
    BackKeepsHist(s, a, s');
    hide StoreHolds, WorkHolds, Hist, Boundary;
  }

  lemma BackKeepsQueue(s: State, a: BackAction, s': State)
    requires QueueInv(s.q, s.m.lastSequence) && BackStep(s, a, s')
    ensures QueueInv(s'.q, s'.m.lastSequence)
  {
    SignalKeepsQueue(s.q, s.m.lastSequence);
    hide QueueInv;
    BackTouchesQueueBySignal(s, a, s');
  }

  lemma BackTouchesQueueBySignal(s: State, a: BackAction, s': State)
    requires BackStep(s, a, s')
    ensures s'.q == s.q || s'.q == SignalAll(s.q)
    ensures s'.m.lastSequence == s.m.lastSequence
  {
    if a.AInstall? {
      hide Obsolete, ApplyEdit, CompactionScore;
    } else {
      OtherBackSteps(s, a, s');
    }
  }
}
