/**
 The memtables over whole runs: every entry in the memtable is newer than every entry in
 the immutable one, and those newer than everything in the tables; sequence numbers are
 never given out twice; what is not yet published belongs to the group being inserted.
 */
module EngineMemory {
  import opened Wrappers
  import opened History
  import opened Layers
  import opened WriteGroup
  import opened EngineState
  import opened EngineSteps
  import opened EngineInvariants

  ghost predicate Holds(s: State) {
    && QueueInv(s.q, s.m.lastSequence)
    && MemInv(s.m, s.vs.current.flushed, s.q.leader)
  }

  /** The leader that a signal wakes had nothing in flight. */
  lemma SignalKeepsMem(m: Mem, flushed: set<Entry>, q: Queue)
    requires MemInv(m, flushed, q.leader)
    ensures MemInv(m, flushed, SignalAll(q).leader)
  {
  }

  /** No group in flight: everything in the memtable is published. */
  lemma NothingInFlight(m: Mem, flushed: set<Entry>, l: Leader)
    requires MemInv(m, flushed, l) && InFlight(l) == []
    ensures UpTo(flushed + ImmSet(m) + MemSet(m), m.lastSequence)
  {
  }

  lemma SwitchKeepsMem(s: State, s': State)
    requires Holds(s) && s.m.memId < s.vs.nextFile && RoomSwitch(s, s')
    ensures MemInv(s'.m, s'.vs.current.flushed, s'.q.leader)
    ensures ImmSet(s'.m) == MemSet(s.m) && MemSet(s'.m) == {} && Hist(s') == Hist(s)
  {
    NothingInFlight(s.m, s.vs.current.flushed, s.q.leader);
    assert ImmSet(s'.m) == MemSet(s.m) && MemSet(s'.m) == {} && ImmSet(s.m) == {};
    assert s.vs.current.flushed + ImmSet(s'.m) + MemSet(s'.m) == s.vs.current.flushed + ImmSet(s.m) + MemSet(s.m);
  }

  lemma InsertKeepsMem(s: State, s': State)
    requires Holds(s) && Insert(s, s')
    ensures MemInv(s'.m, s'.vs.current.flushed, s'.q.leader)
    ensures ImmSet(s'.m) == ImmSet(s.m)
    ensures MemSet(s'.m) == MemSet(s.m) + {s.q.leader.g.entries[s.q.leader.n]}
    ensures s.q.leader.g.entries[s.q.leader.n].sequence > s.m.lastSequence
  {
    hide AllOps, Admissible, Contiguous;
    var g, n := s.q.leader.g, s.q.leader.n;
    var e := g.entries[n];
    assert e.sequence == s.m.lastSequence + 1 + n;
    assert MemSet(s'.m) == MemSet(s.m) + {e} && ImmSet(s'.m) == ImmSet(s.m);
    assert g.entries[..n + 1] == g.entries[..n] + [e];
    assert forall f :: f in InFlight(s.q.leader) ==> f.sequence < e.sequence;
    assert InFlight(s'.q.leader) == g.entries[..n + 1];
  }

  /** The entry being inserted is newer than everything in the store. */
  lemma InsertIsNewest(s: State, s': State)
    requires Holds(s) && Insert(s, s')
    ensures forall f :: f in Hist(s) ==> f.sequence < s.q.leader.g.entries[s.q.leader.n].sequence
    ensures Hist(s') == Hist(s) + {s.q.leader.g.entries[s.q.leader.n]}
  {
    InsertKeepsMem(s, s');
    hide Unique, Above, AllOps, Admissible, Contiguous;
    var g, n := s.q.leader.g, s.q.leader.n;
    assert forall f :: f in InFlight(s.q.leader) ==> f.sequence < g.entries[n].sequence;
  }

  lemma FinishKeepsMem(s: State, s': State)
    requires Holds(s) && Finish(s, s')
    ensures MemInv(s'.m, s'.vs.current.flushed, s'.q.leader)
  {
    hide AllOps, Admissible, Contiguous;
    var g := s.q.leader.g;
    assert forall e :: e in g.entries ==> e.sequence <= g.base + |g.entries|;
  }

  lemma InsertDoneKeepsMem(s: State, s': State, ok: bool)
    requires Holds(s) && InsertDone(s, s', ok)
    ensures MemInv(s'.m, s'.vs.current.flushed, s'.q.leader)
  {
    hide QueueInv;
    var g, n := s.q.leader.g, s.q.leader.n;
    if ok { assert g.entries[..n] == g.entries; }
    if n <= |g.entries| {
      assert forall e :: e in g.entries[..n] ==> e in g.entries;
    }
  }

  lemma WriterKeepsMem(s: State, a: WriterAction, s': State)
    requires Holds(s) && s.m.memId < s.vs.nextFile && WriterStep(s, a, s')
    ensures MemInv(s'.m, s'.vs.current.flushed, s'.q.leader)
  {
    match a
    case ARoomSwitch => SwitchKeepsMem(s, s');
    case AInsert => InsertKeepsMem(s, s');
    case AInsertDone(ok) => InsertDoneKeepsMem(s, s', ok);
    case AFinish => FinishKeepsMem(s, s');
    case ALogAppend(_, _) => LogStepKeepsMem(s.m, s.vs.current.flushed, s.q.leader, s'.q.leader);
    case ALogSync(_) => LogStepKeepsMem(s.m, s.vs.current.flushed, s.q.leader, s'.q.leader);
    case _ =>
  }

  /** While the group is being logged nothing of it is in the memtable. */
  lemma LogStepKeepsMem(m: Mem, flushed: set<Entry>, l: Leader, l': Leader)
    requires MemInv(m, flushed, l) && InFlight(l) == []
    requires l'.Inserting? ==> l'.n == 0
    requires l'.Finishing? ==> !l'.ok
    ensures MemInv(m, flushed, l')
  {
  }

  /** Installing a flush moves the immutable memtable's entries to the tables' history. */
  lemma FlushInstalledKeepsMem(m: Mem, flushed: set<Entry>, l: Leader)
    requires MemInv(m, flushed, l)
    ensures MemInv(m.(imm := None), flushed + ImmSet(m), l)
  {
    var m' := m.(imm := None);
    assert ImmSet(m') == {} && MemSet(m') == MemSet(m);
    assert flushed + ImmSet(m) + ImmSet(m') + MemSet(m') == flushed + ImmSet(m) + MemSet(m);
    assert flushed + ImmSet(m) + ImmSet(m') == flushed + ImmSet(m);
  }
}
