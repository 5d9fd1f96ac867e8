/**
 The write queue over whole runs: writers leave in the order in which they came, each once,
 with the groups' sequence numbers contiguous in that order.
 */
module EngineQueue {
  import opened Wrappers
  import opened History
  import opened WriteGroup
  import opened EngineState
  import opened EngineSteps
  import opened EngineInvariants

  /** Waking the waiting writer changes nothing in the queue. */
  lemma SignalKeepsQueue(q: Queue, last: nat)
    requires QueueInv(q, last)
    ensures QueueInv(SignalAll(q), last)
  {
  }

  lemma AdmissiblePrefix(ws: seq<Writer>, w: Writer, n: nat)
    requires Admissible(ws, n)
    ensures Admissible(ws + [w], n)
  {
    forall i | 0 < i < n ensures Admits(ws + [w], i) {
      assert Admits(ws, i);
      assert (ws + [w])[..i + 1] == ws[..i + 1];
    }
  }

  lemma RetireKeepsQueue(q: Queue, count: nat, ok: bool, last: nat)
    requires count <= |q.writers| && q.arrived == Names(q.retired) + q.writers
    requires Contiguous(q.commits, last)
    ensures QueueInv(Retire(q, count, ok), last)
    ensures Retire(q, count, ok).arrived == q.arrived
  {
    var t := Retire(q, count, ok);
    assert Names(t.retired) == Names(q.retired) + q.writers[..count];
    assert q.writers == q.writers[..count] + q.writers[count..];
  }

  lemma CommitAppends(commits: seq<Commit>, last: nat, c: Commit)
    requires Contiguous(commits, last) && c.base == last && Numbered(c.entries, last)
    ensures Contiguous(commits + [c], last + |c.entries|)
  {
    var next, end := commits + [c], last + |c.entries|;
    forall i | 0 <= i < |next| ensures Adjoins(next, i, end) {
      if i < |commits| { assert Adjoins(commits, i, last); }
    }
  }

  lemma FinishKeepsQueue(s: State, s': State)
    requires QueueInv(s.q, s.m.lastSequence) && Finish(s, s')
    ensures QueueInv(s'.q, s'.m.lastSequence)
  {
    var Finishing(g, ok, syncError) := s.q.leader;
    var commit := Commit(g.base, g.entries, ok);
    var q := s.q.(commits := s.q.commits + [commit],
                  promised := if ok && g.sync then s.q.promised + Elems(g.entries) else s.q.promised);
    CommitAppends(s.q.commits, s.m.lastSequence, commit);
    RetireKeepsQueue(q, g.count, ok, g.base + |g.entries|);
    SignalKeepsQueue(Retire(q, g.count, ok), g.base + |g.entries|);
  }

  lemma ArriveKeepsQueue(s: State, s': State, w: Writer)
    requires QueueInv(s.q, s.m.lastSequence) && Arrive(s, s', w)
    ensures QueueInv(s'.q, s'.m.lastSequence)
  {
    if Working(s.q.leader).Some? {
      var g := Working(s.q.leader).value;
      AdmissiblePrefix(s.q.writers, w, g.count);
      assert (s.q.writers + [w])[..g.count] == s.q.writers[..g.count];
    }
  }

  lemma WriterKeepsQueue(s: State, a: WriterAction, s': State)
    requires QueueInv(s.q, s.m.lastSequence) && WriterStep(s, a, s')
    ensures QueueInv(s'.q, s'.m.lastSequence)
  {
    hide Contiguous, AllOps;
    match a
    case AArrive(w) => ArriveKeepsQueue(s, s', w);
    case ARoomError => RetireKeepsQueue(s.q, 1, false, s.m.lastSequence);
    case ARoomSwitchFails => RetireKeepsQueue(s.q, 1, false, s.m.lastSequence);
    case ARoomFound(count) =>
      if s.q.writers[0].batch.None? { RetireKeepsQueue(s.q, 1, true, s.m.lastSequence); }
    case AFinish => FinishKeepsQueue(s, s');
    case _ =>
  }

  /** First come, first served, and exactly once: those who left are the ones who came first. */
  lemma FirstComeFirstServed(s: State, i: nat)
    requires QueueInv(s.q, s.m.lastSequence) && i < |s.q.arrived|
    ensures if i < |s.q.retired| then s.q.retired[i].w == s.q.arrived[i]
            else s.q.writers[i - |s.q.retired|] == s.q.arrived[i]
    ensures |s.q.arrived| == |s.q.retired| + |s.q.writers|
  {
    assert |Names(s.q.retired)| == |s.q.retired|;
  }

  /** Retired writers stay retired with the status they were given. */
  ghost predicate Extends(q: Queue, q': Queue) {
    && q.arrived <= q'.arrived && q.retired <= q'.retired
  }

  /** The leader retires exactly the prefix of the queue that ends with its last writer, with one status. */
  lemma LeaderRetiresItsGroup(s: State, s': State)
    requires QueueInv(s.q, s.m.lastSequence) && Finish(s, s')
    ensures var Finishing(g, ok, _) := s.q.leader;
            && s'.q.writers == s.q.writers[g.count..]
            && s'.q.retired[|s.q.retired|..] == Retirees(s.q.writers[..g.count], ok)
            && g.entries == Number(AllOps(s.q.writers[..g.count]), s.m.lastSequence)
            && s'.m.lastSequence == s.m.lastSequence + |g.entries|
    ensures Extends(s.q, s'.q)
  {
  }

  /** Ranges of different groups are disjoint and ordered as the groups are. */
  lemma {:induction false} RangesDisjoint(commits: seq<Commit>, last: nat, i: nat, j: nat)
    requires Contiguous(commits, last) && i < j < |commits|
    ensures commits[i].base + |commits[i].entries| <= commits[j].base
    decreases j
  {
    assert Adjoins(commits, j - 1, last);
    if i + 1 < j { RangesDisjoint(commits, last, i, j - 1); }
  }

  lemma {:induction false} CommitBelowLast(commits: seq<Commit>, last: nat, i: nat)
    requires Contiguous(commits, last) && i < |commits|
    ensures commits[i].base + |commits[i].entries| <= last
    decreases |commits| - i
  {
    assert Adjoins(commits, i, last);
    if i + 1 < |commits| { CommitBelowLast(commits, last, i + 1); }
  }

  /** The operations of a writer's batch have consecutive numbers in the entries of its group. */
  lemma BatchInGroup(q: Queue, last: nat, x: nat) returns (from: nat)
    requires QueueInv(q, last) && q.leader.Finishing? && x < q.leader.g.count && x < |q.writers| && q.writers[x].batch.Some?
    ensures q.writers[x].sync ==> q.leader.g.sync
    ensures var batch := q.writers[x].batch.value;
            forall y :: 0 <= y < |batch| ==>
              Entry(batch[y].key, last + 1 + from + y, batch[y].kind, batch[y].value) in q.leader.g.entries
  {
    var g := q.leader.g;
    assert GroupOk(q, g, last);
    if q.writers[x].sync { SyncNeedsSyncLeader(q.writers, g.count, x); }
    from := BatchIsContiguous(q.writers, g.count, x);
    hide QueueInv, AllOps, Admissible;
    var ops, batch := AllOps(q.writers[..g.count]), q.writers[x].batch.value;
    forall y | 0 <= y < |batch|
      ensures Entry(batch[y].key, last + 1 + from + y, batch[y].kind, batch[y].value) in g.entries
    {
      assert batch[y] == ops[from..from + |batch|][y] == ops[from + y];
      assert g.entries[from + y] == Entry(batch[y].key, last + 1 + from + y, batch[y].kind, batch[y].value);
    }
  }
}
