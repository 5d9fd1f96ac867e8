/**
 The threads that call Write (db/db_impl.cc).  Each has its own place in the code, its done
 flag and its status, and sleeps on its own condition variable; nothing in the steps says that
 only one of them may be past the wait loop.  That this is so, that it is always the front of
 the queue, and that nobody sleeps through being told, is proved here.  It follows that every
 run of the threads is a run of the machine with one leader, whose theorems therefore apply.
 */
module EngineThreads {
  import opened Wrappers
  import opened History
  import opened WriteGroup
  import opened EngineState
  import opened EngineSteps
  import opened EngineInvariants
  import opened EngineQueue
  import opened EngineRecovery
  import EngineReaders
  import opened EngineRun
  import opened LogReplay

  /** Where a call of Write is. */
  datatype Pc =
    | Testing                // about to test the condition of the wait loop, with the mutex
    | Sleeping               // in cv.Wait()
    | Past(l: Leader)        // past the wait loop
    | Returned(ok: bool)

  /** A thread with the fields done and status of its Writer object. */
  datatype Thread = Thread(pc: Pc, done: bool, status: bool)

  /** deque is writers_: the numbers of the waiting threads, which count the calls. */
  datatype System = System(s: State, deque: seq<nat>, threads: seq<Thread>)

  /** cv.Signal(). */
  function Woken(t: Thread): Thread {
    if t.pc.Sleeping? then t.(pc := Testing) else t
  }

  /** background_work_finished_signal_.SignalAll(), for one thread. */
  function BackWoken(t: Thread): Thread {
    match t.pc
    case Past(l) => if l.Waiting? then t.(pc := Past(Room(l.force, l.allowDelay))) else t
    case _ => t
  }

  /**
   The end of Write on thread x: the first popped threads of the queue are told the status and
   signalled, x itself returns, and the new front is signalled.
   */
  function AfterRetiring(sys: System, x: nat, popped: nat, ok: bool): (ts: seq<Thread>)
    requires popped <= |sys.deque|
    ensures |ts| == |sys.threads|
  {
    seq(|sys.threads|, y requires 0 <= y < |sys.threads| =>
      var t := sys.threads[y];
      if y == x then t.(pc := Returned(ok))
      else if y in sys.deque[..popped] then Woken(t.(done := true, status := ok))
      else if popped < |sys.deque| && y == sys.deque[popped] then Woken(t)
      else t)
  }

  datatype SystemAction =
    | Call(w: Writer)                          // Write is called and queues itself
    | Test(x: nat)                             // thread x tests the wait loop
    | Wake(x: nat)                             // cv.Wait() returns without a signal, which it may
    | Run(x: nat, a: WriterAction)             // thread x goes on past it
    | OfReader(r: ReaderAction)
    | OfBackground(b: BackAction)
    | Crash(kept: map<nat, Log>, o: Outcome, numbers: seq<nat>, saved: bool)

  /** while (!w.done && &w != writers_.front()) w.cv.Wait(); and what follows it. */
  ghost predicate TestStep(sys: System, sys': System, x: nat) {
    && x < |sys.threads| && x < |sys.s.q.arrived| && sys.threads[x].pc.Testing?
    && var t := sys.threads[x];
       if t.done then sys' == sys.(threads := sys.threads[x := t.(pc := Returned(t.status))])
       else if sys.deque != [] && sys.deque[0] == x then
         var force := sys.s.q.arrived[x].batch.None?;
         var l := Room(force, !force);
         sys' == sys.(threads := sys.threads[x := t.(pc := Past(l))], s := sys.s.(q := sys.s.q.(leader := l)))
       else sys' == sys.(threads := sys.threads[x := t.(pc := Sleeping)])
  }

  /** Thread x makes the step its own place in the code calls for, whoever else may be running. */
  ghost predicate RunStep(sys: System, sys': System, x: nat, a: WriterAction) {
    && x < |sys.threads| && sys.threads[x].pc.Past? && !a.AArrive? && !a.ALead?
    && WriterStep(sys.s.(q := sys.s.q.(leader := sys.threads[x].pc.l)), a, sys'.s)
    && |sys'.s.q.writers| <= |sys.s.q.writers|
    && var popped := |sys.s.q.writers| - |sys'.s.q.writers|;
       if popped == 0 then
         && sys'.deque == sys.deque
         && sys'.threads == sys.threads[x := sys.threads[x].(pc := Past(sys'.s.q.leader))]
       else
         && popped <= |sys.deque| && sys'.deque == sys.deque[popped..] && sys'.s.q.retired != []
         && sys'.threads == AfterRetiring(sys, x, popped, sys'.s.q.retired[|sys'.s.q.retired| - 1].ok)
  }

  ghost predicate BackgroundStep(sys: System, sys': System, b: BackAction) {
    && BackStep(sys.s, b, sys'.s) && sys'.deque == sys.deque
    && sys'.threads == if sys'.s.q == sys.s.q then sys.threads
                       else seq(|sys.threads|, y requires 0 <= y < |sys.threads| => BackWoken(sys.threads[y]))
  }

  ghost predicate SystemStep(sys: System, a: SystemAction, sys': System) {
    match a
    case Call(w) =>
      && Arrive(sys.s, sys'.s, w) && sys'.deque == sys.deque + [|sys.threads|]
      && sys'.threads == sys.threads + [Thread(Testing, false, false)]
    case Test(x) => TestStep(sys, sys', x)
    case Wake(x) =>
      && x < |sys.threads| && sys.threads[x].pc.Sleeping?
      && sys' == sys.(threads := sys.threads[x := Woken(sys.threads[x])])
    case Run(x, w) => RunStep(sys, sys', x, w)
    case OfReader(r) => ReaderStep(sys.s, r, sys'.s) && sys'.deque == sys.deque && sys'.threads == sys.threads
    case OfBackground(b) => BackgroundStep(sys, sys', b)
    case Crash(kept, o, numbers, saved) =>
      CrashAndOpen(sys.s, sys'.s, kept, o, numbers, saved) && sys'.deque == [] && sys'.threads == []
  }

  // ----- the invariant --------------------------------------------------------------------------------

  /** A call that has been retired returns with the status of its group, or has been told and is awake. */
  ghost predicate ToldOrBack(t: Thread, ok: bool) {
    t.pc == Returned(ok) || (t.pc.Testing? && t.done && t.status == ok)
  }

  /** A call that is still queued: only the front can be past the wait loop, and it is where the machine's leader is. */
  ghost predicate QueuedOk(t: Thread, front: bool, l: Leader) {
    && !t.done && !t.pc.Returned?
    && (if front then !t.pc.Sleeping? && (if l.Idle? then t.pc.Testing? else t.pc == Past(l))
        else !t.pc.Past?)
  }

  ghost predicate ThreadsInv(sys: System) {
    var f := |sys.s.q.retired|;
    && |sys.threads| == |sys.s.q.arrived| == f + |sys.s.q.writers|
    && |sys.deque| == |sys.s.q.writers| && (forall i :: 0 <= i < |sys.deque| ==> sys.deque[i] == f + i)
    && (forall x :: 0 <= x < f ==> ToldOrBack(sys.threads[x], sys.s.q.retired[x].ok))
    && (forall x :: f <= x < |sys.threads| ==> QueuedOk(sys.threads[x], x == f, sys.s.q.leader))
  }

  lemma ArrivedCount(q: Queue, last: nat)
    requires QueueInv(q, last)
    ensures |q.arrived| == |q.retired| + |q.writers|
    ensures forall i :: 0 <= i < |q.writers| ==> q.arrived[|q.retired| + i] == q.writers[i]
  {
    hide Contiguous;
  }

  lemma CallKeepsThreads(sys: System, sys': System, w: Writer)
    requires ThreadsInv(sys) && SystemStep(sys, Call(w), sys') && QueueInv(sys.s.q, sys.s.m.lastSequence)
    ensures ThreadsInv(sys') && WriterStep(sys.s, AArrive(w), sys'.s)
  {
    hide Contiguous, Number;
  }

  lemma ReaderKeepsThreads(sys: System, sys': System, r: ReaderAction)
    requires ThreadsInv(sys) && SystemStep(sys, SystemAction.OfReader(r), sys')
    ensures ThreadsInv(sys')
  {
    hide ReaderStep;
    ReaderKeepsHist(sys.s, r, sys'.s);
  }

  lemma TestKeepsThreads(sys: System, sys': System, x: nat)
    requires ThreadsInv(sys) && QueueInv(sys.s.q, sys.s.m.lastSequence) && TestStep(sys, sys', x)
    ensures ThreadsInv(sys')
    ensures sys'.s == sys.s || WriterStep(sys.s, ALead, sys'.s)
  {
    ArrivedCount(sys.s.q, sys.s.m.lastSequence);
    hide QueueInv;
    if x < |sys.s.q.retired| {
      assert ToldOrBack(sys.threads[x], sys.s.q.retired[x].ok);
    } else {
      assert QueuedOk(sys.threads[x], x == |sys.s.q.retired|, sys.s.q.leader);
    }
  }

  lemma WakeKeepsThreads(sys: System, sys': System, x: nat)
    requires ThreadsInv(sys) && SystemStep(sys, Wake(x), sys')
    ensures ThreadsInv(sys') && sys'.s == sys.s
  {
    ToldAreAwake(sys);
    assert QueuedOk(sys.threads[x], x == |sys.s.q.retired|, sys.s.q.leader);
  }

  /** A step of a writer past the wait loop either goes on, or retires a prefix of the queue. */
  lemma GoesOnOrRetires(s: State, a: WriterAction, s': State) returns (popped: nat, ok: bool)
    requires QueueInv(s.q, s.m.lastSequence) && WriterStep(s, a, s') && !a.AArrive? && !a.ALead?
    ensures popped <= |s.q.writers| && s'.q.writers == s.q.writers[popped..] && s'.q.arrived == s.q.arrived
    ensures s'.q.retired == s.q.retired + Retirees(s.q.writers[..popped], ok)
    ensures popped == 0 <==> !s'.q.leader.Idle?
  {
    hide AllOps, IsGroup, Contiguous, Number;
    popped, ok := 0, false;
    if a.ARoomError? || a.ARoomSwitchFails? {
      popped := 1;
    } else if a.ARoomFound? && s.q.writers[0].batch.None? {
      popped, ok := 1, true;
    } else if a.AFinish? {
      popped, ok := s.q.leader.g.count, s.q.leader.ok;
    }
  }

  lemma ToldAreAwake(sys: System)
    requires ThreadsInv(sys)
    ensures forall y :: 0 <= y < |sys.s.q.retired| ==> !sys.threads[y].pc.Past? && !sys.threads[y].pc.Sleeping?
  {
    forall y | 0 <= y < |sys.s.q.retired| ensures !sys.threads[y].pc.Past? && !sys.threads[y].pc.Sleeping? {
      assert ToldOrBack(sys.threads[y], sys.s.q.retired[y].ok);
    }
  }

  /** Only the front thread is past the wait loop, and its place is the leader's. */
  lemma PastIsFront(sys: System, x: nat)
    requires ThreadsInv(sys) && x < |sys.threads| && sys.threads[x].pc.Past?
    ensures sys.deque != [] && sys.deque[0] == x == |sys.s.q.retired|
    ensures sys.threads[x].pc == Past(sys.s.q.leader) && !sys.s.q.leader.Idle?
    ensures forall y :: 0 <= y < |sys.threads| && y != x ==> !sys.threads[y].pc.Past?
  {
    var f := |sys.s.q.retired|;
    ToldAreAwake(sys);
    forall y | f <= y < |sys.threads| ensures sys.threads[y].pc.Past? ==> y == f && sys.threads[f].pc == Past(sys.s.q.leader) {
      assert QueuedOk(sys.threads[y], y == f, sys.s.q.leader);
    }
    assert QueuedOk(sys.threads[f], true, sys.s.q.leader);
  }

  lemma RunKeepsThreads(sys: System, sys': System, x: nat, a: WriterAction)
    requires ThreadsInv(sys) && QueueInv(sys.s.q, sys.s.m.lastSequence) && RunStep(sys, sys', x, a)
    ensures WriterStep(sys.s, a, sys'.s)
    ensures ThreadsInv(sys')
  {
    PastIsFront(sys, x);
    assert sys.s.(q := sys.s.q.(leader := sys.threads[x].pc.l)) == sys.s;
    var popped, ok := GoesOnOrRetires(sys.s, a, sys'.s);
    hide QueueInv, WriterStep;
    if popped == 0 {
      assert sys'.s.q.retired == sys.s.q.retired && sys'.s.q.writers == sys.s.q.writers;
      GoOnKeepsThreads(sys, sys', x);
    } else {
      RetireKeepsThreads(sys, sys', popped, ok);
    }
  }

  lemma GoOnKeepsThreads(sys: System, sys': System, x: nat)
    requires ThreadsInv(sys) && x == |sys.s.q.retired| < |sys.threads| && !sys'.s.q.leader.Idle?
    requires sys'.s.q.retired == sys.s.q.retired && sys'.s.q.writers == sys.s.q.writers && sys'.s.q.arrived == sys.s.q.arrived
    requires sys'.deque == sys.deque
    requires sys'.threads == sys.threads[x := sys.threads[x].(pc := Past(sys'.s.q.leader))]
    ensures ThreadsInv(sys')
  {
    assert QueuedOk(sys.threads[x], true, sys.s.q.leader);
    forall y | x <= y < |sys'.threads| ensures QueuedOk(sys'.threads[y], y == x, sys'.s.q.leader) {
      assert QueuedOk(sys.threads[y], y == x, sys.s.q.leader);
    }
  }

  lemma RetireKeepsThreads(sys: System, sys': System, popped: nat, ok: bool)
    requires ThreadsInv(sys) && 0 < popped <= |sys.s.q.writers| && sys'.s.q.leader.Idle?
    requires sys'.s.q.writers == sys.s.q.writers[popped..] && sys'.s.q.arrived == sys.s.q.arrived
    requires sys'.s.q.retired == sys.s.q.retired + Retirees(sys.s.q.writers[..popped], ok)
    requires sys.threads[|sys.s.q.retired|].pc.Past?
    requires sys'.deque == sys.deque[popped..]
    requires sys'.threads == AfterRetiring(sys, |sys.s.q.retired|, popped, ok)
    ensures ThreadsInv(sys')
  {
    var f := |sys.s.q.retired|;
    assert |sys'.s.q.retired| == f + popped;
    forall y | 0 <= y < f + popped ensures ToldOrBack(sys'.threads[y], sys'.s.q.retired[y].ok) {
      if y < f {
        assert ToldOrBack(sys.threads[y], sys.s.q.retired[y].ok);
        assert y !in sys.deque[..popped];
      } else {
        assert QueuedOk(sys.threads[y], y == f, sys.s.q.leader);
        assert sys.deque[..popped][y - f] == y;
      }
    }
    forall y | f + popped <= y < |sys'.threads| ensures QueuedOk(sys'.threads[y], y == f + popped, Idle) {
      assert QueuedOk(sys.threads[y], y == f, sys.s.q.leader);
      assert y !in sys.deque[..popped];
      if y == f + popped {
        assert sys.deque[popped] == y;
      }
    }
  }

  lemma BackgroundKeepsThreads(sys: System, sys': System, b: BackAction)
    requires ThreadsInv(sys) && BackgroundStep(sys, sys', b)
    ensures ThreadsInv(sys')
  {
    hide BackStep;
    EngineReaders.BackTouchesQueueBySignal(sys.s, b, sys'.s);
    var f := |sys.s.q.retired|;
    if sys'.s.q != sys.s.q {
      forall y | 0 <= y < f ensures ToldOrBack(sys'.threads[y], sys'.s.q.retired[y].ok) {
        assert ToldOrBack(sys.threads[y], sys.s.q.retired[y].ok);
      }
      forall y | f <= y < |sys'.threads| ensures QueuedOk(sys'.threads[y], y == f, sys'.s.q.leader) {
        assert QueuedOk(sys.threads[y], y == f, sys.s.q.leader);
      }
    }
  }

  // ----- every run of the threads is a run of the machine -----------------------------------------------

  /** What a step of the system is in the machine: nothing, or a step of it. */
  ghost predicate Refines(s: State, s': State) {
    s' == s || exists a :: Next(s, a, s')
  }

  lemma StepRefines(sys: System, a: SystemAction, sys': System)
    requires Inv(sys.s) && ThreadsInv(sys) && SystemStep(sys, a, sys')
    ensures ThreadsInv(sys') && Refines(sys.s, sys'.s)
  {
    hide Inv, ThreadsInv, WriterStep, BackStep, ReaderStep, CrashAndOpen, TestStep, RunStep, Arrive, Lead, QueueInv;
    InvQueue(sys.s);
    match a {
      case Call(w) =>
        CallKeepsThreads(sys, sys', w);
        assert Next(sys.s, EngineRun.OfWriter(AArrive(w)), sys'.s);
      case Test(x) =>
        TestKeepsThreads(sys, sys', x);
        if sys'.s != sys.s { assert Next(sys.s, EngineRun.OfWriter(ALead), sys'.s); }
      case Wake(x) =>
        WakeKeepsThreads(sys, sys', x);
      case Run(x, w) =>
        RunKeepsThreads(sys, sys', x, w);
        assert Next(sys.s, EngineRun.OfWriter(w), sys'.s);
      case OfReader(r) =>
        ReaderKeepsThreads(sys, sys', r);
        assert Next(sys.s, EngineRun.OfReader(r), sys'.s);
      case OfBackground(b) =>
        BackgroundKeepsThreads(sys, sys', b);
        assert Next(sys.s, EngineRun.OfBackground(b), sys'.s);
      case Crash(kept, o, numbers, saved) =>
        CrashKeepsThreads(sys, sys', kept, o, numbers, saved);
        assert Next(sys.s, EngineRun.Crash(kept, o, numbers, saved), sys'.s);
    }
  }

  /** A crash ends all calls. */
  lemma CrashKeepsThreads(sys: System, sys': System, kept: map<nat, Log>, o: Outcome, numbers: seq<nat>, saved: bool)
    requires SystemStep(sys, SystemAction.Crash(kept, o, numbers, saved), sys')
    ensures ThreadsInv(sys')
  {
    hide LogsSurvive, Replays, Stored;
  }

  ghost predicate IsSystemRun(systems: seq<System>, actions: seq<SystemAction>, log: nat) {
    && |systems| == |actions| + 1
    && Init(systems[0].s, log) && systems[0].deque == [] && systems[0].threads == []
    && forall i :: 0 <= i < |actions| ==> SystemStep(systems[i], actions[i], systems[i + 1])
  }

  /** Leaving out the steps that only concern the threads gives a run of the machine that ends in the same state. */
  lemma {:induction false} RunProjects(systems: seq<System>, actions: seq<SystemAction>, log: nat, i: nat)
      returns (states: seq<State>, steps: seq<EngineRun.Action>)
    requires IsSystemRun(systems, actions, log) && i < |systems|
    ensures IsRun(states, steps, log) && states[|steps|] == systems[i].s
    ensures Inv(systems[i].s) && ThreadsInv(systems[i])
  {
    hide Inv, SystemStep, ThreadsInv, Next;
    if i == 0 {
      states, steps := [systems[0].s], [];
      InitHolds(systems[0].s, log);
      InitThreads(systems[0], log);
    } else {
      states, steps := RunProjects(systems, actions, log, i - 1);
      var s, s' := systems[i - 1].s, systems[i].s;
      StepRefines(systems[i - 1], actions[i - 1], systems[i]);
      if s' != s {
        var a :| Next(s, a, s');
        NextKeepsInv(s, a, s');
        RunExtends(states, steps, log, a, s');
        states, steps := states + [s'], steps + [a];
      }
    }
  }

  lemma InitThreads(sys: System, log: nat)
    requires Init(sys.s, log) && sys.deque == [] && sys.threads == []
    ensures ThreadsInv(sys)
  {
  }

  lemma RunExtends(states: seq<State>, steps: seq<EngineRun.Action>, log: nat, a: EngineRun.Action, s': State)
    requires IsRun(states, steps, log) && Next(states[|steps|], a, s')
    ensures IsRun(states + [s'], steps + [a], log)
  {
    hide Next, Init;
    var ss, aa := states + [s'], steps + [a];
    forall i | 0 <= i < |aa| ensures Next(ss[i], aa[i], ss[i + 1]) {
      if i < |steps| { assert Next(states[i], steps[i], states[i + 1]); }
    }
  }

  // ----- what holds of the threads ----------------------------------------------------------------------

  /** In every run, at most one call is past the wait loop, and it is the front of the queue. */
  lemma OnlyFrontIsPast(systems: seq<System>, actions: seq<SystemAction>, log: nat, i: nat, x: nat)
    requires IsSystemRun(systems, actions, log) && i < |systems|
    requires x < |systems[i].threads| && systems[i].threads[x].pc.Past?
    ensures systems[i].deque != [] && systems[i].deque[0] == x
    ensures forall y :: 0 <= y < |systems[i].threads| && y != x ==> !systems[i].threads[y].pc.Past?
  {
    var _, _ := RunProjects(systems, actions, log, i);
    hide IsSystemRun, Inv, ThreadsInv;
    PastIsFront(systems[i], x);
  }

  /**
   In every run, a call that has left the queue has returned with the one status of its group,
   or holds that status, is marked done and is awake to see it.
   */
  lemma RetiredAreTold(systems: seq<System>, actions: seq<SystemAction>, log: nat, i: nat, x: nat)
    requires IsSystemRun(systems, actions, log) && i < |systems| && x < |systems[i].s.q.retired|
    ensures x < |systems[i].threads| && x !in systems[i].deque
    ensures ToldOrBack(systems[i].threads[x], systems[i].s.q.retired[x].ok)
  {
    var _, _ := RunProjects(systems, actions, log, i);
    hide IsSystemRun, Inv, ToldOrBack;
  }

  /** In every run, the front of the queue is awake, and a sleeping call is queued behind it and not done. */
  lemma NobodyOversleeps(systems: seq<System>, actions: seq<SystemAction>, log: nat, i: nat, x: nat)
    requires IsSystemRun(systems, actions, log) && i < |systems|
    requires x < |systems[i].threads| && systems[i].threads[x].pc.Sleeping?
    ensures x in systems[i].deque && systems[i].deque[0] != x && !systems[i].threads[x].done
  {
    var _, _ := RunProjects(systems, actions, log, i);
    hide IsSystemRun, Inv;
    var sys := systems[i];
    var f := |sys.s.q.retired|;
    ToldAreAwake(sys);
    assert QueuedOk(sys.threads[x], x == f, sys.s.q.leader);
    assert sys.deque[x - f] == x;
  }
}
