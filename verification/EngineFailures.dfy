/**
 What recovery may find beyond the store's history: entries of groups whose write failed or
 was still under way.  Without such groups, and without lost records, a reopened database
 answers every read as the old one did.
 */
module EngineFailures {
  import opened Wrappers
  import opened History
  import opened Layers
  import opened Compaction
  import opened WriteGroup
  import opened EngineState
  import opened EngineSteps
  import opened EngineInvariants
  import opened EngineMemory
  import opened EngineLogs
  import opened EngineBackground
  import opened EngineWriters
  import opened EngineReaders
  import opened EngineRecovery
  import opened EngineRun
  import opened LogReplay

  /** e belongs to a group that is at work or has failed. */
  ghost predicate Unfinished(q: Queue, e: Entry) {
    || (Working(q.leader).Some? && e in Working(q.leader).value.entries)
    || exists c :: c in q.commits && !c.ok && e in c.entries
  }

  /** Live logs hold nothing else that the store does not hold. */
  ghost predicate LogsExplained(s: State) {
    forall e :: e in LiveLogs(s.f.logs, s.vs.current.logNumber) && e !in Hist(s) ==> Unfinished(s.q, e)
  }

  lemma AppendExplained(s: State, s': State, ok: bool, appended: bool)
    requires Inv(s) && LogsExplained(s) && LogAppend(s, s', ok, appended)
    ensures LogsExplained(s')
  {
    var g, id := s.q.leader.g, s.m.memId;
    LogAppended(s.f.logs[id], g.entries);
    hide Inv, LogSet;
    assert Hist(s') == Hist(s) && Working(s'.q.leader) == Some(g);
    forall e | e in LiveLogs(s'.f.logs, s.vs.current.logNumber) && e !in Hist(s) ensures Unfinished(s'.q, e) {
      if e !in g.entries {
        var n :| n in s'.f.logs && n >= s.vs.current.logNumber && e in LogSet(s'.f.logs[n]);
        assert n in s.f.logs && e in LogSet(s.f.logs[n]);
        assert e in LiveLogs(s.f.logs, s.vs.current.logNumber);
        assert Unfinished(s.q, e);
      }
    }
  }

  lemma FinishExplained(s: State, s': State)
    requires Inv(s) && LogsExplained(s) && Finish(s, s')
    ensures LogsExplained(s')
  {
    InvParts(s);
    FinishKeepsPromise(s, s');
    var Finishing(g, ok, _) := s.q.leader;
    assert ok ==> Elems(g.entries) <= Hist(s) by { assert InsertedPart(s.m, s.q.leader); }
    hide Inv, LiveLogs, Hist, Holds, StoreHolds, WorkHolds;
    forall e | e in LiveLogs(s'.f.logs, s'.vs.current.logNumber) && e !in Hist(s') ensures Unfinished(s'.q, e) {
      assert Unfinished(s.q, e);
      if e in g.entries {
        assert Commit(g.base, g.entries, ok) in s'.q.commits;
      } else {
        var c :| c in s.q.commits && !c.ok && e in c.entries;
        assert c in s'.q.commits;
      }
    }
  }

  /** The other steps neither append to a log nor end a group. */
  lemma QuietExplained(s: State, s': State)
    requires LogsExplained(s) && Hist(s) <= Hist(s')
    requires LiveLogs(s'.f.logs, s'.vs.current.logNumber) <= LiveLogs(s.f.logs, s.vs.current.logNumber)
    requires s'.q.commits == s.q.commits
    requires Working(s.q.leader).Some? ==> Working(s'.q.leader) == Working(s.q.leader)
    ensures LogsExplained(s')
  {
    hide Hist, LiveLogs;
  }

  lemma WriterExplained(s: State, a: WriterAction, s': State)
    requires Inv(s) && LogsExplained(s) && WriterStep(s, a, s')
    ensures LogsExplained(s')
  {
    hide Inv, LogsExplained, Holds, StoreHolds, WorkHolds, Hist;
    if a.ALogAppend? {
      AppendExplained(s, s', a.ok, a.appended);
    } else if a.AFinish? {
      FinishExplained(s, s');
    } else {
      InvParts(s);
      WriterExtendsHist(s, a, s');
      LogNumbers(s);
      SameLogs(s, a, s');
      QuietExplained(s, s');
    }
  }

  lemma LogNumbers(s: State)
    requires StoreHolds(s)
    ensures forall n :: n in s.f.logs ==> n <= s.m.memId
  {
    OrderBounds(s.f.logs, s.m, s.vs.current);
  }

  lemma SameLiveLogs(logs: map<nat, Log>, logs': map<nat, Log>, from: nat)
    requires logs'.Keys == logs.Keys && forall n :: n in logs ==> LogSet(logs'[n]) == LogSet(logs[n])
    ensures LiveLogs(logs', from) == LiveLogs(logs, from)
  {
    hide LogSet;
    forall e | e in LiveLogs(logs, from) ensures e in LiveLogs(logs', from) {
      var k :| k in logs && k >= from && e in LogSet(logs[k]);
      assert k in logs' && e in LogSet(logs'[k]);
    }
  }

  lemma SameLogs(s: State, a: WriterAction, s': State)
    requires WriterStep(s, a, s') && !a.ALogAppend? && !a.AFinish? && s.m.memId < s.vs.nextFile
    requires forall n :: n in s.f.logs ==> n <= s.m.memId
    ensures LiveLogs(s'.f.logs, s'.vs.current.logNumber) == LiveLogs(s.f.logs, s.vs.current.logNumber)
    ensures s'.q.commits == s.q.commits
    ensures Working(s.q.leader).Some? ==> Working(s'.q.leader) == Working(s.q.leader)
  {
    if a.ARoomSwitch? {
      assert LogSet(Log([], 0)) == {};
      hide LogSet;
      SwitchLogs(s.f.logs, s.vs.nextFile, s.vs.current.logNumber);
    } else if a.ALogSync? {
      var log := s.f.logs[s.m.memId];
      AllSynced(log);
      hide LogSet, SyncedSet, LiveLogs;
      SameLiveLogs(s.f.logs, s'.f.logs, s.vs.current.logNumber);
    } else {
      hide LogSet, SyncedSet, AllOps, IsGroup, Retirees, MemSet;
    }
  }

  lemma SwitchLogs(logs: map<nat, Log>, n: nat, from: nat)
    requires n !in logs && LogSet(Log([], 0)) == {}
    ensures LiveLogs(logs[n := Log([], 0)], from) == LiveLogs(logs, from)
  {
    hide LogSet;
    var next := logs[n := Log([], 0)];
    forall e | e in LiveLogs(logs, from) ensures e in LiveLogs(next, from) {
      var k :| k in logs && k >= from && e in LogSet(logs[k]);
      assert k in next && next[k] == logs[k];
    }
  }

  lemma BackExplained(s: State, a: BackAction, s': State)
    requires Inv(s) && LogsExplained(s) && BackStep(s, a, s')
    ensures LogsExplained(s')
  {
    hide Inv, LogsExplained, Holds, StoreHolds, WorkHolds, Hist, BackStep;
    InvParts(s);
    BackKeepsHist(s, a, s');
    BackKeepsLogs(s, a, s');
    QuietExplained(s, s');
  }

  lemma BackKeepsLogs(s: State, a: BackAction, s': State)
    requires StoreHolds(s) && WorkHolds(s) && BackStep(s, a, s')
    ensures LiveLogs(s'.f.logs, s'.vs.current.logNumber) <= LiveLogs(s.f.logs, s.vs.current.logNumber)
    ensures Working(s.q.leader).Some? ==> Working(s'.q.leader) == Working(s.q.leader)
  {
    if a.AInstall? {
      InstallRaisesLogNumber(s, s', a.level0, a.needs);
    } else {
      OtherBackSteps(s, a, s');
      BackDeletesLogs(s, a, s');
    }
    hide StoreHolds, WorkHolds, BackStep, LogSet;
  }

  lemma InstallRaisesLogNumber(s: State, s': State, level0: nat, needs: bool)
    requires StoreHolds(s) && WorkHolds(s) && Install(s, s', level0, needs)
    ensures s'.f == s.f && s'.vs.current.logNumber >= s.vs.current.logNumber
    ensures s'.q == s.q || s'.q == SignalAll(s.q)
  {
    OrderBounds(s.f.logs, s.m, s.vs.current);
    assert s.m.imm.Some? ==> s.m.imm.value < s.m.memId;
    hide StoreHolds, Obsolete, CompInv, NumbersInv, ManifestInv, TablesOf, Survivors;
  }

  lemma BackDeletesLogs(s: State, a: BackAction, s': State)
    requires BackStep(s, a, s') && !a.AInstall?
    ensures s'.f.logs.Keys <= s.f.logs.Keys && forall n :: n in s'.f.logs ==> s'.f.logs[n] == s.f.logs[n]
  {
    hide Obsolete, FlushEdit, CompactEdit, ApplyEdit, Survivors, Merged, BaseLevelSound, TablesOf, ImmSet;
  }

  lemma CrashExplained(s: State, s': State, kept: map<nat, Log>, o: Outcome, numbers: seq<nat>, saved: bool)
    requires Inv(s) && CrashAndOpen(s, s', kept, o, numbers, saved)
    ensures LogsExplained(s')
  {
    InvParts(s);
    RecoveredLogs(s, s', kept, o, numbers, saved);
    RecoveredHist(s, s', kept, o, numbers, saved);
    hide Inv, Holds, StoreHolds, WorkHolds, LogSet, CrashAndOpen, Reused;
    forall e | e in LiveLogs(s'.f.logs, s'.vs.current.logNumber) ensures e in Hist(s') {
      var n :| n in s'.f.logs && n >= s'.vs.current.logNumber && e in LogSet(s'.f.logs[n]);
      assert n == s'.m.memId;
    }
  }

  lemma NextExplained(s: State, a: Action, s': State)
    requires Inv(s) && LogsExplained(s) && Next(s, a, s')
    ensures LogsExplained(s')
  {
    hide Inv, LogsExplained, WriterStep, BackStep, CrashAndOpen;
    match a {
      case OfWriter(w) => WriterExplained(s, w, s');
      case OfReader(r) => ReaderExplained(s, r, s');
      case OfBackground(b) => BackExplained(s, b, s');
      case Crash(kept, o, numbers, saved) => CrashExplained(s, s', kept, o, numbers, saved);
    }
  }

  lemma ReaderExplained(s: State, a: ReaderAction, s': State)
    requires LogsExplained(s) && ReaderStep(s, a, s')
    ensures LogsExplained(s')
  {
    ReaderKeepsHist(s, a, s');
    hide Hist, LiveLogs;
  }

  lemma {:induction false} RunsAreExplained(states: seq<State>, actions: seq<Action>, log: nat, i: nat)
    requires IsRun(states, actions, log) && i < |states|
    ensures Inv(states[i]) && LogsExplained(states[i])
  {
    hide Inv, LogsExplained, Next;
    RunsAreSafe(states, actions, log, i);
    if i == 0 {
      InitExplained(states[0], log);
    } else {
      RunsAreExplained(states, actions, log, i - 1);
      NextExplained(states[i - 1], actions[i - 1], states[i]);
    }
  }

  lemma InitExplained(s: State, log: nat)
    requires Init(s, log)
    ensures LogsExplained(s)
  {
    assert LogSet(Log([], 0)) == {};
    assert LiveLogs(s.f.logs, log) == {};
  }

  /** No write has failed and none is under way. */
  ghost predicate NoUnfinished(q: Queue) {
    Working(q.leader).None? && forall c :: c in q.commits ==> c.ok
  }

  /**
   Log and table coverage: in every reachable state, whatever is acknowledged can be found
   again from the directory alone.  Opening the database gives back exactly the history, when
   no record is lost and no write is unfinished, and so the same answer to every read.
   */
  lemma ReopeningKeepsEveryRead(states: seq<State>, actions: seq<Action>, log: nat, i: nat, k: UserKey, n: nat)
    requires IsRun(states, actions, log) && i < |actions| && actions[i].Crash?
    requires forall x :: x in actions[i].kept && x in states[i].f.logs ==>
                           actions[i].kept[x].records == states[i].f.logs[x].records
    requires NoUnfinished(states[i].q)
    ensures Hist(states[i + 1]) == Hist(states[i])
    ensures Lookup(Hist(states[i + 1]), k, n) == Lookup(Hist(states[i]), k, n)
  {
    var s, s' := states[i], states[i + 1];
    var Crash(kept, o, numbers, saved) := actions[i];
    assert Next(s, actions[i], s');
    hide Inv, LogsExplained, CrashAndOpen, Hist, IsRun, NoUnfinished;
    RunsAreExplained(states, actions, log, i);
    KeptNumbers(s, s', kept, o, numbers, saved);
    NothingIsLost(s, s', o, numbers, saved, kept);
    NothingIsInvented(s, s', kept, o, numbers, saved);
  }

  lemma KeptNumbers(s: State, s': State, kept: map<nat, Log>, o: Outcome, numbers: seq<nat>, saved: bool)
    requires CrashAndOpen(s, s', kept, o, numbers, saved)
    ensures kept.Keys == s.f.logs.Keys
  {
    hide Replays, Stored;
  }

  /** Whatever recovery finds that the store did not hold comes from an unfinished write. */
  lemma FoundIsUnfinished(s: State, s': State, kept: map<nat, Log>, o: Outcome, numbers: seq<nat>, saved: bool, e: Entry)
    requires Inv(s) && LogsExplained(s) && CrashAndOpen(s, s', kept, o, numbers, saved)
    requires e in Hist(s') && e !in Hist(s)
    ensures Unfinished(s.q, e)
  {
    InvParts(s);
    KeptLogs(s, kept);
    RecoveredHist(s, s', kept, o, numbers, saved);
    DiskInHist(s);
    hide Inv, Holds, StoreHolds, WorkHolds, LiveLogs, Hist, CrashAndOpen;
  }

  lemma DiskInHist(s: State)
    requires StoreHolds(s)
    ensures s.f.disk.flushed <= Hist(s)
  {
    hide MemInv, LogInv, VersionsInv, TablesOf;
  }

  lemma NothingIsInvented(s: State, s': State, kept: map<nat, Log>, o: Outcome, numbers: seq<nat>, saved: bool)
    requires Inv(s) && LogsExplained(s) && CrashAndOpen(s, s', kept, o, numbers, saved) && NoUnfinished(s.q)
    ensures Hist(s') <= Hist(s)
  {
    hide Inv, LogsExplained, CrashAndOpen, Hist;
    forall e | e in Hist(s') ensures e in Hist(s) {
      if e !in Hist(s) {
        FoundIsUnfinished(s, s', kept, o, numbers, saved, e);
        assert false;
      }
    }
  }
}
