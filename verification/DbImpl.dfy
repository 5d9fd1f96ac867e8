/**
 The code of db_impl.cc that runs under the mutex, as methods on one object.  Each region is
 proved to be a step of the state machine of module EngineSteps, so that what is proved
 about all runs of the machine holds for the code.
 */
module DbImpl {
  import opened Wrappers
  import opened History
  import opened WriteGroup
  import opened EngineState
  import opened EngineSteps

  /** A name in the database directory, parsed. */
  datatype FileName =
    | LogFile(n: nat) | DescriptorFile(n: nat) | TableFile(n: nat) | TempFile(n: nat)
    | CurrentFile | DBLockFile | InfoLogFile

  /** The files of the given kinds that a list of names mentions. */
  ghost function TablesNamed(names: seq<FileName>): set<nat> {
    set i | 0 <= i < |names| && names[i].TableFile? :: names[i].n
  }

  ghost function LogsNamed(names: seq<FileName>): set<nat> {
    set i | 0 <= i < |names| && names[i].LogFile? :: names[i].n
  }

  ghost function ManifestsNamed(names: seq<FileName>): set<nat> {
    set i | 0 <= i < |names| && names[i].DescriptorFile? :: names[i].n
  }

  /** ids lists the held snapshots, each once, in the order of their numbers. */
  ghost predicate ListsSnapshots(ids: seq<nat>, held: map<nat, nat>) {
    && (forall id :: id in held <==> id in ids)
    && (forall i, j :: 0 <= i < j < |ids| ==> ids[i] != ids[j] && held[ids[i]] <= held[ids[j]])
  }

  class DBImpl {
    var db: State
    var snapshots: seq<nat>   // snapshots_, the oldest first (db/snapshot.h)

    ghost predicate Valid()
      reads this
    {
      ListsSnapshots(snapshots, db.r.snapshots)
    }

    constructor (db: State)
      requires db.r.snapshots == map[]
      ensures this.db == db && Valid()
    {
      this.db := db;
      this.snapshots := [];
    }

    /** SnapshotList::New: its numbers are handed out in ascending order, which is what it asserts. */
    method GetSnapshot(id: nat)
      requires Valid() && id !in db.r.snapshots
      requires forall k :: k in db.r.snapshots ==> db.r.snapshots[k] <= db.m.lastSequence
      modifies this
      ensures EngineSteps.GetSnapshot(old(db), db, id) && snapshots == old(snapshots) + [id] && Valid()
    {
      db := db.(r := db.r.(snapshots := db.r.snapshots[id := db.m.lastSequence]));
      snapshots := snapshots + [id];
    }

    /** SnapshotList::Delete takes one node out and leaves the others in their order. */
    method ReleaseSnapshot(id: nat) returns (ghost at: nat)
      requires Valid() && id in db.r.snapshots
      modifies this
      ensures EngineSteps.ReleaseSnapshot(old(db), db, id) && Valid()
      ensures at <= |snapshots| && old(snapshots) == snapshots[..at] + [id] + snapshots[at..]
    {
      hide ListsSnapshots;
      HeldIsListed(snapshots, db.r.snapshots, id);
      var i :| 0 <= i < |snapshots| && snapshots[i] == id;
      WithoutAt(snapshots, i);
      RemovalKeepsList(snapshots, db.r.snapshots, i, snapshots[..i] + snapshots[i + 1..]);
      at := i;
      db := db.(r := db.r.(snapshots := db.r.snapshots - {id}));
      snapshots := snapshots[..i] + snapshots[i + 1..];
    }

    method MaybeScheduleCompaction()
      modifies `db
      ensures db == old(db).(b := MaybeSchedule(old(db.b), old(db.m.imm), old(db.vs.needsCompaction)))
    {
      if db.b.scheduled {
        // already scheduled
      } else if db.b.shuttingDown {
        // the database is being deleted
      } else if db.b.bgError {
        // already got an error
      } else if db.m.imm.None? && !db.vs.needsCompaction {
        // nothing to do
      } else {
        db := db.(b := db.b.(scheduled := true, calls := db.b.calls + 1));
      }
    }

    method SignalWaiters()
      modifies `db
      ensures db == old(db).(q := SignalAll(old(db.q)))
    {
      match db.q.leader {
        case Waiting(force, allowDelay) => db := db.(q := db.q.(leader := Room(force, allowDelay)));
        case _ =>
      }
    }

    method RecordBackgroundError()
      modifies `db
      ensures db == RecordError(old(db))
    {
      if !db.b.bgError {
        db := db.(b := db.b.(bgError := true));
        SignalWaiters();
      }
    }

    /** The loop at the end of Write: pop and wake everybody up to last_writer. */
    method RetireGroup(count: nat, status: Status)
      requires 0 < count <= |db.q.writers|
      modifies `db
      ensures db == old(db).(q := Retire(old(db.q), count, status.OK?))
    {
      ghost var q := db.q;
      var popped := 0;
      while true
        invariant popped < count && db == old(db).(q := db.q)
        invariant db.q == q.(writers := q.writers[popped..], retired := q.retired + Retirees(q.writers[..popped], status.OK?))
        decreases count - popped
      {
        var ready := db.q.writers[0];
        assert q.writers[popped..][1..] == q.writers[popped + 1..] && ready == q.writers[popped];
        assert Retirees(q.writers[..popped], status.OK?) + [Retired(ready, status.OK?)]
            == Retirees(q.writers[..popped + 1], status.OK?);
        db := db.(q := db.q.(writers := db.q.writers[1..], retired := db.q.retired + [Retired(ready, status.OK?)]));
        popped := popped + 1;
        if popped == count {   // ready == last_writer
          break;
        }
      }
      db := db.(q := db.q.(leader := Idle));
    }

    /**
     One turn of the loop of MakeRoomForWrite with the mutex held, and what Write does after it
     when the loop ends: sleeping and waiting give the mutex up, an error retires the writer,
     room makes it retire (null batch) or build its group.
     */
    method MakeRoomForWrite(memFull: bool, createFails: bool) returns (ghost a: WriterAction)
      requires db.q.leader.Room? && db.q.writers != []
      modifies `db
      ensures WriterStep(old(db), a, db)
      ensures
        if old(db.b.bgError) then a == ARoomError
        else if old(db.q.leader.allowDelay) && old(db.vs.level0) >= 8 then a == ARoomSleep
        else if !old(db.q.leader.force) && !memFull then a.ARoomFound?
        else if old(db.m.imm).Some? || old(db.vs.level0) >= 12 then a == ARoomWait
        else a == if createFails then ARoomSwitchFails else ARoomSwitch
    {
      var force, allowDelay := db.q.leader.force, db.q.leader.allowDelay;
      if db.b.bgError {
        a := ARoomError;
        RetireGroup(1, IOError);
      } else if allowDelay && db.vs.level0 >= 8 {
        a := ARoomSleep;
        db := db.(q := db.q.(leader := Room(force, false)));
      } else if !force && !memFull {
        if db.q.writers[0].batch.None? {
          a := ARoomFound(1);
          RetireGroup(1, OK);
        } else {
          var batch, count := BuildBatchGroup(db.q.writers);
          a := ARoomFound(count);
          var last := db.m.lastSequence;
          db := db.(q := db.q.(leader := Logging(Group(count, last, Number(batch, last), db.q.writers[0].sync))));
        }
      } else if db.m.imm.Some? {
        a := ARoomWait;
        db := db.(q := db.q.(leader := Waiting(force, allowDelay)));
      } else if db.vs.level0 >= 12 {
        a := ARoomWait;
        db := db.(q := db.q.(leader := Waiting(force, allowDelay)));
      } else {
        var n := db.vs.nextFile;   // NewFileNumber
        if createFails {           // and ReuseFileNumber
          a := ARoomSwitchFails;
          RetireGroup(1, IOError);
        } else {
          a := ARoomSwitch;
          SwitchMemtable(n);
        }
      }
    }

    method SwitchMemtable(n: nat)
      requires n == db.vs.nextFile && db.q.leader.Room? && !db.b.bgError && !Delays(db, db.q.leader)
      requires db.m.imm.None? && db.vs.level0 < L0_STOP
      modifies `db
      ensures RoomSwitch(old(db), db)
    {
      db := db.(vs := db.vs.(nextFile := n + 1));
      db := db.(f := db.f.(logs := db.f.logs[n := Log([], 0)]));
      db := db.(m := db.m.(imm := Some(db.m.memId)), b := db.b.(hasImm := true));
      db := db.(m := db.m.(memtables := db.m.memtables[n := {}], memId := n));
      db := db.(q := db.q.(leader := Room(false, db.q.leader.allowDelay)));
      MaybeScheduleCompaction();
    }

    /** The end of Write after the group was logged and inserted. */
    method FinishWrite()
      requires db.q.leader.Finishing? && 0 < db.q.leader.g.count <= |db.q.writers|
      modifies `db
      ensures Finish(old(db), db)
    {
      var Finishing(g, ok, syncError) := db.q.leader;
      var q := db.q.(commits := db.q.commits + [Commit(g.base, g.entries, ok)],
                     promised := if ok && g.sync then db.q.promised + (set e | e in g.entries) else db.q.promised);
      assert (set e | e in g.entries) == Elems(g.entries);
      db := db.(q := q, m := db.m.(lastSequence := g.base + |g.entries|));
      RetireGroup(g.count, if ok then OK else IOError);
      if syncError {
        RecordBackgroundError();
      }
    }

    method BackgroundCallEnds()
      requires db.b.phase.Running? && db.b.phase.work.Ending? && db.b.calls > 0
      modifies `db
      ensures CallEnd(old(db), db) && !db.q.leader.Waiting?
      ensures !db.b.bgError && !db.b.shuttingDown && (db.m.imm.Some? || db.vs.needsCompaction) ==> db.b.scheduled
    {
      db := db.(b := db.b.(phase := Resting, scheduled := false, calls := db.b.calls - 1));
      MaybeScheduleCompaction();
      SignalWaiters();
    }

    /** The head of the list is the smallest number held; without snapshots it is the last sequence number. */
    method SmallestSnapshot() returns (n: nat)
      requires Valid()
      ensures IsSmallestSnapshot(db, n)
    {
      if snapshots == [] {
        assert forall id :: id !in db.r.snapshots;
        n := db.m.lastSequence;
      } else {
        n := db.r.snapshots[snapshots[0]];
        OldestIsSmallest(snapshots, db.r.snapshots);
      }
    }

    /**
     RemoveObsoleteFiles while it holds the mutex: what is picked from the directory listing
     is exactly what is not needed, in the order of the listing.
     */
    method FilesToDelete(names: seq<FileName>, live: set<nat>) returns (picked: seq<FileName>)
      requires live == LiveFiles(db.vs, db.r)
      requires TablesNamed(names) == db.f.tables.Keys && LogsNamed(names) == db.f.logs.Keys
      requires ManifestsNamed(names) == db.f.manifests
      ensures forall f :: f in picked ==> f in names
      ensures TablesNamed(picked) == Obsolete(db).tables && LogsNamed(picked) == Obsolete(db).logs
      ensures ManifestsNamed(picked) == Obsolete(db).manifests
      // with the conditions written out: everything dead in the listing is picked, and nothing else
      ensures forall n: nat :: TableFile(n) in picked <==>
                TableFile(n) in names && n !in db.vs.pending && n !in db.vs.current.files
                && forall id :: id in db.r.active ==> n !in db.r.active[id].version.files
      ensures forall n: nat :: TempFile(n) in picked <==>
                TempFile(n) in names && n !in db.vs.pending && n !in db.vs.current.files
                && forall id :: id in db.r.active ==> n !in db.r.active[id].version.files
      ensures forall n: nat :: LogFile(n) in picked <==> LogFile(n) in names && n < db.vs.current.logNumber
      ensures forall n: nat :: DescriptorFile(n) in picked <==> DescriptorFile(n) in names && n < db.vs.manifestNumber
      ensures CurrentFile !in picked && DBLockFile !in picked && InfoLogFile !in picked
    {
      picked := [];
      var i := 0;
      while i < |names|
        invariant 0 <= i <= |names|
        invariant forall f :: f in picked <==> f in names[..i] && !Keeps(db, live, f)
      {
        var keep := match names[i]
          case LogFile(number) => number >= db.vs.current.logNumber
          case DescriptorFile(number) => number >= db.vs.manifestNumber
          case TableFile(number) => number in live
          case TempFile(number) => number in live
          case _ => true;
        assert names[..i + 1] == names[..i] + [names[i]];
        if !keep {
          picked := picked + [names[i]];
        }
        i := i + 1;
      }
      assert names[..i] == names;
      PickedIsObsolete(db, names, live, picked);
    }
  }

  lemma HeldIsListed(ids: seq<nat>, held: map<nat, nat>, id: nat)
    requires ListsSnapshots(ids, held) && id in held
    ensures id in ids
  {
  }

  lemma OldestIsSmallest(ids: seq<nat>, held: map<nat, nat>)
    requires ListsSnapshots(ids, held) && ids != []
    ensures forall id :: id in held ==> held[ids[0]] <= held[id]
  {
    forall id | id in held ensures held[ids[0]] <= held[id] {
      var i :| 0 <= i < |ids| && ids[i] == id;
    }
  }

  lemma WithoutAt(ids: seq<nat>, i: nat)
    requires i < |ids|
    ensures var rest := ids[..i] + ids[i + 1..];
            && |rest| == |ids| - 1 && ids == rest[..i] + [ids[i]] + rest[i..]
            && forall a :: 0 <= a < |rest| ==> rest[a] == ids[if a < i then a else a + 1]
  {
    var rest := ids[..i] + ids[i + 1..];
    assert rest[..i] == ids[..i] && rest[i..] == ids[i + 1..];
  }

  lemma RemovalKeepsOrder(ids: seq<nat>, held: map<nat, nat>, i: nat, rest: seq<nat>)
    requires ListsSnapshots(ids, held) && i < |ids| && |rest| == |ids| - 1
    requires forall a :: 0 <= a < |rest| ==> rest[a] == ids[if a < i then a else a + 1]
    ensures forall a :: 0 <= a < |rest| ==> rest[a] in held && rest[a] != ids[i]
    ensures forall a, b :: 0 <= a < b < |rest| ==> rest[a] != rest[b] && held[rest[a]] <= held[rest[b]]
  {
    forall a | 0 <= a < |rest| ensures rest[a] in held && rest[a] != ids[i] {
      var x := if a < i then a else a + 1;
      assert rest[a] == ids[x];
      if x < i { assert ids[x] != ids[i]; } else { assert ids[i] != ids[x]; }
    }
    forall a, b | 0 <= a < b < |rest| ensures rest[a] != rest[b] && held[rest[a]] <= held[rest[b]] {
      var x, y := if a < i then a else a + 1, if b < i then b else b + 1;
      assert ids[x] != ids[y] && held[ids[x]] <= held[ids[y]];
    }
  }

  lemma RemovalKeepsMembers(ids: seq<nat>, held: map<nat, nat>, i: nat, rest: seq<nat>)
    requires ListsSnapshots(ids, held) && i < |ids| && |rest| == |ids| - 1
    requires forall a :: 0 <= a < |rest| ==> rest[a] == ids[if a < i then a else a + 1]
    ensures forall id :: id in rest <==> id in held && id != ids[i]
  {
    RemovalKeepsOrder(ids, held, i, rest);
    forall id | id in held && id != ids[i] ensures id in rest {
      var k :| 0 <= k < |ids| && ids[k] == id;
      assert rest[if k < i then k else k - 1] == id;
    }
  }

  lemma RemovalKeepsList(ids: seq<nat>, held: map<nat, nat>, i: nat, rest: seq<nat>)
    requires ListsSnapshots(ids, held) && i < |ids| && |rest| == |ids| - 1
    requires forall a :: 0 <= a < |rest| ==> rest[a] == ids[if a < i then a else a + 1]
    ensures ListsSnapshots(rest, held - {ids[i]})
  {
    RemovalKeepsOrder(ids, held, i, rest);
    RemovalKeepsMembers(ids, held, i, rest);
  }

  /** Files that are kept. */
  ghost predicate Keeps(db: State, live: set<nat>, f: FileName) {
    match f
    case LogFile(n) => n >= db.vs.current.logNumber
    case DescriptorFile(n) => n >= db.vs.manifestNumber
    case TableFile(n) => n in live
    case TempFile(n) => n in live
    case _ => true
  }

  lemma PickedIsObsolete(db: State, names: seq<FileName>, live: set<nat>, picked: seq<FileName>)
    requires live == LiveFiles(db.vs, db.r)
    requires TablesNamed(names) == db.f.tables.Keys && LogsNamed(names) == db.f.logs.Keys
    requires ManifestsNamed(names) == db.f.manifests
    requires forall f :: f in picked <==> f in names && !Keeps(db, live, f)
    ensures TablesNamed(picked) == Obsolete(db).tables && LogsNamed(picked) == Obsolete(db).logs
    ensures ManifestsNamed(picked) == Obsolete(db).manifests
  {
    hide LiveFiles;
    forall n ensures n in TablesNamed(picked) <==> TableFile(n) in picked { NamedIffListed(picked, n); }
    forall n ensures n in LogsNamed(picked) <==> LogFile(n) in picked { NamedIffListed(picked, n); }
    forall n ensures n in ManifestsNamed(picked) <==> DescriptorFile(n) in picked { NamedIffListed(picked, n); }
    forall n ensures n in TablesNamed(names) <==> TableFile(n) in names { NamedIffListed(names, n); }
    forall n ensures n in LogsNamed(names) <==> LogFile(n) in names { NamedIffListed(names, n); }
    forall n ensures n in ManifestsNamed(names) <==> DescriptorFile(n) in names { NamedIffListed(names, n); }
  }

  lemma NamedIffListed(names: seq<FileName>, n: nat)
    ensures n in TablesNamed(names) <==> TableFile(n) in names
    ensures n in LogsNamed(names) <==> LogFile(n) in names
    ensures n in ManifestsNamed(names) <==> DescriptorFile(n) in names
  {
    if i :| 0 <= i < |names| && names[i] == TableFile(n) {}
    if i :| 0 <= i < |names| && names[i] == LogFile(n) {}
    if i :| 0 <= i < |names| && names[i] == DescriptorFile(n) {}
  }
}
