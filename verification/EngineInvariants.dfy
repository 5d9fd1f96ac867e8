/**
 What every reachable state of the storage engine satisfies, one predicate for each concern.
 */
module EngineInvariants {
  import opened Wrappers
  import opened History
  import opened Layers
  import opened Compaction
  import opened WriteGroup
  import opened EngineState
  import opened EngineSteps

  // ----- the write queue ------------------------------------------------------------------------

  function Names(rs: seq<Retired>): (ws: seq<Writer>)
    ensures |ws| == |rs| && forall i :: 0 <= i < |ws| ==> ws[i] == rs[i].w
  {
    seq(|rs|, i requires 0 <= i < |rs| => rs[i].w)
  }

  ghost predicate Numbered(es: seq<Entry>, base: nat) {
    forall j :: 0 <= j < |es| ==> es[j].sequence == base + 1 + j
  }

  /** Where the range of commit i ends: at the next commit, or at the last published number. */
  ghost predicate Adjoins(commits: seq<Commit>, i: nat, last: nat)
    requires i < |commits|
  {
    && Numbered(commits[i].entries, commits[i].base)
    && commits[i].base + |commits[i].entries| == if i + 1 < |commits| then commits[i + 1].base else last
  }

  /** Sequence numbers of finished groups follow each other without gap or overlap. */
  ghost predicate Contiguous(commits: seq<Commit>, last: nat) {
    forall i :: 0 <= i < |commits| ==> Adjoins(commits, i, last)
  }

  /** The group is an admissible prefix of the queue, numbered from the last published number on. */
  ghost predicate GroupOk(q: Queue, g: Group, last: nat) {
    && Admissible(q.writers, g.count) && q.writers[0].batch.Some?
    && g.base == last && g.sync == q.writers[0].sync
    && g.entries == Number(AllOps(q.writers[..g.count]), last)
  }

  ghost predicate QueueInv(q: Queue, last: nat) {
    && q.arrived == Names(q.retired) + q.writers
    && (!q.leader.Idle? ==> q.writers != [])
    && (Working(q.leader).Some? ==> GroupOk(q, Working(q.leader).value, last))
    && (q.leader.Syncing? ==> q.leader.g.sync)
    && (q.leader.Inserting? ==> q.leader.n <= |q.leader.g.entries|)
    && Contiguous(q.commits, last)
  }

  // ----- memtables ------------------------------------------------------------------------------

  ghost predicate UpTo(S: set<Entry>, n: nat) {
    forall e :: e in S ==> e.sequence <= n
  }

  /** What is in the memtable of the group being inserted. */
  ghost predicate InsertedPart(m: Mem, l: Leader) {
    && (l.Inserting? && l.n <= |l.g.entries| ==> Elems(l.g.entries[..l.n]) <= MemSet(m))
    && (l.Finishing? && l.ok ==> Elems(l.g.entries) <= MemSet(m))
  }

  /** Tables, immutable memtable and memtable are layers of ascending age. */
  ghost predicate MemInv(m: Mem, flushed: set<Entry>, l: Leader) {
    && m.memId in m.memtables && (forall id :: id in m.memtables ==> id <= m.memId)
    && (m.imm.Some? ==> m.imm.value in m.memtables && m.imm.value < m.memId)
    && Unique(flushed + ImmSet(m) + MemSet(m))
    && UpTo(flushed + ImmSet(m), m.lastSequence)
    && Above(ImmSet(m), flushed) && Above(MemSet(m), flushed + ImmSet(m))
    && (forall e :: e in MemSet(m) ==> e.sequence <= m.lastSequence || e in InFlight(l))
    && InsertedPart(m, l)
  }

  // ----- logs and the manifest --------------------------------------------------------------------

  /** Live logs are newer than the tables, and a log of higher number is newer than one of lower number. */
  ghost predicate LogOrder(logs: map<nat, Log>, m: Mem, current: Version) {
    && m.memId in logs && (forall n :: n in logs ==> n <= m.memId)
    && current.logNumber <= (if m.imm.Some? then m.imm.value else m.memId)
    && (forall n :: n in logs && n >= current.logNumber ==> Above(LogSet(logs[n]), current.flushed))
    && (forall n, k :: n in logs && k in logs && current.logNumber <= n < k ==> Above(LogSet(logs[k]), LogSet(logs[n])))
    && (forall n :: n in logs && current.logNumber <= n < m.memId ==> UpTo(LogSet(logs[n]), m.lastSequence))
    && (forall n :: n in logs && n >= current.logNumber ==> Unique(LogSet(logs[n])))
  }

  /** The logs hold what the memtables hold; what is not yet published belongs to the group at work. */
  ghost predicate LogCovers(logs: map<nat, Log>, m: Mem, l: Leader) {
    && m.memId in logs && MemSet(m) <= LogSet(logs[m.memId])
    && (m.imm.Some? ==> m.imm.value in logs && ImmSet(m) <= LogSet(logs[m.imm.value]))
    && (forall e :: e in LogSet(logs[m.memId]) ==>
          e.sequence <= m.lastSequence || (Working(l).Some? && e in Working(l).value.entries))
    && Appended(logs[m.memId], l)
  }

  ghost predicate LogInv(logs: map<nat, Log>, m: Mem, current: Version, l: Leader) {
    LogOrder(logs, m, current) && LogCovers(logs, m, l)
  }

  /** The group's record is in the log before its entries go into the memtable. */
  ghost predicate Appended(log: Log, l: Leader) {
    && log.synced <= |log.records|
    && (l.Syncing? || l.Inserting? ==> Elems(l.g.entries) <= LogSet(log))
    && ((l.Inserting? || (l.Finishing? && l.ok)) && l.g.sync ==> Elems(l.g.entries) <= SyncedSet(log))
  }

  /** The manifest knows of every installed flush, and at most of one flush that is not installed. */
  ghost predicate DiskInv(f: Files, m: Mem, current: Version) {
    && current.flushed <= f.disk.flushed <= current.flushed + ImmSet(m)
    && (forall e :: e in f.disk.flushed && e !in TablesOf(f.tables, f.disk.files) ==> e in current.flushed)
    && current.logNumber <= f.disk.logNumber <= m.memId
    && (m.imm.Some? ==> f.disk.logNumber <= m.imm.value || ImmSet(m) <= f.disk.flushed)
    && f.diskLastSequence <= m.lastSequence
    && UpTo(f.disk.flushed, f.diskLastSequence) && f.disk.floor <= f.diskLastSequence
  }

  /** What was acknowledged with sync is in the store and, until it is flushed, in the synced part of its log. */
  ghost predicate PromiseInv(s: State) {
    && s.q.promised <= Hist(s)
    && s.m.memId in s.f.logs && s.q.promised * MemSet(s.m) <= SyncedSet(s.f.logs[s.m.memId])
    && (s.m.imm.Some? ==> s.m.imm.value in s.f.logs && s.q.promised * ImmSet(s.m) <= SyncedSet(s.f.logs[s.m.imm.value]))
  }

  // ----- versions and table files ---------------------------------------------------------------

  /** The tables of a version answer every read from its floor on like everything flushed to it. */
  ghost predicate VersionOk(tables: map<nat, set<Entry>>, v: Version) {
    && v.files <= tables.Keys
    && TablesOf(tables, v.files) <= v.flushed && Unique(v.flushed)
    && Agree(TablesOf(tables, v.files), v.flushed, v.floor)
  }

  ghost predicate VersionsInv(f: Files, current: Version, active: map<nat, Reader>) {
    && VersionOk(f.tables, current) && VersionOk(f.tables, f.disk)
    && forall id :: id in active ==> VersionOk(f.tables, active[id].version)
  }

  /** No version refers to the files. */
  ghost predicate Unreferenced(files: set<nat>, disk: Version, current: Version, active: map<nat, Reader>) {
    && files !! current.files && files !! disk.files
    && forall id :: id in active ==> files !! active[id].version.files
  }

  ghost predicate NumbersInv(s: State) {
    && s.m.memId < s.vs.nextFile
    && (forall n :: n in s.vs.current.files || n in s.f.disk.files || n in s.vs.pending ==> n < s.vs.nextFile)
    && (forall id, n :: id in s.r.active && n in s.r.active[id].version.files ==> n < s.vs.nextFile)
  }

  // ----- the background thread ------------------------------------------------------------------

  /** The edit being applied is the one the flush or the compaction calls for. */
  ghost predicate EditOk(s: State, e: Edit, kind: Kind, comp: Option<Comp>) {
    && e.added <= s.f.tables.Keys && e.lastSequence <= s.m.lastSequence
    && s.f.diskLastSequence <= e.lastSequence
    && match kind
       case Flush =>
         && s.m.imm.Some? && e.removed == {} && e.logNumber == s.m.memId && e.smallest == 0
         && e.flushes == ImmSet(s.m) == TablesOf(s.f.tables, e.added) && UpTo(e.flushes, e.lastSequence)
         && (comp.Some? ==> e.added !! comp.value.outputs)
       case Compact =>
         && comp.Some? && e.added == comp.value.outputs && e.removed == comp.value.inputs
         && e.logNumber == s.vs.current.logNumber && e.flushes == {}
         && e.smallest == comp.value.smallest <= e.lastSequence
         && TablesOf(s.f.tables, e.added) == Elems(Survivors(comp.value.input, comp.value.smallest, comp.value.base))
       case Move =>
         comp.None? && e == Edit({}, {}, s.vs.current.logNumber, e.lastSequence, {}, 0)
  }

  /** The running compaction may still replace its inputs in version v. */
  ghost predicate CompOk(tables: map<nat, set<Entry>>, c: Comp, v: Version) {
    && c.inputs <= v.files
    && BaseLevelSound(Elems(c.input), TablesOf(tables, v.files - c.inputs), c.base)
  }

  /** The manifest has, or may have, the outputs of the compaction in place of its inputs. */
  predicate OnDisk(w: Work) {
    (w.Written? || w.WriteFailed?) && w.kind.Compact?
  }

  ghost predicate CompInv(s: State, c: Comp, w: Work) {
    && Merged(c.input) && Elems(c.input) == TablesOf(s.f.tables, c.inputs)
    && c.smallest < MAX_SEQUENCE && c.smallest <= s.m.lastSequence
    && (forall id :: id in s.r.snapshots ==> c.smallest <= s.r.snapshots[id])
    && CompOk(s.f.tables, c, s.vs.current)
    && (!OnDisk(w) ==> CompOk(s.f.tables, c, s.f.disk) && c.outputs !! s.f.disk.files)
    && c.outputs <= s.vs.pending && c.outputs !! s.vs.current.files
    && forall id :: id in s.r.active ==> c.outputs !! s.r.active[id].version.files
  }

  ghost predicate WorkInv(s: State, comp: Option<Comp>, w: Work) {
    match w
    case Ready => comp.Some?
    case Building(n) =>
      && s.m.imm.Some? && n in s.vs.pending && Unreferenced({n}, s.f.disk, s.vs.current, s.r.active)
      && (comp.Some? ==> n !in comp.value.outputs)
    case Built(n, ok) =>
      && s.m.imm.Some? && Unreferenced({n}, s.f.disk, s.vs.current, s.r.active) && n < s.vs.nextFile
      && (comp.Some? ==> n !in comp.value.outputs)
      && (ok ==> n in s.f.tables && s.f.tables[n] == ImmSet(s.m))
    case Applying(e, kind) =>
      && EditOk(s, e, kind, comp) && Unreferenced(e.added, s.f.disk, s.vs.current, s.r.active)
      && (forall n :: n in e.added ==> n < s.vs.nextFile)
    case Written(e, kind) =>
      && EditOk(s, e, kind, comp)
      && e.added !! s.vs.current.files && (forall id :: id in s.r.active ==> e.added !! s.r.active[id].version.files)
      && (forall n :: n in e.added ==> n < s.vs.nextFile)
      && e.flushes <= s.f.disk.flushed && s.f.disk.logNumber == e.logNumber
    case WriteFailed(kind) => (kind.Compact? ==> comp.Some?) && (kind.Move? ==> comp.None?)
    case Collecting(d) =>
      && Unreferenced(d.tables, s.f.disk, s.vs.current, s.r.active) && d.tables !! s.vs.pending
      && (forall n :: n in d.logs ==> n < s.vs.current.logNumber)
      && (forall n :: n in d.manifests ==> n < s.vs.manifestNumber)
    case Ending => comp.None?
  }

  ghost predicate PhaseInv(s: State) {
    s.b.phase.Running? ==>
      && WorkInv(s, s.b.phase.comp, s.b.phase.work)
      && (s.b.phase.comp.Some? ==> CompInv(s, s.b.phase.comp.value, s.b.phase.work))
  }

  /** Without a background error the manifest and the installed version differ by the edit under way only. */
  ghost predicate ManifestInv(s: State) {
    && s.vs.manifestNumber in s.f.manifests
    && (!s.b.bgError ==>
          if s.b.phase.Running? && s.b.phase.work.Written? then s.f.disk == ApplyEdit(s.vs.current, s.b.phase.work.edit)
          else (s.b.phase.Running? && s.b.phase.work.WriteFailed?) || s.f.disk == s.vs.current)
  }

  /** Work is never forgotten: whoever waits for the background thread has a call to wait for. */
  ghost predicate WakeInv(s: State) {
    && s.b.hasImm == s.m.imm.Some?
    && s.b.calls <= 1 && (s.b.scheduled <==> s.b.calls == 1)
    && (s.b.phase.Running? ==> s.b.calls == 1)
    && CompactionScore(s.vs.level0, s.vs.needsCompaction)
    && (!s.b.bgError && !s.b.shuttingDown && (s.m.imm.Some? || s.vs.needsCompaction) ==> s.b.scheduled)
    && (s.q.leader.Waiting? ==> !s.b.bgError && (s.b.scheduled || s.b.shuttingDown))
  }

  // ----- readers --------------------------------------------------------------------------------

  ghost function ReaderImm(m: Mem, r: Reader): set<Entry> {
    if r.imm.Some? then Memtable(m, r.imm.value) else {}
  }

  /** A reader's layers hold exactly what the store held at its sequence number. */
  ghost predicate ReaderOk(s: State, r: Reader) {
    && r.snapshot <= s.m.lastSequence && r.version.floor <= r.snapshot
    && r.memId in s.m.memtables && (r.imm.Some? ==> r.imm.value in s.m.memtables && r.imm.value != s.m.memId)
    && r.version.flushed + ReaderImm(s.m, r) + Memtable(s.m, r.memId) <= Hist(s)
    && (forall e :: e in Hist(s) && e.sequence <= r.snapshot ==>
          e in r.version.flushed + ReaderImm(s.m, r) + Memtable(s.m, r.memId))
    && Above(ReaderImm(s.m, r), r.version.flushed)
    && Above(Memtable(s.m, r.memId), r.version.flushed + ReaderImm(s.m, r))
  }

  ghost predicate ReadersInv(s: State) {
    && (forall id :: id in s.r.active ==> ReaderOk(s, s.r.active[id]))
    && (forall id :: id in s.r.snapshots ==> s.vs.current.floor <= s.r.snapshots[id] <= s.m.lastSequence)
    && s.vs.current.floor <= s.m.lastSequence
  }

  /** Number n separates no group: it is outside the range of every commit. */
  ghost predicate Boundary(commits: seq<Commit>, n: nat) {
    forall c :: c in commits ==> n <= c.base || n >= c.base + |c.entries|
  }

  ghost predicate AtomicInv(s: State) {
    && (forall c :: c in s.q.commits && c.ok ==> Elems(c.entries) <= Hist(s))
    && (forall id :: id in s.r.snapshots ==> Boundary(s.q.commits, s.r.snapshots[id]))
    && (forall id :: id in s.r.active ==> Boundary(s.q.commits, s.r.active[id].snapshot))
  }

  ghost predicate Inv(s: State) {
    && QueueInv(s.q, s.m.lastSequence)
    && MemInv(s.m, s.vs.current.flushed, s.q.leader)
    && LogInv(s.f.logs, s.m, s.vs.current, s.q.leader)
    && DiskInv(s.f, s.m, s.vs.current)
    && PromiseInv(s)
    && VersionsInv(s.f, s.vs.current, s.r.active)
    && NumbersInv(s)
    && PhaseInv(s)
    && ManifestInv(s)
    && WakeInv(s)
    && ReadersInv(s)
    && AtomicInv(s)
  }
}
