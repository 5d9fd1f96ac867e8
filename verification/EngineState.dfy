/**
 The storage engine as a state machine (db/db_impl.cc).  This module holds the state: the
 write queue, the memtables, the files on disk, the version set, the background thread and
 the readers.  Module EngineSteps has the steps, each a region of code between two
 acquisitions or releases of the mutex, or one effect of code that runs without it.
 */
module EngineState {
  import opened Wrappers
  import opened History
  import opened Layers
  import opened Compaction
  import opened WriteGroup

  const L0_SLOWDOWN: nat := 8       // config::kL0_SlowdownWritesTrigger
  const L0_STOP: nat := 12          // config::kL0_StopWritesTrigger
  const L0_COMPACT: nat := 4        // config::kL0_CompactionTrigger

  // ----- files ----------------------------------------------------------------------------------

  /** A write-ahead log: one record for each group; the first synced records are on stable storage. */
  datatype Log = Log(records: seq<seq<Entry>>, synced: nat)

  /** The entries in the first n records. */
  ghost function LogPrefix(log: Log, n: nat): set<Entry> {
    set i, e | 0 <= i < n && i < |log.records| && e in log.records[i] :: e
  }

  ghost function LogSet(log: Log): set<Entry> {
    LogPrefix(log, |log.records|)
  }

  ghost function SyncedSet(log: Log): set<Entry> {
    LogPrefix(log, log.synced)
  }

  /** What recovery replays when the log number is from. */
  ghost function LiveLogs(logs: map<nat, Log>, from: nat): set<Entry> {
    set n, e | n in logs && n >= from && e in LogSet(logs[n]) :: e
  }

  /** All entries of a set of table files. */
  ghost function TablesOf(tables: map<nat, set<Entry>>, files: set<nat>): set<Entry> {
    set n, e | n in files && n in tables && e in tables[n] :: e
  }

  /**
   A version: its table files and the log number stored with it.  Two more components only
   record history: flushed is everything ever written to the tables of this line of
   versions, and floor the largest smallest_snapshot of a compaction that went into it.
   */
  datatype Version = Version(files: set<nat>, logNumber: nat, flushed: set<Entry>, floor: nat)

  /** A version edit, with the entries it flushes and the snapshot bound of its compaction. */
  datatype Edit = Edit(added: set<nat>, removed: set<nat>, logNumber: nat, lastSequence: nat,
                       flushes: set<Entry>, smallest: nat)

  function Max(a: nat, b: nat): nat { if a < b then b else a }

  function ApplyEdit(v: Version, e: Edit): Version {
    Version(v.files - e.removed + e.added, e.logNumber, v.flushed + e.flushes, Max(v.floor, e.smallest))
  }

  /** The directory.  disk is the version that the manifest file describes. */
  datatype Files = Files(tables: map<nat, set<Entry>>, logs: map<nat, Log>, manifests: set<nat>,
                         disk: Version, diskLastSequence: nat)

  // ----- memory ---------------------------------------------------------------------------------

  /** A memtable is named by the number of the log that backs it. */
  datatype Mem = Mem(lastSequence: nat, memtables: map<nat, set<Entry>>, memId: nat, imm: Option<nat>)

  ghost function Memtable(m: Mem, id: nat): set<Entry> {
    if id in m.memtables then m.memtables[id] else {}
  }

  ghost function MemSet(m: Mem): set<Entry> {
    Memtable(m, m.memId)
  }

  ghost function ImmSet(m: Mem): set<Entry> {
    if m.imm.Some? then Memtable(m, m.imm.value) else {}
  }

  /** VersionSet, with level0 the number of files at level 0 of the current version. */
  datatype Vs = Vs(nextFile: nat, current: Version, pending: set<nat>, manifestNumber: nat,
                   level0: nat, needsCompaction: bool)

  // ----- writers --------------------------------------------------------------------------------

  /** A group on its way: how many writers it covers, its entries, and whether it syncs. */
  datatype Group = Group(count: nat, base: nat, entries: seq<Entry>, sync: bool)

  /** What the writer at the front of the queue is doing. */
  datatype Leader =
    | Idle                                     // the front writer has not taken the lead yet
    | Room(force: bool, allowDelay: bool)      // in MakeRoomForWrite, about to test its conditions
    | Waiting(force: bool, allowDelay: bool)   // in MakeRoomForWrite, waiting to be signalled
    | Logging(g: Group)
    | Syncing(g: Group)
    | Inserting(g: Group, n: nat)              // the first n entries are in the memtable
    | Finishing(g: Group, ok: bool, syncError: bool)

  datatype Retired = Retired(w: Writer, ok: bool)

  datatype Commit = Commit(base: nat, entries: seq<Entry>, ok: bool)

  /** arrived, retired, commits and promised record history. */
  datatype Queue = Queue(writers: seq<Writer>, leader: Leader, arrived: seq<Writer>, retired: seq<Retired>,
                         commits: seq<Commit>, promised: set<Entry>)

  /** The entries of a batch whose first sequence number is base + 1. */
  function Number(ops: Batch, base: nat): (es: seq<Entry>)
    ensures |es| == |ops|
    ensures forall i :: 0 <= i < |es| ==> es[i].sequence == base + 1 + i
  {
    seq(|ops|, i requires 0 <= i < |ops| => Entry(ops[i].key, base + 1 + i, ops[i].kind, ops[i].value))
  }

  ghost function InFlight(l: Leader): seq<Entry> {
    match l
    case Inserting(g, n) => if n <= |g.entries| then g.entries[..n] else []
    case Finishing(g, _, _) => g.entries
    case _ => []
  }

  /** The group being worked on, if any. */
  function Working(l: Leader): Option<Group> {
    match l
    case Logging(g) => Some(g)
    case Syncing(g) => Some(g)
    case Inserting(g, _) => Some(g)
    case Finishing(g, _, _) => Some(g)
    case _ => None
  }

  // ----- background thread and readers ----------------------------------------------------------

  /** A running compaction: its input files and merged input, and the output files opened so far. */
  datatype Comp = Comp(inputs: set<nat>, input: seq<Entry>, smallest: nat, base: BaseLevel, outputs: set<nat>)

  datatype Kind = Flush | Compact | Move

  datatype Doomed = Doomed(tables: set<nat>, logs: set<nat>, manifests: set<nat>)

  datatype Work =
    | Ready                             // in the compaction loop, if there is a compaction
    | Building(file: nat)               // BuildTable of the immutable memtable
    | Built(file: nat, ok: bool)
    | Applying(edit: Edit, kind: Kind)  // LogAndApply before the manifest record is written
    | Written(edit: Edit, kind: Kind)   // the record is written, the version not yet installed
    | WriteFailed(kind: Kind)
    | Collecting(doomed: Doomed)        // RemoveObsoleteFiles, deleting without the mutex
    | Ending

  datatype Phase = Resting | Running(comp: Option<Comp>, work: Work)

  /** calls counts the background calls that are scheduled or running. */
  datatype Back = Back(hasImm: bool, scheduled: bool, calls: nat, phase: Phase, bgError: bool, shuttingDown: bool)

  /** A reader holds references to the memtables and the version it started with. */
  datatype Reader = Reader(snapshot: nat, memId: nat, imm: Option<nat>, version: Version)

  datatype Readers = Readers(snapshots: map<nat, nat>, active: map<nat, Reader>)

  datatype State = State(q: Queue, m: Mem, f: Files, vs: Vs, b: Back, r: Readers)

  /** Everything ever inserted into the store: the simple store that all of this implements. */
  ghost function Hist(s: State): set<Entry> {
    s.vs.current.flushed + ImmSet(s.m) + MemSet(s.m)
  }

  /** The answer of Get for a reader. */
  ghost function Get(s: State, r: Reader, k: UserKey): Option<Bytes> {
    FirstHit(Memtable(s.m, r.memId), if r.imm.Some? then Memtable(s.m, r.imm.value) else {},
             TablesOf(s.f.tables, r.version.files), k, r.snapshot)
  }

  // ----- lemmas about files ---------------------------------------------------------------------

  lemma TablesSplit(tables: map<nat, set<Entry>>, a: set<nat>, b: set<nat>)
    ensures TablesOf(tables, a + b) == TablesOf(tables, a) + TablesOf(tables, b)
  {
  }

  lemma TablesFrame(t: map<nat, set<Entry>>, u: map<nat, set<Entry>>, files: set<nat>)
    requires forall n :: n in files ==> (n in t <==> n in u) && (n in t ==> t[n] == u[n])
    ensures TablesOf(t, files) == TablesOf(u, files)
  {
  }

  lemma LogAppended(log: Log, r: seq<Entry>)
    ensures LogSet(Log(log.records + [r], log.synced)) == LogSet(log) + Elems(r)
  {
    var l := Log(log.records + [r], log.synced);
    forall e | e in Elems(r) ensures e in LogSet(l) { assert l.records[|log.records|] == r; }
    forall e | e in LogSet(log) ensures e in LogSet(l) {
      var i :| 0 <= i < |log.records| && e in log.records[i];
      assert l.records[i] == log.records[i];
    }
  }

  lemma LogPrefixGrows(log: Log, n: nat, k: nat)
    requires n <= k
    ensures LogPrefix(log, n) <= LogPrefix(log, k)
  {
  }
}
