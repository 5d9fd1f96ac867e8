/**
 Opening a database (db/db_impl.cc, Recover and RecoverLogFile): every log from the
 manifest's log number on is replayed in order into memtables, which become level-0 tables,
 or, for the last log, the memtable of the new run.
 */
module LogReplay {
  import opened Wrappers
  import opened History
  import opened WriteGroup
  import opened EngineState

  /** The contents of several tables together. */
  ghost function UnionOf(ts: seq<set<Entry>>): set<Entry> {
    set i, e | 0 <= i < |ts| && e in ts[i] :: e
  }

  lemma UnionOfAppend(ts: seq<set<Entry>>, t: set<Entry>)
    ensures UnionOf(ts + [t]) == UnionOf(ts) + t
  {
    var u := ts + [t];
    forall e | e in UnionOf(ts) + t ensures e in UnionOf(u) {
      if e in t {
        assert u[|ts|] == t;
      } else {
        var i :| 0 <= i < |ts| && e in ts[i];
        assert u[i] == ts[i];
      }
    }
  }

  lemma UnionOfConcat(ts: seq<set<Entry>>, us: seq<set<Entry>>)
    ensures UnionOf(ts + us) == UnionOf(ts) + UnionOf(us)
  {
    forall e | e in UnionOf(ts) + UnionOf(us) ensures e in UnionOf(ts + us) {
      if e in UnionOf(ts) {
        var i :| 0 <= i < |ts| && e in ts[i];
        assert (ts + us)[i] == ts[i];
      } else {
        var i :| 0 <= i < |us| && e in us[i];
        assert (ts + us)[|ts| + i] == us[i];
      }
    }
  }

  /** A log record is a batch: one sequence number in its header, counted up by its entries. */
  ghost predicate IsBatch(r: seq<Entry>) {
    forall i, j :: 0 <= i < j < |r| ==> r[i].sequence < r[j].sequence
  }

  ghost predicate NoneEmpty(ts: seq<set<Entry>>) {
    forall i :: 0 <= i < |ts| ==> ts[i] != {}
  }

  /** What the environment decides during a replay, by record number. */
  datatype ReplayEnv = ReplayEnv(
    full: nat -> bool,         // ApproximateMemoryUsage() > write_buffer_size
    writeFails: nat -> bool,   // WriteLevel0Table
    appendable: bool)          // the last log can be opened for appending

  /** The tables written, the memtable kept with its log, and what the new version set needs to know. */
  datatype Replayed = Replayed(tables: seq<set<Entry>>, mem: Option<set<Entry>>, maxSequence: nat, saveManifest: bool)

  /** WriteLevel0Table during recovery: an empty memtable leaves no file. */
  function WithTable(tables: seq<set<Entry>>, mem: set<Entry>): seq<set<Entry>> {
    if mem == {} then tables else tables + [mem]
  }

  lemma WithTableAdds(tables: seq<set<Entry>>, mem: set<Entry>)
    requires NoneEmpty(tables)
    ensures NoneEmpty(WithTable(tables, mem)) && UnionOf(WithTable(tables, mem)) == UnionOf(tables) + mem
  {
    if mem != {} { UnionOfAppend(tables, mem); }
  }

  lemma PrefixStep(log: Log, i: nat)
    requires i < |log.records|
    ensures LogPrefix(log, i + 1) == LogPrefix(log, i) + Elems(log.records[i])
  {
  }

  ghost function OrEmpty(mem: Option<set<Entry>>): set<Entry> {
    if mem.Some? then mem.value else {}
  }

  /** WriteBatchInternal::InsertInto on a memtable that is created when the first record arrives. */
  function InsertInto(record: seq<Entry>, mem: Option<set<Entry>>): (r: set<Entry>)
    ensures r == OrEmpty(mem) + Elems(record)
  {
    (if mem.Some? then mem.value else {}) + set e | e in record
  }

  /** Everything replayed so far is in a table or in the memtable, and counted in the largest number. */
  ghost predicate ReplayedSoFar(log: Log, i: nat, r: Replayed, mem: Option<set<Entry>>, start: nat) {
    && UnionOf(r.tables) + OrEmpty(mem) == LogPrefix(log, i) && NoneEmpty(r.tables)
    && UpToNumber(LogPrefix(log, i), r.maxSequence) && r.maxSequence >= start
  }

  ghost predicate UpToNumber(S: set<Entry>, n: nat) {
    forall e :: e in S ==> e.sequence <= n
  }

  lemma RecordReplayed(log: Log, i: nat, r: Replayed, mem: Option<set<Entry>>, start: nat, max: nat)
    requires ReplayedSoFar(log, i, r, mem, start) && i < |log.records| && IsBatch(log.records[i])
    requires max >= r.maxSequence && (log.records[i] != [] ==> max >= log.records[i][|log.records[i]| - 1].sequence)
    ensures ReplayedSoFar(log, i + 1, r.(maxSequence := max), Some(InsertInto(log.records[i], mem)), start)
  {
    hide UnionOf, LogPrefix;
    PrefixStep(log, i);
    var record := log.records[i];
    forall e | e in record ensures e.sequence <= max {
      var j :| 0 <= j < |record| && record[j] == e;
      assert j < |record| - 1 ==> record[j].sequence < record[|record| - 1].sequence;
    }
  }

  lemma TableWritten(log: Log, i: nat, r: Replayed, mem: set<Entry>, start: nat)
    requires ReplayedSoFar(log, i, r, Some(mem), start)
    ensures ReplayedSoFar(log, i, r.(tables := WithTable(r.tables, mem), saveManifest := true), None, start)
  {
    hide UnionOf, LogPrefix;
    WithTableAdds(r.tables, mem);
  }

  /** The entries of the records from a up to b. */
  ghost function RunSet(log: Log, a: nat, b: nat): set<Entry> {
    set i, e | a <= i < b && i < |log.records| && e in log.records[i] :: e
  }

  /** From record a on, the memtable was not full before record b. */
  ghost predicate NotFullWithin(env: ReplayEnv, a: nat, b: nat) {
    forall k :: a < k < b ==> !env.full(k)
  }

  /** t holds the records since the memtable was last full (or the log began) until it was full (or the log ended). */
  ghost predicate IsFilling(log: Log, env: ReplayEnv, t: set<Entry>) {
    exists a: nat, b: nat {:trigger RunSet(log, a, b)} ::
      && a < b <= |log.records| && t == RunSet(log, a, b) && NotFullWithin(env, a, b)
      && (a == 0 || env.full(a)) && (b == |log.records| || env.full(b))
  }

  lemma RunGrows(log: Log, a: nat, i: nat, mem: Option<set<Entry>>)
    requires a <= i < |log.records| && (if mem.Some? then mem.value == RunSet(log, a, i) else a == i)
    ensures InsertInto(log.records[i], mem) == RunSet(log, a, i + 1)
  {
  }

  /** max is the number of an entry in S, or the one known before. */
  ghost predicate IsNumberIn(S: set<Entry>, max: nat, start: nat) {
    max == start || exists e :: e in S && e.sequence == max
  }

  lemma NumberStays(S: set<Entry>, T: set<Entry>, max: nat, start: nat)
    requires IsNumberIn(S, max, start) && S <= T
    ensures IsNumberIn(T, max, start)
  {
  }

  lemma NumberCounted(log: Log, i: nat, max: nat, start: nat)
    requires i < |log.records| && IsNumberIn(LogPrefix(log, i), max, start)
    ensures IsNumberIn(LogPrefix(log, i + 1), max, start)
    ensures log.records[i] != [] ==>
              IsNumberIn(LogPrefix(log, i + 1), log.records[i][|log.records[i]| - 1].sequence, start)
  {
    hide LogPrefix;
    PrefixStep(log, i);
    if log.records[i] != [] {
      assert log.records[i][|log.records[i]| - 1] in LogPrefix(log, i + 1);
    }
  }

  lemma PrefixIsPart(log: Log, i: nat, max: nat, start: nat)
    requires i <= |log.records| && IsNumberIn(LogPrefix(log, i), max, start)
    ensures IsNumberIn(LogSet(log), max, start)
  {
    LogPrefixGrows(log, i, |log.records|);
  }

  /** The log's entries fit in one memtable, and the log can be appended to. */
  predicate NeverFull(env: ReplayEnv, log: Log) {
    env.appendable && forall i :: 0 < i <= |log.records| ==> !env.full(i)
  }

  /** RecoverLogFile. */
  method RecoverLogFile(log: Log, lastLog: bool, reuseLogs: bool, env: ReplayEnv, maxSequence: nat, saveManifest: bool)
    returns (status: Status, r: Replayed)
    requires forall i :: 0 <= i < |log.records| ==> IsBatch(log.records[i])
    ensures status.OK? ==> UnionOf(r.tables) + OrEmpty(r.mem) == LogSet(log) && UpToNumber(LogSet(log), r.maxSequence)
    ensures r.maxSequence >= maxSequence && NoneEmpty(r.tables)
    ensures status.OK? && r.mem.Some? ==> r.tables == [] && r.mem.value == LogSet(log)
    // the memtable is kept exactly for the last log, if it never was full; otherwise the manifest has news
    ensures status.OK? ==> (r.mem.Some? <==> lastLog && reuseLogs && NeverFull(env, log))
    ensures status.OK? ==> (r.saveManifest <==> saveManifest || (log.records != [] && r.mem.None?))
    ensures status.OK? && r.tables != [] ==> r.saveManifest
    // a table ends where the memtable was full, or with the log
    ensures forall x :: 0 <= x < |r.tables| ==> IsFilling(log, env, r.tables[x])
    // the largest number is that of an entry, or the one known before
    ensures IsNumberIn(LogSet(log), r.maxSequence, maxSequence)
    ensures status.IOError? ==> exists i: nat :: i <= |log.records| && env.writeFails(i)
  {
    hide UnionOf, LogPrefix, LogSet, IsBatch, IsNumberIn, NoneEmpty, RunSet;
    status := OK;
    r := Replayed([], None, maxSequence, saveManifest);
    NothingReplayed(log);
    var mem: Option<set<Entry>> := None;
    var compactions := 0;
    ghost var from := 0;
    var i := 0;
    while i < |log.records|
      invariant 0 <= i <= |log.records| && status.OK? && r.mem.None?
      invariant from <= i && (from == 0 || env.full(from)) && NotFullWithin(env, from, i + 1)
      invariant if mem.Some? then from < i && mem.value == RunSet(log, from, i) else from == i
      invariant forall x :: 0 <= x < |r.tables| ==> IsFilling(log, env, r.tables[x])
      invariant ReplayedSoFar(log, i, r, mem, maxSequence)
      invariant (compactions == 0 ==> r.tables == [] && mem.Some? == (i > 0)) && (r.saveManifest <==> saveManifest || compactions > 0)
      invariant (compactions == 0 <==> forall k :: 0 < k <= i ==> !env.full(k)) && (compactions > 0 ==> i > 0)
      invariant IsNumberIn(LogPrefix(log, i), r.maxSequence, maxSequence)
    {
      var record := log.records[i];
      var lastSeq := if record != [] then record[|record| - 1].sequence else 0;
      RecordReplayed(log, i, r, mem, maxSequence, if lastSeq > r.maxSequence then lastSeq else r.maxSequence);
      NumberCounted(log, i, r.maxSequence, maxSequence);
      RunGrows(log, from, i, mem);
      var contents := InsertInto(record, mem);
      if lastSeq > r.maxSequence {
        r := r.(maxSequence := lastSeq);
      }
      mem := Some(contents);
      i := i + 1;
      if env.full(i) {
        compactions := compactions + 1;
        if env.writeFails(i) {
          PrefixIsPart(log, i, r.maxSequence, maxSequence);
          status := IOError;   // reflected immediately
          return;
        }
        TableWritten(log, i, r, contents, maxSequence);
        assert IsFilling(log, env, RunSet(log, from, i));
        from := i;
        r := r.(tables := WithTable(r.tables, contents), saveManifest := true);
        mem := None;
      }
    }
    PrefixIsPart(log, i, r.maxSequence, maxSequence);
    if reuseLogs && lastLog && compactions == 0 && env.appendable {
      r := r.(mem := Some(if mem.Some? then mem.value else {}));
    } else if mem.Some? {
      if env.writeFails(i) {
        status := IOError;
        return;
      }
      TableWritten(log, i, r, mem.value, maxSequence);
      assert IsFilling(log, env, RunSet(log, from, i));
      r := r.(tables := WithTable(r.tables, mem.value), saveManifest := true);
    }
  }

  lemma NothingReplayed(log: Log)
    ensures UnionOf([]) == {} && LogPrefix(log, 0) == {} && LogSet(log) == LogPrefix(log, |log.records|) && NoneEmpty([])
    ensures forall n :: IsNumberIn({}, n, n)
  {
  }

  // ----- all logs -----------------------------------------------------------------------------------

  /** The result of Recover: tables in the order written, and the log and memtable taken over, if any. */
  datatype Outcome = Outcome(tables: seq<set<Entry>>, reuse: Option<(nat, set<Entry>)>, maxSequence: nat, saveManifest: bool)

  ghost function Reused(o: Outcome): set<Entry> {
    if o.reuse.Some? then o.reuse.value.1 else {}
  }

  /** Everything in the logs from number from on is in the tables written or in the memtable taken over. */
  ghost predicate Replays(logs: map<nat, Log>, from: nat, o: Outcome) {
    && UnionOf(o.tables) + Reused(o) == LiveLogs(logs, from)
    && (o.reuse.Some? ==>
          && o.reuse.value.0 in logs && o.reuse.value.0 >= from
          && (forall k :: k in logs && k >= from ==> k <= o.reuse.value.0)
          && Reused(o) == LogSet(logs[o.reuse.value.0])
          && UnionOf(o.tables) == LiveLogs(logs - {o.reuse.value.0}, from))
    && (forall e :: e in LiveLogs(logs, from) ==> e.sequence <= o.maxSequence)
    && (o.tables != [] ==> o.saveManifest) && NoneEmpty(o.tables)
  }

  ghost predicate Ascending(ns: seq<nat>) {
    forall i, j :: 0 <= i < j < |ns| ==> ns[i] < ns[j]
  }

  /** The log numbers to replay, in the order in which the logs were generated. */
  method LogsToReplay(numbers: seq<nat>, minLog: nat) returns (ns: seq<nat>)
    requires forall i, j :: 0 <= i < j < |numbers| ==> numbers[i] != numbers[j]
    ensures Ascending(ns) && forall n :: n in ns <==> n in numbers && n >= minLog
  {
    ns := [];
    var i := 0;
    while i < |numbers|
      invariant 0 <= i <= |numbers| && Ascending(ns)
      invariant forall n :: n in ns <==> n in numbers[..i] && n >= minLog
    {
      assert numbers[..i + 1] == numbers[..i] + [numbers[i]];
      if numbers[i] >= minLog {
        assert numbers[i] !in numbers[..i];
        ns := InsertSorted(ns, numbers[i]);
      }
      i := i + 1;
    }
    assert numbers[..i] == numbers;
  }

  method InsertSorted(ns: seq<nat>, n: nat) returns (r: seq<nat>)
    requires Ascending(ns) && n !in ns
    ensures Ascending(r) && forall k :: k in r <==> k in ns || k == n
  {
    var j := |ns|;
    while j > 0 && ns[j - 1] > n
      invariant 0 <= j <= |ns| && forall k :: j <= k < |ns| ==> ns[k] > n
    {
      j := j - 1;
    }
    r := ns[..j] + [n] + ns[j..];
    InsertedAt(ns, j, n);
  }

  lemma InsertedAt(ns: seq<nat>, j: nat, n: nat)
    requires Ascending(ns) && n !in ns && j <= |ns|
    requires forall k :: j <= k < |ns| ==> ns[k] > n
    requires j > 0 ==> ns[j - 1] <= n
    ensures Ascending(ns[..j] + [n] + ns[j..])
    ensures forall k :: k in ns[..j] + [n] + ns[j..] <==> k in ns || k == n
  {
    var lower, upper := ns[..j], ns[j..];
    assert ns == lower + upper;
    forall a | 0 <= a < |lower| ensures lower[a] < n {
      assert lower[a] in ns && (a < j - 1 ==> ns[a] < ns[j - 1]);
    }
    AscendingJoin(lower, [n]);
    AscendingJoin(lower + [n], upper);
  }

  lemma AscendingJoin(a: seq<nat>, b: seq<nat>)
    requires Ascending(a) && Ascending(b) && forall i, j :: 0 <= i < |a| && 0 <= j < |b| ==> a[i] < b[j]
    ensures Ascending(a + b)
  {
  }

  /** The entries of the listed logs. */
  ghost function LogsOf(logs: map<nat, Log>, ns: seq<nat>): set<Entry> {
    set n, e | n in ns && n in logs && e in LogSet(logs[n]) :: e
  }

  lemma LogsOfStep(logs: map<nat, Log>, ns: seq<nat>, i: nat)
    requires i < |ns| && ns[i] in logs
    ensures LogsOf(logs, ns[..i + 1]) == LogsOf(logs, ns[..i]) + LogSet(logs[ns[i]])
  {
    hide LogSet;
    assert ns[..i + 1] == ns[..i] + [ns[i]];
  }

  lemma LogsOfLive(logs: map<nat, Log>, ns: seq<nat>, minLog: nat)
    requires forall n :: n in ns <==> n in logs && n >= minLog
    ensures LogsOf(logs, ns) == LiveLogs(logs, minLog)
  {
    hide LogSet;
  }

  ghost predicate IsLastLog(logs: map<nat, Log>, minLog: nat, n: nat) {
    n in logs && n >= minLog && forall k :: k in logs && k >= minLog ==> k <= n
  }

  /** Among the first i logs, some with records left no memtable behind. */
  ghost predicate SomeStored(logs: map<nat, Log>, ns: seq<nat>, i: nat, reused: bool)
    requires i <= |ns|
  {
    exists x :: 0 <= x < i && ns[x] in logs && logs[ns[x]].records != [] && !(reused && x == i - 1)
  }

  lemma SomeStoredStep(logs: map<nat, Log>, ns: seq<nat>, i: nat, reused: bool)
    requires i < |ns| && ns[i] in logs
    ensures SomeStored(logs, ns, i + 1, reused) <==> SomeStored(logs, ns, i, false) || (logs[ns[i]].records != [] && !reused)
  {
    if SomeStored(logs, ns, i, false) {
      var x :| 0 <= x < i && ns[x] in logs && logs[ns[x]].records != [];
      assert !(reused && x == i + 1 - 1);
    }
  }

  lemma NumberChains(S: set<Entry>, T: set<Entry>, a: nat, b: nat, start: nat)
    requires IsNumberIn(S, a, start) && IsNumberIn(T, b, a)
    ensures IsNumberIn(S + T, b, start)
  {
    NumberStays(S, S + T, a, start);
    if b != a {
      var e :| e in T && e.sequence == b;
      assert e in S + T;
    }
  }

  /** What the loop of Recover knows in the end, in terms of log numbers. */
  lemma OutcomeInNumbers(logs: map<nat, Log>, ns: seq<nat>, minLog: nat, reuseLogs: bool, envs: nat -> ReplayEnv, o: Outcome, saveManifest: bool)
    requires Ascending(ns) && forall n :: n in ns <==> n in logs && n >= minLog
    requires TakenOver(logs, ns, |ns|, o, reuseLogs, envs, saveManifest)
    ensures o.reuse.Some? <==> reuseLogs && exists n :: IsLastLog(logs, minLog, n) && NeverFull(envs(n), logs[n])
    ensures o.saveManifest <==> saveManifest || exists n :: n in logs && n >= minLog && logs[n].records != []
                                                            && !(o.reuse.Some? && o.reuse.value.0 == n)
  {
    hide NeverFull;
    if ns != [] {
      LastLogReused(logs, ns, minLog);
      assert IsLastLog(logs, minLog, ns[|ns| - 1]);
    }
    forall n | IsLastLog(logs, minLog, n) ensures ns != [] && n == ns[|ns| - 1] {
      assert n in ns;
    }
    if n :| n in logs && n >= minLog && logs[n].records != [] && !(o.reuse.Some? && o.reuse.value.0 == n) {
      assert n in ns;
      var x :| 0 <= x < |ns| && ns[x] == n;
      assert ns[x] in logs && logs[ns[x]].records != [] && !(o.reuse.Some? && x == |ns| - 1);
    }
    if SomeStored(logs, ns, |ns|, o.reuse.Some?) {
      var x :| 0 <= x < |ns| && ns[x] in logs && logs[ns[x]].records != [] && !(o.reuse.Some? && x == |ns| - 1);
      assert ns[x] in ns && (x < |ns| - 1 ==> ns[x] < ns[|ns| - 1]);
    }
  }

  /** Recover, after the table files of the manifest's version have been found in the directory. */
  method Recover(logs: map<nat, Log>, numbers: seq<nat>, minLog: nat, live: set<nat>, existing: set<nat>,
                 reuseLogs: bool, envs: nat -> ReplayEnv, lastSequence: nat, saveManifest: bool)
    returns (status: Status, o: Outcome)
    requires forall n :: n in numbers <==> n in logs
    requires forall i, j :: 0 <= i < j < |numbers| ==> numbers[i] != numbers[j]
    requires forall n, i :: n in logs && 0 <= i < |logs[n].records| ==> IsBatch(logs[n].records[i])
    ensures status.OK? ==> live <= existing && Replays(logs, minLog, o) && o.maxSequence >= lastSequence
    ensures !(live <= existing) ==> status.IOError?
    // the last log is taken over exactly when that is allowed and it fits, and the manifest has news otherwise
    ensures status.OK? ==>
              (o.reuse.Some? <==> reuseLogs && exists n :: IsLastLog(logs, minLog, n) && NeverFull(envs(n), logs[n]))
    ensures status.OK? ==>
              (o.saveManifest <==> saveManifest || exists n :: n in logs && n >= minLog && logs[n].records != []
                                                               && !(o.reuse.Some? && o.reuse.value.0 == n))
    ensures status.OK? ==> IsNumberIn(LiveLogs(logs, minLog), o.maxSequence, lastSequence)
    ensures status.IOError? ==> !(live <= existing) || exists n, i: nat :: n in logs && n >= minLog && envs(n).writeFails(i)
  {
    o := Outcome([], None, lastSequence, saveManifest);
    if !(live <= existing) {
      return IOError, o;   // "missing files"
    }
    var ns := LogsToReplay(numbers, minLog);
    assert forall x :: 0 <= x < |ns| ==> ns[x] in ns;
    hide NeverFull, IsNumberIn, UnionOf, LogSet, LiveLogs, LogsOf, Ascending, IsBatch, NoneEmpty, ReplayedLogs, TakenOver, Replays,
      UpToNumber;
    NothingToReplay(logs, ns, reuseLogs, envs, lastSequence, saveManifest);
    var i := 0;
    while i < |ns|
      invariant 0 <= i <= |ns|
      invariant ReplayedLogs(logs, ns, i, o, lastSequence) && TakenOver(logs, ns, i, o, reuseLogs, envs, saveManifest)
    {
      var n := ns[i];
      assert n in ns;
      var r: Replayed;
      status, r := RecoverLogFile(logs[n], i == |ns| - 1, reuseLogs, envs(n), o.maxSequence, o.saveManifest);
      if !status.ok() {
        return;
      }
      LogRecovered(logs, ns, i, o, r, lastSequence);
      LogTakenOver(logs, ns, i, o, r, reuseLogs, envs, saveManifest);
      o := Outcome(o.tables + r.tables, if r.mem.Some? then Some((n, r.mem.value)) else None, r.maxSequence, r.saveManifest);
      i := i + 1;
    }
    status := OK;
    TakenOverHasTables(logs, ns, o, reuseLogs, envs, saveManifest);
    AllReplayed(logs, ns, minLog, o, lastSequence);
    OutcomeInNumbers(logs, ns, minLog, reuseLogs, envs, o, saveManifest);
  }

  /** The first i logs are replayed; the memtable taken over, if any, is the last one's. */
  ghost predicate ReplayedLogs(logs: map<nat, Log>, ns: seq<nat>, i: nat, o: Outcome, lastSequence: nat)
    requires i <= |ns|
  {
    && NoneEmpty(o.tables) && o.maxSequence >= lastSequence
    && (o.reuse.None? ==> UnionOf(o.tables) == LogsOf(logs, ns[..i]))
    && (o.reuse.Some? ==>
          && i == |ns| > 0 && ns[i - 1] in logs && o.reuse.value == (ns[i - 1], LogSet(logs[ns[i - 1]]))
          && UnionOf(o.tables) == LogsOf(logs, ns[..i - 1]))
    && UpToNumber(LogsOf(logs, ns[..i]), o.maxSequence)
    && IsNumberIn(LogsOf(logs, ns[..i]), o.maxSequence, lastSequence)
  }

  /** Whether the last log was taken over, and whether the manifest has to be saved. */
  ghost predicate TakenOver(logs: map<nat, Log>, ns: seq<nat>, i: nat, o: Outcome, reuseLogs: bool, envs: nat -> ReplayEnv,
                            saveManifest: bool)
    requires i <= |ns| && forall n :: n in ns ==> n in logs
  {
    && (o.reuse.Some? <==> reuseLogs && i == |ns| > 0 && NeverFull(envs(ns[|ns| - 1]), logs[ns[|ns| - 1]]))
    && (o.reuse.Some? ==> o.reuse.value.0 == ns[|ns| - 1])
    && (o.saveManifest <==> saveManifest || SomeStored(logs, ns, i, o.reuse.Some?))
    && (o.tables != [] ==> o.saveManifest)
  }

  lemma LogRecovered(logs: map<nat, Log>, ns: seq<nat>, i: nat, o: Outcome, r: Replayed, lastSequence: nat)
    requires i < |ns| && ns[i] in logs && ReplayedLogs(logs, ns, i, o, lastSequence)
    requires UnionOf(r.tables) + OrEmpty(r.mem) == LogSet(logs[ns[i]]) && UpToNumber(LogSet(logs[ns[i]]), r.maxSequence)
    requires r.maxSequence >= o.maxSequence && NoneEmpty(r.tables)
    requires r.mem.Some? ==> i == |ns| - 1 && r.tables == [] && r.mem.value == LogSet(logs[ns[i]])
    requires IsNumberIn(LogSet(logs[ns[i]]), r.maxSequence, o.maxSequence)
    ensures ReplayedLogs(logs, ns, i + 1,
              Outcome(o.tables + r.tables, if r.mem.Some? then Some((ns[i], r.mem.value)) else None, r.maxSequence, r.saveManifest),
              lastSequence)
  {
    hide UnionOf, LogSet, LogsOf, IsNumberIn;
    UnionOfConcat(o.tables, r.tables);
    LogsOfStep(logs, ns, i);
    NumberChains(LogsOf(logs, ns[..i]), LogSet(logs[ns[i]]), o.maxSequence, r.maxSequence, lastSequence);
    assert r.mem.Some? ==> o.tables + r.tables == o.tables;
  }

  lemma LogTakenOver(logs: map<nat, Log>, ns: seq<nat>, i: nat, o: Outcome, r: Replayed, reuseLogs: bool, envs: nat -> ReplayEnv,
                     saveManifest: bool)
    requires i < |ns| && (forall n :: n in ns ==> n in logs) && TakenOver(logs, ns, i, o, reuseLogs, envs, saveManifest)
    requires r.mem.Some? <==> i == |ns| - 1 && reuseLogs && NeverFull(envs(ns[i]), logs[ns[i]])
    requires r.saveManifest <==> o.saveManifest || (logs[ns[i]].records != [] && r.mem.None?)
    requires r.tables != [] ==> r.saveManifest
    ensures TakenOver(logs, ns, i + 1,
              Outcome(o.tables + r.tables, if r.mem.Some? then Some((ns[i], r.mem.value)) else None, r.maxSequence, r.saveManifest),
              reuseLogs, envs, saveManifest)
  {
    hide NeverFull, SomeStored;
    SomeStoredStep(logs, ns, i, r.mem.Some?);
  }

  lemma TakenOverHasTables(logs: map<nat, Log>, ns: seq<nat>, o: Outcome, reuseLogs: bool, envs: nat -> ReplayEnv, saveManifest: bool)
    requires (forall n :: n in ns ==> n in logs) && TakenOver(logs, ns, |ns|, o, reuseLogs, envs, saveManifest)
    ensures o.tables != [] ==> o.saveManifest
  {
  }

  lemma AllReplayed(logs: map<nat, Log>, ns: seq<nat>, minLog: nat, o: Outcome, lastSequence: nat)
    requires Ascending(ns) && forall n :: n in ns <==> n in logs && n >= minLog
    requires ReplayedLogs(logs, ns, |ns|, o, lastSequence) && (o.tables != [] ==> o.saveManifest)
    ensures Replays(logs, minLog, o) && o.maxSequence >= lastSequence
    ensures IsNumberIn(LiveLogs(logs, minLog), o.maxSequence, lastSequence)
  {
    hide UnionOf, LogSet, LogsOf, LiveLogs, IsNumberIn, NoneEmpty, Ascending;
    assert ns[..|ns|] == ns;
    LogsOfLive(logs, ns, minLog);
    if o.reuse.Some? {
      LastLogReused(logs, ns, minLog);
    }
  }

  lemma NothingToReplay(logs: map<nat, Log>, ns: seq<nat>, reuseLogs: bool, envs: nat -> ReplayEnv, n: nat, saveManifest: bool)
    requires forall k :: k in ns ==> k in logs
    ensures ReplayedLogs(logs, ns, 0, Outcome([], None, n, saveManifest), n)
    ensures TakenOver(logs, ns, 0, Outcome([], None, n, saveManifest), reuseLogs, envs, saveManifest)
  {
  }

  lemma LastLogReused(logs: map<nat, Log>, ns: seq<nat>, minLog: nat)
    requires ns != [] && Ascending(ns) && forall n :: n in ns <==> n in logs && n >= minLog
    ensures var last := ns[|ns| - 1];
            && last in logs && last >= minLog && (forall k :: k in logs && k >= minLog ==> k <= last)
            && LogsOf(logs, ns[..|ns| - 1]) == LiveLogs(logs - {last}, minLog)
            && LiveLogs(logs, minLog) == LogsOf(logs, ns[..|ns| - 1]) + LogSet(logs[last])
  {
    hide LogSet;
    var last, init := ns[|ns| - 1], ns[..|ns| - 1];
    assert last in ns && ns == init + [last];
    forall k | k in logs && k >= minLog ensures k <= last && (k == last || k in init) {
      var i :| 0 <= i < |ns| && ns[i] == k;
      if i < |ns| - 1 { assert init[i] == k; }
    }
    assert forall k :: k in init ==> k in ns && k < last;
    forall e | e in LogsOf(logs, init) ensures e in LiveLogs(logs - {last}, minLog) {
      var k :| k in init && k in logs && e in LogSet(logs[k]);
      assert k in logs - {last} && (logs - {last})[k] == logs[k];
    }
    forall e | e in LiveLogs(logs - {last}, minLog) ensures e in LogsOf(logs, init) {
      var k :| k in logs - {last} && k >= minLog && e in LogSet((logs - {last})[k]);
      assert k in init;
    }
  }}
