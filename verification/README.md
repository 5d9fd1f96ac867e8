# Storage engine and wire codec: a Dafny model with proofs

The iOS application embeds two components whose correctness is not obvious: the LevelDB
storage engine and the nanopb codec for Protocol Buffers messages. This project models both
in Dafny 4.11 and proves what they are for.

`dafny verify dfyconfig.toml` checks the whole project.

## The storage engine

The simple meaning of the store is a set of entries (user key, sequence number, type, value);
`History.Lookup` says what a reader at a sequence number finds in it. Everything else is shown
to agree with that.

- `Compaction`: the merging loop of a compaction as a method over the merged input, and the
  theorem that what it drops no live reader can miss.
- `DbFormat`: internal keys as bytes, their comparator, and the shortening of index keys.
- `DBIter` (module `DBIterator`): the two-direction iterator as a class, refined to a cursor
  over the live keys.
- `EngineIterator`: what that iterator shows over the layers of a reader is the store.
- `EngineGarbage`: what a garbage collection picks, what is left after it, and that it stays gone.
- `Layers`: first-hit search through memtable, immutable memtable and tables.
- `WriteGroup`: group commit, the loop that builds a group.
- `EngineState`, `EngineSteps`: the whole engine as a state machine. Its steps are the regions
  of code under the mutex, and the single effects of code that runs without it (log append,
  sync, insertion of one entry, table building, the manifest write, deletions), so every
  interleaving of writers, readers and the background thread is a run. Log append, sync,
  insertion, table building, the manifest write and compaction may each fail.
- `EngineInvariants` has one predicate for each concern; `EngineQueue`, `EngineMemory`,
  `EngineLogs`, `EngineVersions`, `EngineBackground`, `EngineWriters`, `EngineReaders` and
  `EngineWake` prove that the steps keep them.
- `EngineThreads`: the threads that call `Write`, each with its own place in the code, its flag and
  its condition variable. That only one of them is past the wait loop is proved there, and every
  run of the threads is shown to be a run of the machine, which has one leader.
- `LogReplay`, `EngineRecovery`: opening a database, and crashes. A crash may lose any unsynced
  tail of any log. Crashes are steps like the others.
- `EngineRun`, `EngineFailures`: what follows for whole runs: reads equal the simple lookup,
  snapshots are stable, groups are seen whole, synced writes survive, reopening gives back every
  read, deletions are safe, no writer is stuck.
- `DbImpl`: regions of `db_impl.cc` as methods of one object, proved to be steps of the machine.

Two state components only record history. `flushed` in a version is everything ever flushed
into it, and `floor` the largest smallest-snapshot of a compaction that went into it; the
invariant says that from its floor on a version reads like everything flushed. `promised` is
what was acknowledged with sync.

## The codec

- `Varint`: varints of 32 and 64 bits and zigzag (Protocol Buffers "Encoding", sections
  "Base 128 Varints" and "Signed Integers").
- `Varint32Check`: exactly what the overflow check of the 32-bit decoder accepts.
- `Descriptor`: field descriptors as a well-founded tree, messages as the members of their
  structs, defaults, and which messages are in range. Everything holds for each of the three
  widths of `pb_size_t`.
- `FieldIterator`, `RequiredFields`: the field iterator and the bitmap of required fields.
- `Encoding`, `Decoding`: what the encoder writes and what the decoder makes of bytes, as
  functions. `Encoder` and `Decoder` are the code as it runs, with streams as classes, proved
  against these functions: success, bytes, values, and the number of bytes consumed or counted.
- `WireFormat`: the wire format of Protocol Buffers on its own, as a grammar of records.
  `EncodedRecords`: the encoder writes a message exactly as the grammar prescribes.
- `DecodedValues`, `DecodedFields`: which bytes are accepted, as what, and which occurrence counts.
- `FieldBoundaries`: unknown fields are invisible. `UnknownRecords`: which bytes are unknown fields.
- `RoundTrip`, `SameMessage`: decoding undoes encoding. `PrefixLimit`: and exactly when it does.

## Where code and expectation differ

- A compaction keeps every read only if its smallest snapshot is below `kMaxSequenceNumber`
  (`Compaction.ReadsSurviveIffBelowMax`). The engine never gets there before 2^56 writes; the
  compaction step carries this as its condition.
- The overflow check of the 32-bit varint decoder is described as zero or sign extension; it
  accepts more (`Varint.Varint32AcceptsMoreThanSignExtensions`), but always yields the low word.
  `Varint32Check` says what it accepts: up to five bytes the check is exact, and what it accepts
  beyond is an extension if and only if bits 4 to 6 of the fifth byte agree with what follows.
- A length prefix is read as a 32-bit number, while the encoder writes any `size_t`: a message
  comes back if and only if its prefixes are below 2^32 (`PrefixLimit.ComesBackIffPrefixesFit`).
- A string that fills its buffer without a NUL is encoded but refused on decoding
  (`RoundTrip.StringRoundTripIff`).
- In a message type without fields, field number zero on the wire matches the terminator of the
  descriptor and is read as a bool (`Decoding.DecodeRecord`). Such an unknown field is invisible if
  and only if it then still reads as whole fields (`FieldBoundaries.InvisibleIffReadsWhole`);
  `FieldBoundaries.FieldZeroCanBeSeen` gives one that does not.
- After a failed flush the compaction loop goes on and tries the flush again, and may install
  its own results although an error is recorded. The model does the same; the manifest may then
  list two tables with the same flushed entries. Compactions and iterators are proved for tables
  that repeat entries, so this is harmless.
- `LastSequence` advances even when logging or insertion failed, so numbers are never reused.

## Model
| member | source | states |
|---|---|---|
| History.NewestExists | iosApp/Pods/leveldb-library/db/db_impl.cc:1110-1155 | a key with any entry at or below a sequence number has a newest such entry, so the simple specification of a read is well defined |
| History.LookupIs | iosApp/Pods/leveldb-library/db/db_impl.cc:1110-1155 | when no key has two entries with one number, the newest visible entry alone decides what a read returns |
| History.LookupFrame | iosApp/Pods/leveldb-library/db/db_impl.cc:1110-1155 | two stores that hold the same entries up to a number give the same reads at that number |
| Compaction.KeptMembers | iosApp/Pods/leveldb-library/db/db_impl.cc:910-1009 | an entry is written to the outputs exactly when some input position holding it is not dropped |
| Compaction.KeptSorted | iosApp/Pods/leveldb-library/db/db_impl.cc:910-1009 | the survivors keep the order of the merged input, and are strictly ordered when the input is |
| Compaction.NothingKeptBelowTombstone | iosApp/Pods/leveldb-library/db/db_impl.cc:956-972 | once an entry at or below the smallest snapshot was met, every later entry of its key is dropped |
| Compaction.HiddenIsNotNewest | iosApp/Pods/leveldb-library/db/db_impl.cc:947-958 | rule (A) never drops an entry that is the newest visible one for a live reader |
| Compaction.NothingVisibleAfterTombstone | iosApp/Pods/leveldb-library/db/db_impl.cc:959-972 | when the newest visible entry is a dropped deletion marker that no other table repeats, no survivor and no entry outside the compaction is visible |
| Compaction.SurvivesIff | iosApp/Pods/leveldb-library/db/db_impl.cc:956-972 | an entry survives if and only if it is in the input, is no obsolete deletion marker at the base level, and no newer entry of its key is at or below the smallest snapshot |
| Compaction.OneSurvivorPerKey | iosApp/Pods/leveldb-library/db/db_impl.cc:956-958 | of one key at most one entry at or below the smallest snapshot survives |
| Compaction.CompactionPreservesReads | iosApp/Pods/leveldb-library/db/db_impl.cc:910-1009 | for every key and every snapshot from the smallest on, lookup over survivors plus all other tables equals lookup over inputs plus all other tables, also when several tables hold the same entry |
| Compaction.ReadsSurviveIffBelowMax | iosApp/Pods/leveldb-library/db/db_impl.cc:940-973 | compaction keeps every read on all well-formed inputs if and only if the smallest snapshot is below kMaxSequenceNumber |
| Compaction.MaxSnapshotDropsEverything | iosApp/Pods/leveldb-library/db/db_impl.cc:947-958 | run with kMaxSequenceNumber as smallest snapshot the loop would discard every entry |
| Compaction.CompactionState.DoCompactionWork | iosApp/Pods/leveldb-library/db/db_impl.cc:910-1019 | the loop, with its per-key state, output switching and error exits: on success the outputs hold, in order, exactly the input entries that are neither an obsolete deletion marker nor superseded by a newer entry at or below the smallest snapshot, and two neighbours are in one table exactly when nothing between them calls for a new one; on failure the survivors of a prefix of the input |
| Compaction.CompactionState.Emit | iosApp/Pods/leveldb-library/db/db_impl.cc:984-1006 | writing a surviving entry opens a table exactly when none is open, adds exactly that entry, and leaves the table open exactly when it is not full |
| Compaction.CompactionState.Add | iosApp/Pods/leveldb-library/db/db_impl.cc:992-996 | the entry becomes the last of the open table and its bounds stay its first and last entry |
| DbFormat.ParseOfEncode | iosApp/Pods/leveldb-library/db/dbformat.h:171-181 | packing and parsing an internal key gives user key, sequence number and type back |
| DbFormat.EncodeOfParse | iosApp/Pods/leveldb-library/db/dbformat.h:171-181 | a byte string that parses is the encoding of what it parses to; the failing ones are too short or have an unknown type byte |
| DbFormat.KeyBytes | iosApp/Pods/leveldb-library/db/dbformat.cc:16-24 | behind the user key stand one byte of type, 0 for a deletion and 1 for a value, and seven bytes of sequence number, the lowest first |
| DbFormat.AppendInternalKey | iosApp/Pods/leveldb-library/db/dbformat.cc:21-24 | the packed key is appended to the buffer and parses back to the same key |
| DbFormat.CompareIsTotal | iosApp/Pods/leveldb-library/db/dbformat.cc:47-64 | the internal key comparator is antisymmetric and transitive over any user comparator that is a total preorder |
| DbFormat.CompareMeaning | iosApp/Pods/leveldb-library/db/dbformat.cc:47-64 | internal keys are ordered by user key up, sequence number down, type down |
| DbFormat.SeekKeySplitsVisible | iosApp/Pods/leveldb-library/db/dbformat.cc:47-64 | the seek key (k, s, kValueTypeForSeek) is at or before exactly those entries of k whose number is at most s |
| DbFormat.RankExists | iosApp/Pods/leveldb-library/db/dbformat.cc:47-64 | for every user comparator that is a total preorder, every finite set of user keys has integer ranks in the order of the comparator |
| DbFormat.NoRankOfAllKeys | iosApp/Pods/leveldb-library/util/comparator.cc:29-31 | finiteness is needed: for every integer ranking there is a finite set of keys on which it is not the bytewise order |
| DbFormat.CompareAgreesWithHistory | iosApp/Pods/leveldb-library/db/dbformat.cc:47-64 | on a finite set of user keys the byte comparison is the order on ranked entries that the rest of the project uses, and visibility is the comparison of user key and number |
| DbFormat.FindShortestSeparator | iosApp/Pods/leveldb-library/db/dbformat.cc:66-84 | the key put in place of start stays at or after start and before limit, is start itself exactly unless the separator of the user keys is shorter and larger, ends with the bytes of the largest number and type then, and parses if start did |
| DbFormat.FindShortSuccessor | iosApp/Pods/leveldb-library/db/dbformat.cc:86-100 | the key put in place of the old one is not before it and is the old one exactly unless the successor of the user key is shorter and larger |
| DbFormat.BytewiseIsComparator | iosApp/Pods/leveldb-library/util/comparator.cc:27-66 | the bytewise comparator meets everything the internal key code asks of a user comparator |
| DbFormat.BytewiseSymmetric | iosApp/Pods/leveldb-library/util/comparator.cc:29-31 | swapping the arguments of the bytewise comparison swaps its sign |
| DbFormat.BytewiseTransitive | iosApp/Pods/leveldb-library/util/comparator.cc:29-31 | the bytewise comparison is transitive |
| DbFormat.BytewiseSeparatorInInterval | iosApp/Pods/leveldb-library/util/comparator.cc:33-53 | the shortened separator lies between start and limit |
| DbFormat.BytewiseSeparatorAt | iosApp/Pods/leveldb-library/util/comparator.cc:33-53 | the separator is start cut behind its first byte that differs from limit, that byte raised by one, if it stays below limit; otherwise, or if one key is a prefix of the other, it is start |
| DbFormat.SuccessorAt | iosApp/Pods/leveldb-library/util/comparator.cc:55-66 | the successor is the key cut behind its first byte that is not 0xff, that byte raised by one |
| DbFormat.SuccessorOfAllOnes | iosApp/Pods/leveldb-library/util/comparator.cc:55-66 | a key of 0xff bytes only is its own successor |
| DbFormat.BytewiseSuccessorNotBelow | iosApp/Pods/leveldb-library/util/comparator.cc:55-66 | the shortened successor is not before the key |
| DbFormat.BytewiseFindShortestSeparator | iosApp/Pods/leveldb-library/util/comparator.cc:33-53 | the loop that looks for the first differing byte and bumps it computes the specified separator in place |
| DbFormat.BytewiseFindShortSuccessor | iosApp/Pods/leveldb-library/util/comparator.cc:55-66 | the loop that bumps the first byte that is not 0xff computes the specified successor in place |
| DBIterator.RunIsDetermined | iosApp/Pods/leveldb-library/db/db_iter.cc:141-308 | a sequence of operations has one possible outcome on the cursor over the live keys |
| DBIterator.StepsAreInverse | iosApp/Pods/leveldb-library/db/db_iter.cc:141-234 | on live keys a step forward and a step back undo each other |
| DBIterator.ScanMeetsExactlyLiveKeys | iosApp/Pods/leveldb-library/db/db_iter.cc:141-308 | SeekToFirst followed by Next until the end meets every live key once, in order, and no other |
| DBIterator.DBIter.FindNextUserEntry | iosApp/Pods/leveldb-library/db/db_iter.cc:177-207 | the forward scan stops on the newest visible entry of the smallest live key admitted, past skipped keys and deletion markers, or at the end |
| DBIterator.DBIter.FindPrevUserEntry | iosApp/Pods/leveldb-library/db/db_iter.cc:236-276 | the backward scan saves key and value of the largest live key admitted and stops before its entries, or reports none |
| DBIterator.DBIter.Next | iosApp/Pods/leveldb-library/db/db_iter.cc:141-175 | from any direction the iterator moves to the next live key with its newest visible value, over entries that may occur in several tables |
| DBIterator.DBIter.Prev | iosApp/Pods/leveldb-library/db/db_iter.cc:209-234 | from any direction the iterator moves to the previous live key with its newest visible value |
| DBIterator.DBIter.Seek | iosApp/Pods/leveldb-library/db/db_iter.cc:278-290 | the iterator moves to the smallest live key at or after the target |
| DBIterator.DBIter.SeekToFirst | iosApp/Pods/leveldb-library/db/db_iter.cc:292-301 | the iterator moves to the smallest live key |
| DBIterator.DBIter.SeekToLast | iosApp/Pods/leveldb-library/db/db_iter.cc:303-308 | the iterator moves to the largest live key |
| DBIterator.DBIter.EntriesAppear | iosApp/Pods/leveldb-library/db/db_iter.cc:43-47 | entries beyond the sequence number that appear between two calls change neither what is shown nor what any operation may lead to, whichever way the iterator was moving |
| DBIterator.InsertionIsUnseen | iosApp/Pods/leveldb-library/db/db_iter.cc:43-47 | an insertion into a memtable below, at any place, is such a change |
| DBIterator.InternalIterator.Seek | iosApp/Pods/leveldb-library/db/db_iter.cc:278-290 | the inner iterator stops at the first entry not before the target |
| Layers.FirstHitIsLookup | iosApp/Pods/leveldb-library/db/db_impl.cc:1132-1146 | trying memtable, immutable memtable and tables in turn and stopping at the first hit answers as a lookup over all entries when every layer is newer than the ones below it |
| Layers.AgreeUnder | iosApp/Pods/leveldb-library/db/db_impl.cc:1132-1146 | newer entries on top of two stores that agree keep them in agreement, unless an entry that compaction removed is newer than one of them |
| WriteGroup.BuildBatchGroup | iosApp/Pods/leveldb-library/db/db_impl.cc:1270-1316 | the loop returns the one admissible group that cannot be extended, and the concatenation of its batches |
| WriteGroup.GroupIsUnique | iosApp/Pods/leveldb-library/db/db_impl.cc:1286-1314 | the rules determine the group |
| WriteGroup.GroupInNumbers | iosApp/Pods/leveldb-library/db/db_impl.cc:1276-1314 | the group in numbers: who joins syncs only if the leader does and keeps the size within 1 MB, or 128 KB above a leader of at most 128 KB, and the next writer would not |
| WriteGroup.SyncNeedsSyncLeader | iosApp/Pods/leveldb-library/db/db_impl.cc:1292-1295 | a group with a sync writer has a leader that syncs |
| WriteGroup.GroupSizeBounded | iosApp/Pods/leveldb-library/db/db_impl.cc:1276-1303 | the group stays within the limit that its leader sets, or is the leader alone when that is larger |
| WriteGroup.BatchIsContiguous | iosApp/Pods/leveldb-library/db/db_impl.cc:1305-1313 | each batch is one contiguous run of its group |
| WriteGroup.BatchesTile | iosApp/Pods/leveldb-library/db/db_impl.cc:1305-1313 | the batches fill the operations of the group in queue order and without gaps |
| EngineQueue.WriterKeepsQueue | iosApp/Pods/leveldb-library/db/db_impl.cc:1195-1266 | every step of a writer keeps the queue in order: those who left followed by those who wait are those who came, and finished groups have contiguous numbers |
| EngineQueue.FirstComeFirstServed | iosApp/Pods/leveldb-library/db/db_impl.cc:1195-1266 | writers leave in the order in which they came, each exactly once |
| EngineQueue.LeaderRetiresItsGroup | iosApp/Pods/leveldb-library/db/db_impl.cc:1244-1266 | the leader retires exactly the prefix of the queue that ends with its last writer, with one status, and publishes exactly the numbers of that group |
| EngineQueue.FinishKeepsQueue | iosApp/Pods/leveldb-library/db/db_impl.cc:1211-1266 | when a group retires, the queue stays in order and finished groups have contiguous numbers |
| EngineQueue.BatchInGroup | iosApp/Pods/leveldb-library/db/db_impl.cc:1215-1217 | each operation of a writer's batch is in the entries of its group, with consecutive sequence numbers |
| EngineQueue.RangesDisjoint | iosApp/Pods/leveldb-library/db/db_impl.cc:1212-1246 | the sequence ranges of two groups are disjoint and ordered as the groups are |
| EngineThreads.StepRefines | iosApp/Pods/leveldb-library/db/db_impl.cc:1195-1266 | every step of a thread in Write, with its own place in the code, done flag and condition variable, is a step of the machine with one leader or invisible to it |
| EngineThreads.RunProjects | iosApp/Pods/leveldb-library/db/db_impl.cc:1195-1266 | every run of the threads, the background thread, readers and crashes is a run of the machine that ends in the same state |
| EngineThreads.OnlyFrontIsPast | iosApp/Pods/leveldb-library/db/db_impl.cc:1203-1205 | in every run at most one thread is past the wait loop, and it is the front of the queue |
| EngineThreads.RetiredAreTold | iosApp/Pods/leveldb-library/db/db_impl.cc:1249-1258 | in every run a thread that has left the queue has returned with the one status of its group, or has done and that status set and is awake |
| EngineThreads.NobodyOversleeps | iosApp/Pods/leveldb-library/db/db_impl.cc:1260-1263 | in every run a sleeping thread is queued behind the front and not done: a new front, and whoever is done, is awake |
| EngineMemory.WriterKeepsMem | iosApp/Pods/leveldb-library/db/db_impl.cc:1215-1247 | every step of a writer keeps memtable above immutable memtable above tables, numbers unique, and unpublished entries within the group at work |
| EngineMemory.InsertIsNewest | iosApp/Pods/leveldb-library/db/db_impl.cc:1233-1235 | the entry being inserted is newer than everything in the store, and is all that the insertion adds |
| EngineMemory.SwitchKeepsMem | iosApp/Pods/leveldb-library/db/db_impl.cc:1355-1377 | switching memtables moves the entries without changing the store and leaves the layers in order |
| EngineMemory.FlushInstalledKeepsMem | iosApp/Pods/leveldb-library/db/db_impl.cc:556-570 | installing a flush turns the immutable memtable into part of the tables without disturbing the order of the layers |
| EngineLogs.WriterKeepsLogs | iosApp/Pods/leveldb-library/db/db_impl.cc:1224-1235 | every step of a writer keeps each memtable within its log, and logs of higher number strictly newer |
| EngineLogs.WriterKeepsPromise | iosApp/Pods/leveldb-library/db/db_impl.cc:1224-1246 | what was acknowledged with sync is in the store and in the synced part of a live log until the tables have it |
| EngineLogs.FlushInstalledKeepsLogs | iosApp/Pods/leveldb-library/db/db_impl.cc:556-562 | after the log number is raised only the log of the current memtable is live, and it is newer than all tables |
| EngineVersions.FlushKeepsReads | iosApp/Pods/leveldb-library/db/db_impl.cc:505-538 | adding the flushed table to a version keeps it equal, for every read from its floor on, to everything ever flushed |
| EngineVersions.CompactKeepsReads | iosApp/Pods/leveldb-library/db/db_impl.cc:869-885 | replacing the inputs by the outputs keeps a version equal to everything ever flushed, for every read from the smallest snapshot on |
| EngineVersions.EditKeepsDisk | iosApp/Pods/leveldb-library/db/db_impl.cc:544-575 | applying the edit under way keeps the version that the manifest describes readable, even after an earlier edit failed half-way |
| EngineVersions.EditKeepsCurrent | iosApp/Pods/leveldb-library/db/db_impl.cc:544-575 | installing the edit under way keeps the version in memory readable |
| EngineBackground.BackKeepsStore | iosApp/Pods/leveldb-library/db/db_impl.cc:544-575 | every step of the background thread, its failures and the deletions without the mutex included, keeps memory, logs, manifest and all versions in use intact |
| EngineBackground.FlushApplyHolds | iosApp/Pods/leveldb-library/db/db_impl.cc:505-538 | dropping the pending mark before the edit is applied leaves the new file unreferenced but safe, since only this thread collects garbage |
| EngineBackground.ObsoleteIsUnreferenced | iosApp/Pods/leveldb-library/db/db_impl.cc:222-287 | what RemoveObsoleteFiles picks is in no version in use, not pending, no log from the log number on and not the current manifest |
| EngineGarbage.InstallCollects | iosApp/Pods/leveldb-library/db/db_impl.cc:222-287 | after a flush or a compaction is installed without error, a collection begins that has picked exactly the tables on disk that are not pending, not in the current version and not in a version a reader holds, the logs below the log number and the manifests below the current one |
| EngineGarbage.CollectionBegins | iosApp/Pods/leveldb-library/db/db_impl.cc:222-287 | every collection in a run begins with exactly the dead files |
| EngineGarbage.GarbageIsGone | iosApp/Pods/leveldb-library/db/db_impl.cc:280-286 | once a collection has deleted what it picked, the tables left of those on disk at its beginning are exactly those in use then |
| EngineGarbage.StaysGone | iosApp/Pods/leveldb-library/db/db_impl.cc:276-286 | a deleted table does not come back before the next crash, because file numbers are not used twice |
| EngineBackground.FlushKeepsComp | iosApp/Pods/leveldb-library/db/db_impl.cc:915-924 | a flush in the middle of a compaction leaves the compaction sound: all new entries are newer than its inputs |
| EngineWriters.WriterKeepsStore | iosApp/Pods/leveldb-library/db/db_impl.cc:1195-1266 | no step of a writer disturbs the store or the work of the background thread |
| EngineWriters.WriterExtendsHist | iosApp/Pods/leveldb-library/db/db_impl.cc:1211-1247 | writers add to the store only what is newer than everything published |
| EngineWriters.ReaderKeepsStore | iosApp/Pods/leveldb-library/db/db_impl.cc:1110-1184 | no step of a reader disturbs the store or the work of the background thread |
| EngineReaders.WriterKeepsReaders | iosApp/Pods/leveldb-library/db/db_impl.cc:1110-1155 | while writers go on, the layers a reader holds stay exactly the store as of its number |
| EngineReaders.BackKeepsReaders | iosApp/Pods/leveldb-library/db/db_impl.cc:1110-1155 | while flushes and compactions go on, the layers a reader holds stay exactly the store as of its number |
| EngineReaders.ReaderKeepsReaders | iosApp/Pods/leveldb-library/db/db_impl.cc:1110-1184 | a reader that starts, at a snapshot or at the latest number, gets layers that hold exactly the store as of that number |
| EngineReaders.FloorStaysBelow | iosApp/Pods/leveldb-library/db/db_impl.cc:899-903 | every snapshot held while or after a compaction runs is at or above its smallest snapshot |
| EngineReaders.WriterKeepsAtomic | iosApp/Pods/leveldb-library/db/db_impl.cc:1211-1247 | publishing a group splits it for no reader and no snapshot |
| EngineReaders.ReaderKeepsAtomic | iosApp/Pods/leveldb-library/db/db_impl.cc:1176-1184 | a new snapshot or reader falls between groups |
| EngineWake.WriterKeepsWake | iosApp/Pods/leveldb-library/db/db_impl.cc:1320-1380 | whatever a writer does, a waiting writer has a pending background call, and has_imm_ agrees with imm_ |
| EngineWake.BackKeepsWake | iosApp/Pods/leveldb-library/db/db_impl.cc:657-695 | whatever the background thread does, work that is due has exactly one pending call, and the waiting writer is woken when the call ends |
| EngineWake.ReaderKeepsWake | iosApp/Pods/leveldb-library/db/db_impl.cc:1150-1154 | a reader that makes a compaction due also schedules it |
| EngineRun.NextKeepsInv | iosApp/Pods/leveldb-library/db/db_impl.cc:1195-1380 | every step of a writer, a reader or the background thread, and every crash followed by Open, keeps the whole invariant |
| EngineRun.RunsAreSafe | iosApp/Pods/leveldb-library/db/db_impl.cc:1195-1380 | every state of every run of the engine satisfies the invariant |
| EngineRun.GetIsLookup | iosApp/Pods/leveldb-library/db/db_impl.cc:1110-1155 | in every reachable state Get over the layers a reader holds equals the simple lookup over everything ever written |
| EngineRun.HistoryIsWhatWasInserted | iosApp/Pods/leveldb-library/db/db_impl.cc:1233-1235 | the store changes by inserting the next entry of the group and by nothing else: no flush, compaction, switch or deletion changes it |
| EngineRun.StepKeepsReads | iosApp/Pods/leveldb-library/db/db_impl.cc:1114-1120 | no step changes what a published sequence number reads |
| EngineRun.PublishedReadsAreStable | iosApp/Pods/leveldb-library/db/db_impl.cc:1176-1184 | over any stretch of a run without a crash, what a published number reads for a key never changes |
| EngineRun.ReadersOfOneSnapshotAgree | iosApp/Pods/leveldb-library/db/db_impl.cc:1114-1120 | two readers at one snapshot get one answer, whenever they run and whatever was flushed or compacted in between |
| EngineIterator.IteratorShowsStore | iosApp/Pods/leveldb-library/db/db_impl.cc:1157-1167 | in every state that satisfies the invariant, the operations of an iterator over the layers that a reader holds are the steps of a cursor over the live keys of everything ever written |
| EngineIterator.StepKeepsLayers | iosApp/Pods/leveldb-library/db/db_impl.cc:1072-1097 | a step of anybody adds to the layers a reader holds only entries beyond its number, and takes nothing away |
| EngineIterator.LayersAlong | iosApp/Pods/leveldb-library/db/db_impl.cc:1072-1097 | the same over any stretch of a run without a crash |
| EngineRun.GroupsAreAtomic | iosApp/Pods/leveldb-library/db/db_impl.cc:1211-1247 | a reader sees all of a successful group or nothing of it |
| EngineRun.UnpublishedIsInvisible | iosApp/Pods/leveldb-library/db/db_impl.cc:1215-1247 | entries inserted while the mutex is released are beyond every reader and every snapshot |
| EngineRun.PromisesGrow | iosApp/Pods/leveldb-library/db/db_impl.cc:1224-1246 | what was acknowledged with sync is never taken back, by a crash neither |
| EngineRun.SyncedWritesSurvive | iosApp/Pods/leveldb-library/db/db_impl.cc:1224-1246 | after a group that syncs has retired with OK, its entries are in the store in every later state of the run, through any number of crashes |
| EngineRun.ToldOkMeansSynced | iosApp/Pods/leveldb-library/db/db_impl.cc:1218-1258 | when a sync writer is told OK, every operation of its batch is in a record of the current log that is on stable storage |
| EngineRun.AcknowledgedSyncSurvives | iosApp/Pods/leveldb-library/db/db_impl.cc:1224-1266 | a sync writer that is told OK finds every operation of its batch, at consecutive numbers, in the store in every later state, through any number of crashes |
| EngineRun.NoStuckWriter | iosApp/Pods/leveldb-library/db/db_impl.cc:657-695 | with imm_ set, a compaction due or a writer waiting, and no error or shutdown, exactly one background call is scheduled or running |
| EngineRun.ScheduledForAReason | iosApp/Pods/leveldb-library/db/db_impl.cc:657-672 | a background call is scheduled only when there is work, no error and no shutdown |
| EngineRun.WaiterIsReleased | iosApp/Pods/leveldb-library/db/db_impl.cc:688-695 | the end of the pending call, or an error, puts the waiting writer back into its loop |
| EngineRun.WaitingLeaderStays | iosApp/Pods/leveldb-library/db/db_impl.cc:1346-1354 | while the front writer waits nothing happens in the queue but arrivals, and its own return to the tests of the loop |
| EngineRun.DeletionsAreSafe | iosApp/Pods/leveldb-library/db/db_impl.cc:280-286 | no file is needed by a version, a pending output, a live log or the manifest at the moment of its deletion, though it was picked earlier |
| LogReplay.RecoverLogFile | iosApp/Pods/leveldb-library/db/db_impl.cc:380-498 | replaying a log puts exactly its entries into level-0 tables, each filled until the memtable was full, or into the memtable; the memtable is kept exactly for the last log when that is allowed and it never was full; the largest sequence number covers the entries and is that of one of them; the manifest has to be saved exactly when the log held records and was not kept; only a failed table write is an error |
| LogReplay.Recover | iosApp/Pods/leveldb-library/db/db_impl.cc:314-378 | with all table files present, exactly the entries of the logs from the log number on are replayed, the last log is kept exactly when that is allowed and it fits, the last sequence number is that of an entry or the old one, and the manifest is saved exactly when a log with records was not kept; the only errors are a missing table file and a failed table write |
| LogReplay.LogsToReplay | iosApp/Pods/leveldb-library/db/db_impl.cc:332-361 | the logs to replay are those from the log number on, each once, in ascending order |
| EngineRecovery.CrashKeepsInv | iosApp/Pods/leveldb-library/db/db_impl.cc:289-378 | crashing at any moment, losing any unsynced tail of any log, and opening again leads to a state that satisfies the whole invariant; what survived without a sync can be lost by the next crash |
| EngineRecovery.RecoveredHist | iosApp/Pods/leveldb-library/db/db_impl.cc:314-378 | after Open the store holds exactly what the manifest's version ever held and what the live logs kept |
| EngineRecovery.PromisesSurvive | iosApp/Pods/leveldb-library/db/db_impl.cc:332-375 | nothing acknowledged with sync is lost by a crash |
| EngineRecovery.OnlyUnsyncedIsLost | iosApp/Pods/leveldb-library/db/db_impl.cc:332-375 | an entry that a crash loses was in an unsynced record of its log |
| EngineRecovery.NothingIsLost | iosApp/Pods/leveldb-library/db/db_impl.cc:332-375 | when all log records survive, recovery finds every entry of the old run |
| EngineRecovery.ReopenIsPossible | iosApp/Pods/leveldb-library/db/db_impl.cc:289-378 | from every state that satisfies the invariant a crashed database can be opened again |
| EngineFailures.ReopeningKeepsEveryRead | iosApp/Pods/leveldb-library/db/db_impl.cc:332-378 | in every run, opening after a crash that loses no record gives back exactly the store, and so every read, when no write failed or was under way |
| EngineFailures.FoundIsUnfinished | iosApp/Pods/leveldb-library/db/db_impl.cc:1224-1246 | whatever recovery finds beyond the store belongs to a group that failed or was under way |
| EngineFailures.RunsAreExplained | iosApp/Pods/leveldb-library/db/db_impl.cc:1224-1246 | in every run, live logs hold nothing beyond the store but entries of failed groups and of the group at work |
| DbImpl.DBImpl.MakeRoomForWrite | iosApp/Pods/leveldb-library/db/db_impl.cc:1320-1380 | one turn of the loop under the mutex, with what Write does when it ends, is a step of the machine, and which one depends on error, delay, room, imm_ and 8 or 12 files at level 0 as in the code |
| DbImpl.DBImpl.FinishWrite | iosApp/Pods/leveldb-library/db/db_impl.cc:1236-1266 | publishing the numbers, retiring the group and recording a sync error is the finishing step of the machine |
| DbImpl.DBImpl.RetireGroup | iosApp/Pods/leveldb-library/db/db_impl.cc:1249-1258 | the loop that pops writers up to last_writer retires exactly that prefix with one status |
| DbImpl.DBImpl.FilesToDelete | iosApp/Pods/leveldb-library/db/db_impl.cc:231-280 | of the directory listing exactly those tables and temporary files are picked that are not pending, not in the current version and not in a version that is read, the logs below the log number and the manifests below the current one, and never CURRENT, LOCK or the info log |
| DbImpl.DBImpl.SmallestSnapshot | iosApp/Pods/leveldb-library/db/db_impl.cc:899-903 | the number at the head of the list is the smallest of all held snapshots; without snapshots it is the last sequence number |
| DbImpl.DBImpl.GetSnapshot | iosApp/Pods/leveldb-library/db/snapshot.h:57-70 | a new snapshot goes to the end of the list, which stays in the order of the numbers, and is the snapshot step of the machine |
| DbImpl.DBImpl.ReleaseSnapshot | iosApp/Pods/leveldb-library/db/snapshot.h:79-86 | exactly one node leaves the list, the others keep their order, and this is the release step of the machine |
| Varint.VarintRoundTrip | iosApp/Pods/nanopb/pb_encode.c:608-628 | decoding the encoding of any 64-bit number gives it back, over at most ten bytes, whatever follows |
| Varint.VarintPrefix | iosApp/Pods/nanopb/pb_decode.c:255-275 | only the bytes up to the terminator influence what is decoded |
| Varint.Varint32IsLowWord | iosApp/Pods/nanopb/pb_decode.c:187-247 | on any terminated encoding of at most ten bytes that the 32-bit decoder accepts it yields the low 32 bits of the 64-bit decoder, over the same bytes |
| Varint.Varint32RoundTrip | iosApp/Pods/nanopb/pb_decode.c:187-247 | every number below 2^32 is accepted and read back from at most five bytes |
| Varint.Varint32AcceptsMoreThanSignExtensions | iosApp/Pods/nanopb/pb_decode.c:221-230 | a ten-byte encoding that is neither small nor a sign extension passes the overflow check |
| Varint32Check.Varint32Accepts | iosApp/Pods/nanopb/pb_decode.c:187-247 | of the terminated encodings of at most ten bytes the 32-bit decoder accepts exactly those whose fifth byte, when it is the last, keeps within four bits and whose later bytes each pass the extension check against the low word |
| Varint32Check.Varint32ExactUpToFive | iosApp/Pods/nanopb/pb_decode.c:221-242 | up to five bytes it accepts exactly the numbers below 2^32 |
| Varint32Check.AcceptedIsExtensionIff | iosApp/Pods/nanopb/pb_decode.c:221-230 | an accepted encoding is a zero or sign extension of its low word if and only if the three bits of the fifth byte that the check ignores agree with the bytes behind them |
| Varint.ZigZagRoundTrip | iosApp/Pods/nanopb/pb_encode.c:630-639 | zigzag maps small magnitudes to small words and is undone by the decoder for all 64-bit values |
| Varint.UnZigZagRoundTrip | iosApp/Pods/nanopb/pb_decode.c:1285-1297 | every 64-bit word is the zigzag code of what the decoder makes of it |
| Descriptor.SlotsAscend | iosApp/Pods/nanopb/pb_common.c:29-85 | fields follow each other in the struct, and two fields share a member only inside one union |
| Descriptor.DefaultSlots | iosApp/Pods/nanopb/pb_decode.c:845-928 | after setting defaults every field finds its own default in its member |
| FieldIterator.OffsetsLaidOut | iosApp/Pods/nanopb/pb.h:400-405 | every well-formed descriptor describes a struct layout |
| FieldIterator.LayoutIsUnique | iosApp/Pods/nanopb/pb.h:400-405 | the relative offsets determine the layout: it is the one the descriptor was generated for |
| FieldIterator.FieldIter.constructor | iosApp/Pods/nanopb/pb_common.c:8-27 | the iterator starts on the first field with the true pointer |
| FieldIterator.FieldIter.Next | iosApp/Pods/nanopb/pb_common.c:29-85 | from any field, through unions, arrays and the wrap-around, the pointers are those of the field reached and the required index is the number of required fields before it |
| FieldIterator.FieldIter.Find | iosApp/Pods/nanopb/pb_common.c:87-104 | from any start the tag is found exactly when it occurs, and a failed search leaves the iterator where it started |
| RequiredFields.SetBit | iosApp/Pods/nanopb/pb_decode.c:1021-1026 | or-ing in a shifted one sets that bit of the word and no other |
| RequiredFields.Tracker.Mark | iosApp/Pods/nanopb/pb_decode.c:1021-1026 | marking an index adds it to the recorded ones |
| RequiredFields.Tracker.AllSeen | iosApp/Pods/nanopb/pb_decode.c:1057-1078 | comparing whole words and a shifted mask passes exactly when every index below the count, up to 64, was recorded |
| Encoder.OStream.Write | iosApp/Pods/nanopb/pb_encode.c:103-124 | bytes are written and counted when there is room, counted only on a sizing stream, and otherwise nothing changes |
| Encoder.PbEncodeVarint | iosApp/Pods/nanopb/pb_encode.c:608-628 | the loop over groups of seven bits writes the specified varint |
| Encoder.PbEncodeSvarint | iosApp/Pods/nanopb/pb_encode.c:630-639 | the zigzag code of the value is written as a varint |
| Encoder.PbEncodeTag | iosApp/Pods/nanopb/pb_encode.c:669-673 | field number and wire type are written as one varint |
| Encoder.PbEncodeString | iosApp/Pods/nanopb/pb_encode.c:709-715 | the length and the bytes are written |
| Encoder.PbEncodeArray | iosApp/Pods/nanopb/pb_encode.c:147-236 | an array is written packed or item by item as specified, refused when it is too long, and omitted when it is empty |
| Encoder.PbEncodePacked | iosApp/Pods/nanopb/pb_encode.c:162-205 | the size written before packed items, from a sizing pass or from the 4 * count and 8 * count shortcuts, is the length of what follows; a sizing stream counts the same |
| Encoder.FixedPackedLength | iosApp/Pods/nanopb/pb_encode.c:168-175 | packed fixed-width items take exactly 4 or 8 bytes each |
| Encoder.CheckProto3Default | iosApp/Pods/nanopb/pb_encode.c:240-337 | the recursive walk over a submessage decides exactly whether nothing worth writing is stored |
| Encoder.EncodeBasicField | iosApp/Pods/nanopb/pb_encode.c:341-426 | a singular, optional, repeated or oneof field is written exactly when it is present, with its tag |
| Encoder.PbEncodeSubmessage | iosApp/Pods/nanopb/pb_encode.c:717-765 | the sizing pass counts exactly what the writing pass writes, so the length prefix is right and the size never changes between them |
| Encoder.PbEncode | iosApp/Pods/nanopb/pb_encode.c:528-550 | a message is written field by field as specified; on a sizing stream exactly its length is counted; failure means a refused value or no room |
| Encoder.GetEncodedSize | iosApp/Pods/nanopb/pb_encode.c:567-576 | the size reported is the number of bytes a real encoding writes |
| WireFormat.SplitIsUnique | iosApp/Pods/nanopb/pb.h:318-324 | bytes can be read as records of number, wire type and payload in one way only |
| WireFormat.WritingIsUnique | iosApp/Pods/nanopb/pb.h:318-324 | a sequence of records is written in one way only |
| EncodedRecords.ValueIff | iosApp/Pods/nanopb/pb_encode.c:608-765 | the payload of a value is, and is only, what the wire format prescribes: a shortest varint, the zigzag code, four or eight bytes with the lowest first, or a length and that many bytes |
| EncodedRecords.FieldRecordsIff | iosApp/Pods/nanopb/pb_encode.c:341-426 | a field is written as one record for each present value, or one packed record, with its number and the wire type of its type, and as none when it is absent |
| EncodedRecords.MessageIff | iosApp/Pods/nanopb/pb_encode.c:528-550 | for every message in range the bytes pb_encode writes are the records of its fields in the wire format, and no other bytes are |
| EncodedRecords.RefusedIff | iosApp/Pods/nanopb/pb_encode.c:156-160 | a message is refused exactly when an array in it has more items than elements, or bytes to be written exceed their buffer, at any depth |
| Decoder.IStream.Read | iosApp/Pods/nanopb/pb_decode.c:102-137 | the bytes delivered are the next ones, and position plus remaining count stays constant |
| Decoder.PbDecodeVarint32 | iosApp/Pods/nanopb/pb_decode.c:187-247 | the loop with its 8-bit position, overflow and sign-extension checks decodes as specified and consumes exactly the bytes of the varint |
| Decoder.PbDecodeVarint | iosApp/Pods/nanopb/pb_decode.c:255-275 | or-ing shifted groups into 64 bits yields the number modulo 2^64 and consumes exactly the bytes of the varint |
| Decoder.PbSkipField | iosApp/Pods/nanopb/pb_decode.c:321-331 | skipping consumes exactly one value of the wire type |
| Decoder.PbDecodeTag | iosApp/Pods/nanopb/pb_decode.c:298-319 | the key is split into wire type and field number; zero and the end of the stream end the message |
| Decoder.PbMakeStringSubstream | iosApp/Pods/nanopb/pb_decode.c:372-385 | the substream holds exactly the declared bytes, and the parent has exactly those fewer |
| Decoder.PbCloseStringSubstream | iosApp/Pods/nanopb/pb_decode.c:387-400 | the parent continues behind the declared bytes, used or not |
| Decoder.SetToDefaults | iosApp/Pods/nanopb/pb_decode.c:845-928 | whatever the memory held, every member is at its default afterwards |
| Decoder.DecodeByType | iosApp/Pods/nanopb/pb_decode.c:1334-1570 | each type's decoder accepts, refuses and reads values as specified |
| Decoder.DecVarint | iosApp/Pods/nanopb/pb_decode.c:1345-1385 | fields of 32 bits and less look at the low word as signed; casting down and comparing refuses exactly what does not fit |
| Decoder.DecSubmessage | iosApp/Pods/nanopb/pb_decode.c:1525-1547 | a submessage is decoded within its declared bytes, array entries from defaults, others on top of what is there |
| Decoder.DecodePackedItems | iosApp/Pods/nanopb/pb_decode.c:425-453 | packed items are read until the substream is empty and refused when the array overflows |
| Decoder.DecodeStaticField | iosApp/Pods/nanopb/pb_decode.c:406-483 | a field is decoded by its rule: has flag, packed or single array item, or union member with its default |
| Decoder.DecodeFound | iosApp/Pods/nanopb/pb_decode.c:997-1029 | fixed-count bookkeeping, required-field marking and the value of a known field |
| Decoder.CountRequired | iosApp/Pods/nanopb/pb_decode.c:1045-1055 | walking the iterator to its end from anywhere counts the required fields, the last one included |
| Decoder.PbDecodeNoinit | iosApp/Pods/nanopb/pb_decode.c:934-1082 | the field loop ends, fails and stores exactly as specified and consumes exactly the bytes the specification says |
| Decoder.PbDecode | iosApp/Pods/nanopb/pb_decode.c:1084-1096 | a message is decoded from defaults as specified |
| Decoder.ClampedFits | iosApp/Pods/nanopb/pb_decode.c:1365-1380 | casting to a narrower signed type and comparing decides exactly whether the value is in range |
| DecodedValues.DecodedIff | iosApp/Pods/nanopb/pb_decode.c:1334-1523 | which bytes each type accepts and as which value, with ranges and sums written out; nothing else is accepted, and what was stored before does not matter |
| DecodedValues.SubmessageDecoded | iosApp/Pods/nanopb/pb_decode.c:1525-1547 | a submessage is the message its delimited bytes are, from defaults in an array and on top of what is there otherwise |
| DecodedFields.AcceptedIff | iosApp/Pods/nanopb/pb_decode.c:1033-1079 | decoding succeeds if and only if the field loop comes to its end, each required field among the first 64 occurs at a field boundary, and every fixed array that occurs holds all its elements |
| DecodedFields.LoopEndsIff | iosApp/Pods/nanopb/pb_decode.c:952-964 | the loop comes to its end if and only if whole fields lead to the end of the bytes or to a zero key |
| DecodedFields.LastOneWins | iosApp/Pods/nanopb/pb_decode.c:952-1030 | a member holds the value read at the last position where one of its fields begins; a union holds that field, an array ends with it |
| DecodedFields.UntouchedMember | iosApp/Pods/nanopb/pb_decode.c:952-1030 | a member none of whose fields occurs stays as it was |
| DecodedFields.AbsentIsDefault | iosApp/Pods/nanopb/pb_decode.c:845-928 | after pb_decode a field that does not occur is unset and holds its default value |
| DecodedFields.UnionForgets | iosApp/Pods/nanopb/pb_decode.c:460-479 | what another member of a union left there does not influence the member decoded now |
| DecodedFields.DecodedWithinBounds | iosApp/Pods/nanopb/pb_decode.c:425-458 | whatever the bytes are, no array gets more items than it has elements |
| FieldBoundaries.ValuePrefix | iosApp/Pods/nanopb/pb_decode.c:1334-1570 | decoding a value depends on the bytes it consumes only |
| FieldBoundaries.SkipPrefix | iosApp/Pods/nanopb/pb_decode.c:321-331 | skipping a value depends on the bytes it consumes only |
| FieldBoundaries.RecordPrefix | iosApp/Pods/nanopb/pb_decode.c:952-1030 | decoding one field depends on the bytes it consumes only |
| FieldBoundaries.UnknownFieldsInvisible | iosApp/Pods/nanopb/pb_decode.c:966-995 | inserting a well-formed field with an unknown number at any field boundary of any input changes neither success nor the decoded message; field number zero in an empty message type must read as whole fields |
| FieldBoundaries.ManyUnknownFieldsInvisible | iosApp/Pods/nanopb/pb_decode.c:966-995 | the same for any number of unknown fields |
| UnknownRecords.UnknownFieldIff | iosApp/Pods/nanopb/pb_decode.c:321-331 | the fields that are skipped are exactly a key with an unknown number and one varint, eight bytes, a length and that many bytes, or four bytes, by wire type 0, 1, 2 or 5 |
| UnknownRecords.UnknownRecord | iosApp/Pods/nanopb/pb_decode.c:321-331 | every record of the wire format with an unknown number is such a field |
| UnknownRecords.UnknownRecordIsInvisible | iosApp/Pods/nanopb/pb_decode.c:966-995 | inserting any record with an unknown number other than zero at any field boundary changes neither success nor the decoded message |
| FieldBoundaries.InvisibleIffReadsWhole | iosApp/Pods/nanopb/pb_decode.c:966-995 | a well-formed unknown field is invisible at every boundary of every input if and only if an empty message type, should the descriptor end mark match its number, reads it as whole fields |
| FieldBoundaries.VarintReadsWhole | iosApp/Pods/nanopb/pb_decode.c:966-995 | a field number zero with one varint of its own length as value reads whole |
| FieldBoundaries.FieldZeroCanBeSeen | iosApp/Pods/nanopb/pb_decode.c:966-995 | a field number zero that is skipped whole elsewhere makes an empty message type fail |
| RoundTrip.EncodeSucceeds | iosApp/Pods/nanopb/pb_encode.c:528-550 | every message in range is encoded |
| RoundTrip.ValueRoundTrip | iosApp/Pods/nanopb/pb_decode.c:1334-1570 | every value in range is decoded to its normal form from what was encoded, whatever follows it |
| RoundTrip.NumberRoundTrip | iosApp/Pods/nanopb/pb_decode.c:1334-1445 | every number in range of its field survives, negative ones in narrow fields included |
| RoundTrip.StringRoundTripIff | iosApp/Pods/nanopb/pb_decode.c:1487-1523 | a string comes back if and only if it leaves room for the NUL in its buffer; one that fills the buffer is encoded but not decoded |
| RoundTrip.PackedRoundTrip | iosApp/Pods/nanopb/pb_decode.c:425-453 | packed arrays come back item by item |
| RoundTrip.FieldRoundTrip | iosApp/Pods/nanopb/pb_decode.c:934-1030 | decoding continues after each encoded field in the state that has that field stored and all earlier ones kept, if its length prefixes are below 2^32 |
| RoundTrip.MessageRoundTrip | iosApp/Pods/nanopb/pb_decode.c:934-1096 | decoding the encoding of a message in range gives its normal form, if all length prefixes are below 2^32 |
| SameMessage.NormalIsSame | iosApp/Pods/nanopb/pb_decode.c:934-1096 | the normal form is the same message up to the contents of absent fields |
| SameMessage.EncodeThenDecode | iosApp/Pods/nanopb/pb_decode.c:1084-1096 | every message in range of a well-formed descriptor is encoded, and decoding gives the same message back if all length prefixes are below 2^32 |
| PrefixLimit.LongBlobRefused | iosApp/Pods/nanopb/pb_decode.c:372-385 | a length prefix from 2^32 on is refused |
| PrefixLimit.MessageRefused | iosApp/Pods/nanopb/pb_decode.c:934-1096 | a message with such a prefix at any depth is not decoded |
| PrefixLimit.ComesBackIffPrefixesFit | iosApp/Pods/nanopb/pb_decode.c:1084-1096 | a message in range whose encoding is shorter than 2^63 bytes comes back from it if and only if all its length prefixes are below 2^32 |

## Left out
- User keys are ranks: outside `DbFormat` a user key is its rank under the user comparator; every finite set of keys has ranks (`DbFormat.RankExists`), and `DbFormat.CompareAgreesWithHistory` ties them to bytes.
- Unparseable internal keys: the compaction loop resets its per-key state on them and the iterator skips them; the model's entries are all parseable.
- Version internals: levels, key ranges, picking of compactions and `IsBaseLevelForKey` are contracts on the steps; a version is its set of files, and the search inside it is a lookup over their entries.
- `Env`, log and table formats: an append or a table is atomic, survives once synced, and fails only as a whole.
- The order of the table files within level 0 and the level a flushed table is placed at are not modelled.
- Reference counts: memtables and versions that a reader holds stay available; when they are freed is not modelled.
- Manual compaction, `CompactRange`, statistics, info log, options, `PrevLogNumber` of old databases, corruption reports of the log reader.
- The reopening lock file, `CURRENT` and the creation of a new manifest: the manifest is one version that a write replaces.
- Recovery is one step of the machine: a crash during recovery leaves manifest and logs as they were before it, since new tables are not in the manifest until the end.
- Locking itself: a step is taken to be atomic because the mutex is held; memory order of the atomic flags is not modelled.
- `DBIter` read sampling, and the merging of the child iterators: the inner iterator is a position in a sequence in merged order, and entries appear in it between the calls of the client, not during one.
- `LookupKey` and the buffer management of `InternalKey`.
- nanopb callbacks, extensions, pointer fields and `PB_ENABLE_MALLOC`, `PB_WITHOUT_64BIT`, streams with user callbacks, error message texts.
- Destination structs: a decoder method returns the members it would have stored; what a failed decode leaves behind is not modelled, and the offsets of `FieldIterator` are not used as addresses.
- Fixed-count arrays: the counter that the decoder keeps outside the struct is the number of items stored, so elements not yet received are not part of the value.
- Encoder.PbEncode: requires that no length it computes exceeds 64 bits, so wrap-around of `size_t` is not modelled.
- SameMessage.EncodeThenDecode: says nothing of prefixes of 2^32 and more, which `PrefixLimit.ComesBackIffPrefixesFit` does for encodings shorter than 2^63 bytes; beyond that `size_t` itself is at its limit.
- Varint.Varint32IsLowWord: encodings longer than ten bytes are excluded, because the 8-bit bit position can wrap there.
- `pb_decode_delimited`, `pb_encode_delimited`, `pb_decode_nullterminated` and `pb_release` are thin wrappers or belong to dynamic allocation.
- The application's own Swift and Kotlin code: user interface, network calls and thin wrappers.
