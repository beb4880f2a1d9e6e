# mini-tsdb: a verified model

mini-tsdb is a single-process LSM storage engine for time series. A write goes to a write-ahead log and into a skip-list table in memory; a full table is sealed and flushed to an SSTable file in level 0; a compaction thread merges files down seven levels; reads look through all of these layers. The promise is that this structure, flushed and compacted concurrently, answers reads like one plain map from `(measurement, timestamp)` to a value, and that it keeps doing so across restarts.

This project models the engine in Dafny and proves that promise, the exact conditions under which the code keeps it, and the correctness of the parts it stands on. Verify everything with `dafny verify dfyconfig.toml`.

## How it is built

- **The step system** (`Lsm`). A state holds the active table, the sealed table, the table in flight, the version, the files on disk, the published readers, the pending deletions, the captured views, the TTL map, the compaction job, the logged batches, the log and the manifest. There is one action per region that the source runs under its engine lock, or between two of them: writes, batches, seal, flush begin, build and commit, compaction pick, merge, emit and commit, cleanup, view capture and release, snapshot, restart. All interleavings of these actions are runs.
- **The invariant and its proof** (`LsmInvariant`, `LsmSteps`, `LsmCommits`, `LsmRetire`, `LsmMerge`, `LsmHistory`). For one key the state is read as a list of copies, oldest first. Flushing and sealing leave the list alone, a write replaces the newest copy, and a compaction replaces one contiguous block by its last element or by nothing. A ghost history records the writes and, key by key, what may have been given up: keys on which the log is behind memory, keys that a restart or a relaxed TTL rule may have cost a write and that have not been written since, measurements whose rule was relaxed while a compaction was under way.
- **The theorems about runs** (`LsmReads`, `LsmRuns`, `LsmTtl`, `LsmRange`, `LsmRecovery`, `LsmRestart`, `LsmTorn`, `LsmSafety`, `LsmFiles`, `LsmPicks`, `LsmOutputs`, `LsmProgress`), with concrete runs (`LsmRestartRuns` and `LsmCrowded` among them) for the places where the promise stops holding. `LsmTtl.OrdinaryRunIsMap` states the promise over the actions of a run alone. `LsmFiles` proves that every file is removed once nothing needs it, `LsmPicks` and `LsmOutputs` say in bytes and counts what a compaction takes and where it cuts its files, and `LsmProgress` proves that a writer never waits for ever.
- **The engine object** (`Engine`). A class with the source's fields. Its methods carry the source's loops and branches, and each is proved to do a step of the step system, so its `Valid()` says that the state has been reached from an empty store, that the log file holds exactly the bytes of the logged records, and that the manifest file holds exactly the text of the logged edits. Its tables are the lists they hold; `Assembly` proves Get, RangeQuery, a flush and a compaction's reading over the real objects, skip lists and readers on file bytes behind the shared cache, that stand for those lists.
- **The parts**: the skip list as linked nodes on the heap (`SkipList`) and the table around it (`MemTable`); the log (`Wal`); versions, their text and the version manager (`Version`, `Text`, `Manifest`, `ManifestTorn`); the SSTable format, builder and reader (`TableFormat`, `TableLayout`, `Table`) with varints (`Codec`), checksums (`Crc32`), the Bloom filter (`Bloom`) and the LRU cache (`BlockCache`); the ranked merge (`RankedMerge`); the timestamp codec (`DeltaOfDelta`). What is written reads back by the theorems of these modules; `DiskFormat`, `Codec.LittleAt`, `Codec.VarintAt`, `Crc32.Residue` and `Bloom.HashValues` also fix the bytes themselves, independently of the functions that write them.

## Conditions the code imposes

Each was found to be exact, or comes with a run that shows what happens outside it.

- **Key domain.** The store is a map for exactly the keys from `TsKey{}` to `("\xFF", INT64_MAX)`: a flush starts at the first, the compaction reader stops at the second. In bytes: the measurement starts with a byte below 0xFF or is that byte alone, and under the empty measurement the timestamp is not negative (`LsmRuns.DomainIsExact`).
- **Flush in flight.** A read view does not see the table the flush thread has taken, so a key whose newest copy is in it is missed (`LsmRuns.InFlightIsHidden`); all other keys read correctly.
- **Rotation.** Rotating the log drops writes that arrived during the flush. The log agrees with memory on a key afterwards if and only if neither memory nor a logged batch holds the key (`LsmRecovery.RotationIsCleanExactlyFor`, `LsmRecovery.DirtyRotationLosesWrite`).
- **Overtaken batches.** Write logs a whole batch, then applies it operation by operation and may give up the lock in between. A write that overtakes a logged operation on the same key makes the log and memory disagree on that key, if and only if the batches end with another entry for it (`LsmHistory.PutKeepsLogExactlyWhen`, `LsmHistory.ApplyKeepsLogExactlyWhen`), until the key is written again; a crash in between brings the overtaking value back (`LsmRecovery.OvertakingPutReturns`). From all other interleavings a crash is safe, as long as the next process can read manifest and log to their ends and does not scan the directory (`LsmRestart.CrashLosesNothing`).
- **TTL.** A compaction filters by a snapshot of the rules. Commits are invisible on a key if and only if what the snapshot expires is expired by the rules in force (`LsmRuns.CommitsLeaveAloneExactlyWhen`). A relaxed rule, or a restart, which forgets the rules, puts in doubt exactly the written keys that come back by it, and each of them only until it is written again: a running compaction drops nothing outside its inputs (`LsmHistory.CommitJobSpares`).
- **Crowded level.** RangeQuery gives every level 100000 ranks. With at most that many files in any level it agrees with Get in every reachable state; from 100002 on there is a run in which it lists an older value (`LsmCrowded.AgreesUpToRanks`).
- **Readable manifest.** Recovery stops at the first addition whose bounds do not read back as two keys, its failure is ignored, and opening then deletes every table file it has not read of (src/version.cpp:145-153, src/tsdb_engine.cpp:35, 742-746). A measurement that is empty or has white space, or a flushed table that held only keys below `TsKey{}`, can so cost later files of good keys (`LsmRestartRuns.UnreadableBoundLosesLaterFile`). When recovery has found no file at all, opening adds every table file of the directory to level 0 instead (src/tsdb_engine.cpp:749-782): it forgets levels, takes up files that never belonged to the version, and can put an older value on top (`LsmRestart.RestartScansDirectory`, `LsmRestartRuns.ScanBringsBackOlder`). The restarts of the step system are those whose manifest can be read to its end and that do not scan (`LsmRestart.RestartIsReopen`). Over a readable manifest a restart keeps the version if and only if it has a file or there is no table file (`LsmRestart.ReadableManifestKeepsVersionExactlyWhen`). After a clean shutdown, if the first file of the snapshot can be read, it does so if and only if all bounds are words, and otherwise if and only if the version is all the table files there are, in level 0 (`LsmRestart.CleanRestartKeepsVersionExactlyWhen`, `Manifest.SnapshotNamesFileExactlyWhen`). A history of edits is recoverable at every point if and only if all its bounds are words (`Manifest.ManifestRecoversExactlyWhen`).
- **Torn edit.** LogAndApply writes the deletions of a compaction before its additions. A manifest that ends in between recovers as neither version, and opening deletes inputs and outputs (`LsmTorn.TornJobIsCleanExactlyWhen`, `LsmTorn.TornJobLosesRecord`); at all other cuts between lines, and at every one of a flush's edit, nothing that the commit keeps is lost as long as the manifest names a file (`LsmTorn.TornJobLosesNothing`, `LsmTorn.TornFlushLosesNothing`). A cut inside a line reads as a cut in front of it, unless it is inside the line's last number, which is then read as a shorter one (`LsmTorn.TornLineReadsAsCut`, `ManifestTorn.TornNumberIsMisread`).
- **Older logs.** Records of the older log format, which replay still accepts, are not all read: a tombstone never is (`Wal.OldDeleteIsLost`), and a put is read exactly when what follows its first byte does not look like a record itself, as it does for a measurement of one or two bytes at a timestamp that is a multiple of 256 (`Wal.OldPutReplaysExactlyWhen`).
- **Short tail.** A log cut 1 to 8 bytes into a record is not truncated by replay, and the next small append is lost (`Wal.RepairIsCompleteExactlyWhen`).
- **Termination.** The plain sum over records of `7 - level` does not fall at every commit: a flushed table whose keys all lie below `TsKey{}` is an empty file (`LsmSafety.EmptyFileKeepsRecordWeight`). Counting each level-0 file once more does (`LsmSafety.CommitLighter`).
- **Timestamps.** Ascending input is not enough for the codec: a delta of delta and its negation must fit a signed 64-bit integer (`DeltaOfDelta.AscendingCanOverflow`); a span of at most 2^63 - 1 suffices.

Comment and code disagree on the size of a level: src/compaction.h:7 says 10^(i+1) MB, src/tsdb_engine.cpp:594 uses 1 MiB times 2^level. The model follows the code.

## Model

| member | source | states |
|---|---|---|
| `LsmRuns.StoreRefinesMap` | src/tsdb_engine.cpp:83-163 | In every state reachable by any interleaving of writes, batches, seals, flush steps, compaction steps, cleanups, read views and restarts that read manifest and log to the end and need not scan the directory: at most one of the sealed and the in-flight table exists; the copies of every key, deepest level first, higher file numbers later, then in-flight, sealed, active table, form a subsequence of the writes to it; and for every key of the domain that has been written since a restart or a relaxed TTL rule could last have cost it a write, the newest copy of an unexpired key is its last write, and Get returns the plain map's lookup unless that copy is in the table in flight |
| `LsmTtl.OrdinaryRunIsMap` | src/tsdb_engine.cpp:83-163 | At the end of every run without restarts and without relaxed rules that has no flush in flight, for every key of the domain: if some key of its measurement was written more than the seconds of the last SetTTL after it, Get finds nothing; otherwise Get finds what the last write to it, among the operations given to Put and Write, says. The statement speaks of the actions of the run alone |
| `LsmTtl.RunReadsBack` | src/tsdb_engine.cpp:140-163 | The same at the end of every run, restarts and relaxed rules included, for the keys they may not have cost a write |
| `LsmTtl.NothingLost` | src/tsdb_engine.cpp:235-239 | In a run without restarts and relaxed rules no key counts as one whose last write may be gone |
| `LsmTtl.WritesAreGiven` | src/tsdb_engine.cpp:112-137 | The history of such a run is what Put was given and what Write has applied, in that order |
| `LsmTtl.ExpiredExactlyWhen` | src/tsdb_engine.cpp:731-737 | At the end of every run a key has expired if and only if the last SetTTL of its measurement since the process started gave seconds n > 0 and a key seen since then lies more than n * 1000000000 after it |
| `LsmTtl.RulesOfRun` | src/tsdb_engine.cpp:891-897 | At every point of every run the rules hold exactly the greatest timestamp seen for each measurement, replayed records included, and the seconds last set |
| `LsmTtl.TouchAllLatest` | src/tsdb_engine.cpp:39-47 | After a restart the rule of each logged measurement has the greatest logged timestamp and no seconds |
| `LsmTtl.RuleCutsExactly` | src/tsdb_engine.cpp:731-737 | For every measurement, n > 0 seconds and latest timestamp L: a run after which Get finds nothing at L - n * 10^9 - 1 and the values at L - n * 10^9 and L, and RangeQuery lists exactly those two |
| `LsmRuns.CommitsAreInvisible` | src/tsdb_engine.cpp:498-541 | In every reachable state committing a compaction changes Get for no key up to the compaction reader's last key, whatever flushes landed since the job was picked, as long as no TTL rule of its measurement was relaxed while the job was under way |
| `LsmRuns.DomainIsExact` | src/memtable.cpp:100-110 | At the end of every run that has no flush in flight and cost the key no write, Get agrees with the map of writes, if and only if the measurement is the single byte 0xFF or starts with a smaller byte, or is empty and the timestamp is not negative |
| `LsmRuns.DomainInBytes` | src/tsdb_engine.cpp:381-389 | The same bytes describe the keys between TsKey{}, where a flush starts, and (\xFF, INT64_MAX), where the compaction reader stops |
| `LsmRuns.LowKeyIsLost` | src/memtable.cpp:104-105 | For every key below TsKey{} a run of four steps in which its flush loses the write |
| `LsmRuns.HighKeyIsLost` | src/tsdb_engine.cpp:382-389 | For every key above the compaction reader's last key a run in which the first compaction loses the write |
| `LsmRuns.InFlightIsHidden` | src/tsdb_engine.cpp:401-403 | For every key a run in which Get misses an acknowledged write because its table is in flight |
| `LsmRuns.CommitsLeaveAloneExactlyWhen` | src/tsdb_engine.cpp:731-737 | For every TTL snapshot, every set of rules and every key of the domain: in every run, all commits of jobs with that snapshot under those rules leave Get alone if and only if what the snapshot expires is expired by the rules, or no run brings the two together, because a rule is missing or a latest timestamp fell |
| `LsmRuns.RulesGrow` | src/tsdb_engine.cpp:891-897 | In every reachable state the rules in force have every measurement of the running job's snapshot, with a latest timestamp no smaller |
| `LsmRuns.RelaxedRuleShowsCommit` | src/tsdb_engine.cpp:731-737 | For every measurement and every number of seconds that relaxes a one-second rule, by clearing or by raising it, a run whose commit loses a value that Get returned |
| `LsmReads.GetIsMapGet` | src/tsdb_engine.cpp:140-163 | On a good state, for a key of the domain that lost no write and outside the in-flight window, Get is the lookup in the map of all writes under the current TTL rules |
| `LsmReads.GetFromLevelsFindsNewest` | src/tsdb_engine.cpp:699-721 | Searching the levels top down and each level newest file first, with metadata bounds as a filter, returns the newest copy among all copies of the key |
| `LsmReads.CommitIsInvisible` | src/tsdb_engine.cpp:498-541 | In every state of the invariant the commit keeps Get for a key, provided what the TTL snapshot drops is still expired today |
| `LsmHistory.NextIsGood` | src/tsdb_engine.cpp:391-445 | Every action keeps the invariant, the write order of copies, the last write on top, the log's agreement with memory key by key, the log's order behind the files, the snapshot's cover, and that the last write of a key which the running job drops, but which has come back, lies outside the job |
| `LsmHistory.CommitJobCopies` | src/compaction.cpp:30-68 | A commit leaves the copies of every key unchanged except that one block of them shrinks to its newest element, or to nothing when the filter drops the key |
| `LsmHistory.CommitFlushKeepsKey` | src/tsdb_engine.cpp:425-432 | A flush commit adds and removes no copy of a key from TsKey{} up, and keeps the write order for all keys |
| `LsmHistory.PutKeepsLogExactlyWhen` | src/tsdb_engine.cpp:83-99 | A put keeps the log in agreement with memory on its key if and only if no logged batch will leave another entry there; on other keys it changes nothing |
| `LsmHistory.ApplyKeepsLogExactlyWhen` | src/tsdb_engine.cpp:124-136 | Applying a logged operation keeps the agreement on its key if and only if the log has a later operation on the key, or the batches before it will leave no other entry there; on other keys it changes nothing |
| `LsmHistory.CommitJobSpares` | src/tsdb_engine.cpp:498-541 | A commit that drops a key leaves its newest copy in place whenever that copy lies in a file, or a table, outside the job |
| `LsmMerge.MergedCopies` | src/compaction.cpp:30-61 | The merged output holds, for every kept key, exactly the newest copy over all inputs in their order, and nothing for a dropped key |
| `LsmMerge.InstallShrinks` | src/tsdb_engine.cpp:513-522 | Swapping the inputs for the outputs replaces the inputs' block of copies of each key by its last element |
| `LsmMerge.InstallDrops` | src/tsdb_engine.cpp:513-522 | For a key the job drops, the levels after the commit hold exactly the copies of the files outside the job |
| `RankedMerge.MergeKeepsNewest` | src/compaction.cpp:42-61 | The output is strictly ascending and holds a record if and only if it is the newest of its key over all inputs |
| `RankedMerge.MergeCopies` | src/compaction.cpp:51-61 | A key has exactly one record in the output, its newest, or none if no input has it |
| `RankedMerge.TakeFirsts` | src/compaction.cpp:51-61 | The index loop over the sorted records takes exactly the first record of every key |
| `LsmSafety.LevelInvariant` | src/version.cpp:34-67 | Every reachable version has seven levels sorted by unique file number, metadata bounds that are exactly the end keys of each file, sorted files, no empty file below level 0, and pairwise disjoint level-1 files |
| `LsmSafety.FilesAreSafe` | src/tsdb_engine.cpp:457-541 | At most one job with exactly its inputs marked; the commit-time input check holds; reads see every file of the version; the version, the views and unfinished outputs have their files on disk; nothing pending deletion is live |
| `LsmSafety.NothingInUseIsRemoved` | src/tsdb_engine.cpp:907-919 | No action removes or rewrites a file that the version holds afterwards or that a captured view still reads |
| `LsmFiles.TryDeleteRemovesExactly` | src/tsdb_engine.cpp:907-919 | In every reachable state deleting pending files removes a file if and only if it is pending and no view holds it, and keeps exactly the held ones pending |
| `LsmFiles.EveryFileIsAccountedFor` | src/tsdb_engine.cpp:330-345 | In every reachable state each table file on disk is in the version, obsolete, pending deletion, or still being written |
| `LsmFiles.CleanupLeavesExactlyNeeded` | src/tsdb_engine.cpp:330-345 | After a cleanup of any reachable state the files on disk are exactly those of the version, those being written and those that a view holds; without views, the live and the reserved ones, with nothing left pending |
| `LsmFiles.CommitLeavesExactlyNeeded` | src/tsdb_engine.cpp:513-531 | After a compaction's commit with cleanup the files on disk are exactly the levels without the inputs and with the outputs, the file of a flush under way and those that a view holds |
| `LsmFiles.FilesNeverChange` | src/sstable.cpp:117-157 | No action changes the content of a table file that stays on disk |
| `LsmSafety.ViewKeepsAnswering` | src/tsdb_engine.cpp:679-721 | As long as a captured view is held, its files give the same answer for every key after any action |
| `LsmRetire.NextKeepsInv` | src/tsdb_engine.cpp:391-541 | Every action keeps the level invariant, the job's shape, the life cycle of files and the agreement of manifest and levels |
| `LsmRetire.TryDeleteIsSafe` | src/tsdb_engine.cpp:907-919 | Deleting pending files spares every file that is live, obsolete but unreleased, reserved or held by a view |
| `LsmRetire.ViewIsVersion` | src/tsdb_engine.cpp:679-697 | A captured view holds every file of the current version, because each has a published reader |
| `LsmCommits.InputsStayValid` | src/tsdb_engine.cpp:621-636 | The input check before a commit cannot fail |
| `LsmCommits.JobSurvivesFlush` | src/tsdb_engine.cpp:425-431 | A job picked before a flush commit keeps its shape after it: its level-0 inputs stay the oldest files |
| `LsmCommits.CommitKeepsLevels` | src/tsdb_engine.cpp:513-522 | Installing a job's outputs keeps the level invariant and turns exactly the inputs' numbers into the outputs' numbers |
| `LsmSafety.ScheduledExactlyWhenPicked` | src/tsdb_engine.cpp:659-673 | Compaction is scheduled if and only if the unforced picker finds a job, and a found job is never empty |
| `LsmPicks.PickedExactlyWhen` | src/tsdb_engine.cpp:549-605 | In every reachable state with no job running the unforced picker finds work if and only if level 0 has at least 4 files or the file sizes of some level 1 to 5 sum to more than 2097152, 4194304, 8388608, 16777216 or 33554432; it takes level 0 first, and otherwise all files of the lowest such level |
| `LsmPicks.ForcedPick` | src/tsdb_engine.cpp:549-572 | A forced pick takes level 0 whenever it has a file, and nothing is picked or scheduled while a job runs |
| `LsmPicks.L0JobIs` | src/tsdb_engine.cpp:564-585 | The level-0 job has exactly the level-1 files that meet some key between the candidates' least and greatest keys, in order, then the candidates |
| `LsmPicks.LowestOversized` | src/tsdb_engine.cpp:588-604 | The level loop stops at the lowest level over its limit and takes all of it |
| `LsmPicks.TotalSizeAdds` | src/tsdb_engine.cpp:589-593 | The size of a level is the sum of its files' sizes |
| `LsmProgress.WritersAreNeverStuck` | src/tsdb_engine.cpp:785-808 | From every reachable state a finite run of steps that the flush and the compaction thread already have before them leads to a state in which a write goes ahead, whatever its table uses and whatever the limit is |
| `LsmProgress.StepLeavesLess` | src/tsdb_engine.cpp:391-541 | Every such step, in any order and with any file sizes, leaves less of the flush and the job to do, and touches neither the active table nor the logged batches |
| `LsmProgress.SomeStep` | src/tsdb_engine.cpp:391-541 | As long as a table waits for its flush or a job runs, one of these steps can be taken |
| `LsmOutputs.OutputsReachTarget` | src/compaction.cpp:70-113 | In every reachable state every output of the running job but its last file counts for at least the target size and for less than it without its last record; with target 0 all records go to one file |
| `LsmOutputs.SplitEndCuts` | src/compaction.cpp:71-79 | An output ends at the first record with which measurements, values and 32 for each record reach the target |
| `LsmSafety.CommitLighter` | src/tsdb_engine.cpp:498-541 | Every commit strictly decreases the weight: each stored record times the levels it can still sink, plus the number of level-0 files |
| `LsmSafety.CompactionTerminates` | src/tsdb_engine.cpp:549-605 | Any run without flush commits holds at most as many compaction commits as its first state weighs |
| `LsmSafety.RecordWeightFallsExactlyWhen` | src/compaction.cpp:63-113 | The plain sum over records of (7 - level) falls at a commit if and only if an upper-level input holds a record or the merge drops one from the target level |
| `LsmSafety.EmptyFileKeepsRecordWeight` | src/compaction.cpp:70-72 | For every key below TsKey{} a run whose commit leaves the plain sum unchanged: a flushed table of such keys is an empty file |
| `LsmRestart.CrashLosesNothing` | src/tsdb_engine.cpp:30-47 | In every reachable state whose manifest and log can be read to their ends, and where opening does not scan the directory: the process that opens the log's bytes, the manifest's text and the table files has, for every key, the newest of the copies in the store and in logged batches, unless a rotation dropped a write to that key from memory, or a write to it overtook a logged operation that leaves another entry, and no later write put that right |
| `LsmRestart.UnbatchedCrashLosesNothing` | src/tsdb_engine.cpp:30-47 | After every run without batches and restarts whose rotations all found the active table empty, such a crash leaves every key its newest copy |
| `LsmRestart.NothingStale` | src/tsdb_engine.cpp:425-432 | In such a run the log never falls behind memory |
| `LsmRestart.CrashMidCommitLosesNothing` | src/tsdb_engine.cpp:425-432 | The same, for a key of the domain, between the manifest record of a flush and the rotation of the log, when the manifest with the new record can be read: replaying flushed data again changes nothing |
| `LsmRestart.RestartKeepsWriteOrder` | src/tsdb_engine.cpp:39-47 | Such a restart, even over a log that is behind, keeps the copies of every key in the order of the writes and the logged batches |
| `LsmRecovery.RotationIsCleanExactlyFor` | src/wal.cpp:336-349 | Rotation leaves the log in agreement with memory on a key if and only if neither the active table nor a logged batch holds it |
| `LsmRecovery.RotationIsCleanExactlyWhenMemoryIsEmpty` | src/wal.cpp:336-349 | And on all keys if and only if the active table and the logged batches are empty |
| `LsmRecovery.DirtyRotationLosesWrite` | src/tsdb_engine.cpp:425-432 | For every key a run in which a write during a flush is lost by the rotation and the next crash |
| `LsmRecovery.DirtyRotationBringsBackOlder` | src/tsdb_engine.cpp:425-432 | For every key from TsKey{} up whose measurement is a word, a run in which the older value of the flushed table comes back |
| `LsmRecovery.OvertakingPutReturns` | src/tsdb_engine.cpp:124-136 | For every key whose measurement length fits the log a run in which a put lands between the logging of a batch and its application: the batch's value is the last write, and a crash brings the put's value back |
| `LsmRestart.RestartIsReopen` | src/tsdb_engine.cpp:30-47 | What opening does with the bytes of the manifest, the directory and the records of the log is the step system's restart, whenever every line of the manifest can be read and the version has a file or there is no table file |
| `LsmRestart.ReadableManifestKeepsVersionExactlyWhen` | src/tsdb_engine.cpp:739-782 | In every reachable state whose manifest can be read to its end a restart gives the same levels if and only if the version has a file or there is no table file; then there is a reader and the same content for every file |
| `LsmRestart.RestartDropsUnreadableFiles` | src/version.cpp:145-153 | Whenever recovery finds some file in the manifest, a file with a bound that is not a word is in no recovered version |
| `LsmRestart.RestartScansDirectory` | src/tsdb_engine.cpp:749-782 | Whenever recovery finds none, level 0 gets exactly the table files of the directory, whatever their level was, and the other levels none |
| `LsmRestart.RestartRemovesExactly` | src/tsdb_engine.cpp:828-847 | A restart removes exactly the table files that no recovered level names when recovery found a file, and none otherwise; each file that stays keeps its content and has a reader |
| `LsmRestart.RestartNumbersAreFree` | src/tsdb_engine.cpp:739-782 | After any restart every table file on disk has a number below the next one, which is the manifest's or follows that of a file |
| `LsmRestart.ScanFindsVersionExactlyWhen` | src/tsdb_engine.cpp:749-782 | A scan finds the levels again if and only if the table files on disk are those of level 0 and the deeper levels are empty |
| `LsmRestart.CleanRestartKeepsVersionExactlyWhen` | src/tsdb_engine.cpp:739-782 | After a clean shutdown of any reachable store: when recovery finds a file in the snapshot, a restart gives the same levels if and only if all bounds of the version are words; when it finds none, if and only if the version is all the table files there are, in level 0 |
| `Manifest.SnapshotNamesFileExactlyWhen` | src/version.cpp:171-201 | Over measurements without line breaks, recovery finds a file in a snapshot if and only if there is one and the line of the first is not rejected |
| `LsmRestartRuns.UnreadableBoundLosesLaterFile` | src/tsdb_engine.cpp:739-747 | For every key whose file bound does not read back (low keys, empty measurements, two words) and every good key written and flushed after it, a run in which a restart stops at the first's manifest line, deletes the later files and loses the good key |
| `LsmRestartRuns.LowKeysAreUnreadable` | src/version.cpp:149-153 | Keys below TsKey{}, whose flush is an empty file with the bound of TsKey{}, and keys with an empty measurement are of that kind |
| `LsmRestartRuns.TwoWordsAreUnreadable` | src/version.cpp:149-153 | Measurements such as a b are of that kind |
| `LsmRestartRuns.ScanBringsBackOlder` | src/tsdb_engine.cpp:749-782 | For every key of the domain a run with a clean snapshot whose first file is unreadable: opening scans the directory, a compacted file with an older value comes to lie above a newer flush, and Get returns the older value |
| `LsmTorn.TornJobIsCleanExactlyWhen` | src/version.cpp:79-100 | The manifest cut after any number of lines of a compaction's edit recovers as the levels before the commit or after it if and only if no line, or every deletion and addition, was written |
| `LsmTorn.TornJobLosesNothing` | src/version.cpp:79-100 | A crash at such a cut, with a log that can be read and a manifest that names a file, leaves the next process with the newest copy of every key that the job keeps, unless the log was behind on it |
| `LsmTorn.TornFlushLosesNothing` | src/version.cpp:79-100 | A crash at any cut of a flush's edit does so for every key of the domain |
| `LsmTorn.TornJobLosesRecord` | src/tsdb_engine.cpp:828-847 | For every key whose measurement is a word a run in which the manifest is cut after the first deletion of a compaction's edit: opening deletes input and output, and a value that Get returned is gone |
| `LsmTorn.TornLineReadsAsCut` | src/version.cpp:79-100 | A manifest cut at a byte inside a line reads as cut in front of the line, as long as the cut is before the line's last number; cut after the whole line it reads as cut behind it |
| `ManifestTorn.ShortLineSaysNothing` | src/version.cpp:132-166 | A printed line that ends anywhere before its last number is passed over or stops recovery, and never reads as a line |
| `ManifestTorn.TornNumberIsMisread` | src/version.cpp:158-166 | A deletion that lost the last digit of its file number deletes the file with the shorter number |
| `LsmRange.RangeQueryAgreesWithGet` | src/tsdb_engine.cpp:165-233 | With at most 100000 files per level RangeQuery returns strictly ascending timestamps and contains a record if and only if it is in range and Get returns that value, TTL and tombstones included |
| `LsmCrowded.AgreesUpToRanks` | src/tsdb_engine.cpp:175-200 | In every reachable state with at most n files in any level RangeQuery holds a value exactly when Get returns it, for every n up to 100000 and for none from 100002 on; at 100001 two tables can share a rank |
| `LsmCrowded.CrowdedLevelShowsOlder` | src/tsdb_engine.cpp:193-198 | For every key of the domain and every n from 100002 up a run with n files in level 0 after which Get finds the last write and RangeQuery lists the one before it |
| `LsmRange.MergedSources` | src/tsdb_engine.cpp:208-231 | Sorting the ranked sources and taking the first of every key yields, for each key in range, the newest copy over all sources |
| `Version.ApplyEditLevels` | src/version.cpp:34-67 | Applying an edit gives, level by level, the old files without the deleted numbers, then the added files, sorted by number |
| `Version.DeletesObsolete` | src/version.cpp:35-51 | Deleting distinct numbers that are present appends exactly them, in order, to the obsolete list |
| `Version.RecoverSnapshot` | src/version.cpp:171-201 | Reading the lines of a snapshot of sorted levels gives those levels back |
| `Engine.TsdbEngine.constructor` | src/tsdb_engine.cpp:25-51 | A fresh engine stands for the empty store |
| `Engine.TsdbEngine.Open` | src/tsdb_engine.cpp:30-47 | For any manifest that the engine wrote, any directory listing and any log bytes the new engine is what Restart says; and it is the step system's restart, valid and with the history carried on, when manifest and log can be read to the end and the directory is not scanned; the table counts as used what the replayed records count for |
| `Engine.TsdbEngine.Restore` | src/tsdb_engine.cpp:35-47 | Recovering as much of the version as can be read, opening readers, collecting garbage and replaying the log compose to that restart |
| `Engine.TsdbEngine.LoadExistingTables` | src/tsdb_engine.cpp:739-783 | Where the version names a file: a reader for every file on disk, file numbers marked as used, every other table file removed. Otherwise: every table file in level 0 with its size and end keys, a reader for each, and a rewritten manifest |
| `Engine.TsdbEngine.ScanDirectory` | src/tsdb_engine.cpp:757-778 | The loop over the listed table files adds each to level 0 and opens a reader for it |
| `Engine.TsdbEngine.ReplayLog` | src/tsdb_engine.cpp:39-47 | The replayed table is the last-write-wins list of the records that the log gives, whatever its bytes, and the TTL map has every latest timestamp |
| `Engine.TsdbEngine.MakeRoom` | src/tsdb_engine.cpp:785-808 | Ready if and only if no compaction runs beside 12 or more level-0 files, and the table is under its limit or no sealed table waits or is being flushed; seals exactly when ready and full |
| `Engine.TsdbEngine.Put` | src/tsdb_engine.cpp:83-96 | The write is done if and only if that condition holds. Done, it is logged, in the table and in the history, with its table sealed before it or after it exactly when full, and usage is below the limit or a table waits for the flush thread; otherwise nothing changes |
| `Engine.TsdbEngine.Delete` | src/tsdb_engine.cpp:98-110 | The same for a tombstone |
| `Engine.TsdbEngine.LogBatch` | src/tsdb_engine.cpp:112-126 | The whole batch goes to the log before any operation reaches the table |
| `Engine.TsdbEngine.ApplyFromBatch` | src/tsdb_engine.cpp:128-137 | One operation of a logged batch reaches the active table |
| `Engine.TsdbEngine.SetTTL` | src/tsdb_engine.cpp:235-239 | Only the seconds of the measurement's rule change |
| `Engine.TsdbEngine.UpdateLatestTimestamp` | src/tsdb_engine.cpp:891-897 | The rule's latest timestamp becomes the maximum |
| `Engine.TsdbEngine.Get` | src/tsdb_engine.cpp:140-163 | The returned value is the step system's Get, hence the map's lookup when nothing is in flight and the key is in the domain and lost no write |
| `Engine.TsdbEngine.RangeQuery` | src/tsdb_engine.cpp:165-233 | With at most 100000 files per level the returned list is ascending and holds a value exactly when Get returns it |
| `Engine.TsdbEngine.FlushStep` | src/tsdb_engine.cpp:303-319 | One turn of Flush: seals a non-empty table when nothing waits; done if and only if nothing is left to flush |
| `Engine.TsdbEngine.BeginFlush` | src/tsdb_engine.cpp:391-403 | Takes the sealed table in flight, if there is one |
| `Engine.TsdbEngine.BuildFlush` | src/tsdb_engine.cpp:405-423 | A file under the next number with the table's records from TsKey{} up, with its size and its end keys as metadata |
| `Engine.TsdbEngine.CommitFlush` | src/tsdb_engine.cpp:425-440 | Logs and applies the edit, publishes the reader, rotates the log and ends the flush |
| `Engine.TsdbEngine.MaybeScheduleCompaction` | src/tsdb_engine.cpp:447-455 | The pending flag is set exactly when there is work, or a job runs beside 4 or more level-0 files outside it |
| `Engine.TsdbEngine.ShouldScheduleCompaction` | src/tsdb_engine.cpp:659-673 | The loops decide exactly whether there is work, which `LsmPicks.PickedExactlyWhen` spells out in file counts and bytes |
| `Engine.TsdbEngine.PickCompactionWork` | src/tsdb_engine.cpp:549-605 | The loops return exactly the job that `LsmPicks.PickedExactlyWhen` and `LsmPicks.L0JobIs` spell out |
| `Engine.TsdbEngine.StartCompaction` | src/tsdb_engine.cpp:607-612 | Starts exactly when the picker finds a job; marks its inputs, takes the TTL snapshot and clears the pending flag |
| `Engine.TsdbEngine.MergeInputs` | src/compaction.cpp:30-61 | Reads the inputs up to (\xFF, INT64_MAX), filters, sorts and keeps the newest record of every key |
| `Engine.TsdbEngine.EmitOutput` | src/compaction.cpp:70-113 | One more output under the next number with its size, cut where `LsmOutputs.SplitEndCuts` says |
| `Engine.TsdbEngine.CommitCompaction` | src/tsdb_engine.cpp:511-546 | The locked half of RunCompactionWork, the rejected branch included; the pending flag is set again exactly when it was or when there is work |
| `Engine.TsdbEngine.IsCompactionInputValid` | src/tsdb_engine.cpp:621-636 | True if and only if every input names one of the seven levels and a file with its number is there |
| `Engine.TsdbEngine.CleanupObsoleteFiles` | src/tsdb_engine.cpp:330-345 | Obsolete files move with their readers to the pending list, and what nobody holds is deleted; `LsmFiles.CleanupLeavesExactlyNeeded` says which files are left |
| `Engine.TsdbEngine.TryDeletePendingFiles` | src/tsdb_engine.cpp:907-919 | Removes the pending files no view holds and keeps the others pending, as `LsmFiles.TryDeleteRemovesExactly` spells out |
| `Engine.TsdbEngine.CaptureReadView` | src/tsdb_engine.cpp:679-697 | The view is the version's files that have a published reader |
| `Engine.TsdbEngine.ReleaseReadView` | src/tsdb_engine.cpp:907-912 | Dropping a view changes nothing but the views |
| `Engine.TsdbEngine.WriteSnapshot` | src/tsdb_engine.cpp:69-76 | The manifest becomes a snapshot of the current levels |
| `Engine.GetFromSSTables` | src/tsdb_engine.cpp:699-721 | The nested loops find what the specified search finds, first hit wins |
| `Assembly.Get` | src/tsdb_engine.cpp:140-163 | Over skip-list memtables and table readers on file bytes behind the shared cache: when the objects hold what a state says, Get returns the step system's lookup, and the map's lookup in every reachable state under the conditions above; the cache stays right for every reader |
| `Assembly.RangeQuery` | src/tsdb_engine.cpp:165-233 | Over the same objects the loops return exactly the step system's RangeQuery |
| `Assembly.FlushTable` | src/tsdb_engine.cpp:405-423 | Iterating a skip-list memtable, building the file and opening it gives a reader for exactly the table's records from TsKey{} up, with its end keys as bounds |
| `Assembly.ReadInput` | src/tsdb_engine.cpp:381-389 | A compaction's scan of an input file gives its records up to the last key read, and the merge keeps of the scan what it would keep of the file |
| `Engine.BuildL0Job` | src/tsdb_engine.cpp:564-585 | The loops compute the candidates' key range and put the overlapping level-1 files before the candidates |
| `Engine.OutputEnd` | src/compaction.cpp:71-79 | The inner loop ends at the first record that reaches the target size |
| `SkipList.SkipList.constructor` | src/skiplist.h:38-41 | A new list is empty and valid |
| `SkipList.SkipList.Insert` | src/skiplist.h:47-64 | Whatever height is drawn, the contents become the sorted list with the key upserted, and the list stays valid: on every level each pointer leads to the next node at least that tall |
| `SkipList.SkipList.FindGreaterOrEqual` | src/skiplist.h:113-126 | Returns the first node not below the key and, per level, the last node before it; terminates by level and nodes left |
| `SkipList.SkipList.Get` | src/skiplist.h:66-73 | Finds exactly the entry stored under the key |
| `SkipList.SkipList.Splice` | src/skiplist.h:59-63 | After rewiring, every node's pointers lead where they must in the list with the new node |
| `SkipList.SkipList.RandomHeight` | src/skiplist.h:101-106 | The height is between 1 and 12 |
| `SkipList.SkipList.Count` | src/skiplist.h:135-144 | Counts the entries |
| `SkipList.SkipList.Walk` | src/skiplist.h:86-86 | Following level l from the head visits exactly the nodes taller than l, in order, then null |
| `SkipList.LevelsNest` | src/skiplist.h:47-64 | Every level is strictly ascending and a sublist of the level below; the bottom level is the whole list |
| `MemTable.MemTable.Put` | src/memtable.cpp:15-21 | Contents become the upsert of a value; memory usage grows by the lengths of measurement and value and 72 |
| `MemTable.MemTable.Delete` | src/memtable.cpp:23-28 | Contents become the upsert of a tombstone; memory usage grows by the length of the measurement and 72 |
| `MemTable.MemTable.GetEntry` | src/memtable.cpp:41-46 | The entry stored under the key, or none |
| `MemTable.MemTable.RangeQueryEntries` | src/memtable.cpp:60-78 | Exactly the slice of the contents in the range; empty when the range is reversed |
| `MemTable.MemTable.IterateEntries` | src/memtable.cpp:100-110 | Exactly the contents from TsKey{} up |
| `MemTable.MemTable.Empty` | src/memtable.cpp:80-83 | True if and only if nothing lies from TsKey{} up |
| `Types.FirstDifferenceDecides` | src/utils.h:28-29 | Measurements compare by the first byte that differs, as unsigned bytes, and a proper prefix is less |
| `Types.KeyOrderInBytes` | src/utils.h:26-34 | Keys are ordered by measurement in this order, and under one measurement by timestamp |
| `Types.SliceIsStretch` | src/memtable.cpp:60-78 | The slice of a sorted table is one stretch of it: what comes before is below the range and what comes after is above it |
| `Types.FromZeroKeyIsTail` | src/memtable.cpp:100-110 | What a flush sees of a sorted table is exactly its tail of keys not below TsKey{} |
| `Wal.DecodeUndoesPayload` | src/wal.cpp:307-334 | Decoding a record's payload gives the record back if and only if its measurement is shorter than 2^32 bytes |
| `Wal.ReplayOfPrefix` | src/wal.cpp:178-281 | For every list of records and every byte prefix of their log, across all fragment kinds, replay yields exactly the records wholly inside, in order, their total length as valid offset, and the corruption flag if and only if at least 9 bytes remain |
| `Wal.ReplayOfLog` | src/wal.cpp:178-281 | A whole log replays to its records and is left as it is |
| `Wal.AppendsFollowKept` | src/wal.cpp:283-302 | After a cut is repaired, appending and replaying yields the kept records followed by the new ones when the remainder is 0 or at least 9 bytes |
| `Wal.ShortTailLosesNext` | src/wal.cpp:196-203 | With a remainder of 1 to 8 bytes the next appended record of under 255 bytes is lost, whatever it is |
| `Wal.RepairIsCompleteExactlyWhen` | src/wal.cpp:196-302 | All appends after a repair are replayed if and only if the remainder is 0 or at least 9 bytes |
| `Wal.TornAppendReplays` | src/wal.cpp:156-303 | A crash in the middle of an append loses that record alone, and the file is left clean if and only if the cut is at 0 or at least 9 bytes |
| `Wal.CutFrame` | src/wal.cpp:196-213 | A frame cut short reads as too short below 9 bytes and as corrupt otherwise |
| `Wal.DamageEndsReplay` | src/wal.cpp:196-213 | Any change inside four consecutive bytes of what a frame holds, in any frame of any record: replay gives exactly the records before that one, whatever follows, and cuts the file behind them |
| `Wal.OutOfPlaceEndsReplay` | src/wal.cpp:226-277 | A whole frame of a kind that cannot stand where it does, or does not exist, ends replay in the same way |
| `Wal.UnreadableEndsReplay` | src/wal.cpp:227-242 | A whole frame that holds no logical record, of the present or of the older format, ends replay in the same way |
| `Wal.DecodesExactly` | src/wal.cpp:307-334 | Bytes read as a logical record if and only if they are the bytes of a put, or start with the bytes of a tombstone, that the log can hold |
| `Wal.OldPutReplaysExactlyWhen` | src/wal.cpp:215-242 | A put of the older format without a physical type is replayed if and only if its bytes after the first do not read as a record themselves: the low byte of its measurement length is no type byte, or the length that follows from the other three and the low byte of the timestamp does not fit. Otherwise that other record is replayed in its place |
| `Wal.OldDeleteIsLost` | src/wal.cpp:243-250 | A tombstone of the older format is never replayed: its type byte reads as the first fragment of a record, and the log is cut in front of it |
| `DiskFormat.FrameBytes` | src/wal.cpp:123-144 | A frame is the checksum of kind and data, their length, both low byte first, then kind and data |
| `DiskFormat.PayloadBytes` | src/wal.cpp:73-78 | A logical record is 1 for a put or 2 for a delete, the length of the measurement in 4 bytes, the timestamp in 8, the measurement and the value |
| `DiskFormat.FragmentAt` | src/wal.cpp:80-104 | Frame j of a record starts at 32777 j, holds the j-th 32768 bytes of it and has kind 1 for a whole record, 2 for the first part, 4 for the last and 3 in between |
| `Wal.WriteAheadLog.AppendPut` | src/wal.cpp:50-53 | The file grows by exactly the record's fragments |
| `Wal.WriteAheadLog.AppendDelete` | src/wal.cpp:55-57 | The same for a deletion |
| `Wal.WriteAheadLog.AppendRecord` | src/wal.cpp:68-109 | The fragment loop writes the encoding of the payload: one full fragment, or first, middle and last ones |
| `Wal.WriteAheadLog.AppendPhysicalRecord` | src/wal.cpp:123-144 | Appends checksum, length and fragment unless it is too large |
| `Wal.WriteAheadLog.ReplayEntries` | src/wal.cpp:156-303 | The replay loop emits what the specified scan emits and leaves the repaired file |
| `Wal.WriteAheadLog.Rotate` | src/wal.cpp:336-349 | The log becomes empty and its bytes become the old file |
| `Crc32.LookupDivides` | src/crc32.cpp:62-65 | One table lookup per byte is eight steps of bit-by-bit reflected division by 0xEDB88320 |
| `Crc32.MakeTable` | src/crc32.cpp:50-60 | Each of the 256 entries is its index divided eight steps |
| `Crc32.Compute` | src/crc32.cpp:6-67 | The loop computes the bit-by-bit checksum of section 8 of RFC 1952 |
| `Crc32.CrcConcat` | src/crc32.cpp:62-66 | The checksum of a concatenation continues from the checksum of the first part |
| `Crc32.ShortBurstChangesChecksum` | src/crc32.cpp:62-66 | Changing any bytes inside one window of at most four changes the checksum, whatever surrounds it |
| `Crc32.Residue` | src/crc32.cpp:62-66 | A body followed by its own checksum, low byte first, has the checksum 0x2144DF1C, whatever the body; the checksum of nothing is 0 |
| `Crc32.SameEnd` | src/crc32.cpp:62-65 | If two remainders agree after at most four bytes each, they differed only in as many low bytes, and equal starts mean equal bytes |
| `Codec.VarintRoundTrip` | src/compression.cpp:8-29 | Decoding an encoded 32-bit value anywhere in a buffer gives value and end position |
| `Codec.Varint64RoundTrip` | src/compression.cpp:31-51 | The same for 64 bits |
| `Codec.VarintSize` | src/compression.cpp:8-14 | A value below 128^n takes at most n bytes |
| `Codec.LittleRoundTrip` | src/wal.cpp:351-381 | Fixed-width little-endian numbers read back |
| `Codec.LittleAt` | src/wal.cpp:351-362 | Byte i of a fixed-width number is the one that counts 256^i |
| `Codec.VarintAt` | src/compression.cpp:8-14 | Byte i of a varint holds the seven bits that count 128^i, with the high bit set exactly when more is left |
| `Codec.EncodeVarint` | src/compression.cpp:8-14 | The shifting loop writes the varint |
| `Codec.ReadVarint32` | src/compression.cpp:16-29 | The decoding loop, its error value and its position |
| `DeltaOfDelta.Encoder.Add` | src/compression.cpp:55-107 | Appends the code of the timestamp to the bits written, across byte boundaries, for representable deltas of deltas |
| `DeltaOfDelta.Encoder.Finish` | src/compression.cpp:109-130 | Returns the encoding of exactly the timestamps added and resets |
| `DeltaOfDelta.Encoder.WriteBits` | src/compression.cpp:132-146 | Writes the value's low bits, high bit first |
| `DeltaOfDelta.Decoder.constructor` | src/compression.cpp:150-160 | Reads the count |
| `DeltaOfDelta.Decoder.ReadBits` | src/compression.cpp:162-180 | Takes the next bits of the stream, zeros after its end |
| `DeltaOfDelta.Decoder.Next` | src/compression.cpp:182-231 | One step: the decoder's state follows the stream; false and no change after the last |
| `DeltaOfDelta.ReadsCode` | src/compression.cpp:68-103 | Each of the four prefix codes reads back to its delta of delta and leaves the rest of the stream |
| `DeltaOfDelta.CodeBits` | src/compression.cpp:68-103 | The codes have 1, 9, 17 or 68 bits for 0, up to 63, up to 8191 and beyond: their prefix, the sign, and the magnitude high bit first |
| `DeltaOfDelta.SecondDifference` | src/compression.cpp:64-66 | What is coded is t[i] - 2 t[i-1] + t[i-2] wherever the differences fit 64 bits |
| `DeltaOfDelta.StreamBit` | src/compression.cpp:132-146 | Bit 8i + j of the stream is the one that counts 2^j in byte i |
| `DeltaOfDelta.Decode` | src/compression.cpp:182-231 | Decoding an encoding of representable timestamps yields exactly them, then false |
| `DeltaOfDelta.RoundTrip` | src/compression.cpp:55-231 | Encoder then decoder is the identity, for every representable sequence |
| `DeltaOfDelta.EncodingIsUnique` | src/compression.cpp:109-121 | A sequence has one encoding |
| `DeltaOfDelta.EncodingSize` | src/compression.cpp:55-121 | At most 20 + ceil(68(n-1)/8) bytes |
| `DeltaOfDelta.EvenSpacingIsOneBit` | src/compression.cpp:68-72 | Constant spacing costs exactly one bit per timestamp after the second |
| `DeltaOfDelta.ShortSpanIsRepresentable` | src/compression.h:20-21 | Every ascending sequence that spans at most 2^63 - 1 is representable |
| `DeltaOfDelta.AscendingCanOverflow` | src/compression.cpp:94-96 | Ascending input alone is not enough: INT64_MIN, 0 has the delta of delta -2^63, whose negation overflows |
| `Bloom.FilledExactly` | src/bloomfilter.cpp:38-46 | A bit is set if and only if it is a probe of an added key |
| `Bloom.FilledHolds` | src/bloomfilter.cpp:48-58 | No false negative |
| `Bloom.AnswersNoExactlyWhen` | src/bloomfilter.cpp:48-58 | The filter of some keys answers no if and only if some probe of the key is no probe of any of them |
| `Bloom.ProbesStep` | src/bloomfilter.cpp:38-46 | In an array whose size is a power of two the probes start at the first hash and go on in steps of the second, modulo the number of bits |
| `Bloom.OneByteChangesHash` | src/bloomfilter.cpp:94-101 | Two keys that differ in one byte have different first hashes |
| `Bloom.HashValues` | src/bloomfilter.cpp:94-110 | The first hash is FNV-1a, by its published values for no byte and for the byte a; and the second hash of the same |
| `Table.FilterSizeIs` | src/bloomfilter.cpp:23-36 | The filter of a table has ten bits a key in the fewest doublings of 1024 bytes that give them |
| `DiskFormat.FilterLayout` | src/bloomfilter.cpp:60-70 | A stored filter is the number of probes, the length and the number of keys in 4 bytes each, then bit n as the one that counts 2^(n % 8) in byte n / 8 |
| `DiskFormat.TableFilter` | src/bloomfilter.cpp:9-14 | The filter of a table has seven probes and counts every record |
| `Bloom.StoredFilterHasNoFalseNegative` | src/bloomfilter.cpp:60-92 | After encoding and decoding the bits and probes are the same and no added key is missed |
| `Bloom.LoadUndoesStored` | src/bloomfilter.cpp:60-92 | Decoding undoes encoding, the key count modulo 2^32 |
| `Bloom.BloomFilter.Add` | src/bloomfilter.cpp:16-21 | Through every doubling and rehash the bits stay those of all keys added |
| `Bloom.BloomFilter.EnsureCapacity` | src/bloomfilter.cpp:23-36 | Doubles to the first sufficient size and rehashes all keys, or does nothing |
| `Bloom.BloomFilter.MayContain` | src/bloomfilter.cpp:48-58 | True if and only if all probes are set |
| `Bloom.BloomFilter.Encode` | src/bloomfilter.cpp:60-70 | The stored form |
| `Bloom.BloomFilter.Decode` | src/bloomfilter.cpp:72-92 | The loaded form, malformed input included |
| `BlockCache.LruCache.Get` | src/block_cache.cpp:8-19 | Returns the stored value and moves the entry to the front, or misses; map, list and byte count stay in step |
| `BlockCache.LruCache.Put` | src/block_cache.cpp:21-40 | The entry goes to the front, an older one of its key disappears, and the tail is pruned; an oversized value changes nothing, so an older entry stays |
| `BlockCache.LruCache.Prune` | src/block_cache.cpp:56-63 | Drops least recently used entries until the rest fits |
| `BlockCache.LruCache.Clear` | src/block_cache.cpp:42-49 | Empty |
| `BlockCache.PrunedIsLongestFit` | src/block_cache.cpp:56-63 | What is kept is the longest prefix, most recent first, whose charges fit the capacity |
| `BlockCache.PrunedKeepsNewest` | src/block_cache.cpp:32-39 | The entry just put is never evicted |
| `TableFormat.DecodeUndoesEncodeKey` | src/sstable.cpp:51-72 | A key decodes to itself if and only if its measurement is shorter than 2^32 - 1 bytes |
| `TableFormat.LookInIsFind` | src/sstable.cpp:342-372 | Walking a block's bytes finds exactly the entry of the key in the block's record list |
| `TableFormat.ScanBlockIsSlice` | src/sstable.cpp:288-312 | Scanning a block's bytes yields exactly its records in the range, and stops early only past the end |
| `TableFormat.DamagedBlockIsRejected` | src/sstable.cpp:330-335 | A block whose body was changed within four consecutive bytes reads as empty |
| `TableFormat.ReadsIndex` | src/sstable.cpp:202-223 | The index entries read back |
| `TableLayout.BlockAtIs` | src/sstable.cpp:103-115 | Every index entry addresses exactly its block |
| `TableLayout.OpenReadsBack` | src/sstable.cpp:163-237 | Opening a finished file gives its index, its filter and the first and last key of its records |
| `DiskFormat.BadFooterIsRejected` | src/sstable.cpp:171-188 | A file of less than 24 bytes, with another magic number at its end, or with offsets out of order does not open |
| `TableLayout.FindInBlock` | src/sstable.cpp:260-266 | The block at the index's lower bound, and no other, can hold the key |
| `TableLayout.BlocksBeyond` | src/sstable.cpp:286-311 | Once a block reaches past the end no later block has a record in range |
| `Table.BlocksKeepRecords` | src/sstable.cpp:83-115 | Cutting into blocks at the size limit keeps all records in order, whatever the block size |
| `Table.BlocksReachSize` | src/sstable.cpp:83-101 | Every block but the last reaches the block size, and none does so before its last entry |
| `DiskFormat.KeyBytes` | src/sstable.cpp:51-61 | A key is the length of its measurement, the measurement, and the timestamp in 8 bytes, low byte first |
| `DiskFormat.EntryLayout` | src/sstable.cpp:83-95 | An entry is key length, key, 1 for a value or 2 for a tombstone, value length, value |
| `DiskFormat.BlockLayout` | src/sstable.cpp:107-112 | A block is the checksum of its entries in 4 bytes, then the entries |
| `DiskFormat.IndexEntryLayout` | src/sstable.cpp:125-131 | An index entry is key length, last key, offset and size in 8 bytes each |
| `DiskFormat.FileLayout` | src/sstable.cpp:117-146 | A file is the blocks, the number of index entries and the entries, the filter, and 24 bytes: where the index starts, where the filter starts, and S_MINI02 |
| `Table.FilterTellsAbsent` | src/sstable.cpp:256-257 | A negative filter answer means the key is absent |
| `Table.SSTableBuilder.Add` | src/sstable.cpp:83-101 | One more record; the file so far, the open block, the index vectors and the filter stay those of the records added |
| `Table.SSTableBuilder.FlushBlock` | src/sstable.cpp:103-115 | The open block, if not empty, becomes a checksummed block with its index entry |
| `Table.SSTableBuilder.Finish` | src/sstable.cpp:117-157 | The file is data blocks, index, filter and footer of the added records |
| `Table.SSTableReader.Open` | src/sstable.cpp:163-237 | Every field is what the specified parse of the bytes gives; false for the corrupt files |
| `Table.SSTableReader.ReadBlock` | src/sstable.cpp:316-340 | With or without a cache shared by any immutable files, the block is the one an uncached read gives |
| `Table.SSTableReader.GetEntry` | src/sstable.cpp:251-267 | On the finished table of ascending records: the entry of the key, or none; a block is read if and only if the table has records, the filter says yes and the key is not above the last one |
| `Table.SSTableReader.RangeScanEntries` | src/sstable.cpp:281-314 | On the finished table of ascending records: exactly the records in the range |
| `Table.SSTableReader.LowerBound` | src/sstable.cpp:260-263 | Binary search returns the first index entry whose last key is not below the key |
| `Table.OpenBuilt` | src/sstable.cpp:163-237 | A finished file opens, and the reader reads its records |
| `Table.BuildThenRead` | src/sstable.cpp:83-372 | For any ascending records, block size and cache: build, open, look up and scan give the entry at the key or none, exactly the records in range, and the end keys |
| `Text.CacheKeyIsInjective` | src/sstable.cpp:319-323 | Two blocks share a cache key if and only if file name and offset agree |
| `Manifest.LineRoundTrip` | src/version.cpp:79-100 | A printed manifest line parses to itself if and only if its measurements are non-empty and without white space |
| `Manifest.RejectedExactlyWhen` | src/version.cpp:145-153 | An addition stops recovery if and only if its two bounds, printed, do not read as two keys |
| `Manifest.RejectedLineHidesRest` | src/version.cpp:132-166 | Recovery keeps exactly what comes before a rejected line, whatever follows it |
| `Manifest.RecoveredBoundsAreWords` | src/version.cpp:145-156 | No text ever gives a file a bound that is not a word |
| `Manifest.TextIsLines` | src/version.cpp:128-168 | Reading the text of printable lines gives what the lines say |
| `Text.ReadsInteger` | src/version.cpp:132-166 | A printed number reads back if it is in the range of the type, and makes reading fail otherwise |
| `Manifest.ReadsUnsignedExactly` | src/version.cpp:132-166 | A number read as an unsigned 64-bit one may have a minus sign and counts modulo 2^64; beyond 64 bits reading fails |
| `DiskFormat.AddLine` | src/version.cpp:88-99 | The line of an addition, spelled out for one: add 1 7 000007.sst 42 cpu -5 cpu 12 |
| `DiskFormat.DelLine` | src/version.cpp:85-87 | The line of a deletion, spelled out for one: del 0 3 |
| `DiskFormat.NextLine` | src/version.cpp:100-100 | The line of the next number, spelled out for one: next_file 12 |
| `DiskFormat.SixDigits` | src/version.cpp:215-220 | A file name below a million has exactly six digits, zeros in front, and .sst |
| `Manifest.RecoveryMatchesMemory` | src/version.cpp:128-168 | For any sequence of edits and file numbers handed out, recovery gives the levels in memory, sorted, and a next file number above every number added |
| `Manifest.ManifestRecoversExactlyWhen` | src/version.cpp:114-169 | A history of edits is recovered at every point of it if and only if every bound in it is a word |
| `Manifest.SnapshotRecoversExactlyWhen` | src/version.cpp:171-201 | Recovering a snapshot manifest gives the levels again, and no smaller next file number, if and only if every bound of the version is a word |
| `Manifest.VersionManager.ApplyUnlocked` | src/version.cpp:34-77 | The loops over deletions, additions and levels apply the edit |
| `Manifest.VersionManager.LogAndApply` | src/version.cpp:79-112 | The manifest grows by the edit's lines with the old next file number, then the edit is applied |
| `Manifest.VersionManager.RecoverFromManifest` | src/version.cpp:114-169 | The line loop reads the text; at a malformed line it answers false and leaves what came before in place, obsolete files included |
| `Manifest.VersionManager.WriteSnapshotManifest` | src/version.cpp:171-201 | The manifest becomes the snapshot's text |
| `Manifest.VersionManager.NewFileNumber` | src/version.cpp:203-206 | Hands out the next number once |
| `Manifest.VersionManager.ConsumeObsoleteFiles` | src/version.cpp:272-277 | Hands over the obsolete list and empties it |

## Left out

- Failing disk operations: file systems are modelled as byte sequences whose reads and writes succeed, so the error branches of Finish, LogAndApply, Rotate and Sync, and the branch that skips an unreadable compaction input, are not part of the model.
- Threads, condition variables, wait times and fairness: every locked region is one atomic action, and a wait is a method that returns "not ready". Nothing is claimed about when an action happens; `LsmProgress` says that the steps which free a waiting writer are there to be taken and run out.
- src/random_access_file.cpp, the CURRENT file, and file names: the manifest is the file that CURRENT names, and a table file is identified by its number, as NewFileName makes it. A level's files are sorted by insertion; numbers are unique, so every sort gives the same list.
- `Engine.TsdbEngine.Put`: the engine object holds the lists of its tables and files, not the objects and bytes; `Assembly` ties these lists to skip lists and table files for reads, flushes and compaction input. Sharing of the active table between a reader and later writers is not captured: a read here sees the tables of the moment it captures its view. A wait in the middle of Put is a refusal that changes nothing.
- `Engine.TsdbEngine.Get`: capturing, searching and releasing are one step here; captured views as such stay alive across steps and keep answering the same from their files (`LsmSafety.ViewKeepsAnswering`).
- `Engine.TsdbEngine.Open`: the manifest has to be one that the engine wrote, and the table files whole, as the flush and the compaction leave them; a file that does not open is skipped by the source. A restart that could not read its whole manifest, or that scanned the directory, ends a run of the step system: later edits are appended behind the line that stops recovery, and a scan puts copies out of write order (`LsmRestartRuns.ScanBringsBackOlder`).
- `LsmTorn.TornLineReadsAsCut`: says nothing of a cut inside a line's last number beyond `ManifestTorn.TornNumberIsMisread`, nor of the next edit, which is appended to a line without a newline.
- `Engine.TsdbEngine.SetTTL`: seconds are unbounded integers, so the overflow of `seconds * 10^9` and of the threshold is not modelled. TTL rules do not survive a restart, in the model as in the code.
- `DeltaOfDelta.Encoder.Add`: requires the delta of delta and its negation to fit, because their computation overflows a signed integer otherwise and the language gives it no meaning; likewise at most 2^31 - 1 timestamps.
- `Bloom.BloomFilter.Decode`: a form of 8 to 11 bytes that claims a length within 12 of 2^32 is left out; the code reads past its end.
- `Bloom.BloomFilter.constructor`: the number of probes, the ceiling of ln 2 times the bits per key, is a parameter between 1 and 30. The bit count has to fit 32 bits.
- `Table.SSTableBuilder.Finish`: lengths have to fit the 32- and 64-bit fields of the format. The builder's buffer is compared with the block size as an unbounded integer.
- `Table.SSTableReader.Open`: the default key stands for `min_key_` when the first entry of the first block does not decode.
- `Table.SSTableReader.GetEntry`: proved, like RangeScanEntries, on files the builder writes; on other bytes only `TableFormat.Open` and the block walks are modelled.
- `Wal.OldPutReplaysExactlyWhen`: says what becomes of a log of one record of the older format; logs that mix both formats are covered by the scan alone.
- `SkipList.SkipList.RandomHeight`: any height from 1 to 12 may be drawn; the distribution and expected cost are not modelled.
- Disjointness of files in level 2 and below: the code takes no files of the target level into such a job, so they may overlap, and only level 1 is claimed.
- Write batches across a failure in the middle: the code does not promise atomicity, and the model lets other actions come between two operations of a batch.
- Downsample, statistics counters, Status texts, demos and the benchmark: straightforward code around library calls.
- `LsmPicks.PickedExactlyWhen`: file sizes are unbounded numbers, so the 64-bit sum of a level's sizes does not wrap.
- False-positive rates of the Bloom filter.
- The static table in src/crc32.cpp:8-47, which the code does not use.
