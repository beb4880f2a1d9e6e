// The storage engine as an object. Each method is one region that src/tsdb_engine.cpp runs under mu_, or one piece of
// work that the flush or the compaction thread does between two of them; each does a step of the step system of Lsm.
// Tables stand for the lists they hold: MemTable proves that a memtable's methods are Upsert, Find, Slice and
// FromZeroKey on its list, and Table proves that a finished table file answers for exactly its list.
module Engine {
  import opened Types
  import opened Version
  import opened RankedMerge
  import opened Lsm
  import opened LsmInvariant
  import opened LsmHistory
  import opened LsmReads
  import opened LsmRuns
  import opened LsmRange
  import Wal
  import Manifest
  import LsmRestart

  const L0StopTrigger: nat := 12

  // What a table counts for these operations: their bytes, and 72 for each.
  function Usage(ops: seq<Record>): nat {
    if ops == [] then 0 else
      var r := ops[|ops| - 1];
      Usage(ops[..|ops| - 1]) + |r.key.measurement| + (if r.entry.Value? then |r.entry.value| else 0) + 72
  }

  // No more files in any level than RangeQuery has ranks for them.
  ghost predicate FewFiles(levels: Levels) {
    forall l :: 0 <= l < |levels| ==> |levels[l]| <= 100_000
  }

  class TsdbEngine {
    const memtableLimit: nat
    const targetFileSize: nat
    const vmgr: Manifest.VersionManager
    const wal: Wal.WriteAheadLog
    var mem: seq<Record>
    var memUsage: nat
    var imm: Option<seq<Record>>
    var toFlush: Option<seq<Record>>     // the flush thread's table; flush_in_progress_ says that there is one
    var built: Option<FileMeta>          // and the file it was written to
    var disk: Disk
    var sstReaders: seq<nat>
    var pendingDelete: seq<Pending>
    var views: seq<View>                 // the read views that have been captured and not dropped
    var ttlMap: TtlMap
    var progress: Progress               // the compaction thread; compaction_in_progress_ says that it is not Idle
    var compactionPending: bool
    var compactingFiles: set<nat>
    var batches: seq<seq<Record>>        // what the callers of Write have logged and not yet applied
    ghost var log: seq<Record>           // the records in the log
    ghost var lines: seq<ManifestLine>   // the lines of the manifest
    ghost var history: History           // what has happened since the store was empty

    // The state of the step system that the fields stand for.
    ghost function Store(): State
      reads this, vmgr
    {
      var flush := if toFlush.None? then NoFlush else if built.None? then Begun(toFlush.value)
                   else Built(toFlush.value, built.value);
      Lsm.State.State(mem, imm, flush,
                      vmgr.State(), disk, sstReaders, pendingDelete, views, ttlMap, progress, compactingFiles, batches,
                      log, lines, targetFileSize)
    }

    // The state has been reached from an empty store, and log and manifest hold the bytes of what was logged.
    ghost predicate Valid()
      reads this, vmgr, wal
    {
      && vmgr.Valid() && vmgr.manifest == Manifest.PrintAll(lines)
      && wal.Valid() && wal.file == Wal.LogOf(log)
      && Reachable(Store(), history)
    }

    // ---------------------------------------------------------------- an empty store

    constructor (memtableLimit: nat, targetFileSize: nat)
      ensures Valid() && Store() == Init(targetFileSize) && history == NoHistory
      ensures memUsage == 0 && !compactionPending && fresh(vmgr) && fresh(wal) && this.memtableLimit == memtableLimit
    {
      hide Reachable;
      this.memtableLimit, this.targetFileSize := memtableLimit, targetFileSize;
      vmgr := new Manifest.VersionManager();
      wal := new Wal.WriteAheadLog([]);
      mem, memUsage, imm, toFlush, built := [], 0, None, None, None;
      disk, sstReaders, pendingDelete, views, ttlMap := map[], [], [], [], map[];
      progress, compactionPending, compactingFiles, batches := Idle, false, {}, [];
      log, lines, history := [], [], NoHistory;
      InitReachable(targetFileSize);
    }

    // Opening the directory of a store that was in state s when its process ended, dir being the table files it lists:
    // recover the version, open a reader for every file and remove the other table files, or add all table files to an
    // empty version; then replay the log. When the manifest can be read to its end, the directory is not scanned and
    // the log replays to what was logged, this is the restart of the step system.
    constructor Open(memtableLimit: nat, targetFileSize: nat, disk: Disk, dir: seq<DirEntry>, manifest: Bytes,
                     logFile: Bytes, ghost s: State, ghost h: History)
      requires disk == s.disk && targetFileSize == s.target && manifest == Manifest.PrintAll(s.manifest)
      requires Lists(dir, disk)
      ensures Store() == Restart(s, Wal.Replay(logFile).records, dir)
      ensures memUsage == Usage(Wal.Replay(logFile).records) && !compactionPending
      ensures wal.Valid() && wal.file == Wal.Repaired(logFile)
      ensures vmgr.Valid() && vmgr.manifest == Manifest.PrintAll(lines)
      ensures Reachable(s, h) && |s.version.levels| == MaxLevel && Enabled(s, DoReopen)
              && Wal.Replay(logFile).records == s.wal && Wal.Repaired(logFile) == Wal.LogOf(s.wal)
              ==> Valid() && Store() == Reopen(s) && history == NextHistory(s, h, DoReopen)
      ensures fresh(vmgr) && fresh(wal) && this.memtableLimit == memtableLimit
    {
      hide Reachable, Enabled, Next, NextHistory, Manifest.PrintAll, Wal.LogOf, Wal.Replay, Wal.Repaired, Restart,
           Reopen, Lists, Manifest.RecoverText, AllNumbers;
      this.memtableLimit, this.targetFileSize := memtableLimit, targetFileSize;
      vmgr := new Manifest.VersionManager.Over(manifest);
      wal := new Wal.WriteAheadLog(logFile);
      mem, memUsage, imm, toFlush, built := [], 0, None, None, None;
      sstReaders, pendingDelete, views, ttlMap := [], [], [], map[];
      this.disk := disk;
      progress, compactionPending, compactingFiles, batches := Idle, false, {}, [];
      log, lines := [], s.manifest;
      history := if |s.version.levels| == MaxLevel && Enabled(s, DoReopen) then NextHistory(s, h, DoReopen) else h;
      new;
      Restore(dir, s);
      if Reachable(s, h) && |s.version.levels| == MaxLevel && Enabled(s, DoReopen) && log == s.wal {
        ReopenIsStep(s, h, dir);
      }
    }

    // The three steps of the constructor's body.
    method Restore(dir: seq<DirEntry>, ghost s: State)
      requires vmgr.manifest == Manifest.PrintAll(s.manifest) && vmgr.Valid() && wal.Valid() && Lists(dir, disk)
      requires Store() == Init(s.target).(version := Store().version, disk := s.disk, manifest := s.manifest)
      modifies `mem, `memUsage, `ttlMap, `sstReaders, `disk, `log, `lines, vmgr, wal
      ensures vmgr.Valid() && vmgr.manifest == Manifest.PrintAll(lines)
      ensures wal.Valid() && wal.file == Wal.Repaired(old(wal.file))
      ensures memUsage == old(memUsage) + Usage(log)
      ensures log == Wal.Replay(old(wal.file)).records && Store() == Restart(s, log, dir)
    {
      hide Manifest.PrintAll, Wal.Replay, Wal.Repaired, Manifest.RecoverText, Replay, TouchAll, AllNumbers, LiveFiles,
           Opened, AfterUsed, Scan, DirNumbers, HasFile, SnapshotLines, Lists;
      var ok := vmgr.RecoverFromManifest();
      LoadExistingTables(dir);
      ReplayLog();
      assert Store() == Restart(s, log, dir);
    }

    // LoadExistingSSTables.
    method LoadExistingTables(dir: seq<DirEntry>)
      requires vmgr.Valid() && vmgr.manifest == Manifest.PrintAll(lines) && sstReaders == [] && Lists(dir, disk)
      modifies `sstReaders, `disk, `lines, vmgr
      ensures vmgr.Valid() && vmgr.manifest == Manifest.PrintAll(lines)
      ensures var v := old(vmgr.State());
              if HasFile(v.levels) then
                && sstReaders == Opened(AllNumbers(v.levels), old(disk)) && lines == old(lines)
                && vmgr.State() == v.(nextFile := AfterUsed(v.nextFile, sstReaders))
                && disk == LiveFiles(old(disk), AllNumbers(v.levels))
              else
                var w := Scan(v, old(disk), dir);
                && sstReaders == DirNumbers(dir) && vmgr.State() == w && disk == old(disk)
                && lines == if HasFile(w.levels) then SnapshotLines(w.levels, w.nextFile) else old(lines)
    {
      hide AllNumbers, Opened, AfterUsed, Scan, DirNumbers, HasFile, SnapshotLines, Manifest.PrintAll, Lists;
      var total := vmgr.NumFiles();
      if total > 0 {
        OpenReaders();
        var live := VersionFiles();
        disk := LiveFiles(disk, live);
      } else {
        ScanDirectory(dir);
        total := vmgr.NumFiles();
        if total > 0 {
          vmgr.WriteSnapshotManifest();
          lines := SnapshotLines(vmgr.levels, vmgr.nextFile);
        }
      }
    }

    // The loop over the directory's table files.
    method ScanDirectory(dir: seq<DirEntry>)
      requires vmgr.Valid() && sstReaders == [] && Lists(dir, disk)
      modifies `sstReaders, vmgr`levels, vmgr`nextFile, vmgr`obsolete
      ensures vmgr.Valid() && vmgr.State() == Scan(old(vmgr.State()), disk, dir) && sstReaders == DirNumbers(dir)
    {
      hide ApplyEdit, MinKey, MaxKey;
      for i := 0 to |dir|
        invariant vmgr.Valid() && vmgr.State() == Scan(old(vmgr.State()), disk, dir[..i])
        invariant sstReaders == DirNumbers(dir[..i])
      {
        assert dir[..i + 1][..i] == dir[..i];
        var e := dir[i];
        assert e in dir;
        vmgr.ApplyUnlocked(Edit([(0, MetaOf(e.number, e.size, disk[e.number]))], []));
        sstReaders := sstReaders + [e.number];
      }
      assert dir[..|dir|] == dir;
    }

    // The file names that the start-up collection spares.
    method VersionFiles() returns (live: seq<nat>)
      requires vmgr.Valid()
      ensures live == AllNumbers(vmgr.levels)
    {
      live := [];
      for l := 0 to MaxLevel
        invariant live == AllNumbers(vmgr.levels[..l])
      {
        var numbers := NumberListOf(vmgr.levels[l]);
        live := live + numbers;
        assert vmgr.levels[..l + 1][..l] == vmgr.levels[..l];
      }
      assert vmgr.levels[..MaxLevel] == vmgr.levels;
    }

    // OpenReadersForCurrentVersionUnlocked.
    method OpenReaders()
      requires vmgr.Valid() && sstReaders == []
      modifies `sstReaders, vmgr`nextFile
      ensures sstReaders == Opened(AllNumbers(vmgr.levels), disk)
      ensures vmgr.nextFile == AfterUsed(old(vmgr.nextFile), sstReaders)
    {
      hide Opened, AfterUsed;
      NothingToOpen(vmgr.nextFile);
      ghost var done: seq<nat> := [];
      for l := 0 to MaxLevel
        invariant done == AllNumbers(vmgr.levels[..l])
        invariant sstReaders == Opened(done, disk) && vmgr.nextFile == AfterUsed(old(vmgr.nextFile), sstReaders)
      {
        OpenLevel(vmgr.levels[l], old(vmgr.nextFile), done);
        done := done + NumberList(vmgr.levels[l]);
        assert vmgr.levels[..l + 1][..l] == vmgr.levels[..l];
      }
      assert vmgr.levels[..MaxLevel] == vmgr.levels;
    }

    // The files of one level, after those whose numbers are done.
    method OpenLevel(files: seq<FileMeta>, ghost next: nat, ghost done: seq<nat>)
      requires sstReaders == Opened(done, disk) && vmgr.nextFile == AfterUsed(next, sstReaders)
      modifies `sstReaders, vmgr`nextFile
      ensures sstReaders == Opened(done + NumberList(files), disk)
      ensures vmgr.nextFile == AfterUsed(next, sstReaders)
    {
      hide Opened, AfterUsed;
      ghost var now := done;
      for i := 0 to |files|
        invariant now == done + NumberList(files[..i])
        invariant sstReaders == Opened(now, disk) && vmgr.nextFile == AfterUsed(next, sstReaders)
      {
        assert files[..i + 1][..i] == files[..i];
        var n := files[i].number;
        OpenOneMore(now, n, disk, next);
        now := now + [n];
        if n !in sstReaders && n in disk {
          sstReaders := sstReaders + [n];
          vmgr.MarkFileNumberUsed(n);
        }
      }
      assert files[..|files|] == files;
    }

    // The constructor's callback over the replayed log, which may end in a torn record.
    method ReplayLog()
      requires wal.Valid() && mem == [] && ttlMap == map[]
      modifies `mem, `memUsage, `ttlMap, `log, wal
      ensures wal.Valid() && wal.file == Wal.Repaired(old(wal.file)) && log == Wal.Replay(old(wal.file)).records
      ensures memUsage == old(memUsage) + Usage(log)
      ensures mem == Replay(log) && ttlMap == TouchAll(map[], log)
    {
      hide Wal.Replay, Wal.Repaired, Upsert, Touch;
      var records := wal.ReplayEntries();
      log := records;
      for i := 0 to |records|
        invariant memUsage == old(memUsage) + Usage(records[..i])
        invariant mem == Replay(records[..i]) && ttlMap == TouchAll(map[], records[..i])
        modifies `mem, `memUsage, `ttlMap
      {
        PutInTable(records[i]);
        assert records[..i + 1][..i] == records[..i];
      }
      assert records[..|records|] == records;
    }

    // ---------------------------------------------------------------- writes

    // UpdateLatestTimestampUnlocked.
    method UpdateLatestTimestamp(measurement: Bytes, timestamp: int64)
      modifies `ttlMap
      ensures ttlMap == Touch(old(ttlMap), TsKey(measurement, timestamp))
    {
      if measurement !in ttlMap {
        ttlMap := ttlMap[measurement := TtlRule(0, MinTs)];
      }
      if timestamp > ttlMap[measurement].latest {
        ttlMap := ttlMap[measurement := ttlMap[measurement].(latest := timestamp)];
      }
    }

    // MemTable::Put and MemTable::Delete, and the latest timestamp.
    method PutInTable(r: Record)
      modifies `mem, `memUsage, `ttlMap
      ensures mem == Upsert(old(mem), r.key, r.entry) && ttlMap == Touch(old(ttlMap), r.key)
      ensures memUsage == old(memUsage) + |r.key.measurement| + (if r.entry.Value? then |r.entry.value| else 0) + 72
    {
      mem := Upsert(mem, r.key, r.entry);
      memUsage := memUsage + |r.key.measurement| + (if r.entry.Value? then |r.entry.value| else 0) + EntryOverhead;
      UpdateLatestTimestamp(r.key.measurement, r.key.timestamp);
    }

    method AppendToLog(r: Record)
      requires wal.Valid() && wal.file == Wal.LogOf(log)
      modifies `log, wal
      ensures wal.Valid() && wal.file == Wal.LogOf(log) && log == old(log) + [r]
    {
      hide Wal.LogOf;
      Wal.LogConcat(log, [r]);
      match r.entry {
        case Value(value) => wal.AppendPut(r.key.measurement, r.key.timestamp, value);
        case Deletion => wal.AppendDelete(r.key.measurement, r.key.timestamp);
      }
      log := log + [r];
    }

    // A step is taken: what it adds to the history, and that the state after it will have been reached.
    ghost method Happens(a: Action)
      requires Reachable(Store(), history) && |vmgr.levels| == MaxLevel && Enabled(Store(), a)
      modifies `history
      ensures history == NextHistory(Store(), old(history), a) && Reachable(Next(Store(), a), history)
    {
      hide Reachable, Enabled, Next, NextHistory;
      StepReachable(Store(), history, a);
      history := NextHistory(Store(), history, a);
    }

    // A write for which there is room: log, table, latest timestamp.
    method Apply(r: Record)
      requires Valid()
      modifies `mem, `memUsage, `ttlMap, `log, `history, wal
      ensures Valid() && Store() == Lsm.Put(old(Store()), r)
      ensures memUsage == old(memUsage) + |r.key.measurement| + (if r.entry.Value? then |r.entry.value| else 0) + 72
      ensures |old(vmgr.levels)| == MaxLevel && Enabled(old(Store()), DoPut(r))
      ensures history == NextHistory(old(Store()), old(history), DoPut(r))
      ensures history.writes == old(history).writes + [r]
    {
      hide Reachable, Enabled, Next, NextHistory, Upsert, Touch, Wal.LogOf, Manifest.PrintAll;
      PutIsStep(Store(), history, r);
      Happens(DoPut(r));
      AppendToLog(r);
      PutInTable(r);
      assert Store() == Lsm.Put(old(Store()), r);
    }

    method L0TotalFileCount() returns (count: nat)
      requires vmgr.Valid()
      ensures count == |vmgr.levels[0]|
    {
      count := 0;
      for i := 0 to |vmgr.levels[0]|
        invariant count == i
      {
        count := count + 1;
      }
    }

    // MakeRoomForWriteUnlocked up to its first wait: not ready means that the caller waits for another thread. A writer
    // goes ahead unless a compaction runs beside 12 files in level 0, or its table is full and another one waits.
    method MakeRoom() returns (ready: bool)
      requires Valid()
      modifies `mem, `memUsage, `imm, `history
      ensures Valid() && history == old(history)
      ensures ready <==> !(old(progress) != Idle && |old(vmgr.levels)[0]| >= 12)
                         && (old(memUsage) < memtableLimit || (old(imm).None? && old(toFlush).None?))
      ensures Store() == if ready && old(memUsage) >= memtableLimit then Seal(old(Store())) else old(Store())
      ensures memUsage == if ready && old(memUsage) >= memtableLimit then 0 else old(memUsage)
    {
      hide Reachable, Enabled, Next, NextHistory, Manifest.PrintAll, Wal.LogOf;
      var count := L0TotalFileCount();
      if progress != Idle && count >= L0StopTrigger {
        return false;
      }
      if memUsage < memtableLimit {
        return true;
      }
      if imm.None? && toFlush.None? {
        SealTable();
        return true;
      }
      return false;
    }

    method SealTable()
      requires Valid() && imm.None? && toFlush.None?
      modifies `mem, `memUsage, `imm, `history
      ensures Valid() && Store() == Seal(old(Store())) && history == old(history) && memUsage == 0
    {
      hide Reachable, Enabled, Next, NextHistory, Manifest.PrintAll, Wal.LogOf;
      SealIsStep(Store(), history);
      Happens(DoSeal);
      imm := Some(mem);
      mem, memUsage := [], 0;
      assert Store() == Seal(old(Store()));
    }

    // TsdbEngine::Put, unless the caller has to wait: room, the write, room again.
    method Put(measurement: Bytes, timestamp: int64, value: Bytes) returns (done: bool)
      requires Valid()
      modifies `mem, `memUsage, `imm, `ttlMap, `log, `history, wal
      ensures Valid()
      ensures done <==> !(old(progress) != Idle && |old(vmgr.levels)[0]| >= 12)
                        && (old(memUsage) < memtableLimit || (old(imm).None? && old(toFlush).None?))
      ensures !done ==> Store() == old(Store()) && history == old(history) && memUsage == old(memUsage)
      ensures done ==>
                var r := Record(TsKey(measurement, timestamp), Value(value));
                var first := if old(memUsage) < memtableLimit then old(Store()) else Seal(old(Store()));
                var after := Lsm.Put(first, r);
                var usage := (if old(memUsage) < memtableLimit then old(memUsage) else 0) + |measurement| + |value|
                             + 72;
                && history.writes == old(history).writes + [r]
                && if usage >= memtableLimit && after.imm.None? && after.flush.NoFlush?
                   then Store() == Seal(after) && memUsage == 0
                   else Store() == after && memUsage == usage
      ensures done ==> memUsage < memtableLimit || imm.Some? || toFlush.Some?
    {
      hide Valid, Reachable, Touch, Upsert;
      done := MakeRoom();
      if done {
        Apply(Record(TsKey(measurement, timestamp), Value(value)));
        var ready := MakeRoom();
      }
    }

    // TsdbEngine::Delete, unless the caller has to wait.
    method Delete(measurement: Bytes, timestamp: int64) returns (done: bool)
      requires Valid()
      modifies `mem, `memUsage, `imm, `ttlMap, `log, `history, wal
      ensures Valid()
      ensures done <==> !(old(progress) != Idle && |old(vmgr.levels)[0]| >= 12)
                        && (old(memUsage) < memtableLimit || (old(imm).None? && old(toFlush).None?))
      ensures !done ==> Store() == old(Store()) && history == old(history) && memUsage == old(memUsage)
      ensures done ==>
                var r := Record(TsKey(measurement, timestamp), Deletion);
                var first := if old(memUsage) < memtableLimit then old(Store()) else Seal(old(Store()));
                var after := Lsm.Put(first, r);
                var usage := (if old(memUsage) < memtableLimit then old(memUsage) else 0) + |measurement| + 72;
                && history.writes == old(history).writes + [r]
                && if usage >= memtableLimit && after.imm.None? && after.flush.NoFlush?
                   then Store() == Seal(after) && memUsage == 0
                   else Store() == after && memUsage == usage
      ensures done ==> memUsage < memtableLimit || imm.Some? || toFlush.Some?
    {
      hide Valid, Reachable, Touch, Upsert;
      done := MakeRoom();
      if done {
        Apply(Record(TsKey(measurement, timestamp), Deletion));
        var ready := MakeRoom();
      }
    }

    // The first half of Write: the whole batch goes to the log.
    method LogBatch(ops: seq<Record>)
      requires Valid() && ops != []
      modifies `batches, `log, `history, wal
      ensures Valid() && Store() == Lsm.LogBatch(old(Store()), ops)
    {
      hide Reachable, Enabled, Next, NextHistory, Manifest.PrintAll, Wal.LogOf;
      ghost var s := Store();
      LogBatchIsStep(Store(), history, ops);
      Happens(DoLogBatch(ops));
      ghost var h := history;
      AppendAll(ops);
      batches := batches + [ops];
      assert Store() == Lsm.LogBatch(s, ops);
    }

    method AppendAll(ops: seq<Record>)
      requires wal.Valid() && wal.file == Wal.LogOf(log)
      modifies `log, wal
      ensures wal.Valid() && wal.file == Wal.LogOf(log) && log == old(log) + ops
    {
      hide Wal.LogOf;
      for i := 0 to |ops|
        invariant wal.Valid() && wal.file == Wal.LogOf(log) && log == old(log) + ops[..i]
      {
        AppendToLog(ops[i]);
        assert ops[..i + 1] == ops[..i] + [ops[i]];
      }
      assert ops[..|ops|] == ops;
    }

    // One turn of Write's second loop, without its wait: the next operation of a logged batch reaches the table.
    method ApplyFromBatch(i: nat)
      requires Valid() && i < |batches| && batches[i] != []
      modifies `mem, `memUsage, `ttlMap, `batches, `history
      ensures Valid() && Store() == Lsm.ApplyFromBatch(old(Store()), i)
      ensures var r := old(batches)[i][0];
              memUsage == old(memUsage) + |r.key.measurement| + (if r.entry.Value? then |r.entry.value| else 0) + 72
      ensures history.writes == old(history).writes + [old(batches)[i][0]]
    {
      hide Reachable, Enabled, Next, NextHistory, Upsert, Touch, Manifest.PrintAll, Wal.LogOf;
      ghost var s := Store();
      ApplyFromBatchIsStep(Store(), history, i);
      Happens(DoApplyFromBatch(i));
      PutInTable(batches[i][0]);
      var rest := batches[i][1..];
      batches := if rest == [] then batches[..i] + batches[i + 1..] else batches[i := rest];
      assert Store() == Lsm.ApplyFromBatch(s, i);
    }

    method SetTTL(measurement: Bytes, seconds: int)
      requires Valid()
      modifies `ttlMap, `history
      ensures Valid() && Store() == old(Store()).(ttl := SetTtl(old(ttlMap), measurement, seconds))
    {
      hide Reachable, Enabled, Next, NextHistory, Manifest.PrintAll, Wal.LogOf;
      ghost var s := Store();
      SetTtlIsStep(Store(), history, measurement, seconds);
      Happens(DoSetTtl(measurement, seconds));
      if measurement !in ttlMap {
        ttlMap := ttlMap[measurement := TtlRule(0, MinTs)];
      }
      ttlMap := ttlMap[measurement := ttlMap[measurement].(seconds := seconds)];
      assert Store() == s.(ttl := SetTtl(s.ttl, measurement, seconds));
    }

    // ---------------------------------------------------------------- flush

    // The body of Flush's loop: seal a table that is not empty; done when nothing is left to flush.
    method FlushStep() returns (done: bool)
      requires Valid()
      modifies `mem, `memUsage, `imm, `history
      ensures Valid() && history == old(history)
      ensures done <==> FromZeroKey(mem) == [] && imm.None? && toFlush.None?
      ensures Store() == if FromZeroKey(old(mem)) != [] && old(imm).None? && old(toFlush).None?
              then Seal(old(Store())) else old(Store())
      ensures memUsage == if Store() == old(Store()) then old(memUsage) else 0
    {
      hide Valid, FromZeroKey;
      if FromZeroKey(mem) != [] && imm.None? && toFlush.None? {
        SealTable();
      }
      done := FromZeroKey(mem) == [] && imm.None? && toFlush.None?;
    }

    // The flush thread takes the sealed table.
    method BeginFlush() returns (taken: bool)
      requires Valid() && toFlush.None? && built.None?
      modifies `imm, `toFlush, `history
      ensures Valid() && history == old(history) && built.None?
      ensures taken <==> old(imm).Some?
      ensures Store() == if taken then Lsm.BeginFlush(old(Store())) else old(Store())
    {
      hide Reachable, Enabled, Next, NextHistory, Manifest.PrintAll, Wal.LogOf;
      if imm.None? {
        return false;
      }
      BeginFlushIsStep(Store(), history);
      Happens(DoBeginFlush);
      toFlush, imm := imm, None;
      assert Store() == Lsm.BeginFlush(old(Store()));
      taken := true;
    }

    // Outside the lock: number, file and metadata.
    method BuildFlush(size: nat)
      requires Valid() && toFlush.Some? && built.None?
      modifies `disk, `built, `history, vmgr
      ensures Valid() && history == old(history) && Store() == Lsm.BuildFlush(old(Store()), size)
      ensures vmgr.nextFile == old(vmgr.nextFile) + 1 && toFlush == old(toFlush)
      ensures built.Some? && built.value.number == old(vmgr.nextFile) && built.value.size == size
      ensures disk == old(disk)[old(vmgr.nextFile) := FromZeroKey(toFlush.value)]
    {
      hide Reachable, Enabled, Next, NextHistory, Manifest.PrintAll, Wal.LogOf, FromZeroKey;
      ghost var s := Store();
      BuildFlushIsStep(Store(), history, size);
      Happens(DoBuildFlush(size));
      var number := vmgr.NewFileNumber();
      var run := FromZeroKey(toFlush.value);
      disk := disk[number := run];
      built := Some(FileMeta(number, size, MinKey(run), MaxKey(run)));
      assert Store() == Lsm.BuildFlush(s, size);
    }

    // LogAndApply, and the ghost account of the manifest's lines.
    method LogAndApply(edit: Edit)
      requires vmgr.Valid() && vmgr.manifest == Manifest.PrintAll(lines)
      modifies vmgr, `lines
      ensures vmgr.Valid() && vmgr.manifest == Manifest.PrintAll(lines)
      ensures vmgr.State() == ApplyEdit(old(vmgr.State()), edit)
      ensures lines == old(lines) + EditLines(edit, old(vmgr.nextFile))
    {
      hide ApplyEdit, EditLines, Manifest.PrintAll;
      Manifest.PrintAllConcat(lines, EditLines(edit, vmgr.nextFile));
      lines := lines + EditLines(edit, vmgr.nextFile);
      vmgr.LogAndApply(edit);
    }

    // Back under the lock: the file joins level 0, and the log is rotated.
    method CommitFlush()
      requires Valid() && toFlush.Some? && built.Some?
      modifies `toFlush, `built, `sstReaders, `lines, `log, `history, vmgr, wal
      ensures Valid() && Store() == Lsm.CommitFlush(old(Store()))
    {
      hide Reachable, Enabled, Next, NextHistory, Manifest.PrintAll, Wal.LogOf, InstallFlush;
      ghost var s := Store();
      CommitFlushIsStep(s, history);
      Happens(DoCommitFlush);
      InstallBuilt();
      wal.Rotate();
      log := [];
      NothingLogged();
      toFlush, built := None, None;
      assert Store() == Lsm.CommitFlush(s);
    }

    method InstallBuilt()
      requires vmgr.Valid() && vmgr.manifest == Manifest.PrintAll(lines) && toFlush.Some? && built.Some?
      modifies vmgr, `lines, `sstReaders
      ensures vmgr.Valid() && vmgr.manifest == Manifest.PrintAll(lines)
      ensures Store() == InstallFlush(old(Store()))
    {
      hide Manifest.PrintAll, ApplyEdit, EditLines;
      var meta := built.value;
      LogAndApply(Edit([(0, meta)], []));
      sstReaders := sstReaders + [meta.number];
      assert Store() == InstallFlush(old(Store()));
    }

    // ---------------------------------------------------------------- when to compact

    method L0NonCompactingFileCount() returns (count: nat)
      requires vmgr.Valid()
      ensures count == |FilterOut(vmgr.levels[0], compactingFiles)|
    {
      count := 0;
      var files := vmgr.levels[0];
      for i := 0 to |files|
        invariant count == |FilterOut(files[..i], compactingFiles)|
      {
        assert files[..i + 1][..i] == files[..i];
        if files[i].number !in compactingFiles {
          count := count + 1;
        }
      }
      assert files[..|files|] == files;
    }

    // The file sizes of a level against its limit.
    method LevelIsOversized(level: nat) returns (over: bool)
      requires vmgr.Valid() && level < MaxLevel
      ensures over == Oversized(vmgr.levels, level)
    {
      var total := 0;
      var files := vmgr.levels[level];
      for i := 0 to |files|
        invariant total == TotalSize(files[..i])
      {
        total := total + files[i].size;
        assert files[..i + 1][..i] == files[..i];
      }
      assert files[..|files|] == files;
      over := total > LevelSizeBase * Pow2(level);
    }

    // ShouldScheduleCompactionUnlocked.
    method ShouldScheduleCompaction() returns (should: bool)
      requires vmgr.Valid()
      ensures should == ShouldSchedule(Store())
    {
      hide Oversized, FilterOut;
      if progress != Idle {
        return false;
      }
      var count := L0NonCompactingFileCount();
      if count >= L0CompactionTrigger {
        return true;
      }
      for level := 1 to MaxLevel - 1
        invariant SomeOversized(vmgr.levels, 1) == SomeOversized(vmgr.levels, level)
      {
        var over := LevelIsOversized(level);
        if over {
          return true;
        }
      }
      should := false;
    }

    method MaybeScheduleCompaction()
      requires vmgr.Valid()
      modifies `compactionPending
      ensures compactionPending == (old(compactionPending) || ShouldSchedule(Store())
                || (progress != Idle && |FilterOut(vmgr.levels[0], compactingFiles)| >= 4))
    {
      var should := ShouldScheduleCompaction();
      var count := L0NonCompactingFileCount();
      if should || (progress != Idle && count >= L0CompactionTrigger) {
        compactionPending := true;
      }
    }

    // ---------------------------------------------------------------- picking a compaction

    // The L0 files that no job holds.
    method L0Candidates() returns (candidates: seq<FileMeta>)
      requires vmgr.Valid()
      ensures candidates == FilterOut(vmgr.levels[0], compactingFiles)
    {
      candidates := [];
      var files := vmgr.levels[0];
      for i := 0 to |files|
        invariant candidates == FilterOut(files[..i], compactingFiles)
      {
        assert files[..i + 1][..i] == files[..i];
        if files[i].number !in compactingFiles {
          candidates := candidates + [files[i]];
        }
      }
      assert files[..|files|] == files;
    }

    // PickCompactionWorkUnlocked.
    method PickCompactionWork(force: bool) returns (job: Option<Job>)
      requires vmgr.Valid()
      ensures job == PickJob(Store(), force)
    {
      hide FilterOut, Oversized, InputsAt, L0Job;
      if progress != Idle {
        return None;
      }
      var candidates := L0Candidates();
      if candidates != [] && (force || |candidates| >= L0CompactionTrigger) {
        var picked := BuildL0Job(vmgr.levels, candidates);
        return Some(picked);
      }
      for level := 1 to MaxLevel - 1
        invariant PickLevelJob(vmgr.levels, 1) == PickLevelJob(vmgr.levels, level)
      {
        var over := LevelIsOversized(level);
        if over {
          var inputs := AddInputs([], level, vmgr.levels[level]);
          assert [] + InputsAt(level, vmgr.levels[level]) == InputsAt(level, vmgr.levels[level]);
          return Some(Job(inputs, level + 1));
        }
      }
      return None;
    }

    // MarkCompactionJobStartedUnlocked, once a job has been picked.
    method StartCompaction(force: bool) returns (started: bool)
      requires Valid()
      modifies `progress, `compactingFiles, `compactionPending, `history
      ensures Valid() && history == if started then old(history).(relaxed := {}) else old(history)
      ensures compactionPending == (old(compactionPending) && !started)
      ensures started == PickJob(old(Store()), force).Some?
      ensures Store() == if started then StartJob(old(Store()), PickJob(old(Store()), force).value) else old(Store())
    {
      hide Reachable, Enabled, Next, NextHistory, Manifest.PrintAll, Wal.LogOf, PickJob, InputNumbers;
      var picked := PickCompactionWork(force);
      if picked.None? {
        return false;
      }
      ghost var s := Store();
      PickIsStep(s, history, force);
      Happens(DoPick(force));
      compactionPending := false;
      progress := Picked(picked.value, ttlMap);
      var numbers := NumbersOf(picked.value.inputs);
      compactingFiles := compactingFiles + numbers;
      assert Store() == StartJob(s, picked.value);
      started := true;
    }

    // ---------------------------------------------------------------- running a compaction

    // The first half of Compaction::Run: read, filter, sort and keep the newest record of every key.
    method MergeInputs()
      requires Valid() && progress.Picked?
      modifies `progress, `history
      ensures Valid() && history == old(history) && Store() == MergeJob(old(Store()))
    {
      hide Reachable, Enabled, Next, NextHistory, Manifest.PrintAll, Wal.LogOf, RankInputs, SortRanked, Firsts;
      ghost var s := Store();
      MergeIsStep(s, history);
      Happens(DoMerge);
      var all := CollectInputs(disk, progress.job.inputs, progress.ttl);
      var merged := TakeFirsts(SortRanked(all));
      progress := Merging(progress.job, progress.ttl, merged, 0, []);
      assert Store() == MergeJob(s);
    }

    // One turn of the splitting loop: the next output file.
    method EmitOutput(size: nat)
      requires Valid() && progress.Merging? && progress.begin < |progress.merged|
      modifies `disk, `progress, `history, vmgr
      ensures Valid() && history == old(history) && Store() == Lsm.EmitOutput(old(Store()), size)
      ensures vmgr.nextFile == old(vmgr.nextFile) + 1 && progress.Merging?
      ensures exists m :: progress.outputs == old(progress).outputs + [m] && m.number == old(vmgr.nextFile)
                          && m.size == size
    {
      hide Reachable, Enabled, Next, NextHistory, Manifest.PrintAll, Wal.LogOf, SplitEnd;
      ghost var s := Store();
      EmitIsStep(s, history, size);
      Happens(DoEmit(size));
      var begin, merged := progress.begin, progress.merged;
      var end := OutputEnd(merged, begin, targetFileSize);
      var number := vmgr.NewFileNumber();
      var run := merged[begin..end];
      var meta := FileMeta(number, size, merged[begin].key, merged[end - 1].key);
      disk := disk[number := run];
      progress := progress.(begin := end, outputs := progress.outputs + [meta]);
      assert Store() == Lsm.EmitOutput(s, size);
    }

    // IsCompactionInputValidUnlocked.
    method IsCompactionInputValid(inputs: seq<Input>) returns (valid: bool)
      requires vmgr.Valid()
      ensures valid == InputsValid(vmgr.levels, inputs)
      ensures valid <==> forall x :: x in inputs ==>
                         0 <= x.level < 7 && exists f :: f in vmgr.levels[x.level] && f.number == x.meta.number
    {
      for i := 0 to |inputs|
        invariant forall x :: x in inputs[..i] ==> InRange(x.level) && HasNumber(vmgr.levels[x.level], x.meta.number)
      {
        assert inputs[i] in inputs;
        if !InRange(inputs[i].level) {
          return false;
        }
        var found := FindFile(vmgr.levels[inputs[i].level], inputs[i].meta.number);
        if !found {
          return false;
        }
        assert inputs[..i + 1] == inputs[..i] + [inputs[i]];
      }
      assert inputs[..|inputs|] == inputs;
      valid := true;
    }

    // The locked half of RunCompactionWork: check the inputs, switch the version, publish the readers, release the job.
    method CommitCompaction(cleanup: bool)
      requires Valid() && progress.Merging? && progress.begin == |progress.merged|
      modifies `sstReaders, `pendingDelete, `disk, `lines, `progress, `compactingFiles, `compactionPending, vmgr
      ensures Valid() && history == old(history) && Store() == CommitJob(old(Store()), cleanup)
      ensures compactionPending == (old(compactionPending) || ShouldSchedule(Store()))
    {
      hide Reachable, Enabled, Next, NextHistory, Manifest.PrintAll, Wal.LogOf, InputsValid, ApplyEdit, EditLines,
           JobEdit, Cleanup,
           InputNumbers, NumberList, Numbers;
      ghost var s := Store();
      CommitIsStep(s, history, cleanup);
      var job, outputs := progress.job, progress.outputs;
      var valid := IsCompactionInputValid(job.inputs);
      if valid {
        InstallOutputs();
        assert Store() == InstallJob(s);
        if cleanup {
          CleanupFiles();
        }
      } else {
        disk := disk - Numbers(outputs);
      }
      FinishCompaction(job);
      assert Store() == CommitJob(s, cleanup);
    }

    // The edit of a finished job, and its readers.
    method InstallOutputs()
      requires vmgr.Valid() && vmgr.manifest == Manifest.PrintAll(lines) && progress.Merging?
      modifies vmgr, `lines, `sstReaders
      ensures vmgr.Valid() && vmgr.manifest == Manifest.PrintAll(lines)
      ensures Store() == InstallJob(old(Store()))
    {
      hide Manifest.PrintAll, ApplyEdit, EditLines, Deletions, Additions, NumberList;
      var deleted := DeletionsOf(progress.job.inputs);
      var added := AdditionsOf(progress.job.outputLevel, progress.outputs);
      LogAndApply(Edit(added, deleted));
      var numbers := NumberListOf(progress.outputs);
      sstReaders := sstReaders + numbers;
      assert Store() == InstallJob(old(Store()));
    }

    // MarkCompactionJobFinishedUnlocked, and the pending flag.
    method FinishCompaction(job: Job)
      requires vmgr.Valid()
      modifies `progress, `compactingFiles, `compactionPending
      ensures Store() == FinishJob(old(Store()), job)
      ensures compactionPending == (old(compactionPending) || ShouldSchedule(Store()))
    {
      hide InputNumbers, ShouldSchedule;
      var numbers := NumbersOf(job.inputs);
      compactingFiles := compactingFiles - numbers;
      progress := Idle;
      var should := ShouldScheduleCompaction();
      if compactionPending || should {
        compactionPending := true;
      }
      assert Store() == FinishJob(old(Store()), job);
    }

    // ---------------------------------------------------------------- obsolete files

    method CleanupFiles()
      requires vmgr.Valid()
      modifies `sstReaders, `pendingDelete, `disk, vmgr`obsolete
      ensures vmgr.Valid() && Store() == Cleanup(old(Store()))
    {
      hide RemoveFirst, StillPending, Deletable;
      ghost var s := Store();
      var files := vmgr.ConsumeObsoleteFiles();
      for i := 0 to |files|
        invariant (sstReaders, pendingDelete) == MoveObsolete(s.readers, s.pending, files[..i])
        modifies `sstReaders, `pendingDelete
      {
        assert files[..i + 1][..i] == files[..i];
        pendingDelete := pendingDelete + [Pending(files[i], files[i] in sstReaders)];
        sstReaders := RemoveFirst(sstReaders, files[i]);
      }
      assert files[..|files|] == files;
      DeletePending();
      assert Store() == Cleanup(s);
    }

    // TryDeletePendingFilesUnlocked: a file whose reader some view still holds stays.
    method DeletePending()
      modifies `pendingDelete, `disk
      ensures disk == old(disk) - Deletable(old(pendingDelete), views)
      ensures pendingDelete == StillPending(old(pendingDelete), views)
    {
      var kept: seq<Pending>, gone: set<nat> := [], {};
      for i := 0 to |pendingDelete|
        invariant kept == StillPending(pendingDelete[..i], views)
        invariant gone == Deletable(pendingDelete[..i], views)
        modifies {}
      {
        var p := pendingDelete[i];
        assert pendingDelete[..i + 1] == pendingDelete[..i] + [p];
        assert pendingDelete[..i + 1][..i] == pendingDelete[..i];
        if p.held && InUse(views, p.number) {
          kept := kept + [p];
        } else {
          gone := gone + {p.number};
        }
      }
      assert pendingDelete[..|pendingDelete|] == pendingDelete;
      disk := disk - gone;
      pendingDelete := kept;
    }

    method CleanupObsoleteFiles()
      requires Valid()
      modifies `sstReaders, `pendingDelete, `disk, `history, vmgr
      ensures Valid() && history == old(history) && Store() == Cleanup(old(Store()))
    {
      hide Reachable, Enabled, Next, NextHistory, Manifest.PrintAll, Wal.LogOf, Cleanup;
      CleanupIsStep(Store(), history);
      Happens(DoCleanup);
      CleanupFiles();
    }

    method TryDeletePendingFiles()
      requires Valid()
      modifies `pendingDelete, `disk, `history
      ensures Valid() && history == old(history) && Store() == TryDelete(old(Store()))
    {
      hide Reachable, Enabled, Next, NextHistory, Manifest.PrintAll, Wal.LogOf, Deletable, StillPending;
      ghost var s := Store();
      TryDeleteIsStep(s, history);
      Happens(DoTryDelete);
      DeletePending();
      assert Store() == TryDelete(s);
    }

    // ---------------------------------------------------------------- reads

    // The levels of CaptureReadView: the files of the current version whose reader is published.
    method CaptureLevels() returns (view: View)
      requires vmgr.Valid()
      ensures view == ViewOf(Store())
    {
      hide Published;
      view := [];
      for level := 0 to MaxLevel
        invariant |view| == level
        invariant forall l :: 0 <= l < level ==> view[l] == Published(vmgr.levels[l], sstReaders)
      {
        var files := PublishedFiles(vmgr.levels[level], sstReaders);
        view := view + [files];
      }
    }

    // A read view that stays: its readers keep their files.
    method CaptureReadView()
      requires Valid()
      modifies `views, `history
      ensures Valid() && history == old(history)
      ensures Store() == old(Store()).(views := old(views) + [ViewOf(old(Store()))])
    {
      hide Reachable, Enabled, Next, NextHistory, Manifest.PrintAll, Wal.LogOf, ViewOf;
      CaptureIsStep(Store(), history);
      Happens(DoCapture);
      var view := CaptureLevels();
      views := views + [view];
    }

    method ReleaseReadView(v: nat)
      requires Valid() && v < |views|
      modifies `views, `history
      ensures Valid() && history == old(history)
      ensures Store() == old(Store()).(views := old(views)[..v] + old(views)[v + 1..])
    {
      hide Reachable, Enabled, Next, NextHistory, Manifest.PrintAll, Wal.LogOf;
      ReleaseIsStep(Store(), history, v);
      Happens(DoRelease(v));
      views := views[..v] + views[v + 1..];
    }

    // TsdbEngine::Get. With no flush in flight it answers as the plain map of all writes does.
    method Get(measurement: Bytes, timestamp: int64) returns (value: Option<Bytes>)
      requires Valid()
      ensures value == Lsm.Get(Store(), TsKey(measurement, timestamp))
      ensures Trusted(history, TsKey(measurement, timestamp)) && InDomain(TsKey(measurement, timestamp))
              && toFlush.None?
              ==> value == MapGet(history.writes, ttlMap, TsKey(measurement, timestamp))
    {
      hide Reachable, Manifest.PrintAll, Wal.LogOf, Find, GetFromLevels, Expired, ViewOf, MapGet, Copies, InDomain;
      var key := TsKey(measurement, timestamp);
      StoreRefinesMap(Store(), history, key);
      var view := CaptureLevels();
      if Expired(ttlMap, key) {
        return None;
      }
      if Find(mem, key).Some? {
        return Visible(Find(mem, key).value);
      }
      if imm.Some? && Find(imm.value, key).Some? {
        return Visible(Find(imm.value, key).value);
      }
      var entry := GetFromSSTables(disk, view, key);
      return if entry.Some? then Visible(entry.value) else None;
    }

    // TsdbEngine::RangeQuery. It holds a value exactly when Get returns it, in ascending order.
    method RangeQuery(measurement: Bytes, start: int64, end: int64) returns (out: seq<Record>)
      requires Valid()
      ensures out == LsmRange.RangeQuery(Store(), measurement, start, end)
      ensures FewFiles(Store().version.levels) ==>
                && (forall i, j :: 0 <= i < j < |out| ==> out[i].key.timestamp < out[j].key.timestamp)
                && (forall r :: r in out <==> r.key.measurement == measurement && start <= r.key.timestamp <= end
                                              && r.entry.Value? && Lsm.Get(Store(), r.key) == Some(r.entry.value))
    {
      hide Reachable, Manifest.PrintAll, Wal.LogOf, LsmRange.RangeQuery, Lsm.Get;
      if FewFiles(Store().version.levels) {
        RangeQueryAgreesWithGet(Store(), history, measurement, start, end);
      }
      out := CollectRange(measurement, start, end);
    }

    method CollectRange(measurement: Bytes, start: int64, end: int64) returns (out: seq<Record>)
      requires vmgr.Valid()
      ensures out == LsmRange.RangeQuery(Store(), measurement, start, end)
    {
      hide ViewOf, RankSources, DeepSources, Slice, RankAll, SortRanked, Firsts, Reported;
      if end < start {
        return [];
      }
      var lo, hi := TsKey(measurement, start), TsKey(measurement, end);
      var view := CaptureLevels();
      NoSources(lo, hi);
      var all := AddSource([], [], Source(mem, 0), lo, hi);
      ghost var sources := [] + [Source(mem, 0)];
      if imm.Some? {
        all := AddSource(all, sources, Source(imm.value, 1), lo, hi);
        sources := sources + [Source(imm.value, 1)];
      }
      all := AddLevels(all, sources, disk, view, lo, hi);
      assert sources + DeepSources(disk, view, 0) == SourcesOf(Store());
      var merged := TakeFirsts(SortRanked(all));
      out := Report(merged, ttlMap);
    }

    // ---------------------------------------------------------------- closing

    // The last step of Close: the manifest is rewritten as a snapshot.
    method WriteSnapshot()
      requires Valid()
      modifies `lines, `history, vmgr
      ensures Valid() && history == old(history) && Store() == Lsm.WriteSnapshot(old(Store()))
    {
      hide Reachable, Enabled, Next, NextHistory, Manifest.PrintAll, Wal.LogOf, SnapshotLines;
      ghost var s := Store();
      SnapshotIsStep(s, history);
      Happens(DoWriteSnapshot);
      vmgr.WriteSnapshotManifest();
      lines := SnapshotLines(vmgr.levels, vmgr.nextFile);
      assert Store() == Lsm.WriteSnapshot(s);
    }
  }

  lemma {:induction false} NothingLogged()
    ensures Wal.LogOf([]) == [] && Manifest.PrintAll([]) == []
  {
  }

  // ---------------------------------------------------------------- the actions behind the methods

  lemma {:induction false} PutIsStep(s: State, h: History, r: Record)
    requires |s.version.levels| == MaxLevel
    ensures Enabled(s, DoPut(r)) && Next(s, DoPut(r)) == Lsm.Put(s, r)
    ensures NextHistory(s, h, DoPut(r)).writes == h.writes + [r]
  {
  }

  lemma {:induction false} SealIsStep(s: State, h: History)
    requires |s.version.levels| == MaxLevel && s.imm.None? && s.flush.NoFlush?
    ensures Enabled(s, DoSeal) && Next(s, DoSeal) == Seal(s)
    ensures NextHistory(s, h, DoSeal) == h
  {
  }

  lemma {:induction false} LogBatchIsStep(s: State, h: History, ops: seq<Record>)
    requires |s.version.levels| == MaxLevel && ops != []
    ensures Enabled(s, DoLogBatch(ops)) && Next(s, DoLogBatch(ops)) == Lsm.LogBatch(s, ops)
    ensures NextHistory(s, h, DoLogBatch(ops)).writes == h.writes
  {
  }

  lemma {:induction false} ApplyFromBatchIsStep(s: State, h: History, i: nat)
    requires |s.version.levels| == MaxLevel && i < |s.batches| && s.batches[i] != []
    ensures Enabled(s, DoApplyFromBatch(i)) && Next(s, DoApplyFromBatch(i)) == Lsm.ApplyFromBatch(s, i)
    ensures NextHistory(s, h, DoApplyFromBatch(i)).writes == h.writes + [s.batches[i][0]]
  {
  }

  lemma {:induction false} SetTtlIsStep(s: State, h: History, measurement: Bytes, seconds: int)
    requires |s.version.levels| == MaxLevel
    ensures Enabled(s, DoSetTtl(measurement, seconds)) && Next(s, DoSetTtl(measurement, seconds))
            == s.(ttl := SetTtl(s.ttl, measurement, seconds))
    ensures NextHistory(s, h, DoSetTtl(measurement, seconds)).writes == h.writes
  {
  }

  lemma {:induction false} BeginFlushIsStep(s: State, h: History)
    requires |s.version.levels| == MaxLevel && s.imm.Some? && s.flush.NoFlush?
    ensures Enabled(s, DoBeginFlush) && Next(s, DoBeginFlush) == Lsm.BeginFlush(s)
    ensures NextHistory(s, h, DoBeginFlush) == h
  {
  }

  lemma {:induction false} BuildFlushIsStep(s: State, h: History, size: nat)
    requires |s.version.levels| == MaxLevel && s.flush.Begun?
    ensures Enabled(s, DoBuildFlush(size)) && Next(s, DoBuildFlush(size)) == Lsm.BuildFlush(s, size)
    ensures NextHistory(s, h, DoBuildFlush(size)) == h
  {
  }

  lemma {:induction false} CommitFlushIsStep(s: State, h: History)
    requires |s.version.levels| == MaxLevel && s.flush.Built?
    ensures Enabled(s, DoCommitFlush) && Next(s, DoCommitFlush) == Lsm.CommitFlush(s)
    ensures NextHistory(s, h, DoCommitFlush).writes == h.writes
  {
  }

  lemma {:induction false} PickIsStep(s: State, h: History, force: bool)
    requires |s.version.levels| == MaxLevel && PickJob(s, force).Some?
    ensures Enabled(s, DoPick(force)) && Next(s, DoPick(force)) == StartJob(s, PickJob(s, force).value)
    ensures NextHistory(s, h, DoPick(force)) == h.(relaxed := {})
  {
  }

  lemma {:induction false} MergeIsStep(s: State, h: History)
    requires |s.version.levels| == MaxLevel && s.progress.Picked?
    ensures Enabled(s, DoMerge) && Next(s, DoMerge) == MergeJob(s) && NextHistory(s, h, DoMerge) == h
  {
  }

  lemma {:induction false} EmitIsStep(s: State, h: History, size: nat)
    requires |s.version.levels| == MaxLevel && s.progress.Merging? && s.progress.begin < |s.progress.merged|
    ensures Enabled(s, DoEmit(size)) && Next(s, DoEmit(size)) == Lsm.EmitOutput(s, size)
    ensures NextHistory(s, h, DoEmit(size)) == h
  {
  }

  lemma {:induction false} CommitIsStep(s: State, h: History, cleanup: bool)
    requires |s.version.levels| == MaxLevel && s.progress.Merging? && s.progress.begin == |s.progress.merged|
    requires Reachable(s, h)
    ensures Reachable(CommitJob(s, cleanup), h)
  {
    hide Reachable, CommitJob;
    StepReachable(s, h, DoCommitJob(cleanup));
  }

  lemma {:induction false} CleanupIsStep(s: State, h: History)
    requires |s.version.levels| == MaxLevel
    ensures Enabled(s, DoCleanup) && Next(s, DoCleanup) == Cleanup(s) && NextHistory(s, h, DoCleanup) == h
  {
  }

  lemma {:induction false} TryDeleteIsStep(s: State, h: History)
    requires |s.version.levels| == MaxLevel
    ensures Enabled(s, DoTryDelete) && Next(s, DoTryDelete) == TryDelete(s) && NextHistory(s, h, DoTryDelete) == h
  {
  }

  lemma {:induction false} ReopenIsStep(s: State, h: History, dir: seq<DirEntry>)
    requires |s.version.levels| == MaxLevel && Enabled(s, DoReopen) && Reachable(s, h) && Lists(dir, s.disk)
    ensures Restart(s, s.wal, dir) == Reopen(s) && Reachable(Reopen(s), NextHistory(s, h, DoReopen))
  {
    hide Reachable, Reopen, Restart, Inv, Good;
    ReachableIsGood(s, h);
    LsmRestart.RestartIsReopen(s, dir);
    StepReachable(s, h, DoReopen);
  }

  lemma {:induction false} OpenOneMore(done: seq<nat>, n: nat, disk: Disk, next: nat)
    ensures var r := Opened(done, disk);
            && Opened(done + [n], disk) == (if n in r || n !in disk then r else r + [n])
            && AfterUsed(next, r + [n]) == (if n >= AfterUsed(next, r) then n + 1 else AfterUsed(next, r))
  {
    var r := Opened(done, disk);
    assert (done + [n])[..|done|] == done && (r + [n])[..|r|] == r;
  }

  lemma {:induction false} NothingToOpen(next: nat)
    ensures forall disk :: Opened([], disk) == []
    ensures AfterUsed(next, []) == next && AllNumbers([]) == []
  {
  }

  // ---------------------------------------------------------------- the picker's and the compaction's loops

  // Appending a level's files to the inputs of a job.
  method AddInputs(soFar: seq<Input>, level: nat, files: seq<FileMeta>) returns (inputs: seq<Input>)
    ensures inputs == soFar + InputsAt(level, files)
  {
    inputs := soFar;
    for i := 0 to |files|
      invariant inputs == soFar + InputsAt(level, files[..i])
    {
      inputs := inputs + [Input(level, files[i])];
      assert files[..i + 1][..i] == files[..i];
    }
    assert files[..|files|] == files;
  }

  // The key range of the candidates, the L1 files that overlap it, then the candidates.
  method BuildL0Job(levels: Levels, candidates: seq<FileMeta>) returns (job: Job)
    requires |levels| == MaxLevel && candidates != []
    ensures job == L0Job(levels, candidates)
  {
    hide InputsAt;
    var smallest, largest := candidates[0].smallest, candidates[0].largest;
    for i := 0 to |candidates|
      invariant smallest == LowestKey(candidates[..i], candidates[0].smallest)
      invariant largest == HighestKey(candidates[..i], candidates[0].largest)
    {
      assert candidates[..i + 1][..i] == candidates[..i];
      if Less(candidates[i].smallest, smallest) {
        smallest := candidates[i].smallest;
      }
      if Less(largest, candidates[i].largest) {
        largest := candidates[i].largest;
      }
    }
    assert candidates[..|candidates|] == candidates;
    var overlapping: seq<FileMeta>, files := [], levels[1];
    for i := 0 to |files|
      invariant overlapping == Lsm.Overlapping(files[..i], smallest, largest)
    {
      assert files[..i + 1][..i] == files[..i];
      if Overlaps(files[i], smallest, largest) {
        overlapping := overlapping + [files[i]];
      }
    }
    assert files[..|files|] == files;
    var inputs := AddInputs([], 1, overlapping);
    inputs := AddInputs(inputs, 0, candidates);
    assert [] + InputsAt(1, overlapping) == InputsAt(1, overlapping);
    job := Job(inputs, 1);
  }

  method NumbersOf(inputs: seq<Input>) returns (numbers: set<nat>)
    ensures numbers == InputNumbers(inputs)
  {
    numbers := {};
    for i := 0 to |inputs|
      invariant numbers == InputNumbers(inputs[..i])
    {
      assert inputs[..i + 1] == inputs[..i] + [inputs[i]];
      numbers := numbers + {inputs[i].meta.number};
    }
    assert inputs[..|inputs|] == inputs;
  }

  // The records of every input that the reader sees and the filter keeps, ranked by input.
  method CollectInputs(disk: Disk, inputs: seq<Input>, ttl: TtlMap) returns (all: seq<Ranked>)
    ensures all == RankInputs(disk, inputs, ttl)
  {
    hide RankFile, Content;
    all := [];
    for n := 0 to |inputs|
      invariant all == RankInputs(disk, inputs[..n], ttl)
    {
      all := CollectInput(all, Content(disk, inputs[n].meta.number), ttl, -(n as int));
      assert inputs[..n + 1][..n] == inputs[..n];
    }
    assert inputs[..|inputs|] == inputs;
  }

  method CollectInput(soFar: seq<Ranked>, records: seq<Record>, ttl: TtlMap, age: int) returns (all: seq<Ranked>)
    ensures all == soFar + RankFile(records, ttl, age)
  {
    hide Kept;
    all := soFar;
    for i := 0 to |records|
      invariant all == soFar + RankFile(records[..i], ttl, age)
    {
      assert records[..i + 1][..i] == records[..i];
      if Kept(ttl, records[i].key) {
        all := all + [Ranked(records[i], age)];
      }
    }
    assert records[..|records|] == records;
  }

  // Where the output file that starts at begin ends.
  method OutputEnd(merged: seq<Record>, begin: nat, target: nat) returns (end: nat)
    requires begin < |merged|
    ensures end == SplitEnd(merged, begin, 0, target)
  {
    var bytes: nat := 0;
    end := begin;
    while true
      invariant begin <= end < |merged|
      invariant SplitEnd(merged, begin, 0, target) == SplitEnd(merged, end, bytes, target)
      decreases |merged| - end
    {
      bytes := bytes + ApproxBytes(merged[end]);
      end := end + 1;
      if end >= |merged| || (target != 0 && bytes >= target) {
        return;
      }
    }
  }

  method FindFile(files: seq<FileMeta>, number: nat) returns (found: bool)
    ensures found == HasNumber(files, number)
  {
    for i := 0 to |files|
      invariant forall j :: 0 <= j < i ==> files[j].number != number
    {
      if files[i].number == number {
        return true;
      }
    }
    found := false;
  }

  method DeletionsOf(inputs: seq<Input>) returns (deleted: seq<(int, nat)>)
    ensures deleted == Deletions(inputs)
  {
    deleted := [];
    for i := 0 to |inputs|
      invariant deleted == Deletions(inputs[..i])
    {
      deleted := deleted + [(inputs[i].level as int, inputs[i].meta.number)];
      assert inputs[..i + 1][..i] == inputs[..i];
    }
    assert inputs[..|inputs|] == inputs;
  }

  method AdditionsOf(level: int, files: seq<FileMeta>) returns (added: seq<(int, FileMeta)>)
    ensures added == Additions(level, files)
  {
    added := [];
    for i := 0 to |files|
      invariant added == Additions(level, files[..i])
    {
      added := added + [(level, files[i])];
      assert files[..i + 1][..i] == files[..i];
    }
    assert files[..|files|] == files;
  }

  method NumberListOf(files: seq<FileMeta>) returns (numbers: seq<nat>)
    ensures numbers == NumberList(files)
  {
    numbers := [];
    for i := 0 to |files|
      invariant numbers == NumberList(files[..i])
    {
      numbers := numbers + [files[i].number];
      assert files[..i + 1][..i] == files[..i];
    }
    assert files[..|files|] == files;
  }

  lemma {:induction false} CaptureIsStep(s: State, h: History)
    requires |s.version.levels| == MaxLevel
    ensures Enabled(s, DoCapture) && Next(s, DoCapture) == s.(views := s.views + [ViewOf(s)])
            && NextHistory(s, h, DoCapture) == h
  {
  }

  lemma {:induction false} ReleaseIsStep(s: State, h: History, v: nat)
    requires |s.version.levels| == MaxLevel && v < |s.views|
    ensures Enabled(s, DoRelease(v)) && Next(s, DoRelease(v)) == s.(views := s.views[..v] + s.views[v + 1..])
    ensures NextHistory(s, h, DoRelease(v)) == h
  {
  }

  lemma {:induction false} SnapshotIsStep(s: State, h: History)
    requires |s.version.levels| == MaxLevel
    ensures Enabled(s, DoWriteSnapshot) && Next(s, DoWriteSnapshot) == Lsm.WriteSnapshot(s)
            && NextHistory(s, h, DoWriteSnapshot) == h
  {
  }

  // ---------------------------------------------------------------- the readers' loops

  method PublishedFiles(files: seq<FileMeta>, readers: seq<nat>) returns (published: seq<FileMeta>)
    ensures published == Published(files, readers)
  {
    published := [];
    for i := 0 to |files|
      invariant published == Published(files[..i], readers)
    {
      assert files[..i + 1][..i] == files[..i];
      if files[i].number in readers {
        published := published + [files[i]];
      }
    }
    assert files[..|files|] == files;
  }

  // Level by level, newest file first, skipping files whose bounds exclude the key.
  method GetFromSSTables(disk: Disk, view: View, key: TsKey) returns (entry: Option<Entry>)
    ensures entry == GetFromLevels(disk, view, 0, key)
  {
    hide Find, Less;
    for level := 0 to |view|
      invariant GetFromLevels(disk, view, 0, key) == GetFromLevels(disk, view, level, key)
    {
      var files := view[level];
      assert files[..|files|] == files;
      for i := |files| downto 0
        invariant GetFromLevel(disk, files, key) == GetFromLevel(disk, files[..i], key)
      {
        assert files[..i + 1][..i] == files[..i];
        if !(Less(key, files[i].smallest) || Less(files[i].largest, key)) {
          entry := Find(Content(disk, files[i].number), key);
          if entry.Some? {
            return;
          }
        }
      }
      assert files[..0] == [];
    }
    entry := None;
  }

  // AddSourceRecords for the records that one source has in range.
  method AddRecords(all: seq<Ranked>, records: seq<Record>, rank: int, ghost sources: seq<Source>,
                    ghost run: seq<Record>,
                    ghost lo: TsKey, ghost hi: TsKey) returns (more: seq<Ranked>)
    requires all == RankSources(sources, lo, hi) && records == Slice(run, lo, hi)
    ensures more == RankSources(sources + [Source(run, rank)], lo, hi)
  {
    hide Slice;
    more := all;
    for i := 0 to |records|
      invariant more == all + RankAll(records[..i], rank)
    {
      more := more + [Ranked(records[i], rank)];
      assert records[..i + 1][..i] == records[..i];
    }
    assert records[..|records|] == records;
    assert (sources + [Source(run, rank)])[..|sources|] == sources;
  }

  method AddSource(all: seq<Ranked>, ghost sources: seq<Source>, source: Source, lo: TsKey, hi: TsKey)
    returns (more: seq<Ranked>)
    requires all == RankSources(sources, lo, hi)
    ensures more == RankSources(sources + [source], lo, hi)
  {
    hide Slice, RankSources;
    more := AddRecords(all, Slice(source.run, lo, hi), source.rank, sources, source.run, lo, hi);
  }

  // The files of one level, newest first, with ranks from base up.
  method AddLevel(all: seq<Ranked>, ghost sources: seq<Source>, disk: Disk, files: seq<FileMeta>, base: nat, lo: TsKey,
                  hi: TsKey)
    returns (more: seq<Ranked>)
    requires all == RankSources(sources, lo, hi)
    ensures more == RankSources(sources + LevelSources(disk, files, base), lo, hi)
  {
    hide Slice, RankSources, Content;
    more := all;
    ghost var done := sources;
    assert files[..|files|] == files;
    for i := |files| downto 0
      invariant more == RankSources(done, lo, hi)
      invariant done + LevelSources(disk, files[..i], base + (|files| - i)) == sources + LevelSources(disk, files, base)
    {
      var source := Source(Content(disk, files[i].number), base + (|files| - 1 - i));
      more := AddSource(more, done, source, lo, hi);
      assert files[..i + 1][..i] == files[..i];
      Regroup(done, source, LevelSources(disk, files[..i], base + (|files| - i)));
      done := done + [source];
    }
    assert done + [] == done;
  }

  lemma {:induction false} Regroup(a: seq<Source>, x: Source, b: seq<Source>)
    ensures a + ([x] + b) == a + [x] + b
  {
  }

  // Every file of the view, level by level and newest first, with its rank.
  method AddLevels(all: seq<Ranked>, ghost sources: seq<Source>, disk: Disk, view: View, lo: TsKey, hi: TsKey)
    returns (more: seq<Ranked>)
    requires all == RankSources(sources, lo, hi)
    ensures more == RankSources(sources + DeepSources(disk, view, 0), lo, hi)
  {
    hide LevelSources, RankSources;
    more := all;
    ghost var done := sources;
    for level := 0 to |view|
      invariant more == RankSources(done, lo, hi)
      invariant done + DeepSources(disk, view, level) == sources + DeepSources(disk, view, 0)
    {
      var base := 2 + level * RanksPerLevel;
      more := AddLevel(more, done, disk, view[level], base, lo, hi);
      ghost var x, rest := LevelSources(disk, view[level], base), DeepSources(disk, view, level + 1);
      assert done + (x + rest) == done + x + rest;
      done := done + x;
    }
    assert done + [] == done;
  }

  lemma {:induction false} NoSources(lo: TsKey, hi: TsKey)
    ensures RankSources([], lo, hi) == []
  {
  }

  // The last loop of RangeQuery.
  method Report(merged: seq<Record>, ttl: TtlMap) returns (out: seq<Record>)
    ensures out == Reported(merged, ttl)
  {
    hide Expired;
    out := [];
    for i := 0 to |merged|
      invariant out == Reported(merged[..i], ttl)
    {
      assert merged[..i + 1][..i] == merged[..i];
      if merged[i].entry.Value? && !Expired(ttl, merged[i].key) {
        out := out + [merged[i]];
      }
    }
    assert merged[..|merged|] == merged;
  }
}
