// Restarting from what is on disk: the text of the manifest as far as it can be read, or else the table files that are
// there, and the log. When every line can be read and the directory is not scanned this is the restart of the step
// system. A bound that is not a word ends recovery early; a scan forgets which level a file was in.
module LsmRestart {
  import opened Types
  import opened Subsequence
  import opened Version
  import opened RankedMerge
  import opened Lsm
  import opened LsmInvariant
  import opened LsmSteps
  import opened LsmCommits
  import opened LsmRetire
  import opened LsmHistory
  import opened LsmReads
  import opened LsmRuns
  import opened LsmRecovery
  import Manifest
  import Wal

  // ---------------------------------------------------------------- a manifest that can be read

  lemma {:induction false} OpenedAll(numbers: seq<nat>, disk: Disk)
    requires Distinct(numbers) && forall n :: n in numbers ==> n in disk
    ensures Opened(numbers, disk) == numbers
  {
    if numbers != [] {
      var n := |numbers| - 1;
      OpenedAll(numbers[..n], disk);
      assert numbers == numbers[..n] + [numbers[n]];
    }
  }

  lemma {:induction false} NothingAboveNext(next: nat, numbers: seq<nat>)
    requires forall n :: n in numbers ==> n < next
    ensures AfterUsed(next, numbers) == next
  {
    if numbers != [] {
      var n := |numbers| - 1;
      assert numbers == numbers[..n] + [numbers[n]];
      assert numbers[n] in numbers && forall x :: x in numbers[..n] ==> x in numbers;
      NothingAboveNext(next, numbers[..n]);
    }
  }

  // Every file of the version is named once, on disk, and below the next number that the manifest gives.
  lemma {:induction false} LiveIsNamed(s: State)
    requires Inv(s)
    ensures var live := AllNumbers(s.version.levels);
            Distinct(live) && forall n :: n in live ==> n in s.disk && n < Recover(s.manifest).nextFile
  {
    hide Recover, MemoryOk, FlushOk, ProgressOk, MetaOk, PairwiseDisjoint;
    var levels := s.version.levels;
    AllNumbersSpec(levels);
    assert forall n :: n in AllNumbers(levels) ==> n in SetOf(AllNumbers(levels));
  }

  lemma {:induction false} HasFileHasNumber(levels: Levels)
    ensures HasFile(levels) <==> AllNumbers(levels) != []
  {
    if levels != [] {
      var n := |levels| - 1;
      HasFileHasNumber(levels[..n]);
      NumberListLength(levels[n]);
      assert HasFile(levels) <==> HasFile(levels[..n]) || levels[n] != [] by {
        assert forall l :: 0 <= l < n ==> levels[..n][l] == levels[l];
      }
    }
  }

  lemma {:induction false} NumberListLength(files: seq<FileMeta>)
    ensures |NumberList(files)| == |files|
  {
    if files != [] {
      NumberListLength(files[..|files| - 1]);
    }
  }

  // When every line of the manifest can be read and the directory is not scanned, the process starts as the step system
  // says.
  lemma {:induction false} RestartIsReopen(s: State, dir: seq<DirEntry>)
    requires Inv(s) && Manifest.Printable(s.manifest) && Lists(dir, s.disk)
    requires s.disk == map[] || HasFile(s.version.levels)
    ensures Restart(s, s.wal, dir) == Reopen(s)
  {
    hide LevelsOk, MemoryOk, FlushOk, ProgressOk, FilesOk, Recover, Manifest.PrintAll, Manifest.RecoverText,
         Manifest.Printable,
         Opened, AfterUsed, LiveFiles, Replay, TouchAll, AllNumbers, Live, Distinct, HasFile;
    Manifest.TextIsLines(s.manifest);
    LiveIsNamed(s);
    var live := AllNumbers(s.version.levels);
    HasFileHasNumber(s.version.levels);
    if live != [] {
      OpenedAll(live, s.disk);
      NothingAboveNext(Recover(s.manifest).nextFile, live);
    } else {
      assert s.disk == map[];
      if dir != [] { EntriesAreFiles(dir, s.disk); }
      NoLiveFiles(s.disk);
    }
  }

  lemma {:induction false} EntriesAreFiles(dir: seq<DirEntry>, disk: Disk)
    requires Lists(dir, disk) && dir != []
    ensures disk != map[]
  {
    assert dir[0] in dir;
  }

  lemma {:induction false} NoLiveFiles(disk: Disk)
    requires disk == map[]
    ensures LiveFiles(disk, []) == disk
  {
  }

  // What the next process makes of the log's bytes, the manifest's text and the table files that this one leaves.
  function FromDisk(s: State, dir: seq<DirEntry>): State {
    Restart(s, Wal.Replay(Wal.LogOf(s.wal)).records, dir)
  }

  lemma {:induction false} FromDiskIsReopen(s: State, dir: seq<DirEntry>)
    requires Inv(s) && |s.version.levels| == MaxLevel && Enabled(s, DoReopen) && Lists(dir, s.disk)
    ensures FromDisk(s, dir) == Reopen(s)
  {
    hide Inv, Restart, Reopen, Manifest.Printable, Lists, Wal.Replay, Wal.LogOf, Wal.AllLoggable, HasFile;
    Wal.ReplayOfLog(s.wal);
    RestartIsReopen(s, dir);
  }

  // A crash after any action from which the bytes can be read: the next process finds, for every key, what the store
  // held with its logged batches applied, unless a rotation dropped a write to the key that was still in memory, or a
  // write to it reached the table out of the order of the log, and no write has put that right since.
  lemma {:induction false} CrashLosesNothing(s: State, h: History, dir: seq<DirEntry>, k: TsKey)
    requires Reachable(s, h) && k !in h.stale
    requires |s.version.levels| == MaxLevel && Enabled(s, DoReopen) && Lists(dir, s.disk)
    ensures LastOf(Copies(FromDisk(s, dir), k)) == LastOf(LoggedCopies(s, k))
  {
    hide Inv, Reachable, InWriteOrder, HoldsLastWrites, LogFollows, CopiesIn, LastOf, LoggedCopies, Copies, LogAgrees,
         FromDisk, Enabled, Lists;
    ReachableIsGood(s, h);
    FromDiskIsReopen(s, dir);
    ReopenRestores(s, k);
  }

  // No batches and no restart, and every rotation finds the active table empty.
  ghost predicate Unbatched(states: seq<State>, actions: seq<Action>)
    requires |actions| <= |states|
  {
    forall i :: 0 <= i < |actions| ==>
      !actions[i].DoLogBatch? && !actions[i].DoReopen? && (actions[i].DoCommitFlush? ==> states[i].mem == [])
  }

  lemma {:induction false} BatchesStay(s: State, a: Action)
    requires Inv(s) && |s.version.levels| == MaxLevel && Enabled(s, a)
    requires !a.DoLogBatch? && !a.DoReopen? && !a.DoApplyFromBatch?
    ensures Next(s, a).batches == s.batches
  {
    hide Inv, PickJob, Upsert, Touch, SetTtl, Cleanup, TryDelete, CommitJob, InstallFlush, ViewOf, RankInputs, SplitEnd,
         FromZeroKey, SnapshotLines, HasFile, Manifest.Printable, Wal.AllLoggable;
    match a {
      case DoCommitJob(cleanup) => CommitJobFields(s, cleanup);
      case DoCommitFlush => CommitFlushFields(s);
      case DoCleanup => CleanupFields(s);
      case DoTryDelete => TryDeleteBatches(s);
      case _ =>
    }
  }

  lemma {:induction false} TryDeleteBatches(s: State)
    ensures TryDelete(s).batches == s.batches
  {
  }

  // In such a run the log never falls behind.
  lemma {:induction false} NothingStale(states: seq<State>, histories: seq<History>, actions: seq<Action>, i: nat)
    requires IsRun(states, histories, actions) && i <= |actions| && Unbatched(states, actions)
    ensures histories[i].stale == {} && states[i].batches == []
  {
    hide Inv, Good, Next, CopiesIn, PickJob, Revived, Manifest.Printable, Wal.AllLoggable, HasFile;
    if i > 0 {
      NothingStale(states, histories, actions, i - 1);
      var s, a := states[i - 1], actions[i - 1];
      assert IsStep(s, histories[i - 1], a, states[i], histories[i]);
      RunIsGood(states, histories, actions, i - 1);
      GoodIsInv(s, histories[i - 1]);
      assert Flatten(s.batches) == [];
      NoCopiesOfNothing();
      BatchesStay(s, a);
    }
  }

  lemma {:induction false} NoCopiesOfNothing()
    ensures forall k :: CopiesIn([], k) == []
  {
  }

  // So a crash at its end, with log and manifest readable, costs no key its newest copy.
  lemma {:induction false} UnbatchedCrashLosesNothing(states: seq<State>, histories: seq<History>, actions: seq<Action>,
                                                      dir: seq<DirEntry>, k: TsKey)
    requires IsRun(states, histories, actions) && Unbatched(states, actions)
    requires var s := states[|actions|];
             |s.version.levels| == MaxLevel && Enabled(s, DoReopen) && Lists(dir, s.disk)
    ensures LastOf(Copies(FromDisk(states[|actions|], dir), k)) == LastOf(Copies(states[|actions|], k))
  {
    hide IsStep, Enabled, Lists, FromDisk, Copies, CopiesIn, LastOf;
    var s := states[|actions|];
    NothingStale(states, histories, actions, |actions|);
    assert Reachable(s, histories[|actions|]);
    CrashLosesNothing(s, histories[|actions|], dir, k);
    NoCopiesOfNothing();
    assert LoggedCopies(s, k) == Copies(s, k);
  }

  // A crash between committing a flush and rotating the log loses nothing either.
  lemma {:induction false} CrashMidCommitLosesNothing(s: State, h: History, dir: seq<DirEntry>, k: TsKey)
    requires Reachable(s, h) && k !in h.stale && s.flush.Built? && InDomain(k) && |s.version.levels| == MaxLevel
    requires |MidCommit(s).version.levels| == MaxLevel && Enabled(MidCommit(s), DoReopen)
             && Lists(dir, MidCommit(s).disk)
    ensures LastOf(Copies(FromDisk(MidCommit(s), dir), k)) == LastOf(LoggedCopies(s, k))
  {
    hide Inv, Reachable, InWriteOrder, HoldsLastWrites, LogFollows, CopiesIn, LastOf, LoggedCopies, Copies, LogAgrees,
         FromDisk, Enabled, Lists, MidCommit, InDomain;
    ReachableIsGood(s, h);
    MidCommitRestores(s, k);
    FromDiskIsReopen(MidCommit(s), dir);
  }

  // Every restart of the step system, even over a log that is behind, keeps the copies of every key in write order.
  lemma {:induction false} RestartKeepsWriteOrder(s: State, h: History, dir: seq<DirEntry>, k: TsKey)
    requires Reachable(s, h) && |s.version.levels| == MaxLevel && Enabled(s, DoReopen) && Lists(dir, s.disk)
    ensures Subseq(Copies(FromDisk(s, dir), k), CopiesIn(h.writes + Flatten(s.batches), k))
  {
    hide Inv, Reachable, InWriteOrder, HoldsLastWrites, LogFollows, CopiesIn, Subseq, Copies, LogAgrees, FromDisk,
         Enabled, Lists, Flatten;
    ReachableIsGood(s, h);
    FromDiskIsReopen(s, dir);
    ReopenKeepsOrder(s, h, k);
  }

  // ---------------------------------------------------------------- scanning the directory

  function EntryMeta(disk: Disk, e: DirEntry): FileMeta {
    MetaOf(e.number, e.size, Content(disk, e.number))
  }

  lemma {:induction false} ScanAddsFile(w: VersionState, m: FileMeta)
    requires |w.levels| == MaxLevel && LevelsSorted(w.levels)
    ensures var r := ApplyEdit(w, Edit([(0, m)], []));
            r.levels == w.levels[0 := InsertByNumber(w.levels[0], m)] && LevelsSorted(r.levels)
  {
    hide InsertByNumber, ApplyEdit, NonDescending;
    ReadAddLine(w, (0, m));
  }

  // Every listed file ends up in level 0, and no file anywhere else.
  lemma {:induction false} ScanLevels(v: VersionState, disk: Disk, dir: seq<DirEntry>)
    requires v.levels == EmptyLevels()
    requires forall i, j :: 0 <= i < j < |dir| ==> dir[i].number != dir[j].number
    ensures var levels := Scan(v, disk, dir).levels;
            && LevelsSorted(levels) && levels == EmptyLevels()[0 := levels[0]] && Ascending(levels[0])
            && forall f :: f in levels[0] <==> exists e :: e in dir && f == EntryMeta(disk, e)
  {
    hide ApplyEdit, InsertByNumber, LevelsSorted;
    if dir == [] {
      EmptyLevelsSorted();
    } else {
      var n := |dir| - 1;
      var e, w := dir[n], Scan(v, disk, dir[..n]);
      ScanLevels(v, disk, dir[..n]);
      ScanAddsFile(w, EntryMeta(disk, e));
      forall f | f in w.levels[0] ensures f.number != e.number {
        var x :| x in dir[..n] && f == EntryMeta(disk, x);
      }
      InsertAscending(w.levels[0], EntryMeta(disk, e));
      InsertMembers(w.levels[0], EntryMeta(disk, e));
      assert dir == dir[..n] + [e];
    }
  }

  // The directory gives every file of the version the size that its metadata has.
  ghost predicate SizesAgree(levels: Levels, dir: seq<DirEntry>) {
    forall l, f :: 0 <= l < |levels| && f in levels[l] ==> DirEntry(f.number, f.size) in dir
  }

  // The listed files are those of a level with the same numbers.
  lemma {:induction false} EntriesAreLevel(disk: Disk, dir: seq<DirEntry>, files: seq<FileMeta>)
    requires Lists(dir, disk) && disk.Keys == Numbers(files)
    requires forall f :: f in files ==> DirEntry(f.number, f.size) in dir && MetaOk(disk, f)
    ensures forall f :: f in files <==> exists e :: e in dir && f == EntryMeta(disk, e)
  {
    hide Sorted, MinKey, MaxKey;
    forall f | f in files ensures exists e :: e in dir && f == EntryMeta(disk, e) {
      assert f == EntryMeta(disk, DirEntry(f.number, f.size));
    }
    forall e | e in dir ensures EntryMeta(disk, e) in files {
      var g: FileMeta :| g in files && g.number == e.number;
      assert e == DirEntry(g.number, g.size);
      assert EntryMeta(disk, e) == g;
    }
  }

  // A scan finds the version again exactly when the files on disk are those of level 0 and there is no other level.
  lemma {:induction false} ScanFindsVersionExactlyWhen(s: State, v: VersionState, dir: seq<DirEntry>)
    requires Inv(s) && Lists(dir, s.disk) && SizesAgree(s.version.levels, dir) && v.levels == EmptyLevels()
    ensures |s.version.levels| == MaxLevel
    ensures Scan(v, s.disk, dir).levels == s.version.levels <==> OnlyLevelZero(s)
  {
    hide MemoryOk, FlushOk, ProgressOk, FilesOk, ManifestOk, PairwiseDisjoint, NumbersUnique, LevelsSorted, Scan,
         MetaOf, MetaOk, Ascending;
    var levels, found := s.version.levels, Scan(v, s.disk, dir).levels;
    ScanLevels(v, s.disk, dir);
    if found == levels {
      ScannedNumbers(s.disk, dir, levels[0]);
    } else if OnlyLevelZero(s) {
      EntriesAreLevel(s.disk, dir, levels[0]);
      AscendingSame(found[0], levels[0]);
    }
  }

  lemma {:induction false} ScannedNumbers(disk: Disk, dir: seq<DirEntry>, files: seq<FileMeta>)
    requires Lists(dir, disk) && forall f :: f in files <==> exists e :: e in dir && f == EntryMeta(disk, e)
    ensures Numbers(files) == disk.Keys
  {
    hide MinKey, MaxKey;
    forall n ensures n in disk <==> n in Numbers(files) {
      if n in disk {
        var e :| e in dir && e.number == n;
        assert EntryMeta(disk, e) in files;
      }
    }
  }

  ghost predicate OnlyLevelZero(s: State) {
    && |s.version.levels| == MaxLevel && s.disk.Keys == Numbers(s.version.levels[0])
    && forall l :: 1 <= l < MaxLevel ==> s.version.levels[l] == []
  }

  // ---------------------------------------------------------------- which restarts keep the version

  // What opening reads of these lines names a file.
  ghost predicate NamesFile(manifest: seq<ManifestLine>) {
    HasFile(Manifest.RecoverText(Manifest.PrintAll(manifest)).levels)
  }

  lemma {:induction false} NoFileIsEmpty(levels: Levels)
    requires |levels| == MaxLevel && !HasFile(levels)
    ensures levels == EmptyLevels()
  {
  }

  // Over a manifest whose every line can be read, a restart keeps the version exactly when the version has a file or
  // there is no table file. Then every file of it is still there, with a reader.
  lemma {:induction false} ReadableManifestKeepsVersionExactlyWhen(s: State, h: History, dir: seq<DirEntry>)
    requires Reachable(s, h) && Manifest.Printable(s.manifest) && Lists(dir, s.disk)
    ensures var s' := Restart(s, s.wal, dir);
            && (s'.version.levels == s.version.levels <==> s.disk == map[] || HasFile(s.version.levels))
            && (s'.version.levels == s.version.levels ==>
                  && s'.readers == AllNumbers(s.version.levels)
                  && forall n :: n in Live(s.version.levels) ==>
                                   n in s'.disk && Content(s'.disk, n) == Content(s.disk, n))
  {
    hide Inv, Reachable, Good, Restart, Manifest.Printable, Live, Recover, AllNumbers, HasFile;
    ReachableIsGood(s, h);
    if s.disk == map[] || HasFile(s.version.levels) {
      RestartIsReopen(s, dir);
      ReopenFiles(s);
      hide Inv;
      ReopenReaders(s);
    } else {
      ScanFindsMore(s, dir);
    }
  }

  lemma {:induction false} ReopenReaders(s: State)
    requires Inv(s)
    ensures Reopen(s).readers == AllNumbers(s.version.levels)
  {
    hide LevelsOk, MemoryOk, FlushOk, ProgressOk, FilesOk, Recover, AllNumbers;
  }

  lemma {:induction false} ScanFindsMore(s: State, dir: seq<DirEntry>)
    requires Inv(s) && Manifest.Printable(s.manifest) && Lists(dir, s.disk)
    requires s.disk != map[] && !HasFile(s.version.levels)
    ensures Restart(s, s.wal, dir).version.levels != s.version.levels
  {
    hide LevelsOk, MemoryOk, FlushOk, ProgressOk, FilesOk, Manifest.PrintAll, Manifest.RecoverText, Manifest.Printable,
         Scan, Replay, TouchAll, Recover, LevelsSorted;
    Manifest.TextIsLines(s.manifest);
    var v := Manifest.RecoverText(Manifest.PrintAll(s.manifest));
    NoFileIsEmpty(s.version.levels);
    ScanLevels(v, s.disk, dir);
    var n :| n in s.disk;
    var e :| e in dir && e.number == n;
    assert EntryMeta(s.disk, e) in Scan(v, s.disk, dir).levels[0];
  }

  // When the manifest still names some file, a file with a bound that is not a word is never recovered.
  lemma {:induction false} RestartDropsUnreadableFiles(s: State, records: seq<Record>, dir: seq<DirEntry>, l: nat,
                                                       f: FileMeta)
    requires l < MaxLevel && !Manifest.Words(f) && NamesFile(s.manifest)
    ensures |Restart(s, records, dir).version.levels| == MaxLevel
    ensures f !in Restart(s, records, dir).version.levels[l]
  {
    hide Manifest.ReadText, Manifest.PrintAll, Manifest.Words, Replay, TouchAll, Opened, AfterUsed, AllNumbers, HasFile;
    Manifest.FreshHasWords();
    Manifest.RecoveredBoundsAreWords(Manifest.Fresh(), Manifest.PrintAll(s.manifest));
  }

  // When it names none, every table file of the directory becomes a file of level 0, whatever its level was and whether
  // or not it belonged to the version.
  lemma {:induction false} RestartScansDirectory(s: State, records: seq<Record>, dir: seq<DirEntry>)
    requires !NamesFile(s.manifest) && Lists(dir, s.disk)
    ensures var s' := Restart(s, records, dir);
            && |s'.version.levels| == MaxLevel && s'.disk == s.disk && Numbers(s'.version.levels[0]) == s.disk.Keys
            && forall l :: 1 <= l < MaxLevel ==> s'.version.levels[l] == []
  {
    hide Manifest.PrintAll, Manifest.RecoverText, Scan, Replay, TouchAll, LevelsSorted, HasFile, MinKey, MaxKey;
    var v := Manifest.RecoverText(Manifest.PrintAll(s.manifest));
    NoFileIsEmpty(v.levels);
    ScanLevels(v, s.disk, dir);
    ScannedNumbers(s.disk, dir, Scan(v, s.disk, dir).levels[0]);
  }

  // After a clean shutdown, which rewrites the manifest as a snapshot: when recovery finds a file in it, a restart
  // keeps the version exactly when all bounds of the version are words; otherwise exactly when the version is all the
  // table files there are, in level 0.
  lemma {:induction false} CleanRestartKeepsVersionExactlyWhen(s: State, h: History, dir: seq<DirEntry>)
    requires Reachable(s, h) && |s.version.levels| == MaxLevel
    requires Lists(dir, s.disk) && SizesAgree(s.version.levels, dir)
    requires forall line :: line in SnapshotLines(s.version.levels, s.version.nextFile) ==> Manifest.InWidth(line)
    ensures var x := WriteSnapshot(s);
            Restart(x, x.wal, dir).version.levels == s.version.levels
            <==> if NamesFile(x.manifest) then Manifest.AllWords(s.version.levels) else OnlyLevelZero(s)
  {
    hide Inv, Reachable, Good, Restart, Manifest.InWidth, Manifest.Readable, Manifest.Words, Recover, SnapshotLines,
         OnlyLevelZero, NamesFile, Lists, HasFile;
    ReachableIsGood(s, h);
    var x := WriteSnapshot(s);
    SnapshotKeepsInv(s);
    if !NamesFile(x.manifest) {
      ScanDecides(x, dir);
      assert OnlyLevelZero(x) <==> OnlyLevelZero(s) by { SameFilesSameLevelZero(s, x); }
    } else if Manifest.AllWords(s.version.levels) {
      Manifest.SnapshotIsReadable(s.version.levels, s.version.nextFile);
      NamedMeansFile(x);
      RestartIsReopen(x, dir);
      ReopenFiles(x);
    } else {
      var l, f :| 0 <= l < MaxLevel && f in s.version.levels[l] && !Manifest.Words(f);
      RestartDropsUnreadableFiles(x, x.wal, dir, l, f);
    }
  }

  lemma {:induction false} SameFilesSameLevelZero(s: State, x: State)
    requires x.version == s.version && x.disk == s.disk
    ensures OnlyLevelZero(x) <==> OnlyLevelZero(s)
  {
  }

  lemma {:induction false} ScanDecides(s: State, dir: seq<DirEntry>)
    requires Inv(s) && Lists(dir, s.disk) && SizesAgree(s.version.levels, dir) && !NamesFile(s.manifest)
    ensures Restart(s, s.wal, dir).version.levels == s.version.levels <==> OnlyLevelZero(s)
  {
    hide Inv, Manifest.PrintAll, Manifest.RecoverText, Scan, Replay, TouchAll, OnlyLevelZero, HasFile, Lists,
         SizesAgree;
    var v := Manifest.RecoverText(Manifest.PrintAll(s.manifest));
    NoFileIsEmpty(v.levels);
    ScanFindsVersionExactlyWhen(s, v, dir);
  }

  lemma {:induction false} NamedMeansFile(s: State)
    requires Inv(s) && Manifest.Printable(s.manifest) && NamesFile(s.manifest)
    ensures HasFile(s.version.levels)
  {
    hide LevelsOk, MemoryOk, FlushOk, ProgressOk, FilesOk, Manifest.PrintAll, Manifest.RecoverText, Manifest.Printable,
         Recover, HasFile;
    Manifest.TextIsLines(s.manifest);
  }

  // ---------------------------------------------------------------- file numbers and leftover files

  lemma {:induction false} AfterUsedIs(next: nat, numbers: seq<nat>)
    ensures var r := AfterUsed(next, numbers);
            r >= next && (forall n :: n in numbers ==> n < r) && (r == next || (r > 0 && r - 1 in numbers))
  {
    if numbers != [] {
      var n := |numbers| - 1;
      AfterUsedIs(next, numbers[..n]);
      assert numbers == numbers[..n] + [numbers[n]];
    }
  }

  lemma {:induction false} OpenedMembers(numbers: seq<nat>, disk: Disk)
    ensures forall n :: n in Opened(numbers, disk) <==> n in numbers && n in disk
  {
    if numbers != [] {
      var n := |numbers| - 1;
      OpenedMembers(numbers[..n], disk);
      assert numbers == numbers[..n] + [numbers[n]];
    }
  }

  lemma {:induction false} ScanNumber(v: VersionState, disk: Disk, dir: seq<DirEntry>)
    requires |v.levels| == MaxLevel
    ensures var r := Scan(v, disk, dir).nextFile;
            && r >= v.nextFile && (forall e :: e in dir ==> e.number < r)
            && (r == v.nextFile || exists e :: e in dir && r == e.number + 1)
  {
    hide ApplyDeletes, ApplyAdds, SortLevels;
    if dir != [] {
      var n := |dir| - 1;
      ScanNumber(v, disk, dir[..n]);
      assert dir == dir[..n] + [dir[n]];
      assert dir[n] in dir;
    }
  }

  // Whatever is on disk and can be read of manifest and log: after a restart no table file has a number that will be
  // handed out, and the next number is the manifest's or follows that of a file.
  lemma {:induction false} RestartNumbersAreFree(s: State, records: seq<Record>, dir: seq<DirEntry>)
    requires Lists(dir, s.disk)
    ensures var s', next := Restart(s, records, dir), Manifest.RecoverText(Manifest.PrintAll(s.manifest)).nextFile;
            && (forall n :: n in s'.disk ==> n < s'.version.nextFile)
            && s'.version.nextFile >= next
            && (s'.version.nextFile == next || (s'.version.nextFile > 0 && s'.version.nextFile - 1 in s'.disk))
  {
    hide Manifest.PrintAll, Manifest.RecoverText, Scan, Replay, TouchAll, HasFile, Opened, AfterUsed, AllNumbers,
         SnapshotLines, DirNumbers;
    var v := Manifest.RecoverText(Manifest.PrintAll(s.manifest));
    OpenedMembers(AllNumbers(v.levels), s.disk);
    AfterUsedIs(v.nextFile, Opened(AllNumbers(v.levels), s.disk));
    ScanNumber(v, s.disk, dir);
  }

  // When the manifest names a file, a restart removes exactly the table files that no recovered level names; otherwise
  // it removes none. Those that stay keep their content, and each has a reader.
  lemma {:induction false} RestartRemovesExactly(s: State, records: seq<Record>, dir: seq<DirEntry>, n: nat)
    requires Lists(dir, s.disk)
    ensures var s' := Restart(s, records, dir);
            && (n in s'.disk <==> n in s.disk && (NamesFile(s.manifest) ==> n in Live(s'.version.levels)))
            && (n in s'.disk ==> s'.disk[n] == s.disk[n])
            && (n in s'.readers <==> n in s'.disk)
  {
    hide Manifest.PrintAll, Manifest.RecoverText, Scan, Replay, TouchAll, HasFile, Opened, AfterUsed, AllNumbers,
         SnapshotLines, DirNumbers, Live;
    var v := Manifest.RecoverText(Manifest.PrintAll(s.manifest));
    OpenedMembers(AllNumbers(v.levels), s.disk);
    NumbersAreLive(v.levels);
    DirNumbersMembers(dir);
  }

  lemma {:induction false} DirNumbersMembers(dir: seq<DirEntry>)
    ensures forall n :: n in DirNumbers(dir) <==> exists e :: e in dir && e.number == n
  {
    if dir != [] {
      var k := |dir| - 1;
      DirNumbersMembers(dir[..k]);
      assert dir == dir[..k] + [dir[k]];
      assert dir[k] in dir;
    }
  }

  lemma {:induction false} NumbersAreLive(levels: Levels)
    ensures forall n :: n in AllNumbers(levels) <==> n in Live(levels)
  {
    if levels != [] {
      var k := |levels| - 1;
      NumbersAreLive(levels[..k]);
      var init, last := levels[..k], levels[k];
      assert levels == init + [last];
      forall n ensures n in Live(levels) <==> n in Live(init) || n in NumberList(last) {
        if n in Live(levels) {
          var l, f: FileMeta :| 0 <= l < |levels| && f in levels[l] && f.number == n;
          if l < k {
            assert f in init[l];
          }
        }
        if n in Live(init) {
          var l, f: FileMeta :| 0 <= l < |init| && f in init[l] && f.number == n;
          assert f in levels[l];
        }
        if n in NumberList(last) {
          var i :| 0 <= i < |last| && last[i].number == n;
          assert last[i] in levels[k];
        }
      }
    }
  }
}
