// Runs in which a restart loses writes: a bound that is not a word costs the files after it, and a directory scan puts
// older values on top.
module LsmRestartRuns {
  import opened Types
  import opened Subsequence
  import opened Version
  import opened RankedMerge
  import opened Lsm
  import opened LsmInvariant
  import opened LsmSteps
  import opened LsmCommits
  import opened LsmRetire
  import opened LsmHistory
  import opened LsmReads
  import opened LsmRuns
  import opened LsmRecovery
  import opened LsmRestart
  import Manifest
  import Text

  // ---------------------------------------------------------------- a manifest that cannot be read

  // Both bounds of the file that a flush of k alone makes.
  function FileBound(k: TsKey): TsKey {
    if Less(k, ZeroKey) then ZeroKey else k
  }

  lemma {:induction false} OneRecordBounds(n: nat, r: Record)
    ensures MetaOf(n, 0, FromZeroKey([r])) == FileMeta(n, 0, FileBound(r.key), FileBound(r.key))
    ensures FromZeroKey([r]) == if Less(r.key, ZeroKey) then [] else [r]
  {
    SingletonPrefix(r);
  }

  // The bounds of such a file do not read back from the manifest: no measurement, or one that is more than a word.
  predicate Unreadable(k: TsKey) {
    var text := Manifest.PrintKey(FileBound(k));
    Manifest.ReadBounds(text + text) == None
  }

  lemma {:induction false} LowKeysAreUnreadable(k: TsKey)
    requires Less(k, ZeroKey) || (k.measurement == [] && k.timestamp >= 0)
    ensures Unreadable(k) && Manifest.OneLine(FileBound(k).measurement)
  {
    hide Manifest.PrintKey, Manifest.ReadBounds;
    Manifest.EmptyMeasurementIsRejected(FileBound(k).timestamp);
  }

  lemma {:induction false} TwoWordsAreUnreadable(w: Bytes, x: Bytes, t: int64)
    requires Text.IsToken(w) && Text.IsToken(x) && !Text.IsDigit(x[0]) && x[0] != Text.Minus && x[0] != Text.Plus
    ensures var k := TsKey(w + [Text.Space] + x, t); Unreadable(k) && Manifest.OneLine(FileBound(k).measurement)
  {
    hide Manifest.PrintKey, Manifest.ReadBounds;
    var k := TsKey(w + [Text.Space] + x, t);
    Manifest.TwoWordsAreRejected(w, x, t);
    CompareBytesLaws(k.measurement, []);
  }

  // Three writes, each flushed to a file of its own; the second file has an unreadable bound.
  lemma {:induction false} ThreeFlushes(ra: Record, rb: Record, rc: Record) returns (s: State, h: History)
    requires !Less(ra.key, ZeroKey)
    ensures Reachable(s, h) && Quiet(s) && s.wal == [] && h.relaxed == {} && h.lost == {}
    ensures h.writes == [ra] + [rb] + [rc] && s.ttl == Touch(Touch(Touch(map[], ra.key), rb.key), rc.key)
    ensures s.disk == map[1 := [ra], 2 := FromZeroKey([rb]), 3 := FromZeroKey([rc])]
    ensures var m1, m2 := FileMeta(1, 0, ra.key, ra.key), FileMeta(2, 0, FileBound(rb.key), FileBound(rb.key));
            exists more :: s.manifest == [LineAdd(0, m1), LineNext(2), LineAdd(0, m2)] + more
  {
    hide Reachable, Inv, Touch, FromZeroKey, EditLines, MetaOf, FileBound;
    InitReachable(0);
    InitIsQuiet(0);
    var s1, h1, m1 := FlushWrite(Init(0), NoHistory, ra);
    var s2, h2, m2 := FlushWrite(s1, h1, rb);
    var m3;
    s, h, m3 := FlushWrite(s2, h2, rc);
    OneRecordBounds(1, ra);
    OneRecordBounds(2, rb);
    LowBound(ra.key);
    NumbersAre(m1, m2, m3, ra, rb, rc);
    OneAddLine(m1, 2);
    OneAddLine(m2, 3);
    OneAddLine(m3, 4);
    assert [] + [ra] == [ra];
    assert s.manifest == [LineAdd(0, m1), LineNext(2), LineAdd(0, m2)] + [LineNext(3), LineAdd(0, m3), LineNext(4)];
  }

  lemma {:induction false} LowBound(k: TsKey)
    requires !Less(k, ZeroKey)
    ensures FileBound(k) == k
  {
  }

  lemma {:induction false} NumbersAre(m1: FileMeta, m2: FileMeta, m3: FileMeta, ra: Record, rb: Record, rc: Record)
    requires m1 == MetaOf(1, 0, FromZeroKey([ra])) && m2 == MetaOf(2, 0, FromZeroKey([rb]))
             && m3 == MetaOf(3, 0, FromZeroKey([rc]))
    ensures m1.number == 1 && m2.number == 2 && m3.number == 3
  {
  }

  // Recovery reads the first file's line, stops at the second's, and never sees the third's.
  lemma {:induction false} RecoveryStops(m1: FileMeta, m2: FileMeta, more: seq<ManifestLine>)
    requires m1.number == 1 && m1.size == 0 && m2.number == 2 && m2.size == 0
    requires Manifest.Words(m1) && m2.smallest == m2.largest && Manifest.OneLine(m2.smallest.measurement)
    requires Manifest.ReadBounds(Manifest.PrintKey(m2.smallest) + Manifest.PrintKey(m2.largest)) == None
    ensures var lines := [LineAdd(0, m1), LineNext(2), LineAdd(0, m2)] + more;
            Manifest.RecoverText(Manifest.PrintAll(lines)) == VersionState(EmptyLevels()[0 := [m1]], 2, [])
  {
    hide Manifest.Print, Manifest.ReadBounds, Manifest.PrintKey, Manifest.OneLine, Text.IsToken, Manifest.Rejected;
    var before, bad := [LineAdd(0, m1), LineNext(2)], LineAdd(0, m2);
    Manifest.RejectedExactlyWhen(0, m2);
    assert [LineAdd(0, m1), LineNext(2), LineAdd(0, m2)] + more == (before + [bad]) + more;
    Manifest.PrintAllConcat(before + [bad], more);
    Manifest.RejectedLineHidesRest(before, bad, Manifest.PrintAll(more));
    TwoLines(m1);
  }

  lemma {:induction false} TwoLines(m: FileMeta)
    requires m.number == 1
    ensures ReadLines(Manifest.Fresh(), [LineAdd(0, m), LineNext(2)]) == VersionState(EmptyLevels()[0 := [m]], 2, [])
  {
    hide ApplyEdit;
    var lines, v := [LineAdd(0, m), LineNext(2)], Manifest.Fresh();
    assert lines[..1] == [LineAdd(0, m)] && lines[1] == LineNext(2);
    SingletonPrefix(LineAdd(0, m));
    assert ReadLines(v, []) == v;
    var one := ReadLine(v, LineAdd(0, m));
    assert ReadLines(v, lines[..1]) == one;
    assert ReadLines(v, lines) == ReadLine(one, LineNext(2));
    OneAddition(m);
  }

  lemma {:induction false} OneAddition(m: FileMeta)
    requires m.number == 1
    ensures ApplyEdit(Manifest.Fresh(), Edit([(0, m)], [])) == VersionState(EmptyLevels()[0 := [m]], 2, [])
  {
    hide ApplyDeletes, ApplyAdds, SortByNumber;
    var v, e := Manifest.Fresh(), Edit([(0, m)], []);
    ApplyEditLevels(v, e);
    NothingDeleted(v);
    SingletonPrefix((0, m));
    forall l | 0 <= l < MaxLevel ensures ApplyEdit(v, e).levels[l] == EmptyLevels()[0 := [m]][l] {
      assert FilterOut(v.levels[l], DeletedAt(e.deleted, l)) == [];
      assert AddedAt([], l) == [] && AddedAt(e.added, l) == if l == 0 then [] + [m] else [];
      assert [] + [m] == [m] && [] + AddedAt(e.added, l) == EmptyLevels()[0 := [m]][l];
      SortIsIdentity(EmptyLevels()[0 := [m]][l]);
    }
  }

  lemma {:induction false} NothingDeleted(v: VersionState)
    requires |v.levels| == MaxLevel
    ensures ApplyDeletes(v, []) == v
  {
  }

  // An unreadable bound loses a later file: after a restart a good key, flushed and never deleted, is gone.
  lemma {:induction false} UnreadableBoundLosesLaterFile(ra: Record, rb: Record, kc: TsKey, vc: Bytes)
    returns (s: State, h: History, s': State)
    requires !Less(ra.key, ZeroKey) && Text.IsToken(ra.key.measurement)
    requires Unreadable(rb.key) && Manifest.OneLine(FileBound(rb.key).measurement)
    requires InDomain(kc) && kc != ra.key && kc != rb.key
    ensures Reachable(s, h) && Trusted(h, kc) && s.flush.NoFlush? && |s.version.levels| == MaxLevel
    ensures Get(s, kc) == Some(vc) == MapGet(h.writes, s.ttl, kc)
    ensures (forall dir :: Restart(s, s.wal, dir) == s') && |s'.version.levels| == MaxLevel && s'.disk == map[1 := [ra]]
    ensures Get(s', kc) == None
  {
    hide Inv, Reachable, Get, CopiesIn, Touch, FromZeroKey, Unreadable, FileBound, Manifest.OneLine, Text.IsToken,
         MapGet, Expired,
         InDomain, Less, Restart;
    var rc := Record(kc, Value(vc));
    s, h := ThreeFlushes(ra, rb, rc);
    ReachableIsGood(s, h);
    StoreRefinesMap(s, h, kc);
    LastOfThree(ra, rb, rc, s.ttl);
    s' := Restart(s, s.wal, []);
    RestartStops(s, ra, rb, []);
    forall dir ensures Restart(s, s.wal, dir) == s' {
      RestartStops(s, ra, rb, dir);
    }
    OneFileMisses(s', FileMeta(1, 0, ra.key, ra.key), kc);
  }

  lemma {:induction false} LastOfThree(ra: Record, rb: Record, rc: Record, ttl: TtlMap)
    requires rc.entry.Value? && ttl == Touch(Touch(Touch(map[], ra.key), rb.key), rc.key)
    ensures MapGet([ra] + [rb] + [rc], ttl, rc.key) == Some(rc.entry.value)
  {
    hide CopiesIn;
    CopiesInConcat([ra] + [rb], [rc], rc.key);
    CopiesOfSingleton(rc, rc.key);
  }

  lemma {:induction false} RestartStops(s: State, ra: Record, rb: Record, dir: seq<DirEntry>)
    requires s.wal == [] && Text.IsToken(ra.key.measurement)
    requires s.disk.Keys == {1, 2, 3} && s.disk[1] == [ra]
    requires Unreadable(rb.key) && Manifest.OneLine(FileBound(rb.key).measurement)
    requires var m1, m2 := FileMeta(1, 0, ra.key, ra.key), FileMeta(2, 0, FileBound(rb.key), FileBound(rb.key));
             exists more :: s.manifest == [LineAdd(0, m1), LineNext(2), LineAdd(0, m2)] + more
    ensures Restart(s, s.wal, dir) == Init(s.target).(
                                      version := VersionState(
                                        EmptyLevels()[0 := [FileMeta(1, 0, ra.key, ra.key)]], 2, []),
                                 readers := [1], disk := map[1 := [ra]], manifest := s.manifest)
  {
    hide FileBound, Manifest.OneLine, Text.IsToken, Manifest.ReadBounds, Manifest.PrintKey, Manifest.PrintAll,
         Manifest.RecoverText, Opened, AfterUsed, LiveFiles, AllNumbers, Replay, TouchAll, HasFile, Scan, DirNumbers;
    var m1, m2 := FileMeta(1, 0, ra.key, ra.key), FileMeta(2, 0, FileBound(rb.key), FileBound(rb.key));
    var more :| s.manifest == [LineAdd(0, m1), LineNext(2), LineAdd(0, m2)] + more;
    RecoveryStops(m1, m2, more);
    OneFileOpened(s, m1);
  }

  lemma {:induction false} OneFileOpened(s: State, m: FileMeta)
    requires m.number == 1 && s.disk.Keys == {1, 2, 3}
    ensures var levels := EmptyLevels()[0 := [m]]; HasFile(levels) && AllNumbers(levels) == [1]
    ensures Opened([1], s.disk) == [1] && AfterUsed(2, [1]) == 2 && LiveFiles(s.disk, [1]) == map[1 := s.disk[1]]
    ensures Replay([]) == [] && TouchAll(map[], []) == map[]
  {
    hide AllNumbers, HasFile;
    OneNumber(m);
    HasFileHasNumber(EmptyLevels()[0 := [m]]);
    SingletonPrefix(1);
    assert Opened([1], s.disk) == [1];
    assert LiveFiles(s.disk, [1]) == map[1 := s.disk[1]];
  }

  lemma {:induction false} OneNumber(m: FileMeta)
    ensures AllNumbers(EmptyLevels()[0 := [m]]) == [m.number]
  {
    var levels := EmptyLevels()[0 := [m]];
    SingletonPrefix(m);
    assert NumberList([m]) == [m.number];
    OnlyFirstLevel(levels, MaxLevel);
  }

  lemma {:induction false} OnlyFirstLevel(levels: Levels, n: nat)
    requires 1 <= n <= |levels| && forall l :: 1 <= l < |levels| ==> levels[l] == []
    ensures AllNumbers(levels[..n]) == NumberList(levels[0])
    ensures n == |levels| ==> AllNumbers(levels) == NumberList(levels[0])
  {
    assert levels[..n][..n - 1] == levels[..n - 1];
    if n == 1 {
      assert levels[..0] == [] && levels[..1][0] == levels[0];
      assert AllNumbers(levels[..1]) == [] + NumberList(levels[0]);
    } else {
      OnlyFirstLevel(levels, n - 1);
      assert NumberList([]) == [];
    }
    assert n == |levels| ==> levels[..n] == levels;
  }

  // A store of one file over one key finds no other key.
  lemma {:induction false} OneFileMisses(s: State, m: FileMeta, k: TsKey)
    requires s.mem == [] && s.imm.None? && k != m.smallest && m.smallest == m.largest
    requires s.version.levels == EmptyLevels()[0 := [m]]
    ensures |s.version.levels| == MaxLevel && Get(s, k) == None
  {
    hide Expired, Less, CopiesIn;
    SingletonPrefix(m);
    NoCopies(k);
    LessTotal(k, m.smallest);
    var files := Published([m], s.readers);
    assert Published([], s.readers) == [] && [] + [m] == [m];
    assert files == [] || files == [m];
    assert ViewOf(s) == EmptyLevels()[0 := files];
    assert GetFromLevel(s.disk, files, k) == None;
    NothingDeeper(s.disk, ViewOf(s), 1, k);
  }

  lemma {:induction false} NothingDeeper(disk: Disk, view: View, level: nat, k: TsKey)
    requires forall l :: level <= l < |view| ==> view[l] == []
    ensures GetFromLevels(disk, view, level, k) == None
    decreases |view| - level
  {
    if level < |view| {
      NothingDeeper(disk, view, level + 1, k);
    }
  }

  // ---------------------------------------------------------------- a scan that forgets levels

  lemma {:induction false} OneFileJob(levels: Levels, f: FileMeta)
    requires |levels| == MaxLevel && levels == EmptyLevels()[0 := [f]]
    ensures L0Job(levels, levels[0]).inputs == [Input(0, f)]
  {
    hide LowestKey, HighestKey;
    SingletonPrefix(f);
    assert InputsAt(0, [f]) == [Input(0, f)];
    assert InputsAt(1, []) + [Input(0, f)] == [Input(0, f)];
  }

  lemma {:induction false} OneKeptRecord(disk: Disk, m: FileMeta, r: Record, ttl: TtlMap)
    requires Content(disk, m.number) == [r] && Kept(ttl, r.key)
    ensures Merge(RankInputs(disk, [Input(0, m)], ttl)) == [r]
  {
    hide Kept;
    SingletonPrefix(r);
    SingletonPrefix(Input(0, m));
    SingletonPrefix(Ranked(r, 0));
    assert RankFile([r], ttl, 0) == [Ranked(r, 0)];
    assert RankInputs(disk, [Input(0, m)], ttl) == [Ranked(r, 0)];
    assert SortRanked([Ranked(r, 0)]) == [Ranked(r, 0)];
    assert Firsts([]) == [] && [] + [r] == [r];
  }

  // The job over the only input at the top of level 0 takes that input away.
  lemma {:induction false} FirstFileLeaves(s: State, m: FileMeta)
    requires Inv(s) && s.progress.Merging? && s.progress.job.inputs == [Input(0, m)]
    ensures |s.version.levels| == MaxLevel && |InstallJob(s).version.levels| == MaxLevel
    ensures |s.version.levels[0]| > 0 && InstallJob(s).version.levels[0] == s.version.levels[0][1..]
  {
    hide Merge, FlushOk, ManifestOk, FilesOk, LevelsOk, OutputsOk, InstallJob, Live, Aside, FilterOut;
    var levels := s.version.levels;
    var T, S :| JobShape(levels, s.progress.job, T, S);
    CommitKeepsLevels(s, T, S);
    InstallJobFields(s);
    var out := s.progress.job.outputLevel;
    assert |T| + |S| == 1 && |S| == 1;
    assert s.progress.job.inputs[0] == InputsAt(out - 1, S)[0];
  }

  // One file of one record, picked and merged.
  lemma {:induction false} MergedAlone(r: Record) returns (s: State, h: History, m: FileMeta)
    requires InDomain(r.key)
    ensures Reachable(s, h) && Settled(s) && s.progress.Merging? && s.progress.begin == 0 && s.progress.merged == [r]
    ensures s.progress.job.inputs == [Input(0, m)] && s.version.levels == EmptyLevels()[0 := [m]]
    ensures s.version.nextFile == 2 && s.disk == map[1 := [r]] && s.ttl == Touch(map[], r.key)
    ensures h.writes == [r] && h.lost == {}
  {
    hide Inv, Reachable, Touch, FromZeroKey, EditLines, MetaOf, Merge, RankInputs, L0Job, Less;
    InitReachable(0);
    InitIsQuiet(0);
    var s1, h1;
    s1, h1, m := FlushWrite(Init(0), NoHistory, r);
    OneRecordBounds(1, r);
    assert [] + [m] == [m];
    assert s1.version.levels == EmptyLevels()[0 := [m]];
    OneFileJob(s1.version.levels, m);
    var s2, h2 := PickAlone(s1, h1);
    StepReachable(s2, h2, DoMerge);
    s, h := MergeJob(s2), h2;
    UnexpiredAfterOneWrite(r);
    OneKeptRecord(s1.disk, m, r, s1.ttl);
    assert [] + [r] == [r];
  }

  // The merged record becomes the newest file, number 4, after two more files have been flushed.
  lemma {:induction false} OlderMovesDown(r1: Record, rb: Record, r3: Record) returns (s: State, h: History)
    requires InDomain(r1.key)
    ensures Reachable(s, h) && Inv(s) && Settled(s) && s.progress.Merging?
    ensures s.progress.begin == |s.progress.merged| && h.lost == {} && h.writes == [r1] + [rb] + [r3] && s.wal == []
    ensures s.ttl == Touch(Touch(Touch(map[], r1.key), rb.key), r3.key)
    ensures s.disk.Keys == {1, 2, 3, 4} && s.disk[4] == [r1] && forall n :: n in s.disk ==> |s.disk[n]| <= 1
    ensures |s.version.levels[0]| == 3 && s.progress.job.inputs == [Input(0, s.version.levels[0][0])]
    ensures s.version.levels[0][1] == FileMeta(2, 0, FileBound(rb.key), FileBound(rb.key))
  {
    hide Inv, Reachable, Touch, FromZeroKey, EditLines, MetaOf, Merge, RankInputs, L0Job, Less, FileBound;
    var s3, h3, m1 := MergedAlone(r1);
    var s4, h4, m2 := FlushWrite(s3, h3, rb);
    var s5, h5, m3 := FlushWrite(s4, h4, r3);
    OneRecordBounds(2, rb);
    OneRecordBounds(3, r3);
    NumberIs(2, FromZeroKey([rb]));
    NumberIs(3, FromZeroKey([r3]));
    s := EmitOne(s5, h5);
    h := h5;
    assert s.version.levels[0] == [m1, m2, m3];
  }

  lemma {:induction false} NumberIs(n: nat, run: seq<Record>)
    ensures MetaOf(n, 0, run).number == n
  {
  }

  // The only merged record is written to the only output.
  lemma {:induction false} EmitOne(s0: State, h: History) returns (s: State)
    requires Reachable(s0, h) && |s0.version.levels| == MaxLevel
    requires s0.progress.Merging? && s0.progress.begin == 0 && |s0.progress.merged| == 1
    ensures Reachable(s, h) && Inv(s) && s.progress.Merging? && s.progress.begin == |s.progress.merged|
    ensures s.progress.job == s0.progress.job && s.progress.merged == s0.progress.merged
    ensures s.version.levels == s0.version.levels
    ensures s.disk == s0.disk[s0.version.nextFile := s0.progress.merged]
    ensures s == s0.(version := s.version, disk := s.disk, progress := s.progress)
  {
    hide Inv, Reachable, SplitEnd, MetaOf;
    StepReachable(s0, h, DoEmit(0));
    s := EmitOutput(s0, 0);
    ReachableIsGood(s, h);
    assert s0.progress.merged[0..1] == s0.progress.merged;
  }

  // The snapshot of a version starts with the first file of level 0.
  lemma {:induction false} SnapshotFirst(levels: Levels)
    requires levels != [] && levels[0] != []
    ensures |SnapshotAdds(levels)| > 0 && SnapshotAdds(levels)[0] == (0, levels[0][0])
  {
    var n := |levels| - 1;
    if n == 0 {
      assert SnapshotAdds(levels[..0]) == [];
    } else {
      SnapshotFirst(levels[..n]);
    }
  }

  lemma {:induction false} UnreadableSnapshot(levels: Levels, next: nat, m: FileMeta)
    requires |levels| == MaxLevel && levels[0] != [] && levels[0][0] == m
    requires m.number <= Manifest.MaxUint64 && m.size <= Manifest.MaxUint64
    requires Manifest.OneLine(m.smallest.measurement) && Manifest.OneLine(m.largest.measurement)
    requires Manifest.ReadBounds(Manifest.PrintKey(m.smallest) + Manifest.PrintKey(m.largest)) == None
    ensures !NamesFile(SnapshotLines(levels, next))
  {
    hide Manifest.Print, Manifest.ReadBounds, Manifest.PrintKey, Manifest.OneLine, Manifest.Rejected, AddLines,
         SnapshotAdds, HasFile, Manifest.ReadText, Manifest.PrintAll;
    var lines := SnapshotLines(levels, next);
    SnapshotFirst(levels);
    Manifest.AddLinesAre(SnapshotAdds(levels));
    var bad := LineAdd(0, m);
    assert lines[0] == bad && lines == ([] + [bad]) + lines[1..];
    Manifest.RejectedExactlyWhen(0, m);
    Manifest.PrintAllConcat([] + [bad], lines[1..]);
    Manifest.RejectedLineHidesRest([], bad, Manifest.PrintAll(lines[1..]));
    Manifest.FreshHasNone();
  }

  // Of files 1 to 4 in level 0, reads find the record of file 4.
  lemma {:induction false} NewestFileAnswers(s: State, r: Record)
    requires |s.version.levels| == MaxLevel && Numbers(s.version.levels[0]) == {1, 2, 3, 4}
    requires Ascending(s.version.levels[0]) && s.disk.Keys == {1, 2, 3, 4} && s.disk[4] == [r] && r.entry.Value?
    requires forall f :: f in s.version.levels[0] ==> MetaOk(s.disk, f) && f.number in s.readers
    requires s.mem == [] && s.imm.None? && !Expired(s.ttl, r.key)
    ensures Get(s, r.key) == Some(r.entry.value)
  {
    hide Expired, Less, Sorted;
    var files := s.version.levels[0];
    assert 4 in Numbers(files);
    var f :| f in files && f.number == 4;
    LastIsHighest(files, f);
    AllPublished(files, s.readers);
    assert ViewOf(s)[0] == files;
    LastFileAnswers(s.disk, files, r);
  }

  lemma {:induction false} LastFileAnswers(disk: Disk, files: seq<FileMeta>, r: Record)
    requires files != [] && MetaOk(disk, files[|files| - 1]) && disk[files[|files| - 1].number] == [r]
    ensures GetFromLevel(disk, files, r.key) == Some(r.entry)
  {
    hide Less, Sorted;
    SingletonPrefix(r);
    LessTotal(r.key, r.key);
    assert Find([r], r.key) == Some(r.entry);
  }

  lemma {:induction false} LastIsHighest(files: seq<FileMeta>, f: FileMeta)
    requires Ascending(files) && f in files && forall g :: g in files ==> g.number <= f.number
    ensures files[|files| - 1] == f
  {
    var i :| 0 <= i < |files| && files[i] == f;
    assert files[|files| - 1] in files;
  }

  lemma {:induction false} AllPublished(files: seq<FileMeta>, readers: seq<nat>)
    requires forall f :: f in files ==> f.number in readers
    ensures Published(files, readers) == files
  {
    if files != [] {
      var n := |files| - 1;
      AllPublished(files[..n], readers);
      assert files == files[..n] + [files[n]];
    }
  }

  // The scanned files answer for the disk.
  lemma {:induction false} ScannedStore(s: State, records: seq<Record>, dir: seq<DirEntry>)
    requires !NamesFile(s.manifest) && Lists(dir, s.disk) && forall n :: n in s.disk ==> |s.disk[n]| <= 1
    ensures var s' := Restart(s, records, dir);
            && |s'.version.levels| == MaxLevel && Ascending(s'.version.levels[0])
            && Numbers(s'.version.levels[0]) == s.disk.Keys && s'.disk == s.disk
            && forall f :: f in s'.version.levels[0] ==> MetaOk(s'.disk, f) && f.number in s'.readers
  {
    hide Manifest.PrintAll, Manifest.RecoverText, Scan, Replay, TouchAll, LevelsSorted, HasFile, MinKey, MaxKey,
         DirNumbers, SnapshotLines;
    var v := Manifest.RecoverText(Manifest.PrintAll(s.manifest));
    NoFileIsEmpty(v.levels);
    ScanLevels(v, s.disk, dir);
    var files := Scan(v, s.disk, dir).levels[0];
    ScannedNumbers(s.disk, dir, files);
    forall f | f in files ensures MetaOk(s.disk, f) && f.number in DirNumbers(dir) {
      var e :| e in dir && f == EntryMeta(s.disk, e);
      InDirNumbers(dir, e);
    }
  }

  lemma {:induction false} InDirNumbers(dir: seq<DirEntry>, e: DirEntry)
    requires e in dir
    ensures e.number in DirNumbers(dir)
  {
    var n := |dir| - 1;
    if e in dir[..n] {
      InDirNumbers(dir[..n], e);
    }
  }

  // The snapshot starts with an unreadable file, so opening scans the directory: a compacted file, numbered after a
  // newer flush, comes to lie above it in level 0, and the older value is back.
  lemma {:induction false} ScanBringsBackOlder(k: TsKey, v1: Bytes, v2: Bytes, rb: Record)
    returns (s: State, h: History)
    requires InDomain(k) && rb.key != k
    requires Unreadable(rb.key) && Manifest.OneLine(FileBound(rb.key).measurement)
    ensures Reachable(s, h) && Trusted(h, k) && s.flush.NoFlush? && |s.version.levels| == MaxLevel
    ensures Get(s, k) == Some(v2) == MapGet(h.writes, s.ttl, k)
    ensures forall dir :: Lists(dir, s.disk) ==>
                            |Restart(s, s.wal, dir).version.levels| == MaxLevel
                            && Get(Restart(s, s.wal, dir), k) == Some(v1)
  {
    hide Inv, Reachable, Get, CopiesIn, Touch, Unreadable, FileBound, Manifest.OneLine, MapGet, Expired, InDomain, Less,
         Restart, CommitJob, InstallJob, Lists, NamesFile, SnapshotLines, MetaOk, Ascending;
    var r1, r3 := Record(k, Value(v1)), Record(k, Value(v2));
    var s6, h6 := OlderMovesDown(r1, rb, r3);
    SevenLevels(s6);
    StepReachable(s6, h6, DoCommitJob(false));
    var s7 := CommitJob(s6, false);
    CommittedAtTop(s6);
    StepReachable(s7, h6, DoWriteSnapshot);
    s, h := WriteSnapshot(s7), h6;
    ReachableIsGood(s, h);
    StoreRefinesMap(s, h, k);
    LastOfThree(r1, rb, r3, s.ttl);
    var m := FileMeta(2, 0, FileBound(rb.key), FileBound(rb.key));
    UnreadableBounds(rb.key);
    UnreadableSnapshot(s.version.levels, s.version.nextFile, m);
    forall dir | Lists(dir, s.disk)
      ensures |Restart(s, s.wal, dir).version.levels| == MaxLevel && Get(Restart(s, s.wal, dir), k) == Some(v1)
    {
      ScannedStore(s, s.wal, dir);
      EmptyLogRestart(s, dir, k);
      NewestFileAnswers(Restart(s, s.wal, dir), r1);
    }
  }

  lemma {:induction false} UnreadableBounds(k: TsKey)
    requires Unreadable(k)
    ensures Manifest.ReadBounds(Manifest.PrintKey(FileBound(k)) + Manifest.PrintKey(FileBound(k))) == None
  {
    hide Manifest.ReadBounds, Manifest.PrintKey, FileBound;
  }

  lemma {:induction false} CommittedAtTop(s: State)
    requires Inv(s) && s.progress.Merging? && |s.version.levels| == MaxLevel && |s.version.levels[0]| == 3
    requires s.progress.job.inputs == [Input(0, s.version.levels[0][0])]
    ensures var s' := CommitJob(s, false);
            && |s'.version.levels| == MaxLevel && |s'.version.levels[0]| == 2
            && s'.version.levels[0][0] == s.version.levels[0][1] && s'.disk == s.disk && s'.wal == s.wal
            && s'.ttl == s.ttl && s'.flush == s.flush
  {
    hide Inv, InstallJob, InputNumbers, CommitJob;
    FirstFileLeaves(s, s.version.levels[0][0]);
    CommitJobShape(s, false);
    InstallJobFields(s);
  }

  lemma {:induction false} EmptyLogRestart(s: State, dir: seq<DirEntry>, k: TsKey)
    requires s.wal == []
    ensures var s' := Restart(s, s.wal, dir); s'.mem == [] && s'.imm.None? && !Expired(s'.ttl, k)
  {
    hide Scan, Opened, AfterUsed, LiveFiles, AllNumbers, Manifest.RecoverText, Manifest.PrintAll, HasFile,
         SnapshotLines, DirNumbers;
  }
}
