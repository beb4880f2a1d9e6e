// The level invariant and the life cycle of files over every run; compaction scheduling and termination.
module LsmSafety {
  import opened Types
  import opened Version
  import opened RankedMerge
  import opened Lsm
  import opened LsmInvariant
  import opened LsmSteps
  import opened LsmCommits
  import opened LsmRetire
  import opened LsmMerge
  import opened LsmHistory
  import opened LsmReads
  import opened LsmRuns

  // ---------------------------------------------------------------- the level invariant

  // Every reachable version: levels sorted by file number, numbers used once, bounds exactly the end keys
  // of the file, level-1 files disjoint, no empty file below level 0.
  lemma {:induction false} LevelInvariant(s: State, h: History)
    requires Reachable(s, h)
    ensures |s.version.levels| == MaxLevel
    ensures forall l, i, j :: 0 <= l < MaxLevel && 0 <= i < j < |s.version.levels[l]|
              ==> s.version.levels[l][i].number < s.version.levels[l][j].number
    ensures forall l, m :: 0 <= l < m < MaxLevel ==> Numbers(s.version.levels[l]) !! Numbers(s.version.levels[m])
    ensures forall l, f :: 0 <= l < MaxLevel && f in s.version.levels[l] ==>
              f.number in s.disk && Sorted(s.disk[f.number]) && (l > 0 ==> s.disk[f.number] != [])
              && f.smallest == MinKey(s.disk[f.number]) && f.largest == MaxKey(s.disk[f.number])
    ensures forall i, j :: 0 <= i < j < |s.version.levels[1]| ==>
              var f, g := s.version.levels[1][i], s.version.levels[1][j];
              Less(f.largest, g.smallest) || Less(g.largest, f.smallest)
  {
    hide Reachable, InWriteOrder, HoldsLastWrites, LogCovers, ProgressOk, FlushOk, ManifestOk, FilesOk, Less;
    ReachableIsGood(s, h);
    assert forall l :: 0 <= l < MaxLevel ==> Ascending(s.version.levels[l]);
  }

  // ---------------------------------------------------------------- files

  // One compaction job at most, with exactly its inputs marked; its commit check cannot fail; reads see every
  // file of the version; and the version, the views and the unfinished outputs find their files on disk.
  lemma {:induction false} FilesAreSafe(s: State, h: History)
    requires Reachable(s, h)
    ensures |s.version.levels| == MaxLevel
    ensures s.progress == Idle ==> s.compacting == {}
    ensures s.progress != Idle ==> s.compacting == InputNumbers(s.progress.job.inputs)
                                   && InputsValid(s.version.levels, s.progress.job.inputs)
    ensures ViewOf(s) == s.version.levels
    ensures Live(s.version.levels) + Held(s.views) + Reserved(s) <= s.disk.Keys
    ensures forall p :: p in s.pending ==> p.number !in Live(s.version.levels) + Reserved(s)
  {
    hide Reachable, InWriteOrder, HoldsLastWrites, LogCovers, LevelsOk, FlushOk, ManifestOk, OutputsOk, InputsValid,
         ViewOf, Live, Held;
    ReachableIsGood(s, h);
    ViewIsVersion(s);
    if s.progress != Idle {
      InputsStayValid(s);
    }
    forall p | p in s.pending ensures p.number !in Live(s.version.levels) + Reserved(s) {
      assert p.number in PendingNumbers(s.pending);
    }
  }

  // The files that must outlive a, by the state after it and the views before and after it.
  function Needed(s: State, s': State): set<nat> {
    Live(s'.version.levels) + Held(s.views) + Held(s'.views)
  }

  lemma {:induction false} TryDeleteSpares(s: State, n: nat)
    requires Inv(s) && n in Live(s.version.levels) + Held(s.views)
    ensures n in TryDelete(s).disk && Content(TryDelete(s).disk, n) == Content(s.disk, n)
  {
    hide LevelsOk, ProgressOk, FlushOk, ManifestOk, Live, Held, Deletable, StillPending;
    TryDeleteIsSafe(s);
  }

  lemma {:induction false} CleanupSpares(s: State, n: nat)
    requires Inv(s) && n in Live(s.version.levels) + Held(s.views)
    ensures n in Cleanup(s).disk && Content(Cleanup(s).disk, n) == Content(s.disk, n)
  {
    hide LevelsOk, ProgressOk, FlushOk, ManifestOk, LifeCycle, Live, Held, MoveObsolete;
    var (r, p) := MoveObsolete(s.readers, s.pending, s.version.obsolete);
    var s' := s.(version := s.version.(obsolete := []), readers := r, pending := p);
    RetireKeepsFiles(s);
    SameDisk(s);
    DiskStep(s, s');
    assert ManifestOk(s') by { ManifestLevels(s, s'); }
    TryDeleteSpares(s', n);
  }

  lemma {:induction false} CommitSpares(s: State, cleanup: bool, n: nat)
    requires Inv(s) && s.progress.Merging?
    requires n in Live(InstallJob(s).version.levels) + Held(s.views)
    ensures |s.version.levels| == MaxLevel
    ensures n in CommitJob(s, cleanup).disk && Content(CommitJob(s, cleanup).disk, n) == Content(s.disk, n)
  {
    hide LevelsOk, ProgressOk, FlushOk, ManifestOk, LifeCycle, Live, Held, Cleanup, InstallJob;
    CommitJobShape(s, cleanup);
    InstallJobFields(s);
    var x := FinishJob(InstallJob(s), s.progress.job);
    if cleanup {
      CleanupSpares(x, n);
    } else {
      OnDisk(x, n);
    }
  }

  lemma {:induction false} OnDisk(s: State, n: nat)
    requires Inv(s) && n in Live(s.version.levels) + Held(s.views)
    ensures n in s.disk
  {
    hide LevelsOk, ProgressOk, FlushOk, ManifestOk, Live, Held;
  }

  // No action removes or rewrites a file that the version holds afterwards or that a captured view reads.
  lemma {:induction false} NothingInUseIsRemoved(s: State, h: History, a: Action, n: nat)
    requires Reachable(s, h) && |s.version.levels| == MaxLevel && Enabled(s, a) && !a.DoReopen?
    requires n in Needed(s, Next(s, a)) && n in s.disk
    ensures n in Next(s, a).disk && Content(Next(s, a).disk, n) == Content(s.disk, n)
  {
    hide Reachable, InWriteOrder, HoldsLastWrites, LogCovers, LevelsOk, ProgressOk, FlushOk, ManifestOk, Live, Held,
         Cleanup, TryDelete,
      CommitJob, PickJob, InstallFlush, ViewOf;
    ReachableIsGood(s, h);
    match a {
      case DoTryDelete => TryDeleteFields(s); TryDeleteSpares(s, n);
      case DoCleanup => CleanupVersion(s); CleanupSpares(s, n);
      case DoCommitJob(cleanup) => CommitJobFields(s, cleanup); CommitJobViews(s, cleanup); CommitSpares(s, cleanup, n);
      case DoCommitFlush => CommitFlushFields(s);
      case DoBuildFlush(size) => NewFileIsFresh(s, []);
      case DoEmit(size) => NewFileIsFresh(s, []);
      case _ =>
    }
  }

  // A captured view keeps giving the same answers from its files, whatever the engine does meanwhile.
  lemma {:induction false} ViewKeepsAnswering(s: State, h: History, a: Action, v: View, k: TsKey)
    requires Reachable(s, h) && |s.version.levels| == MaxLevel && Enabled(s, a) && !a.DoReopen?
    requires v in s.views && v in Next(s, a).views
    ensures GetFromLevels(Next(s, a).disk, v, 0, k) == GetFromLevels(s.disk, v, 0, k)
  {
    hide Reachable, Enabled, Next, GetFromLevels, Live, ViewOf, InputsValid;
    FilesAreSafe(s, h);
    forall files, f | files in v && f in files ensures Content(Next(s, a).disk, f.number) == Content(s.disk, f.number) {
      assert f.number in Held(s.views) && f.number in Held(Next(s, a).views);
      NothingInUseIsRemoved(s, h, a, f.number);
    }
    SameAnswers(s.disk, Next(s, a).disk, v, 0, k);
  }

  lemma {:induction false} SameAnswers(disk: Disk, disk': Disk, v: View, level: nat, k: TsKey)
    requires forall files, f :: files in v && f in files ==> Content(disk', f.number) == Content(disk, f.number)
    ensures GetFromLevels(disk', v, level, k) == GetFromLevels(disk, v, level, k)
    decreases |v| - level
  {
    hide Content, GetFromLevel;
    if level < |v| {
      SameAnswersInLevel(disk, disk', v[level], k);
      SameAnswers(disk, disk', v, level + 1, k);
    }
  }

  lemma {:induction false} SameAnswersInLevel(disk: Disk, disk': Disk, files: seq<FileMeta>, k: TsKey)
    requires forall f :: f in files ==> Content(disk', f.number) == Content(disk, f.number)
    ensures GetFromLevel(disk', files, k) == GetFromLevel(disk, files, k)
  {
    hide Content, Find, Less;
    if files != [] {
      SameAnswersInLevel(disk, disk', files[..|files| - 1], k);
    }
  }

  lemma {:induction false} TryDeleteFields(s: State)
    ensures TryDelete(s).views == s.views && TryDelete(s).version == s.version
  {
  }

  lemma {:induction false} CleanupVersion(s: State)
    ensures Cleanup(s).views == s.views && Cleanup(s).version.levels == s.version.levels
  {
    hide MoveObsolete;
  }

  lemma {:induction false} CommitJobViews(s: State, cleanup: bool)
    requires Inv(s) && s.progress.Merging?
    ensures |s.version.levels| == MaxLevel && CommitJob(s, cleanup).views == s.views
  {
    hide LevelsOk, ProgressOk, FlushOk, ManifestOk, FilesOk, InstallJob, Cleanup;
    CommitJobShape(s, cleanup);
    InstallJobFields(s);
    CleanupVersion(FinishJob(InstallJob(s), s.progress.job));
  }

  // ---------------------------------------------------------------- scheduling

  lemma {:induction false} OversizedIsPicked(levels: Levels, level: nat)
    requires |levels| == MaxLevel && level <= MaxLevel - 1
    ensures SomeOversized(levels, level) <==> PickLevelJob(levels, level).Some?
    ensures PickLevelJob(levels, level).Some? ==> PickLevelJob(levels, level).value.inputs != []
    decreases MaxLevel - level
  {
    if level < MaxLevel - 1 {
      if Oversized(levels, level) {
        assert levels[level] != [];
      } else {
        OversizedIsPicked(levels, level + 1);
      }
    }
  }

  // A compaction is scheduled exactly when the picker finds work, and the work is never empty.
  lemma {:induction false} ScheduledExactlyWhenPicked(s: State)
    requires |s.version.levels| == MaxLevel
    ensures ShouldSchedule(s) <==> PickJob(s, false).Some?
    ensures PickJob(s, false).Some? ==> PickJob(s, false).value.inputs != []
  {
    OversizedIsPicked(s.version.levels, 1);
  }

  // ---------------------------------------------------------------- termination

  // Each stored record counts once for every level it can still sink, each level-0 file once.
  function WeightFrom(disk: Disk, levels: Levels, l: nat): nat
    requires |levels| == MaxLevel
    decreases MaxLevel - l
  {
    if l >= MaxLevel then 0 else (MaxLevel - l) * Records(disk, levels[l]) + WeightFrom(disk, levels, l + 1)
  }

  function WeightTo(disk: Disk, levels: Levels, l: nat): nat
    requires |levels| == MaxLevel && l <= MaxLevel
  {
    if l == 0 then 0 else WeightTo(disk, levels, l - 1) + (MaxLevel - (l - 1)) * Records(disk, levels[l - 1])
  }

  function Weight(s: State): nat
    requires |s.version.levels| == MaxLevel
  {
    WeightFrom(s.disk, s.version.levels, 0) + |s.version.levels[0]|
  }

  lemma {:induction false} WeightSplit(disk: Disk, levels: Levels, l: nat)
    requires |levels| == MaxLevel && l <= MaxLevel
    ensures WeightFrom(disk, levels, 0) == WeightTo(disk, levels, l) + WeightFrom(disk, levels, l)
  {
    if l > 0 {
      WeightSplit(disk, levels, l - 1);
    }
  }

  lemma {:induction false} WeightFromSame(disk: Disk, levels: Levels, levels': Levels, l: nat)
    requires |levels| == MaxLevel && |levels'| == MaxLevel && forall i :: l <= i < MaxLevel ==> levels[i] == levels'[i]
    ensures WeightFrom(disk, levels, l) == WeightFrom(disk, levels', l)
    decreases MaxLevel - l
  {
    if l < MaxLevel {
      WeightFromSame(disk, levels, levels', l + 1);
    }
  }

  lemma {:induction false} WeightToSame(disk: Disk, levels: Levels, levels': Levels, l: nat)
    requires |levels| == MaxLevel && |levels'| == MaxLevel && l <= MaxLevel
             && forall i :: 0 <= i < l ==> levels[i] == levels'[i]
    ensures WeightTo(disk, levels, l) == WeightTo(disk, levels', l)
  {
    if l > 0 {
      WeightToSame(disk, levels, levels', l - 1);
    }
  }

  lemma {:induction false} RecordsConcat(disk: Disk, a: seq<FileMeta>, b: seq<FileMeta>)
    ensures Records(disk, a + b) == Records(disk, a) + Records(disk, b)
  {
    if b == [] {
      assert a + b == a;
    } else {
      RecordsConcat(disk, a, b[..|b| - 1]);
      assert (a + b)[..|a + b| - 1] == a + b[..|b| - 1];
    }
  }

  lemma {:induction false} RecordsSameContent(disk: Disk, disk': Disk, files: seq<FileMeta>)
    requires forall f :: f in files ==> Content(disk, f.number) == Content(disk', f.number)
    ensures Records(disk, files) == Records(disk', files)
  {
    if files != [] {
      RecordsSameContent(disk, disk', files[..|files| - 1]);
    }
  }

  lemma {:induction false} WeightSameContent(disk: Disk, disk': Disk, levels: Levels, l: nat)
    requires |levels| == MaxLevel
    requires forall n :: n in Live(levels) ==> Content(disk, n) == Content(disk', n)
    ensures WeightFrom(disk, levels, l) == WeightFrom(disk', levels, l)
    decreases MaxLevel - l
  {
    if l < MaxLevel {
      WeightSameContent(disk, disk', levels, l + 1);
      forall f | f in levels[l] ensures Content(disk, f.number) == Content(disk', f.number) {
        assert f.number in Live(levels);
      }
      RecordsSameContent(disk, disk', levels[l]);
    }
  }

  lemma {:induction false} RecordsAppend(disk: Disk, files: seq<FileMeta>, f: FileMeta)
    ensures Records(disk, files + [f]) == Records(disk, files) + |Content(disk, f.number)|
  {
    assert (files + [f])[..|files|] == files;
  }

  lemma {:induction false} RecordsPartition(disk: Disk, files: seq<FileMeta>, gone: set<nat>)
    ensures Records(disk, files) == Records(disk, FilterOut(files, gone))
            + Records(disk, FilterOut(files, Numbers(files) - gone))
  {
    RecordsPartitionAll(disk, files, gone, Numbers(files) - gone);
  }

  lemma {:induction false} RecordsPartitionAll(disk: Disk, files: seq<FileMeta>, gone: set<nat>, others: set<nat>)
    requires forall f :: f in files ==> (f.number in gone <==> f.number !in others)
    ensures Records(disk, files) == Records(disk, FilterOut(files, gone)) + Records(disk, FilterOut(files, others))
  {
    if files != [] {
      var n := |files| - 1;
      RecordsPartitionAll(disk, files[..n], gone, others);
      if files[n].number in gone {
        RecordsAppend(disk, FilterOut(files[..n], others), files[n]);
      } else {
        RecordsAppend(disk, FilterOut(files[..n], gone), files[n]);
      }
    }
  }

  // ---------------------------------------------------------------- merging adds no record

  lemma {:induction false} RankFileShrinks(run: seq<Record>, ttl: TtlMap, age: int)
    ensures |RankFile(run, ttl, age)| <= |run|
  {
    if run != [] {
      RankFileShrinks(run[..|run| - 1], ttl, age);
    }
  }

  lemma {:induction false} RankInputsShrinks(disk: Disk, inputs: seq<Input>, files: seq<FileMeta>, ttl: TtlMap)
    requires |files| == |inputs| && forall i :: 0 <= i < |inputs| ==> inputs[i].meta == files[i]
    ensures |RankInputs(disk, inputs, ttl)| <= Records(disk, files)
  {
    if inputs != [] {
      var n := |inputs| - 1;
      RankInputsShrinks(disk, inputs[..n], files[..n], ttl);
      RankFileShrinks(Content(disk, inputs[n].meta.number), ttl, -n);
    }
  }

  lemma {:induction false} FirstsShrinks(s: seq<Ranked>)
    ensures |Firsts(s)| <= |s|
  {
    if s != [] {
      FirstsShrinks(s[..|s| - 1]);
    }
  }

  lemma {:induction false} MergeShrinks(disk: Disk, inputs: seq<Input>, files: seq<FileMeta>, ttl: TtlMap)
    requires |files| == |inputs| && forall i :: 0 <= i < |inputs| ==> inputs[i].meta == files[i]
    ensures |Merge(RankInputs(disk, inputs, ttl))| <= Records(disk, files)
  {
    RankInputsShrinks(disk, inputs, files, ttl);
    SortOrdered(RankInputs(disk, inputs, ttl));
    FirstsShrinks(SortRanked(RankInputs(disk, inputs, ttl)));
  }

  lemma {:induction false} OutputsShrink(s: State, T: seq<FileMeta>, S: seq<FileMeta>)
    requires |s.version.levels| == MaxLevel && LevelsOk(s.version.levels, s.disk, s.version.nextFile)
    requires s.progress.Merging? && OutputsOk(s) && s.progress.begin == |s.progress.merged|
    requires JobShape(s.version.levels, s.progress.job, T, S)
    ensures Records(s.disk, s.progress.outputs) <= Records(s.disk, T) + Records(s.disk, S)
  {
    hide LevelsOk, JobShape, Merge, RankInputs, Records;
    var p := s.progress;
    JobInputsSorted(s.version.levels, s.disk, s.version.nextFile, p.job, T, S);
    MergeShrinks(s.disk, p.job.inputs, T + S, p.ttl);
    RecordsConcat(s.disk, T, S);
    TilesRecords(s.disk, p.outputs, p.merged, p.begin);
  }

  lemma {:induction false} TilesRecords(disk: Disk, outputs: seq<FileMeta>, merged: seq<Record>, end: nat)
    requires Tiles(disk, outputs, merged, end)
    ensures Records(disk, outputs) == end
  {
    if outputs != [] {
      TileAt(disk, outputs, merged, end, 0);
    }
  }

  // ---------------------------------------------------------------- each commit makes the store lighter

  // What the records of two adjacent levels weigh, the lower one depth levels above the last.
  function Two(depth: nat, upper: nat, lower: nat): nat {
    (depth + 1) * upper + depth * lower
  }

  lemma {:induction false} SinkingIsLighter(depth: nat, rOut: nat, rSrc: nat, t: nat, sunk: nat, made: nat)
    requires t <= rOut && sunk <= rSrc && made <= t + sunk
    ensures Two(depth, rSrc - sunk, rOut - t + made) + sunk <= Two(depth, rSrc, rOut)
  {
    assert depth * (rOut - t + made) == depth * rOut + depth * (made - t);
    assert (depth + 1) * (rSrc - sunk) == (depth + 1) * rSrc - depth * sunk - sunk;
    assert depth * (made - t) <= depth * sunk;
  }

  lemma {:induction false} InstallLighter(levels: Levels, levels': Levels, disk: Disk, job: Job, T: seq<FileMeta>,
                                          S: seq<FileMeta>, outputs: seq<FileMeta>)
    requires |levels| == MaxLevel && |levels'| == MaxLevel && JobShape(levels, job, T, S)
    requires JobInstalled(levels, levels', job, T, S, outputs)
    requires Records(disk, outputs) <= Records(disk, T) + Records(disk, S)
    ensures WeightFrom(disk, levels', 0) + Records(disk, S) <= WeightFrom(disk, levels, 0)
  {
    hide Records, Aside, FilterOut, WeightFrom, WeightTo, Two;
    var out := job.outputLevel;
    var newer := levels[out - 1][|S|..];
    assert levels[out - 1] == S + newer;
    RecordsConcat(disk, S, newer);
    RecordsConcat(disk, FilterOut(levels[out], Numbers(T)), outputs);
    RecordsPartition(disk, levels[out], Numbers(T));
    WeightSplit(disk, levels, out - 1);
    WeightSplit(disk, levels', out - 1);
    WeightToSame(disk, levels, levels', out - 1);
    WeightFromSame(disk, levels, levels', out + 1);
    WeightTwo(disk, levels, out);
    WeightTwo(disk, levels', out);
    SinkingIsLighter(MaxLevel - out, Records(disk, levels[out]), Records(disk, levels[out - 1]), Records(disk, T),
                     Records(disk, S), Records(disk, outputs));
  }

  lemma {:induction false} WeightTwo(disk: Disk, levels: Levels, out: nat)
    requires |levels| == MaxLevel && 1 <= out < MaxLevel
    ensures WeightFrom(disk, levels, out - 1) ==
            Two(MaxLevel - out, Records(disk, levels[out - 1]), Records(disk, levels[out]))
              + WeightFrom(disk, levels, out + 1)
  {
    hide Records;
  }

  lemma {:induction false} SourcesWeigh(levels: Levels, disk: Disk, next: nat, job: Job, T: seq<FileMeta>,
                                        S: seq<FileMeta>)
    requires LevelsOk(levels, disk, next) && JobShape(levels, job, T, S)
    ensures job.outputLevel == 1 || Records(disk, S) > 0
  {
    hide NumbersUnique, PairwiseDisjoint, Ascending, Aside, FilterOut, Sorted;
    TargetsInLevel(levels, job, T, S);
    var n := |S| - 1;
    assert S[n] in levels[job.outputLevel - 1];
    if job.outputLevel > 1 {
      assert disk[S[n].number] != [];
    }
  }

  // The commit of a compaction strictly decreases the weight.
  lemma {:induction false} CommitLighter(s: State, cleanup: bool)
    requires Inv(s) && s.progress.Merging? && s.progress.begin == |s.progress.merged|
    ensures |s.version.levels| == MaxLevel && |CommitJob(s, cleanup).version.levels| == MaxLevel
    ensures Weight(CommitJob(s, cleanup)) < Weight(s)
  {
    hide LevelsOk, JobShape, JobInstalled, OutputsOk, FlushOk, ManifestOk, LifeCycle, InstallJob, CommitJob, Live,
         WeightFrom, Records;
    var T, S :| JobShape(s.version.levels, s.progress.job, T, S);
    var s', x := CommitJob(s, cleanup), InstallJob(s);
    CommitJobFields(s, cleanup);
    InstallJobFields(s);
    CommitKeepsLevels(s, T, S);
    OutputsShrink(s, T, S);
    InstallLighter(s.version.levels, x.version.levels, s.disk, s.progress.job, T, S, s.progress.outputs);
    WeightSameContent(s.disk, s'.disk, x.version.levels, 0);
    SourcesWeigh(s.version.levels, s.disk, s.version.nextFile, s.progress.job, T, S);
    LevelZeroShrinks(s.version.levels, x.version.levels, s.progress.job, T, S, s.progress.outputs);
  }

  lemma {:induction false} LevelZeroShrinks(levels: Levels, levels': Levels, job: Job, T: seq<FileMeta>,
                                            S: seq<FileMeta>, outputs: seq<FileMeta>)
    requires |levels| == MaxLevel && |levels'| == MaxLevel && JobShape(levels, job, T, S)
    requires JobInstalled(levels, levels', job, T, S, outputs)
    ensures |levels'[0]| <= |levels[0]| && (job.outputLevel == 1 ==> |levels'[0]| < |levels[0]|)
  {
    hide Aside, FilterOut;
  }

  // Only a flush commit makes the store heavier.
  lemma {:induction false} OthersKeepWeight(s: State, a: Action)
    requires Inv(s) && |s.version.levels| == MaxLevel && Enabled(s, a) && !a.DoCommitFlush? && !a.DoCommitJob?
    ensures |Next(s, a).version.levels| == MaxLevel && Weight(Next(s, a)) == Weight(s)
  {
    hide LevelsOk, ProgressOk, FlushOk, ManifestOk, FilesOk, Live, WeightFrom, PickJob, Cleanup, TryDelete, Reopen;
    if a.DoReopen? {
      ReopenFiles(s);
      WeightSameContent(s.disk, Reopen(s).disk, s.version.levels, 0);
    } else if !(a.DoPut? || a.DoLogBatch? || a.DoApplyFromBatch? || a.DoSetTtl? || a.DoSeal? || a.DoBeginFlush?) {
      ContentKept(s, a);
      WeightSameContent(s.disk, Next(s, a).disk, s.version.levels, 0);
    }
  }

  function Commits(actions: seq<Action>): nat {
    if actions == [] then 0 else
      Commits(actions[..|actions| - 1]) + (if actions[|actions| - 1].DoCommitJob? then 1 else 0)
  }

  // Without new flushes compaction ends: any run of the other actions holds at most Weight commits.
  lemma {:induction false} CompactionTerminates(states: seq<State>, actions: seq<Action>)
    requires |states| == |actions| + 1 && Inv(states[0])
    requires forall i :: 0 <= i < |actions| ==>
               |states[i].version.levels| == MaxLevel && Enabled(states[i], actions[i])
                 && states[i + 1] == Next(states[i], actions[i])
    requires forall i :: 0 <= i < |actions| ==> !actions[i].DoCommitFlush?
    ensures |states[0].version.levels| == MaxLevel && Inv(states[|actions|])
            && |states[|actions|].version.levels| == MaxLevel
    ensures Commits(actions) + Weight(states[|actions|]) <= Weight(states[0])
  {
    hide Inv, Enabled, Next, Weight;
    SevenLevels(states[0]);
    if actions != [] {
      var n := |actions| - 1;
      CompactionTerminates(states[..n + 1], actions[..n]);
      assert states[..n + 1][n] == states[n];
      NextKeepsInv(states[n], actions[n]);
      SevenLevels(states[n + 1]);
      StepWeight(states[n], actions[n]);
    }
  }

  lemma {:induction false} StepWeight(s: State, a: Action)
    requires Inv(s) && |s.version.levels| == MaxLevel && Enabled(s, a) && !a.DoCommitFlush?
    ensures |Next(s, a).version.levels| == MaxLevel
    ensures (if a.DoCommitJob? then 1 else 0) + Weight(Next(s, a)) <= Weight(s)
  {
    hide Inv, Weight, CommitJob, PickJob, Cleanup, TryDelete, Reopen;
    if a.DoCommitJob? {
      CommitLighter(s, a.cleanup);
    } else {
      OthersKeepWeight(s, a);
    }
  }

  // ---------------------------------------------------------------- the plain sum over stored records

  // The sum over stored records of the levels each can still sink.
  function RecordWeight(s: State): nat
    requires |s.version.levels| == MaxLevel
  {
    WeightFrom(s.disk, s.version.levels, 0)
  }

  // The records of a job's inputs at one level.
  function InputRecords(disk: Disk, inputs: seq<Input>, level: nat): nat {
    if inputs == [] then 0 else
      var i := inputs[|inputs| - 1];
      InputRecords(disk, inputs[..|inputs| - 1], level) + if i.level == level then |Content(disk, i.meta.number)| else 0
  }

  lemma {:induction false} InputRecordsAt(disk: Disk, before: seq<Input>, at: nat, files: seq<FileMeta>, level: nat)
    ensures InputRecords(disk, before + InputsAt(at, files), level)
            == InputRecords(disk, before, level) + if at == level then Records(disk, files) else 0
  {
    hide Content;
    if files == [] {
      assert before + InputsAt(at, files) == before;
    } else {
      var n := |files| - 1;
      InputRecordsAt(disk, before, at, files[..n], level);
      assert (before + InputsAt(at, files))[..|before| + n] == before + InputsAt(at, files[..n]);
    }
  }

  lemma {:induction false} JobRecords(disk: Disk, levels: Levels, job: Job, T: seq<FileMeta>, S: seq<FileMeta>)
    requires |levels| == MaxLevel && JobShape(levels, job, T, S)
    ensures InputRecords(disk, job.inputs, job.outputLevel) == Records(disk, T)
    ensures InputRecords(disk, job.inputs, job.outputLevel - 1) == Records(disk, S)
  {
    hide Records, Aside, FilterOut;
    var out := job.outputLevel;
    forall level: nat ensures InputRecords(disk, job.inputs, level)
                              == (if out == level then Records(disk, T) else 0)
                                + (if out - 1 == level then Records(disk, S) else 0) {
      InputRecordsAt(disk, [], out, T, level);
      assert [] + InputsAt(out, T) == InputsAt(out, T);
      InputRecordsAt(disk, InputsAt(out, T), out - 1, S, level);
    }
  }

  // What a commit does to the sum, exactly.
  lemma {:induction false} InstallWeight(levels: Levels, levels': Levels, disk: Disk, job: Job, T: seq<FileMeta>,
                                         S: seq<FileMeta>, outputs: seq<FileMeta>)
    requires |levels| == MaxLevel && |levels'| == MaxLevel && JobShape(levels, job, T, S)
    requires JobInstalled(levels, levels', job, T, S, outputs)
    ensures var depth := MaxLevel - job.outputLevel;
            WeightFrom(disk, levels', 0) + Two(depth, Records(disk, S), Records(disk, T))
            == WeightFrom(disk, levels, 0) + Two(depth, 0, Records(disk, outputs))
  {
    hide Records, Aside, FilterOut, WeightFrom, WeightTo, Two;
    var out := job.outputLevel;
    var newer := levels[out - 1][|S|..];
    assert levels[out - 1] == S + newer;
    RecordsConcat(disk, S, newer);
    RecordsConcat(disk, FilterOut(levels[out], Numbers(T)), outputs);
    RecordsPartition(disk, levels[out], Numbers(T));
    WeightSplit(disk, levels, out - 1);
    WeightSplit(disk, levels', out - 1);
    WeightToSame(disk, levels, levels', out - 1);
    WeightFromSame(disk, levels, levels', out + 1);
    WeightTwo(disk, levels, out);
    WeightTwo(disk, levels', out);
    TwoAdds(MaxLevel - out, Records(disk, newer), Records(disk, S), Records(disk, levels[out]) - Records(disk, T),
            Records(disk, T));
    TwoAdds(MaxLevel - out, Records(disk, newer), 0, Records(disk, levels[out]) - Records(disk, T),
            Records(disk, outputs));
  }

  lemma {:induction false} TwoAdds(depth: nat, a: nat, b: nat, c: nat, d: nat)
    ensures Two(depth, a + b, c + d) == Two(depth, a, c) + Two(depth, b, d)
  {
    assert (depth + 1) * (a + b) == (depth + 1) * a + (depth + 1) * b;
    assert depth * (c + d) == depth * c + depth * d;
  }

  lemma {:induction false} TwoCompares(depth: nat, sunk: nat, t: nat, made: nat)
    requires depth > 0 && made <= t + sunk
    ensures Two(depth, 0, made) < Two(depth, sunk, t) <==> sunk > 0 || made < t
  {
    assert Two(depth, sunk, t) - Two(depth, 0, made) == depth * (t + sunk - made) + sunk by {
      assert (depth + 1) * sunk == depth * sunk + sunk;
      assert depth * (t + sunk - made) == depth * t + depth * sunk - depth * made;
    }
    assert t + sunk - made > 0 ==> depth * (t + sunk - made) > 0;
  }

  // A commit lowers the sum exactly when some input of the upper level holds a record, or the merge dropped one.
  lemma {:induction false} RecordWeightFallsExactlyWhen(s: State, h: History, cleanup: bool)
    requires Reachable(s, h) && s.progress.Merging? && s.progress.begin == |s.progress.merged|
    ensures |s.version.levels| == MaxLevel && |CommitJob(s, cleanup).version.levels| == MaxLevel
    ensures s.progress.job.outputLevel >= 1
    ensures var job := s.progress.job;
            RecordWeight(CommitJob(s, cleanup)) < RecordWeight(s)
            <==> InputRecords(s.disk, job.inputs, job.outputLevel - 1) > 0
                 || |s.progress.merged| < InputRecords(s.disk, job.inputs, job.outputLevel)
  {
    hide Reachable, LevelsOk, JobShape, JobInstalled, FlushOk, ManifestOk, LifeCycle, InstallJob, CommitJob, Live,
         WeightFrom, Records,
         InWriteOrder, HoldsLastWrites, LogCovers, SnapshotCovered, Two, InputRecords;
    ReachableIsGood(s, h);
    var p := s.progress;
    var T, S :| JobShape(s.version.levels, p.job, T, S);
    var s', x := CommitJob(s, cleanup), InstallJob(s);
    ShapeBounds(s.version.levels, p.job, T, S);
    CommitJobFields(s, cleanup);
    InstallJobFields(s);
    CommitKeepsLevels(s, T, S);
    OutputsShrink(s, T, S);
    TilesRecords(s.disk, p.outputs, p.merged, p.begin);
    InstallWeight(s.version.levels, x.version.levels, s.disk, p.job, T, S, p.outputs);
    WeightSameContent(s.disk, s'.disk, x.version.levels, 0);
    JobRecords(s.disk, s.version.levels, p.job, T, S);
    TwoCompares(MaxLevel - p.job.outputLevel, Records(s.disk, S), Records(s.disk, T), |p.merged|);
  }

  lemma {:induction false} NoRecordsNoWeight(disk: Disk, levels: Levels, l: nat)
    requires |levels| == MaxLevel && forall i :: l <= i < MaxLevel ==> Records(disk, levels[i]) == 0
    ensures WeightFrom(disk, levels, l) == 0
    decreases MaxLevel - l
  {
    hide Records;
    if l < MaxLevel {
      NoRecordsNoWeight(disk, levels, l + 1);
    }
  }

  // A commit over a store without records leaves none.
  lemma {:induction false} NothingToWeigh(s: State)
    requires Inv(s) && s.progress.Merging? && s.progress.begin == |s.progress.merged|
    requires |s.version.levels| == MaxLevel && RecordWeight(s) == 0
    ensures |CommitJob(s, false).version.levels| == MaxLevel && RecordWeight(CommitJob(s, false)) == 0
  {
    hide LevelsOk, JobShape, JobInstalled, OutputsOk, FlushOk, ManifestOk, LifeCycle, InstallJob, CommitJob, Live,
         WeightFrom, Records;
    var T, S :| JobShape(s.version.levels, s.progress.job, T, S);
    var x := InstallJob(s);
    CommitJobFields(s, false);
    InstallJobFields(s);
    CommitKeepsLevels(s, T, S);
    OutputsShrink(s, T, S);
    InstallLighter(s.version.levels, x.version.levels, s.disk, s.progress.job, T, S, s.progress.outputs);
    WeightSameContent(s.disk, CommitJob(s, false).disk, x.version.levels, 0);
  }

  lemma {:induction false} EmptyFileHasNoWeight(disk: Disk, m: FileMeta)
    requires Content(disk, m.number) == []
    ensures WeightFrom(disk, EmptyLevels()[0 := [m]], 0) == 0
  {
    var levels := EmptyLevels()[0 := [m]];
    RecordsAppend(disk, [], m);
    assert [] + [m] == [m];
    NoRecordsNoWeight(disk, levels, 0);
  }

  // A table that held only keys below TsKey{} makes an empty file, and compacting that alone leaves the sum at zero.
  lemma {:induction false} EmptyFileKeepsRecordWeight(k: TsKey) returns (s: State, h: History)
    requires Less(k, ZeroKey)
    ensures Reachable(s, h) && s.progress.Merging? && s.progress.begin == |s.progress.merged|
    ensures |s.version.levels| == MaxLevel && |CommitJob(s, false).version.levels| == MaxLevel
    ensures RecordWeight(CommitJob(s, false)) == RecordWeight(s)
  {
    hide Inv, Reachable, CommitJob, Merge, RankInputs, Less, WeightFrom, Copies;
    var r := Record(k, Deletion);
    var s0, h0 := FlushOneWrite(r);
    SevenLevels(s0);
    var m :| s0.version.levels == EmptyLevels()[0 := [m]] && Content(s0.disk, m.number) == FromZeroKey([r]);
    assert FromZeroKey([r]) == [];
    assert m in s0.version.levels[0];
    assert m.number in Live(s0.version.levels);
    var s1 := PickAndMerge(s0, h0);
    MergingWithin(s1);
    s := EmitAll(s1, h0);
    h := h0;
    ReachableIsGood(s, h);
    EmptyFileHasNoWeight(s.disk, m);
    NothingToWeigh(s);
  }
}
