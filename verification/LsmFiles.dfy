// Every table file on disk is accounted for, and one that nothing needs any more is removed at the next cleanup.
module LsmFiles {
  import opened Types
  import opened Version
  import opened RankedMerge
  import opened Lsm
  import opened LsmInvariant
  import opened LsmSteps
  import opened LsmCommits
  import opened LsmRetire
  import opened LsmMerge
  import opened LsmHistory
  import opened LsmRuns
  import opened LsmSafety

  // ---------------------------------------------------------------- deletion

  // A file whose reader no view holds goes; every other file stays.
  lemma {:induction false} TryDeleteRemovesExactly(s: State, h: History, n: nat)
    requires Reachable(s, h)
    ensures n in TryDelete(s).disk <==> n in s.disk && !(n in PendingNumbers(s.pending) && n !in Held(s.views))
    ensures n in PendingNumbers(TryDelete(s).pending) <==> n in PendingNumbers(s.pending) && n in Held(s.views)
  {
    hide Reachable, Good, Inv, Held, StillPending;
    ReachableIsGood(s, h);
    PendingIsHeld(s);
    StillPendingMembers(s.pending, s.views);
  }

  lemma {:induction false} PendingIsHeld(s: State)
    requires Inv(s)
    ensures forall p :: p in s.pending ==> p.held
  {
    hide LevelsOk, ProgressOk, FlushOk, ManifestOk, MemoryOk, Live, Held;
  }

  // ---------------------------------------------------------------- files never change

  lemma {:induction false} CommitJobOnlyRemoves(s: State, cleanup: bool)
    requires Inv(s) && s.progress.Merging?
    ensures |s.version.levels| == MaxLevel
    ensures var s' := CommitJob(s, cleanup);
            && s'.progress == Idle && s'.target == s.target
            && forall n :: n in s'.disk ==> n in s.disk && s'.disk[n] == s.disk[n]
  {
    hide LevelsOk, ProgressOk, FlushOk, ManifestOk, FilesOk, MemoryOk, Deletable, StillPending, MoveObsolete, ApplyEdit,
         EditLines, NumberList, InputNumbers;
    SevenLevels(s);
  }

  // A table file keeps its content for as long as it is on disk.
  lemma {:induction false} FilesNeverChange(s: State, h: History, a: Action)
    requires Reachable(s, h) && |s.version.levels| == MaxLevel && Enabled(s, a)
    ensures forall n :: n in s.disk && n in Next(s, a).disk ==> Next(s, a).disk[n] == s.disk[n]
  {
    hide Reachable, Good, Inv;
    ReachableIsGood(s, h);
    FilesStay(s, a);
  }

  lemma {:induction false} FilesStay(s: State, a: Action)
    requires Inv(s) && |s.version.levels| == MaxLevel && Enabled(s, a)
    ensures forall n :: n in s.disk && n in Next(s, a).disk ==> Next(s, a).disk[n] == s.disk[n]
    ensures Next(s, a).target == s.target
  {
    hide Inv, PickJob, Upsert, Touch, SetTtl, TouchAll, Deletable, StillPending, MoveObsolete, CommitJob, ApplyEdit,
         EditLines, ViewOf, Replay, Recover, AllNumbers, FromZeroKey, SplitEnd, Merge, RankInputs, SnapshotLines;
    match a {
      case DoBuildFlush(_) => NewFileIsFresh(s, FromZeroKey(s.flush.table));
      case DoEmit(_) => NewFileIsFresh(s, []);
      case DoCommitJob(cleanup) => CommitJobOnlyRemoves(s, cleanup);
      case _ =>
    }
  }

  // ---------------------------------------------------------------- no file is forgotten

  function ObsoleteNumbers(s: State): set<nat> {
    set n | n in s.version.obsolete
  }

  // Every file on disk is live, obsolete, pending deletion, or still being written.
  ghost predicate NoStrays(s: State) {
    s.disk.Keys <= Live(s.version.levels) + ObsoleteNumbers(s) + PendingNumbers(s.pending) + Reserved(s)
  }

  lemma {:induction false} TryDeleteKeepsStrays(s: State)
    requires Inv(s) && NoStrays(s)
    ensures NoStrays(TryDelete(s))
  {
    hide Inv, Live, Held, StillPending;
    PendingIsHeld(s);
    StillPendingMembers(s.pending, s.views);
    var s' := TryDelete(s);
    forall n | n in s'.disk && n in PendingNumbers(s.pending) ensures n in PendingNumbers(s'.pending) {
      var p :| p in s.pending && p.number == n;
      assert p in s'.pending;
    }
  }

  // Cleanup, before it tries to delete.
  function Retired(s: State): State {
    var (r, p) := MoveObsolete(s.readers, s.pending, s.version.obsolete);
    s.(version := s.version.(obsolete := []), readers := r, pending := p)
  }

  lemma {:induction false} RetiredOk(s: State)
    requires Inv(s)
    ensures Inv(Retired(s)) && Cleanup(s) == TryDelete(Retired(s))
    ensures PendingNumbers(Retired(s).pending) == PendingNumbers(s.pending) + ObsoleteNumbers(s)
  {
    hide LevelsOk, ProgressOk, FlushOk, ManifestOk, LifeCycle, MoveObsolete, TryDelete;
    var s' := Retired(s);
    RetireKeepsFiles(s);
    SameDisk(s);
    DiskStep(s, s');
    assert ManifestOk(s') by { ManifestLevels(s, s'); }
    ObsoletePending(s);
  }

  lemma {:induction false} ObsoletePending(s: State)
    requires Inv(s)
    ensures PendingNumbers(Retired(s).pending) == PendingNumbers(s.pending) + ObsoleteNumbers(s)
  {
    hide LevelsOk, ProgressOk, FlushOk, ManifestOk, MemoryOk, Live, Held, MoveObsolete, Distinct;
    MoveObsoleteSpec(s.readers, s.pending, s.version.obsolete);
    forall n | n in s.version.obsolete ensures n in PendingNumbers(Retired(s).pending) {
      assert Pending(n, true) in Retired(s).pending;
    }
  }

  lemma {:induction false} CleanupKeepsStrays(s: State)
    requires Inv(s) && NoStrays(s)
    ensures NoStrays(Cleanup(s))
  {
    hide Inv, Live, TryDelete, MoveObsolete;
    RetiredOk(s);
    assert Reserved(Retired(s)) == Reserved(s);
    assert NoStrays(Retired(s));
    TryDeleteKeepsStrays(Retired(s));
  }

  lemma {:induction false} InstallKeepsStrays(s: State)
    requires Inv(s) && s.progress.Merging? && NoStrays(s)
    ensures NoStrays(FinishJob(InstallJob(s), s.progress.job))
  {
    hide LevelsOk, JobShape, ManifestOk, FlushOk, MemoryOk, OutputsOk, LifeCycle, JobInstalled, Live, InstallJob,
         InputList, NumberList, InputNumbers, Numbers;
    var T, S :| JobShape(s.version.levels, s.progress.job, T, S);
    CommitKeepsLevels(s, T, S);
    CommitLists(s, T, S);
    InstallJobFields(s);
    InputListSet(s.progress.job.inputs);
    var s' := FinishJob(InstallJob(s), s.progress.job);
    forall n | n in InputNumbers(s.progress.job.inputs) ensures n in ObsoleteNumbers(s') {
      assert n in InputList(s.progress.job.inputs);
    }
  }

  lemma {:induction false} NextKeepsStrays(s: State, a: Action)
    requires Inv(s) && |s.version.levels| == MaxLevel && Enabled(s, a) && NoStrays(s)
    ensures NoStrays(Next(s, a))
  {
    hide LevelsOk, ProgressOk, ManifestOk, FilesOk, MemoryOk, Live, PickJob, Merge, RankInputs, Cleanup, TryDelete,
         CommitJob, Reopen, InstallFlush, Upsert, Touch, ViewOf, SplitEnd, FromZeroKey, HasFile;
    match a {
      case DoCommitFlush => CommitFlushKeepsStrays(s);
      case DoTryDelete => TryDeleteKeepsStrays(s);
      case DoCleanup => CleanupKeepsStrays(s);
      case DoCommitJob(cleanup) =>
        CommitJobShape(s, cleanup);
        InstallKeepsStrays(s);
        if cleanup {
          CleanupKeepsStrays(FinishJob(InstallJob(s), s.progress.job));
        }
      case DoReopen => ReopenLeavesLive(s);
      case DoEmit(size) => EmitKeepsStrays(s, size);
      case DoBuildFlush(size) =>
        assert s.version.nextFile in FlushNumbers(BuildFlush(s, size).flush);
      case DoPick(force) => PickedFromIdle(s, force);
      case _ =>
    }
  }

  lemma {:induction false} PickedFromIdle(s: State, force: bool)
    requires |s.version.levels| == MaxLevel && PickJob(s, force).Some?
    ensures s.progress == Idle
  {
  }

  lemma {:induction false} EmitKeepsStrays(s: State, size: nat)
    requires s.progress.Merging? && s.progress.begin < |s.progress.merged| && NoStrays(s)
    ensures NoStrays(EmitOutput(s, size))
  {
    hide Live, SplitEnd;
    var s' := EmitOutput(s, size);
    var m := s'.progress.outputs[|s.progress.outputs|];
    assert m in s'.progress.outputs && m.number == s.version.nextFile;
    assert forall f :: f in s.progress.outputs ==> f in s'.progress.outputs;
  }

  lemma {:induction false} CommitFlushKeepsStrays(s: State)
    requires Inv(s) && s.flush.Built? && NoStrays(s)
    ensures |s.version.levels| == MaxLevel && NoStrays(CommitFlush(s))
  {
    hide ProgressOk, ManifestOk, FilesOk, MemoryOk, LevelsOk, FlushOk;
    FlushFacts(s);
    InstallFlushLevels(s);
    var s', m := CommitFlush(s), s.flush.meta;
    assert m in s'.version.levels[0] by { assert (s.version.levels[0] + [m])[|s.version.levels[0]|] == m; }
    forall n | n in Live(s.version.levels) ensures n in Live(s'.version.levels) {
      var l, f :| 0 <= l < |s.version.levels| && f in s.version.levels[l] && f.number == n;
      assert f in s'.version.levels[l];
    }
    assert m.number in Live(s'.version.levels);
  }

  lemma {:induction false} ReopenLeavesLive(s: State)
    requires Inv(s)
    ensures Reopen(s).disk.Keys == Live(s.version.levels) && Reopen(s).version.levels == s.version.levels
  {
    hide LevelsOk, ProgressOk, FlushOk, FilesOk, MemoryOk, Recover, Live, AllNumbers, Replay, TouchAll;
    LiveOnDisk(s);
    assert forall n :: n in AllNumbers(s.version.levels) <==> n in SetOf(AllNumbers(s.version.levels));
  }

  lemma {:induction false} LiveOnDisk(s: State)
    requires Inv(s)
    ensures Live(s.version.levels) <= s.disk.Keys && SetOf(AllNumbers(s.version.levels)) == Live(s.version.levels)
  {
    hide ProgressOk, FlushOk, MemoryOk, ManifestOk, MetaOk, Live, AllNumbers, SetOf;
    AllNumbersSpec(s.version.levels);
  }

  // ---------------------------------------------------------------- every run

  lemma {:induction false} InitHasNoStrays(target: nat)
    ensures NoStrays(Init(target))
  {
  }

  lemma {:induction false} RunHasNoStrays(states: seq<State>, histories: seq<History>, actions: seq<Action>, i: nat)
    requires IsRun(states, histories, actions) && i <= |actions|
    ensures NoStrays(states[i])
  {
    hide Good, Inv, Enabled, Next, NextHistory, NoStrays;
    if i == 0 {
      var target: nat :| states[0] == Init(target);
      InitHasNoStrays(target);
    } else {
      RunHasNoStrays(states, histories, actions, i - 1);
      assert IsStep(states[i - 1], histories[i - 1], actions[i - 1], states[i], histories[i]);
      RunIsGood(states, histories, actions, i - 1);
      GoodIsInv(states[i - 1], histories[i - 1]);
      NextKeepsStrays(states[i - 1], actions[i - 1]);
    }
  }

  // In every reachable state each table file on disk is live, obsolete, pending deletion, or being written.
  lemma {:induction false} EveryFileIsAccountedFor(s: State, h: History)
    requires Reachable(s, h)
    ensures s.disk.Keys <= Live(s.version.levels) + ObsoleteNumbers(s) + PendingNumbers(s.pending) + Reserved(s)
  {
    hide IsStep, Live, Reserved;
    var states, histories, actions :| IsRun(states, histories, actions) && states[|actions|] == s
      && histories[|actions|] == h;
    RunHasNoStrays(states, histories, actions, |actions|);
  }

  lemma {:induction false} CleanedFiles(s: State)
    requires Inv(s) && NoStrays(s)
    ensures Cleanup(s).disk.Keys == Live(s.version.levels) + Reserved(s) + Held(s.views)
    ensures forall n :: n in Cleanup(s).disk ==> Cleanup(s).disk[n] == s.disk[n]
    ensures PendingNumbers(Cleanup(s).pending) <= Held(s.views) && Cleanup(s).version.obsolete == []
  {
    hide Inv, Live, Held, MoveObsolete, StillPending;
    RetiredOk(s);
    var x := Retired(s);
    assert Reserved(x) == Reserved(s);
    PendingIsHeld(x);
    StillPendingMembers(x.pending, x.views);
    PartsOfDisk(x);
  }

  lemma {:induction false} PartsOfDisk(s: State)
    requires Inv(s)
    ensures Live(s.version.levels) + Reserved(s) + Held(s.views) <= s.disk.Keys
    ensures (Live(s.version.levels) + Reserved(s)) !! PendingNumbers(s.pending)
  {
    hide LevelsOk, ProgressOk, FlushOk, ManifestOk, MemoryOk, Live, Held;
  }

  // After a cleanup the files on disk are exactly those of the version, those being written, and those that a captured
  // view still reads; without views nothing waits to be deleted any more.
  lemma {:induction false} CleanupLeavesExactlyNeeded(s: State, h: History)
    requires Reachable(s, h)
    ensures var s' := Cleanup(s);
            && s'.disk.Keys == Live(s.version.levels) + Reserved(s) + Held(s.views)
            && (forall n :: n in s'.disk ==> s'.disk[n] == s.disk[n])
            && (s.views == [] ==> s'.disk.Keys == Live(s.version.levels) + Reserved(s) && s'.pending == [])
  {
    hide Reachable, Good, Inv, Live, Held, Reserved, Cleanup;
    ReachableIsGood(s, h);
    EveryFileIsAccountedFor(s, h);
    CleanedFiles(s);
    if s.views == [] {
      NothingHeld();
      NothingPending(Cleanup(s).pending);
    }
  }

  lemma {:induction false} NothingPending(pending: seq<Pending>)
    ensures PendingNumbers(pending) == {} <==> pending == []
  {
    if pending != [] {
      assert pending[0] in pending && pending[0].number in PendingNumbers(pending);
    }
  }

  lemma {:induction false} NothingHeld()
    ensures Held([]) == {}
  {
  }

  // The same of a compaction's commit with cleanup: its inputs are gone from disk unless a view reads them.
  lemma {:induction false} CommitLeavesExactlyNeeded(s: State, h: History)
    requires Reachable(s, h) && s.progress.Merging? && s.progress.begin == |s.progress.merged|
    ensures |s.version.levels| == MaxLevel
    ensures var s' := CommitJob(s, true);
            && s'.disk.Keys == Live(s'.version.levels) + FlushNumbers(s.flush) + Held(s.views)
            && Live(s'.version.levels)
               == (Live(s.version.levels) - InputNumbers(s.progress.job.inputs)) + Numbers(s.progress.outputs)
  {
    hide Reachable, Good, Inv, Live, Held, Cleanup, InstallJob, InputNumbers, Numbers;
    ReachableIsGood(s, h);
    EveryFileIsAccountedFor(s, h);
    CommitJobShape(s, true);
    InstallKeepsStrays(s);
    InstalledLive(s);
    InstallJobFields(s);
    var x := FinishJob(InstallJob(s), s.progress.job);
    CleanedFiles(x);
    CleanupVersion(x);
  }

  lemma {:induction false} InstalledLive(s: State)
    requires Inv(s) && s.progress.Merging?
    ensures |s.version.levels| == MaxLevel
    ensures Live(InstallJob(s).version.levels)
            == (Live(s.version.levels) - InputNumbers(s.progress.job.inputs)) + Numbers(s.progress.outputs)
  {
    hide LevelsOk, ManifestOk, FlushOk, MemoryOk, OutputsOk, FilesOk, JobInstalled, Live, InstallJob, JobShape;
    var T, S :| JobShape(s.version.levels, s.progress.job, T, S);
    CommitKeepsLevels(s, T, S);
  }
}
