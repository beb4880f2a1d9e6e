// Where a compaction cuts its output: every file is as small as the target size allows, and no smaller.
module LsmOutputs {
  import opened Types
  import opened Version
  import opened RankedMerge
  import opened Lsm
  import opened LsmInvariant
  import opened LsmSteps
  import opened LsmCommits
  import opened LsmRetire
  import opened LsmHistory
  import opened LsmRuns
  import opened LsmSafety
  import opened LsmFiles

  // ---------------------------------------------------------------- one cut

  // What the records of a run count for: the bytes of their measurements and values, and 32 for each.
  function RunBytes(run: seq<Record>): nat {
    if run == [] then 0 else
      var r := run[|run| - 1];
      RunBytes(run[..|run| - 1]) + |r.key.measurement| + (if r.entry.Value? then |r.entry.value| else 0) + 32
  }

  // A run that stops at the record with which it reaches the target; the last one may stop short.
  ghost predicate CutAt(run: seq<Record>, target: nat, last: bool) {
    && run != []
    && (target != 0 ==> RunBytes(run[..|run| - 1]) < target)
    && (last || (target != 0 && RunBytes(run) >= target))
  }

  lemma {:induction false} SplitFrom(merged: seq<Record>, begin: nat, end: nat, target: nat)
    requires begin <= end < |merged| && (target != 0 ==> RunBytes(merged[begin..end]) < target)
    ensures var r := SplitEnd(merged, end, RunBytes(merged[begin..end]), target);
            begin < r <= |merged| && CutAt(merged[begin..r], target, r == |merged|)
    decreases |merged| - end
  {
    var next := merged[begin..end + 1];
    assert next[..|next| - 1] == merged[begin..end];
    var r := SplitEnd(merged, end, RunBytes(merged[begin..end]), target);
    if r == end + 1 {
      assert merged[begin..r] == next;
    }
    if !((target != 0 && RunBytes(next) >= target) || end + 1 == |merged|) {
      SplitFrom(merged, begin, end + 1, target);
    }
  }

  // Where the file that starts at begin ends.
  lemma {:induction false} SplitEndCuts(merged: seq<Record>, begin: nat, target: nat)
    requires begin < |merged|
    ensures var r := SplitEnd(merged, begin, 0, target);
            begin < r <= |merged| && CutAt(merged[begin..r], target, r == |merged|)
  {
    assert merged[begin..begin] == [];
    SplitFrom(merged, begin, begin, target);
  }

  // ---------------------------------------------------------------- every output of every run

  // Each output but the last of a finished job reaches the target, and none does so before its last record.
  ghost predicate OutputsCut(s: State) {
    s.progress.Merging? ==>
      var p := s.progress;
      forall i :: 0 <= i < |p.outputs| ==>
        CutAt(Content(s.disk, p.outputs[i].number), s.target, i == |p.outputs| - 1 && p.begin >= |p.merged|)
  }

  lemma {:induction false} EmitCuts(s: State, size: nat)
    requires Inv(s) && s.progress.Merging? && s.progress.begin < |s.progress.merged| && OutputsCut(s)
    ensures OutputsCut(EmitOutput(s, size))
  {
    hide LevelsOk, FlushOk, ManifestOk, MemoryOk, CutAt, RunBytes, Merge, RankInputs, Tiles, FilesOk, JobOk, MetaOk;
    var p := s.progress;
    var s' := EmitOutput(s, size);
    SplitEndCuts(p.merged, p.begin, s.target);
    assert s'.progress.outputs[|p.outputs|].number == s.version.nextFile;
    forall i | 0 <= i < |s'.progress.outputs|
      ensures CutAt(Content(s'.disk, s'.progress.outputs[i].number), s.target,
                    i == |p.outputs| && s'.progress.begin >= |p.merged|)
    {
      if i < |p.outputs| {
        assert p.outputs[i] in p.outputs;
      }
    }
  }

  lemma {:induction false} OutputsStay(s: State, a: Action)
    requires Inv(s) && |s.version.levels| == MaxLevel && Enabled(s, a) && OutputsCut(s)
    requires Inv(Next(s, a)) && s.progress.Merging? && Next(s, a).progress == s.progress
    ensures OutputsCut(Next(s, a))
  {
    hide LevelsOk, FlushOk, ManifestOk, MemoryOk, CutAt, Merge, RankInputs, Tiles, FilesOk, JobOk, Next, Enabled;
    FilesStay(s, a);
    forall i | 0 <= i < |s.progress.outputs|
      ensures Content(Next(s, a).disk, s.progress.outputs[i].number) == Content(s.disk, s.progress.outputs[i].number)
    {
      assert s.progress.outputs[i] in s.progress.outputs;
    }
  }

  lemma {:induction false} ProgressStays(s: State, a: Action)
    requires Inv(s) && |s.version.levels| == MaxLevel && Enabled(s, a) && !a.DoEmit?
    ensures var p := Next(s, a).progress;
            p == s.progress || !p.Merging? || p.outputs == []
  {
    hide Inv, PickJob, Upsert, Touch, SetTtl, TouchAll, Deletable, StillPending, MoveObsolete, CommitJob, ApplyEdit,
         EditLines, ViewOf, Replay, Recover, AllNumbers, FromZeroKey, SplitEnd, Merge, RankInputs, SnapshotLines;
    match a {
      case DoCommitJob(cleanup) => CommitJobOnlyRemoves(s, cleanup);
      case _ =>
    }
  }

  lemma {:induction false} NextKeepsCuts(s: State, a: Action)
    requires Inv(s) && |s.version.levels| == MaxLevel && Enabled(s, a) && OutputsCut(s) && Inv(Next(s, a))
    ensures OutputsCut(Next(s, a))
  {
    hide Inv, EmitOutput, OutputsCut;
    if a.DoEmit? {
      EmitCuts(s, a.size);
    } else {
      ProgressStays(s, a);
      if s.progress.Merging? && Next(s, a).progress == s.progress {
        OutputsStay(s, a);
      } else {
        NothingToCut(Next(s, a));
      }
    }
  }

  lemma {:induction false} NothingToCut(s: State)
    requires !s.progress.Merging? || s.progress.outputs == []
    ensures OutputsCut(s)
  {
  }

  lemma {:induction false} RunCuts(states: seq<State>, histories: seq<History>, actions: seq<Action>, i: nat)
    requires IsRun(states, histories, actions) && i <= |actions|
    ensures OutputsCut(states[i])
  {
    hide Good, Inv, Enabled, Next, NextHistory, OutputsCut;
    if i == 0 {
      NothingToCut(states[0]);
    } else {
      RunCuts(states, histories, actions, i - 1);
      assert IsStep(states[i - 1], histories[i - 1], actions[i - 1], states[i], histories[i]);
      RunIsGood(states, histories, actions, i - 1);
      RunIsGood(states, histories, actions, i);
      GoodIsInv(states[i - 1], histories[i - 1]);
      GoodIsInv(states[i], histories[i]);
      NextKeepsCuts(states[i - 1], actions[i - 1]);
    }
  }

  // In every reachable state: with a target size, every output of the running job but its last file counts for at least
  // the target and less than that without its last record; with target 0 all records go to one file.
  lemma {:induction false} OutputsReachTarget(s: State, h: History, i: nat)
    requires Reachable(s, h) && s.progress.Merging? && i < |s.progress.outputs|
    ensures var p, run := s.progress, Content(s.disk, s.progress.outputs[i].number);
            && run != []
            && (s.target > 0 ==> RunBytes(run[..|run| - 1]) < s.target)
            && (RunBytes(run) >= s.target > 0 || (i == |p.outputs| - 1 && p.begin == |p.merged|))
  {
    hide IsStep, RunBytes, Inv;
    var states, histories, actions :| IsRun(states, histories, actions) && states[|actions|] == s
      && histories[|actions|] == h;
    RunCuts(states, histories, actions, |actions|);
    ReachableIsGood(s, h);
    MergingWithin(s);
  }
}
