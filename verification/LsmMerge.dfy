// A finished compaction holds, for every key it keeps, exactly the newest copy of its inputs, and its
// commit puts that copy where the inputs were.
module LsmMerge {
  import opened Types
  import opened Subsequence
  import opened Version
  import opened RankedMerge
  import opened Lsm
  import opened LsmInvariant
  import opened LsmSteps
  import opened LsmCommits

  // ---------------------------------------------------------------- the merged run, key by key

  lemma {:induction false} RankedMember(disk: Disk, inputs: seq<Input>, ttl: TtlMap, i: nat, r: Record)
    requires i < |inputs| && r in Content(disk, inputs[i].meta.number) && Kept(ttl, r.key)
    ensures Ranked(r, -(i as int)) in RankInputs(disk, inputs, ttl)
  {
    var n := |inputs| - 1;
    if i == n {
      RankFileMembers(Content(disk, inputs[n].meta.number), ttl, -n);
      assert Ranked(r, -n).age == -n && Ranked(r, -n).record == r;
    } else {
      RankedMember(disk, inputs[..n], ttl, i, r);
    }
  }

  lemma {:induction false} SortedUnique(run: seq<Record>, a: Record, b: Record)
    requires Sorted(run) && a in run && b in run && a.key == b.key
    ensures a == b
  {
    var i :| 0 <= i < |run| && run[i] == a;
    var j :| 0 <= j < |run| && run[j] == b;
    LessTotal(a.key, a.key);
  }

  lemma {:induction false} RankInputsDistinct(disk: Disk, inputs: seq<Input>, ttl: TtlMap)
    requires forall i :: i in inputs ==> Sorted(Content(disk, i.meta.number))
    ensures AgesDistinct(RankInputs(disk, inputs, ttl))
  {
    hide RankInputs, Sorted, Kept;
    var all := RankInputs(disk, inputs, ttl);
    forall x, y | x in all && y in all && x.record.key == y.record.key && x.age == y.age ensures x == y {
      RankedFromInput(disk, inputs, ttl, x);
      RankedFromInput(disk, inputs, ttl, y);
      var i :| 0 <= i < |inputs| && x.age == -i && x.record in Content(disk, inputs[i].meta.number);
      var j :| 0 <= j < |inputs| && y.age == -j && y.record in Content(disk, inputs[j].meta.number);
      assert inputs[i] in inputs;
      SortedUnique(Content(disk, inputs[i].meta.number), x.record, y.record);
    }
  }

  // The file that holds the newest copy of k among files.
  lemma {:induction false} NewestCopyAt(disk: Disk, files: seq<FileMeta>, k: TsKey) returns (i: nat, e: Entry)
    requires LevelCopies(disk, files, k) != []
    ensures i < |files| && Record(k, e) in Content(disk, files[i].number)
    ensures forall j :: i < j < |files| ==> CopiesIn(Content(disk, files[j].number), k) == []
    ensures LastOf(LevelCopies(disk, files, k)) == [e]
  {
    var n := |files| - 1;
    var c := CopiesIn(Content(disk, files[n].number), k);
    CopiesInMembers(Content(disk, files[n].number), k);
    if c != [] {
      i, e := n, c[|c| - 1];
      assert e in c;
    } else {
      assert LevelCopies(disk, files, k) == LevelCopies(disk, files[..n], k);
      i, e := NewestCopyAt(disk, files[..n], k);
      forall j | i < j < |files| ensures CopiesIn(Content(disk, files[j].number), k) == [] {
        if j < n { assert files[..n][j] == files[j]; }
      }
    }
  }

  lemma {:induction false} NoCopiesNoRecord(disk: Disk, files: seq<FileMeta>, k: TsKey, i: nat, r: Record)
    requires LevelCopies(disk, files, k) == [] && i < |files| && r in Content(disk, files[i].number)
    ensures r.key != k
  {
    var n := |files| - 1;
    CopiesInMembers(Content(disk, files[n].number), k);
    if i < n {
      NoCopiesNoRecord(disk, files[..n], k, i, r);
    }
  }

  // Merging keeps the newest copy of every key it keeps at all.
  lemma {:induction false} MergedCopies(disk: Disk, inputs: seq<Input>, files: seq<FileMeta>, ttl: TtlMap, k: TsKey)
    requires |files| == |inputs| && forall i :: 0 <= i < |inputs| ==> inputs[i].meta == files[i]
    requires forall i :: i in inputs ==> Sorted(Content(disk, i.meta.number))
    ensures CopiesIn(Merge(RankInputs(disk, inputs, ttl)), k) ==
            if Kept(ttl, k) then LastOf(LevelCopies(disk, files, k)) else []
  {
    hide RankInputs, Merge, LevelCopies, CopiesIn, Sorted, Kept;
    var all := RankInputs(disk, inputs, ttl);
    RankInputsDistinct(disk, inputs, ttl);
    MergeCopies(all, k);
    if Kept(ttl, k) && LevelCopies(disk, files, k) != [] {
      MergedNewest(disk, inputs, files, ttl, k);
    } else {
      forall x | x in all ensures x.record.key != k {
        RankedFromInput(disk, inputs, ttl, x);
        var i :| 0 <= i < |inputs| && x.record in Content(disk, inputs[i].meta.number) && Kept(ttl, x.record.key);
        if Kept(ttl, k) { NoCopiesNoRecord(disk, files, k, i, x.record); }
      }
    }
  }

  lemma {:induction false} MergedNewest(disk: Disk, inputs: seq<Input>, files: seq<FileMeta>, ttl: TtlMap, k: TsKey)
    requires |files| == |inputs| && forall i :: 0 <= i < |inputs| ==> inputs[i].meta == files[i]
    requires Kept(ttl, k) && LevelCopies(disk, files, k) != []
    requires AgesDistinct(RankInputs(disk, inputs, ttl))
    ensures CopiesIn(Merge(RankInputs(disk, inputs, ttl)), k) == LastOf(LevelCopies(disk, files, k))
  {
    hide RankInputs, Merge, LevelCopies, Kept, AgesDistinct, CopiesIn;
    var all := RankInputs(disk, inputs, ttl);
    var i, e := NewestCopyAt(disk, files, k);
    var x := Ranked(Record(k, e), -(i as int));
    RankedMember(disk, inputs, ttl, i, Record(k, e));
    forall y | y in all && y.record.key == k ensures x.age <= y.age {
      RankedFromInput(disk, inputs, ttl, y);
      var j :| 0 <= j < |inputs| && y.age == -j && y.record in Content(disk, inputs[j].meta.number);
      CopiesInMembers(Content(disk, files[j].number), k);
    }
    assert Newest(all, x);
    MergeCopies(all, k);
  }

  // ---------------------------------------------------------------- the outputs, key by key

  lemma {:induction false} TilesCopies(disk: Disk, outputs: seq<FileMeta>, merged: seq<Record>, end: nat, k: TsKey)
    requires Tiles(disk, outputs, merged, end) && end <= |merged|
    ensures LevelCopies(disk, outputs, k) == CopiesIn(merged[..end], k)
  {
    if outputs != [] {
      var f := outputs[|outputs| - 1];
      var begin := end - |disk[f.number]|;
      TilesCopies(disk, outputs[..|outputs| - 1], merged, begin, k);
      assert merged[..end] == merged[..begin] + merged[begin..end];
      CopiesInConcat(merged[..begin], merged[begin..end], k);
    } else {
      assert merged[..end] == [];
    }
  }

  // ---------------------------------------------------------------- the commit, key by key

  // A level's copies of a key, with the job's targets taken out to the end.
  lemma {:induction false} TargetsSplit(levels: Levels, disk: Disk, next: nat, job: Job, T: seq<FileMeta>,
                                        S: seq<FileMeta>, k: TsKey)
    requires LevelsOk(levels, disk, next) && JobShape(levels, job, T, S)
    ensures LevelCopies(disk, levels[job.outputLevel], k) ==
            LevelCopies(disk, FilterOut(levels[job.outputLevel], Numbers(T)), k) + LevelCopies(disk, T, k)
  {
    hide LevelCopies, CopiesIn, FilterOut, NumbersUnique;
    var files := levels[job.outputLevel];
    if job.outputLevel == 1 {
      FilterOutMembers(files, Numbers(T));
      TargetsInLevel(levels, job, T, S);
      forall f, g | f in files && g in files && f.number in Numbers(T) && g.number !in Numbers(T)
        ensures CopiesIn(Content(disk, f.number), k) == [] || CopiesIn(Content(disk, g.number), k) == []
      {
        TargetIsInput(files, T, f);
        assert Aside(g, T + S) && f in T + S;
        AsideShareNoKey(disk, g, f, k);
      }
      LevelCopiesSplit(disk, files, Numbers(T), k);
    } else {
      assert T == [] && Numbers(T) == {};
      FilterOutNone(files, {});
      NoLevelCopies(disk, k);
      assert LevelCopies(disk, files, k) + [] == LevelCopies(disk, files, k);
    }
  }

  lemma {:induction false} NoLevelCopies(disk: Disk, k: TsKey)
    ensures LevelCopies(disk, [], k) == []
  {
  }

  lemma {:induction false} TargetIsInput(files: seq<FileMeta>, T: seq<FileMeta>, f: FileMeta)
    requires Ascending(files) && f in files && f.number in Numbers(T) && forall i :: 0 <= i < |T| ==> T[i] in files
    ensures f in T
  {
    var g :| g in T && g.number == f.number;
    AscendingUnique(files, f, g);
  }

  lemma {:induction false} AsideShareNoKey(disk: Disk, f: FileMeta, g: FileMeta, k: TsKey)
    requires MetaOk(disk, f) && MetaOk(disk, g) && (Less(f.largest, g.smallest) || Less(g.largest, f.smallest))
    ensures CopiesIn(Content(disk, f.number), k) == [] || CopiesIn(Content(disk, g.number), k) == []
  {
    hide CopiesIn, Less;
    CopiesInMembers(disk[f.number], k);
    CopiesInMembers(disk[g.number], k);
    if CopiesIn(disk[f.number], k) != [] && CopiesIn(disk[g.number], k) != [] {
      var a :| a in disk[f.number] && a.key == k;
      var b :| b in disk[g.number] && b.key == k;
      KeysWithinBounds(disk, f, a);
      KeysWithinBounds(disk, g, b);
      RangesApart(f.largest, g.smallest, k);
      RangesApart(g.largest, f.smallest, k);
    }
  }

  // A key cannot be at most hi and at least lo when hi is below lo.
  lemma {:induction false} RangesApart(hi: TsKey, lo: TsKey, k: TsKey)
    ensures Less(hi, lo) ==> !(AtMost(k, hi) && AtMost(lo, k))
  {
    LessTotal(k, hi);
    LessTotal(lo, k);
    if Less(k, hi) && Less(hi, lo) { LessTransitive(k, hi, lo); }
    LessTotal(k, lo);
  }

  // The deep copies of k before a commit and after it: one block shrinks to its newest element, or goes.
  ghost predicate BlockShrinks(before: seq<Entry>, after: seq<Entry>, keep: bool) {
    exists pre, block, post :: BlockAt(before, after, keep, pre, block, post)
  }

  ghost predicate BlockAt(before: seq<Entry>, after: seq<Entry>, keep: bool, pre: seq<Entry>, block: seq<Entry>,
                          post: seq<Entry>) {
    before == pre + block + post && after == pre + (if keep then LastOf(block) else []) + post
  }

  lemma {:induction false} CommitDeep(levels: Levels, levels': Levels, disk: Disk, job: Job, T: seq<FileMeta>,
                                      S: seq<FileMeta>,
                   outputs: seq<FileMeta>, keep: bool, k: TsKey)
    requires |levels| == MaxLevel && |levels'| == MaxLevel && 1 <= job.outputLevel < MaxLevel
             && S <= levels[job.outputLevel - 1]
    requires JobInstalled(levels, levels', job, T, S, outputs)
    requires LevelCopies(disk, levels[job.outputLevel], k) ==
             LevelCopies(disk, FilterOut(levels[job.outputLevel], Numbers(T)), k) + LevelCopies(disk, T, k)
    requires LevelCopies(disk, outputs, k) == if keep then LastOf(LevelCopies(disk, T + S, k)) else []
    ensures BlockShrinks(DeepCopies(disk, levels, 0, k), DeepCopies(disk, levels', 0, k), keep)
  {
    hide LevelCopies, FilterOut, LastOf, CopiesIn;
    var out := job.outputLevel;
    var remain, newer := FilterOut(levels[out], Numbers(T)), levels[out - 1][|S|..];
    assert levels[out - 1] == S + newer;
    LevelCopiesConcat(disk, S, newer, k);
    LevelCopiesConcat(disk, T, S, k);
    LevelCopiesConcat(disk, remain, outputs, k);
    var d, r, t, x, f, o, w := DeepCopies(disk, levels, out + 1, k), LevelCopies(disk, remain, k),
      LevelCopies(disk, T, k),
      LevelCopies(disk, S, k), LevelCopies(disk, newer, k), LevelCopies(disk, outputs, k),
        ShallowCopies(disk, levels, out - 1, k);
    DeepCopiesSameLevels(disk, levels, levels', out + 1, k);
    ShallowSameLevels(disk, levels, levels', out - 1, k);
    DeepTwo(disk, levels, out, k);
    DeepTwo(disk, levels', out, k);
    var before, after := DeepCopies(disk, levels, 0, k), DeepCopies(disk, levels', 0, k);
    assert before == d + (r + t) + (x + f) + w;
    assert after == d + (r + o) + f + w;
    Regroup(d, r, t, x, f, o, w);
    assert BlockAt(before, after, keep, d + r, t + x, f + w);
  }

  lemma {:induction false} Regroup(d: seq<Entry>, r: seq<Entry>, t: seq<Entry>, x: seq<Entry>, f: seq<Entry>,
                                   o: seq<Entry>, w: seq<Entry>)
    ensures d + (r + t) + (x + f) + w == (d + r) + (t + x) + (f + w)
    ensures d + (r + o) + f + w == (d + r) + o + (f + w)
  {
  }

  lemma {:induction false} DeepTwo(disk: Disk, levels: Levels, out: nat, k: TsKey)
    requires |levels| == MaxLevel && 1 <= out < MaxLevel
    ensures DeepCopies(disk, levels, 0, k) ==
            DeepCopies(disk, levels, out + 1, k) + LevelCopies(disk, levels[out], k)
              + LevelCopies(disk, levels[out - 1], k)
            + ShallowCopies(disk, levels, out - 1, k)
  {
    hide LevelCopies;
    DeepShallow(disk, levels, out - 1, k);
    assert DeepCopies(disk, levels, out - 1, k) == DeepCopies(disk, levels, out, k)
           + LevelCopies(disk, levels[out - 1], k);
    assert DeepCopies(disk, levels, out, k) == DeepCopies(disk, levels, out + 1, k) + LevelCopies(disk, levels[out], k);
  }

  // Installing a finished job shrinks, for every key, the block of copies its inputs held.
  lemma {:induction false} InstallShrinks(s: State, k: TsKey)
    requires Inv(s) && s.progress.Merging? && s.progress.begin == |s.progress.merged|
    ensures BlockShrinks(DeepCopies(s.disk, s.version.levels, 0, k),
                         DeepCopies(s.disk, InstallJob(s).version.levels, 0, k),
                         Kept(s.progress.ttl, k))
  {
    hide LevelCopies, CopiesIn, DeepCopies, Kept, JobShape, JobInstalled, FilterOut, LifeCycle, ManifestOk, FlushOk,
         LevelsOk,
      OutputsOk, InstallJob, BlockShrinks;
    InstallJobFields(s);
    var T, S :| JobShape(s.version.levels, s.progress.job, T, S);
    CommitKeepsLevels(s, T, S);
    InstallOutputs(s, T, S, k);
    JobShapeBasics(s.version.levels, s.progress.job, T, S);
    TargetsSplit(s.version.levels, s.disk, s.version.nextFile, s.progress.job, T, S, k);
    CommitDeep(s.version.levels, InstallJob(s).version.levels, s.disk, s.progress.job, T, S, s.progress.outputs,
               Kept(s.progress.ttl, k), k);
  }

  // ---------------------------------------------------------------- what a commit cannot touch

  // The levels without the files that the running job merges.
  function Remaining(levels: Levels, gone: set<nat>): (r: Levels)
    ensures |r| == |levels|
  {
    seq(|levels|, l requires 0 <= l < |levels| => FilterOut(levels[l], gone))
  }

  lemma {:induction false} FilterOutSame(files: seq<FileMeta>, a: set<nat>, b: set<nat>)
    requires forall f :: f in files ==> (f.number in a <==> f.number in b)
    ensures FilterOut(files, a) == FilterOut(files, b)
  {
    if files != [] {
      FilterOutSame(files[..|files| - 1], a, b);
    }
  }

  lemma {:induction false} LevelwiseSameDeep(disk: Disk, a: Levels, b: Levels, i: nat, k: TsKey)
    requires |a| == |b| && forall l :: i <= l < |a| ==> LevelCopies(disk, a[l], k) == LevelCopies(disk, b[l], k)
    ensures DeepCopies(disk, a, i, k) == DeepCopies(disk, b, i, k)
    decreases |a| - i
  {
    hide LevelCopies;
    if i < |a| {
      LevelwiseSameDeep(disk, a, b, i + 1, k);
    }
  }

  // Files of other levels than the job's stay, and so do those of its two levels that are not inputs.
  lemma {:induction false} RemainingLevel(levels: Levels, levels': Levels, job: Job, T: seq<FileMeta>, S: seq<FileMeta>,
                                          outputs: seq<FileMeta>, l: nat)
    requires |levels| == MaxLevel && |levels'| == MaxLevel && JobShape(levels, job, T, S) && NumbersUnique(levels)
    requires JobInstalled(levels, levels', job, T, S, outputs) && Ascending(levels[job.outputLevel - 1])
    requires l < MaxLevel
    ensures levels'[l] == FilterOut(levels[l], InputNumbers(job.inputs))
                          + (if l == job.outputLevel then outputs else [])
  {
    hide FilterOut, Aside, Ascending, InputNumbers, InputsAt;
    var out, gone := job.outputLevel, InputNumbers(job.inputs);
    TargetsInLevel(levels, job, T, S);
    InputNumbersSplit(job.inputs, out, T, S);
    PrefixFilteredOut(levels[out - 1], S);
    assert forall f :: f in levels[l] ==> f.number in Numbers(levels[l]);
    assert Numbers(T) <= Numbers(levels[out]) && Numbers(S) <= Numbers(levels[out - 1]);
    FilterOutNone(levels[l], {});
    FilterOutSame(levels[l], gone, if l == out then Numbers(T) else if l == out - 1 then Numbers(S) else {});
  }

  // For a key the job drops, what is left after the commit is what the files outside the job hold.
  lemma {:induction false} InstallDrops(s: State, k: TsKey)
    requires Inv(s) && s.progress.Merging? && s.progress.begin == |s.progress.merged| && !Kept(s.progress.ttl, k)
    ensures DeepCopies(s.disk, InstallJob(s).version.levels, 0, k)
            == DeepCopies(s.disk, Remaining(s.version.levels, s.compacting), 0, k)
  {
    hide LevelCopies, CopiesIn, Kept, JobInstalled, FilterOut, LifeCycle, ManifestOk, FlushOk, OutputsOk, InstallJob,
         PairwiseDisjoint, MetaOk, JobShape, NumbersUnique, Ascending, DeepCopies;
    InstallJobFields(s);
    var T, S :| JobShape(s.version.levels, s.progress.job, T, S);
    var levels, levels' := s.version.levels, InstallJob(s).version.levels;
    var rest := Remaining(levels, s.compacting);
    CommitKeepsLevels(s, T, S);
    InstallOutputs(s, T, S, k);
    JobShapeBasics(levels, s.progress.job, T, S);
    forall l | 0 <= l < MaxLevel ensures LevelCopies(s.disk, levels'[l], k) == LevelCopies(s.disk, rest[l], k) {
      RemainingLevel(levels, levels', s.progress.job, T, S, s.progress.outputs, l);
      LevelCopiesConcat(s.disk, rest[l], s.progress.outputs, k);
      assert rest[l] + [] == rest[l];
      assert LevelCopies(s.disk, rest[l], k) + [] == LevelCopies(s.disk, rest[l], k);
    }
    LevelwiseSameDeep(s.disk, levels', rest, 0, k);
  }

  lemma {:induction false} JobShapeBasics(levels: Levels, job: Job, T: seq<FileMeta>, S: seq<FileMeta>)
    requires |levels| == MaxLevel && JobShape(levels, job, T, S)
    ensures |levels| == MaxLevel && 1 <= job.outputLevel < MaxLevel && S <= levels[job.outputLevel - 1]
    ensures job.inputs == InputsAt(job.outputLevel, T) + InputsAt(job.outputLevel - 1, S)
  {
  }

  lemma {:induction false} JobInputsSorted(levels: Levels, disk: Disk, next: nat, job: Job, T: seq<FileMeta>,
                                           S: seq<FileMeta>)
    requires LevelsOk(levels, disk, next) && JobShape(levels, job, T, S)
    ensures forall i :: i in job.inputs ==> Sorted(Content(disk, i.meta.number))
    ensures |job.inputs| == |T + S| && forall x :: 0 <= x < |job.inputs| ==> job.inputs[x].meta == (T + S)[x]
  {
    hide NumbersUnique, PairwiseDisjoint, Ascending, Aside, FilterOut, Sorted;
    TargetsInLevel(levels, job, T, S);
    InputsLocated(levels, job.inputs, job.outputLevel, T, S);
    assert forall i :: i in job.inputs ==> MetaOk(disk, i.meta);
  }

  lemma {:induction false} InstallOutputs(s: State, T: seq<FileMeta>, S: seq<FileMeta>, k: TsKey)
    requires |s.version.levels| == MaxLevel && LevelsOk(s.version.levels, s.disk, s.version.nextFile)
    requires s.progress.Merging? && OutputsOk(s) && s.progress.begin == |s.progress.merged|
    requires JobShape(s.version.levels, s.progress.job, T, S)
    ensures LevelCopies(s.disk, s.progress.outputs, k) ==
            if Kept(s.progress.ttl, k) then LastOf(LevelCopies(s.disk, T + S, k)) else []
  {
    hide LevelCopies, CopiesIn, Kept, JobShape, LevelsOk, Merge, RankInputs, Tiles;
    var p := s.progress;
    TilesCopies(s.disk, p.outputs, p.merged, p.begin, k);
    assert p.merged[..p.begin] == p.merged;
    JobInputsSorted(s.version.levels, s.disk, s.version.nextFile, p.job, T, S);
    MergedCopies(s.disk, p.job.inputs, T + S, p.ttl, k);
  }
}
