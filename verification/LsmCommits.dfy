// The actions that change the version, and those that retire files, keep the invariant.
module LsmCommits {
  import opened Types
  import opened Version
  import opened RankedMerge
  import opened Lsm
  import opened LsmInvariant
  import opened LsmSteps

  // ---------------------------------------------------------------- the manifest follows the version

  lemma {:induction false} LevelsAreSorted(levels: Levels, disk: Disk, next: nat)
    requires LevelsOk(levels, disk, next)
    ensures LevelsSorted(levels)
  {
    forall l | 0 <= l < MaxLevel ensures NonDescending(levels[l]) {
      assert Ascending(levels[l]);
    }
  }

  // The levels after an edit depend on the levels before it only.
  function AddedNumbers(adds: seq<(int, FileMeta)>): set<nat> {
    set a | a in adds :: a.1.number
  }

  lemma {:induction false} LogKeepsManifest(s: State, e: Edit)
    requires |s.version.levels| == MaxLevel && ManifestOk(s) && LevelsSorted(s.version.levels)
    requires forall a :: a in e.added ==> a.1.number < s.version.nextFile
    requires Live(LogAndApply(s, e).version.levels) <= Live(s.version.levels) + AddedNumbers(e.added)
    ensures ManifestOk(LogAndApply(s, e))
    ensures LogAndApply(s, e).version.nextFile == s.version.nextFile
  {
    var s' := LogAndApply(s, e);
    var v := ReadLines(VersionState(EmptyLevels(), 1, []), s.manifest);
    ReadLinesConcat(VersionState(EmptyLevels(), 1, []), s.manifest, EditLines(e, s.version.nextFile));
    ReadEditLines(v, e, s.version.nextFile, s.version.nextFile);
    ApplyEditSameLevels(v, s.version, e);
    assert e.added != [] ==> e.added[|e.added| - 1] in e.added;
  }

  // ---------------------------------------------------------------- flush commit

  lemma {:induction false} InstallFlushLevels(s: State)
    requires |s.version.levels| == MaxLevel && LevelsOk(s.version.levels, s.disk, s.version.nextFile)
    requires s.flush.Built? && FlushOk(s)
    ensures InstallFlush(s).version ==
            s.version.(levels := s.version.levels[0 := s.version.levels[0] + [s.flush.meta]])
  {
    hide FilterOut, SortByNumber, MetaOk, NumbersUnique, PairwiseDisjoint, InsertByNumber;
    var m := s.flush.meta;
    var e := Edit([(0, m)], []);
    var levels := s.version.levels;
    ApplyEditLevels(s.version, e);
    forall l | 0 <= l < MaxLevel
      ensures ApplyEdit(s.version, e).levels[l] == if l == 0 then levels[0] + [m] else levels[l]
    {
      FilterOutNone(levels[l], DeletedAt([], l));
      SingletonPrefix((0, m));
      assert AddedAt([(0, m)], l) == if l == 0 then [m] else [];
      assert Ascending(levels[l]);
      SortIsIdentity(levels[l] + AddedAt([(0, m)], l));
    }
  }

  lemma {:induction false} FlushKeepsLevels(levels: Levels, disk: Disk, next: nat, m: FileMeta)
    requires LevelsOk(levels, disk, next) && MetaOk(disk, m) && m.number < next && m.number !in Live(levels)
    requires forall g :: g in levels[0] ==> g.number < m.number
    ensures LevelsOk(levels[0 := levels[0] + [m]], disk, next)
    ensures Live(levels[0 := levels[0] + [m]]) == Live(levels) + {m.number}
  {
    var levels' := levels[0 := levels[0] + [m]];
    assert levels'[0] == levels[0] + [m];
    assert Numbers(levels'[0]) == Numbers(levels[0]) + {m.number};
    assert forall l :: 0 < l < MaxLevel ==> levels'[l] == levels[l];
    forall l, f | 0 < l < MaxLevel && f in levels[l] ensures f.number != m.number {
      assert f.number in Live(levels);
    }
    forall n ensures n in Live(levels') <==> n in Live(levels) + {m.number} {
      if n in Live(levels) {
        var l, f :| 0 <= l < MaxLevel && f in levels[l] && f.number == n;
        assert f in levels'[l];
      }
      if n == m.number {
        assert m in levels'[0];
      }
    }
  }

  lemma {:induction false} JobSurvivesFlush(levels: Levels, job: Job, m: FileMeta)
    requires |levels| == MaxLevel && JobOk(levels, job)
    ensures JobOk(levels[0 := levels[0] + [m]], job)
  {
    var levels' := levels[0 := levels[0] + [m]];
    var T, S :| JobShape(levels, job, T, S);
    assert S <= levels'[job.outputLevel - 1];
    assert JobShape(levels', job, T, S);
  }

  lemma {:induction false} InstallFlushKeepsManifest(s: State)
    requires Inv(s) && s.flush.Built?
    ensures ManifestOk(InstallFlush(s))
  {
    hide ProgressOk, MemoryOk, FilesOk;
    var m := s.flush.meta;
    InstallFlushLevels(s);
    LevelsAreSorted(s.version.levels, s.disk, s.version.nextFile);
    assert (0, m) in [(0, m)];
    forall l, f | 0 <= l < MaxLevel && f in InstallFlush(s).version.levels[l]
      ensures f.number in Live(s.version.levels) + AddedNumbers([(0, m)])
    {
      assert f == m || f in s.version.levels[l];
    }
    LogKeepsManifest(s, Edit([(0, m)], []));
  }

  lemma {:induction false} CommitFlushKeepsInv(s: State)
    requires Inv(s) && s.flush.Built?
    ensures Inv(CommitFlush(s))
  {
    hide LevelsOk, JobOk, ManifestOk, ApplyEdit, EditLines, Merge, RankInputs;
    var s' := CommitFlush(s);
    var m := s.flush.meta;
    InstallFlushLevels(s);
    InstallFlushKeepsManifest(s);
    assert m.number in Reserved(s);
    FlushKeepsLevels(s.version.levels, s.disk, s.version.nextFile, m);
    assert ManifestOk(s') by { ManifestFrame(InstallFlush(s), s'); }
    if s.progress != Idle {
      JobSurvivesFlush(s.version.levels, s.progress.job, m);
    }
    assert FilesOk(s') by {
      assert Reserved(s') == Reserved(s) - {m.number};
    }
    if s.progress.Merging? {
      OutputsBelowNext(s);
      JobLevels(s.version.levels, s.progress.job);
    }
  }

  lemma {:induction false} ManifestFrame(s: State, s': State)
    requires ManifestOk(s) && s'.manifest == s.manifest && s'.version == s.version
    ensures ManifestOk(s')
  {
  }

  lemma {:induction false} JobLevels(levels: Levels, job: Job)
    requires |levels| == MaxLevel && JobOk(levels, job)
    ensures 1 <= job.outputLevel < MaxLevel
  {
  }

  // ---------------------------------------------------------------- compaction commit

  lemma {:induction false} DeletionsConcat(a: seq<Input>, b: seq<Input>)
    ensures Deletions(a + b) == Deletions(a) + Deletions(b)
  {
    if b == [] {
      assert a + b == a;
    } else {
      DeletionsConcat(a, b[..|b| - 1]);
      assert (a + b)[..|a + b| - 1] == a + b[..|b| - 1];
    }
  }

  lemma {:induction false} DeletionsAt(level: nat, files: seq<FileMeta>, l: int)
    ensures DeletedAt(Deletions(InputsAt(level, files)), l) == if l == level then Numbers(files) else {}
  {
    if files != [] {
      var n := |files| - 1;
      var inputs := InputsAt(level, files);
      DeletionsAt(level, files[..n], l);
      assert inputs[..n] == InputsAt(level, files[..n]);
      assert Numbers(files) == Numbers(files[..n]) + {files[n].number};
      assert Deletions(inputs) == Deletions(inputs[..n]) + [(level as int, files[n].number)];
    }
  }

  lemma {:induction false} DeletedAtInputs(inputs: seq<Input>, out: nat, T: seq<FileMeta>, S: seq<FileMeta>, l: int)
    requires 1 <= out && inputs == InputsAt(out, T) + InputsAt(out - 1, S)
    ensures DeletedAt(Deletions(inputs), l) == if l == out then Numbers(T) else if l == out - 1 then Numbers(S) else {}
  {
    var a, b := Deletions(InputsAt(out, T)), Deletions(InputsAt(out - 1, S));
    DeletionsConcat(InputsAt(out, T), InputsAt(out - 1, S));
    DeletionsAt(out, T, l);
    DeletionsAt(out - 1, S, l);
    hide Deletions, InputsAt, Numbers;
    assert DeletedAt(a + b, l) == DeletedAt(a, l) + DeletedAt(b, l);
  }

  lemma {:induction false} PrefixFilteredOut(files: seq<FileMeta>, S: seq<FileMeta>)
    requires Ascending(files) && S <= files
    ensures FilterOut(files, Numbers(S)) == files[|S|..]
  {
    hide FilterOut;
    var rest := files[|S|..];
    assert files == S + rest;
    FilterOutConcat(S, rest, Numbers(S));
    FilterOutAll(S, Numbers(S));
    forall f | f in rest ensures f.number !in Numbers(S) {
      var j :| 0 <= j < |rest| && rest[j] == f;
      forall g | g in S ensures g.number != f.number {
        var i :| 0 <= i < |S| && S[i] == g;
        assert files[i] == g && files[|S| + j] == f;
      }
    }
    FilterOutNone(rest, Numbers(S));
  }

  // What the commit leaves: the sources are gone from their level, the outputs follow what stays in theirs.
  ghost predicate JobInstalled(levels: Levels, levels': Levels, job: Job, T: seq<FileMeta>, S: seq<FileMeta>,
                               outputs: seq<FileMeta>)
    requires |levels| == MaxLevel && |levels'| == MaxLevel && 1 <= job.outputLevel < MaxLevel
             && S <= levels[job.outputLevel - 1]
  {
    var out := job.outputLevel;
    && levels'[out - 1] == levels[out - 1][|S|..]
    && levels'[out] == FilterOut(levels[out], Numbers(T)) + outputs
    && forall l :: 0 <= l < MaxLevel && l != out && l != out - 1 ==> levels'[l] == levels[l]
  }

  lemma {:induction false} KeptThenOutputs(files: seq<FileMeta>, gone: set<nat>, outputs: seq<FileMeta>)
    requires Ascending(files) && Ascending(outputs)
    requires forall f, g :: f in outputs && g in files ==> g.number < f.number
    ensures SortByNumber(FilterOut(files, gone) + outputs) == FilterOut(files, gone) + outputs
    ensures Ascending(FilterOut(files, gone) + outputs)
  {
    var kept := FilterOut(files, gone);
    FilterOutMembers(files, gone);
    assert forall i :: 0 <= i < |kept| ==> kept[i] in kept && kept[i] in files;
    assert forall i :: 0 <= i < |outputs| ==> outputs[i] in outputs;
    SortIsIdentity(kept + outputs);
  }

  lemma {:induction false} InstallJobLevel(v: VersionState, job: Job, outputs: seq<FileMeta>, T: seq<FileMeta>,
                                           S: seq<FileMeta>, l: nat)
    requires |v.levels| == MaxLevel && 1 <= job.outputLevel < MaxLevel && l < MaxLevel
    requires job.inputs == InputsAt(job.outputLevel, T) + InputsAt(job.outputLevel - 1, S)
    requires S <= v.levels[job.outputLevel - 1] && Ascending(v.levels[l]) && Ascending(outputs)
    requires forall f, g :: f in outputs && g in v.levels[job.outputLevel] ==> g.number < f.number
    ensures ApplyEdit(v, Edit(Additions(job.outputLevel, outputs), Deletions(job.inputs))).levels[l] ==
            if l == job.outputLevel then FilterOut(v.levels[l], Numbers(T)) + outputs
            else if l == job.outputLevel - 1 then v.levels[l][|S|..] else v.levels[l]
  {
    hide FilterOut, SortByNumber, Deletions, Additions, InputsAt, ApplyEdit, Numbers, DeletedAt, AddedAt;
    var out := job.outputLevel;
    var e := Edit(Additions(out, outputs), Deletions(job.inputs));
    var files := v.levels[l];
    ApplyEditLevels(v, e);
    assert ApplyEdit(v, e).levels[l] == SortByNumber(FilterOut(files, DeletedAt(e.deleted, l)) + AddedAt(e.added, l));
    DeletedAtInputs(job.inputs, out, T, S, l);
    AdditionsAt(out, outputs, l);
    if l == out {
      KeptThenOutputs(files, Numbers(T), outputs);
    } else if l == out - 1 {
      PrefixFilteredOut(files, S);
      SuffixAscending(files, |S|);
      assert files[|S|..] + [] == files[|S|..];
      SortIsIdentity(files[|S|..]);
    } else {
      FilterOutNone(files, {});
      assert files + [] == files;
      SortIsIdentity(files);
    }
  }

  lemma {:induction false} SuffixAscending(files: seq<FileMeta>, n: nat)
    requires Ascending(files) && n <= |files|
    ensures Ascending(files[n..]) && NonDescending(files[n..])
  {
  }

  lemma {:induction false} InstallJobLevels(s: State, T: seq<FileMeta>, S: seq<FileMeta>)
    requires |s.version.levels| == MaxLevel && LevelsOk(s.version.levels, s.disk, s.version.nextFile)
    requires s.progress.Merging? && OutputsOk(s) && JobShape(s.version.levels, s.progress.job, T, S)
    ensures JobInstalled(s.version.levels, InstallJob(s).version.levels, s.progress.job, T, S, s.progress.outputs)
  {
    hide Tiles, Merge, RankInputs, NumbersUnique, PairwiseDisjoint, MetaOk, Aside, FilterOut, Numbers, InputsAt,
         Deletions, Additions, ApplyEdit, EditLines;
    forall l | 0 <= l < MaxLevel
      ensures InstallJob(s).version.levels[l] ==
              if l == s.progress.job.outputLevel then FilterOut(s.version.levels[l], Numbers(T)) + s.progress.outputs
              else if l == s.progress.job.outputLevel - 1 then s.version.levels[l][|S|..] else s.version.levels[l]
    {
      InstallJobLevel(s.version, s.progress.job, s.progress.outputs, T, S, l);
    }
  }

  // ---------------------------------------------------------------- outputs fit into their level

  lemma {:induction false} RankedFromInput(disk: Disk, inputs: seq<Input>, ttl: TtlMap, x: Ranked)
    requires x in RankInputs(disk, inputs, ttl)
    ensures exists i :: 0 <= i < |inputs| && x.age == -i && x.record in Content(disk, inputs[i].meta.number)
                        && Kept(ttl, x.record.key)
  {
    var n := |inputs| - 1;
    RankFileMembers(Content(disk, inputs[n].meta.number), ttl, -n);
    if x in RankFile(Content(disk, inputs[n].meta.number), ttl, -n) {
      assert x.age == -n && x.record in Content(disk, inputs[n].meta.number);
    } else {
      RankedFromInput(disk, inputs[..n], ttl, x);
      var i :| 0 <= i < n && x.age == -i && x.record in Content(disk, inputs[..n][i].meta.number);
      assert x.record in Content(disk, inputs[i].meta.number);
    }
  }

  lemma {:induction false} RankFileMembers(run: seq<Record>, ttl: TtlMap, age: int)
    ensures forall x :: x in RankFile(run, ttl, age) <==> x.age == age && x.record in run && Kept(ttl, x.record.key)
  {
    if run != [] {
      var n := |run| - 1;
      RankFileMembers(run[..n], ttl, age);
      assert run == run[..n] + [run[n]];
      assert Ranked(run[n], age).record == run[n];
      forall x: Ranked | x.age == age && x.record == run[n] ensures x == Ranked(run[n], age) {}
    }
  }

  lemma {:induction false} MergedFromInput(disk: Disk, inputs: seq<Input>, ttl: TtlMap, r: Record)
    requires r in Merge(RankInputs(disk, inputs, ttl))
    ensures exists i :: i in inputs && r in Content(disk, i.meta.number)
  {
    var all := RankInputs(disk, inputs, ttl);
    SortOrdered(all);
    FirstsMembers(SortRanked(all), r);
    var q :| 0 <= q < |SortRanked(all)| && SortRanked(all)[q].record == r;
    assert SortRanked(all)[q] in SortRanked(all);
    RankedFromInput(disk, inputs, ttl, SortRanked(all)[q]);
    var i :| 0 <= i < |inputs| && r in Content(disk, inputs[i].meta.number);
    assert inputs[i] in inputs;
  }

  // A file aside of all inputs is disjoint from a file whose ends are input keys.
  lemma {:induction false} AsideDisjoint(disk: Disk, r: FileMeta, files: seq<FileMeta>, o: FileMeta, f: FileMeta,
                                         g: FileMeta, a: Record, b: Record)
    requires Aside(r, files) && f in files && g in files && MetaOk(disk, f) && MetaOk(disk, g)
    requires a in disk[f.number] && a.key == o.smallest && b in disk[g.number] && b.key == o.largest
    ensures Disjoint(r, o)
  {
    KeysWithinBounds(disk, f, a);
    KeysWithinBounds(disk, g, b);
    LessTotal(f.smallest, a.key);
    LessTotal(b.key, g.largest);
    if Less(r.largest, f.smallest) && Less(f.smallest, a.key) { LessTransitive(r.largest, f.smallest, a.key); }
    if Less(g.largest, r.smallest) && Less(b.key, g.largest) { LessTransitive(b.key, g.largest, r.smallest); }
  }

  lemma {:induction false} OutputFacts(s: State)
    requires Inv(s) && s.progress.Merging?
    ensures |s.version.levels| == MaxLevel && LevelsOk(s.version.levels, s.disk, s.version.nextFile)
    ensures var p := s.progress;
            && Tiles(s.disk, p.outputs, p.merged, p.begin) && Sorted(p.merged) && p.begin <= |p.merged|
            && p.merged == Merge(RankInputs(s.disk, p.job.inputs, p.ttl))
            && forall f :: f in p.outputs ==> MetaOk(s.disk, f)
  {
    hide LevelsOk, FlushOk, MemoryOk, FilesOk, ManifestOk, JobOk, Tiles, Sorted, Ascending, MetaOk, Merge, RankInputs;
  }

  lemma {:induction false} OutputsAside(s: State, T: seq<FileMeta>, S: seq<FileMeta>, r: FileMeta, o: FileMeta)
    requires Inv(s) && s.progress.Merging? && JobShape(s.version.levels, s.progress.job, T, S)
    requires s.progress.job.outputLevel == 1 && Aside(r, T + S) && o in s.progress.outputs
    ensures Disjoint(r, o)
  {
    hide Inv, JobOk, NumbersUnique, PairwiseDisjoint, FilterOut, Aside, Merge, RankInputs, Disjoint, Tiles, Sorted;
    OutputFacts(s);
    var p := s.progress;
    TilesOrdered(s.disk, p.outputs, p.merged, p.begin);
    var a :| a in p.merged && a.key == o.smallest;
    var b :| b in p.merged && b.key == o.largest;
    MergedFromInput(s.disk, p.job.inputs, p.ttl, a);
    MergedFromInput(s.disk, p.job.inputs, p.ttl, b);
    var i :| i in p.job.inputs && a in Content(s.disk, i.meta.number);
    var j :| j in p.job.inputs && b in Content(s.disk, j.meta.number);
    TargetsInLevel(s.version.levels, p.job, T, S);
    InputMetas(p.job.inputs, 1, T, S, i);
    InputMetas(p.job.inputs, 1, T, S, j);
    AsideDisjoint(s.disk, r, T + S, o, i.meta, j.meta, a, b);
  }

  lemma {:induction false} InputMetas(inputs: seq<Input>, out: nat, T: seq<FileMeta>, S: seq<FileMeta>, i: Input)
    requires 1 <= out && inputs == InputsAt(out, T) + InputsAt(out - 1, S) && i in inputs
    ensures i.meta in T + S
  {
    var x :| 0 <= x < |inputs| && inputs[x] == i;
    assert i.meta == (T + S)[x];
  }

  // ---------------------------------------------------------------- the levels after a commit

  lemma {:induction false} FilterOutDisjoint(files: seq<FileMeta>, gone: set<nat>)
    requires PairwiseDisjoint(files)
    ensures PairwiseDisjoint(FilterOut(files, gone))
  {
    hide Disjoint;
    if files != [] {
      var n := |files| - 1;
      FilterOutDisjoint(files[..n], gone);
      FilterOutMembers(files[..n], gone);
      var r := FilterOut(files[..n], gone);
      assert forall i :: 0 <= i < |r| ==> r[i] in r && r[i] in files[..n];
      assert forall f :: f in files[..n] ==> Disjoint(f, files[n]);
    }
  }

  lemma {:induction false} ConcatDisjoint(a: seq<FileMeta>, b: seq<FileMeta>)
    requires PairwiseDisjoint(a) && PairwiseDisjoint(b)
    requires forall f, g :: f in a && g in b ==> Disjoint(f, g)
    ensures PairwiseDisjoint(a + b)
  {
  }

  // The outputs of a finished job, as the levels will receive them.
  ghost predicate OutputsFit(levels: Levels, disk: Disk, next: nat, out: nat, outputs: seq<FileMeta>)
    requires |levels| == MaxLevel && 1 <= out < MaxLevel
  {
    && (forall f :: f in outputs ==> MetaOk(disk, f) && f.number < next && disk[f.number] != [])
    && Ascending(outputs) && PairwiseDisjoint(outputs)
    && Numbers(outputs) !! Live(levels)
    && (forall f, g :: f in outputs && g in levels[out] ==> g.number < f.number)
  }

  // The commit, read as a move of files: A leaves level out, B leaves the level above, outputs arrive.
  ghost predicate Moved(levels: Levels, levels': Levels, out: nat, A: set<nat>, B: set<nat>, outputs: seq<FileMeta>)
    requires |levels| == MaxLevel && |levels'| == MaxLevel && 1 <= out < MaxLevel
  {
    && A <= Numbers(levels[out]) && B <= Numbers(levels[out - 1])
    && (forall f :: f in levels'[out] <==> (f in levels[out] && f.number !in A) || f in outputs)
    && (forall f :: f in levels'[out - 1] <==> f in levels[out - 1] && f.number !in B)
    && forall l :: 0 <= l < MaxLevel && l != out && l != out - 1 ==> levels'[l] == levels[l]
  }

  lemma {:induction false} InstalledMoves(levels: Levels, levels': Levels, job: Job, T: seq<FileMeta>,
                                          S: seq<FileMeta>, outputs: seq<FileMeta>)
    requires |levels| == MaxLevel && |levels'| == MaxLevel && JobShape(levels, job, T, S)
    requires JobInstalled(levels, levels', job, T, S, outputs) && Ascending(levels[job.outputLevel - 1])
    ensures Moved(levels, levels', job.outputLevel, Numbers(T), Numbers(S), outputs)
    ensures InputNumbers(job.inputs) == Numbers(T) + Numbers(S)
  {
    var out := job.outputLevel;
    TargetsInLevel(levels, job, T, S);
    InputNumbersSplit(job.inputs, out, T, S);
    FilterOutMembers(levels[out], Numbers(T));
    PrefixFilteredOut(levels[out - 1], S);
    FilterOutMembers(levels[out - 1], Numbers(S));
  }

  lemma {:induction false} MovedNumbers(levels: Levels, levels': Levels, out: nat, A: set<nat>, B: set<nat>,
                                        outputs: seq<FileMeta>)
    requires |levels| == MaxLevel && |levels'| == MaxLevel && 1 <= out < MaxLevel
    requires Moved(levels, levels', out, A, B, outputs) && NumbersUnique(levels) && Numbers(outputs) !! Live(levels)
    ensures NumbersUnique(levels')
  {
    forall l | 0 <= l < MaxLevel
      ensures Numbers(levels'[l]) <= Numbers(levels[l]) + (if l == out then Numbers(outputs) else {})
      ensures Numbers(levels[l]) <= Live(levels)
    {
    }
    hide Numbers, Live;
    forall l, m | 0 <= l < m < MaxLevel ensures Numbers(levels'[l]) !! Numbers(levels'[m]) {
      assert Numbers(levels[l]) !! Numbers(levels[m]);
    }
  }

  lemma {:induction false} GoneOnlyThere(levels: Levels, out: nat, A: set<nat>, B: set<nat>, l: nat, f: FileMeta)
    requires |levels| == MaxLevel && 1 <= out < MaxLevel && NumbersUnique(levels) && l < MaxLevel && f in levels[l]
    requires A <= Numbers(levels[out]) && B <= Numbers(levels[out - 1])
    ensures f.number in A ==> l == out
    ensures f.number in B ==> l == out - 1
  {
    assert f.number in Numbers(levels[l]);
    hide Numbers;
    assert l < out ==> Numbers(levels[l]) !! Numbers(levels[out]);
    assert out < l ==> Numbers(levels[out]) !! Numbers(levels[l]);
    assert l < out - 1 ==> Numbers(levels[l]) !! Numbers(levels[out - 1]);
    assert out - 1 < l ==> Numbers(levels[out - 1]) !! Numbers(levels[l]);
  }

  lemma {:induction false} MovedLive(levels: Levels, levels': Levels, out: nat, A: set<nat>, B: set<nat>,
                                     outputs: seq<FileMeta>)
    requires |levels| == MaxLevel && |levels'| == MaxLevel && 1 <= out < MaxLevel
    requires Moved(levels, levels', out, A, B, outputs) && NumbersUnique(levels) && Numbers(outputs) !! Live(levels)
    ensures Live(levels') == (Live(levels) - (A + B)) + Numbers(outputs)
  {
    forall l, f | 0 <= l < MaxLevel && f in levels'[l]
      ensures f.number in (Live(levels) - (A + B)) + Numbers(outputs)
    {
      if f !in outputs {
        assert f in levels[l];
        GoneOnlyThere(levels, out, A, B, l, f);
      }
    }
    forall l, f | 0 <= l < MaxLevel && f in levels[l] && f.number !in A && f.number !in B
      ensures f.number in Live(levels') {
      assert f in levels'[l];
    }
    forall f | f in outputs ensures f.number in Live(levels') {
      assert f in levels'[out];
    }
  }

  lemma {:induction false} ShapeBounds(levels: Levels, job: Job, T: seq<FileMeta>, S: seq<FileMeta>)
    requires |levels| == MaxLevel && JobShape(levels, job, T, S)
    ensures 1 <= job.outputLevel < MaxLevel && S <= levels[job.outputLevel - 1]
  {
    hide Aside, FilterOut, Numbers;
  }

  lemma {:induction false} JobKeepsLevels(levels: Levels, levels': Levels, disk: Disk, next: nat, job: Job,
                       T: seq<FileMeta>, S: seq<FileMeta>, outputs: seq<FileMeta>)
    requires LevelsOk(levels, disk, next) && |levels'| == MaxLevel && JobShape(levels, job, T, S)
    requires JobInstalled(levels, levels', job, T, S, outputs)
             && OutputsFit(levels, disk, next, job.outputLevel, outputs)
    requires job.outputLevel == 1 ==>
               forall r, o :: r in FilterOut(levels[1], Numbers(T)) && o in outputs ==> Disjoint(r, o)
    ensures LevelsOk(levels', disk, next)
  {
    hide MetaOk, NumbersUnique, Disjoint, Numbers, Moved, PairwiseDisjoint, Ascending, Aside, FilterOut, Live,
         JobShape, JobInstalled;
    ShapeBounds(levels, job, T, S);
    var out := job.outputLevel;
    assert Ascending(levels[out]) && Ascending(levels[out - 1]);
    InstalledMoves(levels, levels', job, T, S, outputs);
    MovedNumbers(levels, levels', out, Numbers(T), Numbers(S), outputs);
    MovedMetas(levels, levels', disk, next, out, Numbers(T), Numbers(S), outputs);
    JobKeepsOrder(levels, levels', job, T, S, outputs);
  }

  lemma {:induction false} JobKeepsOrder(levels: Levels, levels': Levels, job: Job, T: seq<FileMeta>, S: seq<FileMeta>,
                                         outputs: seq<FileMeta>)
    requires |levels| == MaxLevel && |levels'| == MaxLevel && 1 <= job.outputLevel < MaxLevel
             && S <= levels[job.outputLevel - 1]
    requires JobInstalled(levels, levels', job, T, S, outputs)
    requires (forall l :: 0 <= l < MaxLevel ==> Ascending(levels[l])) && Ascending(outputs)
    requires PairwiseDisjoint(levels[1]) && PairwiseDisjoint(outputs)
    requires forall f, g :: f in outputs && g in levels[job.outputLevel] ==> g.number < f.number
    requires job.outputLevel == 1 ==>
               forall r, o :: r in FilterOut(levels[1], Numbers(T)) && o in outputs ==> Disjoint(r, o)
    ensures forall l :: 0 <= l < MaxLevel ==> Ascending(levels'[l])
    ensures PairwiseDisjoint(levels'[1])
  {
    hide Disjoint, Numbers, FilterOut;
    var out := job.outputLevel;
    KeptThenOutputs(levels[out], Numbers(T), outputs);
    SuffixAscending(levels[out - 1], |S|);
    if out == 1 {
      FilterOutDisjoint(levels[1], Numbers(T));
      ConcatDisjoint(FilterOut(levels[1], Numbers(T)), outputs);
    }
  }

  lemma {:induction false} MovedMetas(levels: Levels, levels': Levels, disk: Disk, next: nat, out: nat, A: set<nat>,
                                      B: set<nat>, outputs: seq<FileMeta>)
    requires LevelsOk(levels, disk, next) && |levels'| == MaxLevel && 1 <= out < MaxLevel
    requires Moved(levels, levels', out, A, B, outputs) && OutputsFit(levels, disk, next, out, outputs)
    ensures forall l, f :: 0 <= l < MaxLevel && f in levels'[l] ==> MetaOk(disk, f) && f.number < next
    ensures forall l, f :: 0 < l < MaxLevel && f in levels'[l] ==> disk[f.number] != []
  {
    hide NumbersUnique, Numbers, PairwiseDisjoint, Ascending, Sorted;
    forall l, f | 0 <= l < MaxLevel && f in levels'[l]
      ensures MetaOk(disk, f) && f.number < next && (l > 0 ==> f.number in disk && disk[f.number] != [])
    {
      assert f in levels[l] || f in outputs;
    }
  }

  lemma {:induction false} InputNumbersConcat(a: seq<Input>, b: seq<Input>)
    ensures InputNumbers(a + b) == InputNumbers(a) + InputNumbers(b)
  {
    forall i | i in a + b ensures i.meta.number in InputNumbers(a) + InputNumbers(b) {
      assert i in a || i in b;
    }
    assert forall i :: i in a || i in b ==> i in a + b;
  }

  lemma {:induction false} InputNumbersAt(level: nat, files: seq<FileMeta>)
    ensures InputNumbers(InputsAt(level, files)) == Numbers(files)
  {
    var r := InputsAt(level, files);
    forall f | f in files ensures f.number in InputNumbers(r) {
      var x :| 0 <= x < |files| && files[x] == f;
      assert r[x] in r && r[x].meta == f;
    }
  }

  lemma {:induction false} InputNumbersSplit(inputs: seq<Input>, out: nat, T: seq<FileMeta>, S: seq<FileMeta>)
    requires 1 <= out && inputs == InputsAt(out, T) + InputsAt(out - 1, S)
    ensures InputNumbers(inputs) == Numbers(T) + Numbers(S)
  {
    hide InputNumbers, Numbers, InputsAt;
    InputNumbersConcat(InputsAt(out, T), InputsAt(out - 1, S));
    InputNumbersAt(out, T);
    InputNumbersAt(out - 1, S);
  }

  // ---------------------------------------------------------------- the files of a commit

  function SetOf(s: seq<nat>): set<nat> {
    set n | n in s
  }

  // What a commit does to the life cycle: inputs turn obsolete, outputs go live.
  lemma {:induction false} CommitLifeCycle(onDisk: set<nat>, next: nat, readers: seq<nat>, obsolete: seq<nat>,
                                           pending: seq<Pending>,
                        live: set<nat>, reserved: set<nat>, held: set<nat>,
                        ins: seq<nat>, outs: seq<nat>, reserved': set<nat>)
    requires LifeCycle(onDisk, next, readers, obsolete, pending, live, reserved, held)
    requires Distinct(ins) && Distinct(outs)
    requires forall n :: n in ins ==> n in live
    requires forall n :: n in outs ==> n in reserved && n !in reserved'
    requires reserved' <= reserved
    ensures LifeCycle(onDisk, next, readers + outs, obsolete + ins, pending,
                      (live - SetOf(ins)) + SetOf(outs), reserved', held)
  {
    DistinctConcat(readers, outs);
    DistinctConcat(obsolete, ins);
    hide Distinct;
    forall p | p in pending ensures p.number !in outs {
      assert p.number in PendingNumbers(pending);
    }
  }

  lemma {:induction false} DistinctConcat(a: seq<nat>, b: seq<nat>)
    requires Distinct(a) && Distinct(b) && forall n :: n in b ==> n !in a
    ensures Distinct(a + b)
  {
    forall i, j | 0 <= i < j < |a + b| ensures (a + b)[i] != (a + b)[j] {
      if i < |a| <= j {
        assert (a + b)[j] == b[j - |a|] && b[j - |a|] in b;
        assert (a + b)[i] in a;
      }
    }
  }

  lemma {:induction false} NumbersAscendingDistinct(files: seq<FileMeta>)
    requires Ascending(files)
    ensures Distinct(NumberList(files))
    ensures SetOf(NumberList(files)) == Numbers(files)
  {
    forall f | f in files ensures f.number in NumberList(files) {
      var i :| 0 <= i < |files| && files[i] == f;
      assert NumberList(files)[i] == f.number;
    }
    forall n | n in NumberList(files) ensures n in Numbers(files) {
      var i :| 0 <= i < |files| && NumberList(files)[i] == n;
      assert files[i] in files;
    }
  }

  function InputList(inputs: seq<Input>): (r: seq<nat>)
    ensures |r| == |inputs|
    ensures forall i :: 0 <= i < |r| ==> r[i] == inputs[i].meta.number
  {
    if inputs == [] then [] else InputList(inputs[..|inputs| - 1]) + [inputs[|inputs| - 1].meta.number]
  }

  lemma {:induction false} InputListSet(inputs: seq<Input>)
    ensures SetOf(InputList(inputs)) == InputNumbers(inputs)
  {
    forall i | i in inputs ensures i.meta.number in InputList(inputs) {
      var x :| 0 <= x < |inputs| && inputs[x] == i;
      assert InputList(inputs)[x] == i.meta.number;
    }
    forall n | n in InputList(inputs) ensures n in InputNumbers(inputs) {
      var x :| 0 <= x < |inputs| && InputList(inputs)[x] == n;
      assert inputs[x] in inputs;
    }
  }

  lemma {:induction false} InputListSplit(inputs: seq<Input>, out: nat, T: seq<FileMeta>, S: seq<FileMeta>)
    requires 1 <= out && inputs == InputsAt(out, T) + InputsAt(out - 1, S)
    ensures InputList(inputs) == NumberList(T) + NumberList(S)
  {
    forall x | 0 <= x < |inputs| ensures InputList(inputs)[x] == (NumberList(T) + NumberList(S))[x] {
      assert if x < |T| then inputs[x] == Input(out, T[x]) else inputs[x] == Input(out - 1, S[x - |T|]);
    }
  }

  lemma {:induction false} JobListsAscend(levels: Levels, job: Job, T: seq<FileMeta>, S: seq<FileMeta>)
    requires |levels| == MaxLevel && JobShape(levels, job, T, S)
    requires Ascending(levels[job.outputLevel]) && Ascending(levels[job.outputLevel - 1])
    ensures Ascending(T) && Ascending(S)
  {
    hide Aside;
    FilterOutMembers(levels[job.outputLevel], Numbers(levels[job.outputLevel]) - Numbers(T));
    hide FilterOut;
    var above := levels[job.outputLevel - 1];
    assert forall i :: 0 <= i < |S| ==> S[i] == above[i];
  }

  lemma {:induction false} ListsDistinct(lower: seq<FileMeta>, upper: seq<FileMeta>, T: seq<FileMeta>, S: seq<FileMeta>)
    requires Ascending(T) && Ascending(S) && Numbers(lower) !! Numbers(upper)
    requires (forall f :: f in T ==> f in lower) && forall f :: f in S ==> f in upper
    ensures Distinct(NumberList(T) + NumberList(S))
  {
    NumbersAscendingDistinct(T);
    NumbersAscendingDistinct(S);
    hide Distinct, Ascending;
    forall n | n in NumberList(S) ensures n !in NumberList(T) {
      assert n in SetOf(NumberList(S));
      assert n in Numbers(upper);
      assert n !in SetOf(NumberList(T));
    }
    DistinctConcat(NumberList(T), NumberList(S));
  }

  lemma {:induction false} InputsDistinct(levels: Levels, job: Job, T: seq<FileMeta>, S: seq<FileMeta>)
    requires |levels| == MaxLevel && JobShape(levels, job, T, S) && NumbersUnique(levels)
    requires forall l :: 0 <= l < MaxLevel ==> Ascending(levels[l])
    ensures Distinct(InputList(job.inputs))
  {
    hide FilterOut, Aside, Distinct, Numbers;
    var out := job.outputLevel;
    TargetsInLevel(levels, job, T, S);
    JobListsAscend(levels, job, T, S);
    InputListSplit(job.inputs, out, T, S);
    assert forall f :: f in S ==> f in levels[out - 1];
    ListsDistinct(levels[out], levels[out - 1], T, S);
  }

  lemma {:induction false} DeletionsObsolete(v: VersionState, inputs: seq<Input>)
    requires |v.levels| == MaxLevel && Distinct(InputList(inputs))
    requires forall i :: i in inputs ==> InRange(i.level) && i.meta in v.levels[i.level]
    ensures ApplyDeletes(v, Deletions(inputs)).obsolete == v.obsolete + InputList(inputs)
  {
    var ds := Deletions(inputs);
    forall i | 0 <= i < |ds| ensures InRange(ds[i].0) && HasNumber(v.levels[ds[i].0], ds[i].1) {
      assert inputs[i] in inputs;
      assert inputs[i].meta.number == ds[i].1;
    }
    forall i, j | 0 <= i < j < |ds| ensures ds[i].1 != ds[j].1 {
      assert InputList(inputs)[i] != InputList(inputs)[j];
    }
    DeletesObsolete(v, ds);
    hide ApplyDeletes, HasNumber;
    var o := ApplyDeletes(v, ds).obsolete;
    forall x | 0 <= x < |o| ensures o[x] == (v.obsolete + InputList(inputs))[x] {
      if x >= |v.obsolete| {
        var y := x - |v.obsolete|;
        assert o[|v.obsolete| + y] == ds[y].1;
      }
    }
  }

  lemma {:induction false} InstallObsolete(s: State, T: seq<FileMeta>, S: seq<FileMeta>)
    requires |s.version.levels| == MaxLevel && LevelsOk(s.version.levels, s.disk, s.version.nextFile)
    requires s.progress.Merging? && JobShape(s.version.levels, s.progress.job, T, S)
    ensures InstallJob(s).version.obsolete == s.version.obsolete + InputList(s.progress.job.inputs)
    ensures Distinct(InputList(s.progress.job.inputs))
  {
    InputsDistinct(s.version.levels, s.progress.job, T, S);
    assert JobOk(s.version.levels, s.progress.job);
    hide JobShape;
    InputsInVersion(s.version.levels, s.progress.job);
    hide LevelsOk, JobOk, Deletions, ApplyDeletes, EditLines, Distinct, InputList, Live;
    DeletionsObsolete(s.version, s.progress.job.inputs);
  }

  // ---------------------------------------------------------------- the commit as a whole

  // The check before a commit never fails: no one but the job removes its inputs.
  lemma {:induction false} InputsStayValid(s: State)
    requires |s.version.levels| == MaxLevel && s.progress != Idle && JobOk(s.version.levels, JobOf(s.progress))
    ensures InputsValid(s.version.levels, JobOf(s.progress).inputs)
  {
    InputsInVersion(s.version.levels, JobOf(s.progress));
    hide JobOk;
    forall i | i in JobOf(s.progress).inputs ensures HasNumber(s.version.levels[i.level], i.meta.number) {
      assert i.meta in s.version.levels[i.level];
    }
  }

  lemma {:induction false} JobOutputsFit(s: State)
    requires Inv(s) && s.progress.Merging?
    ensures 1 <= s.progress.job.outputLevel < MaxLevel
    ensures OutputsFit(s.version.levels, s.disk, s.version.nextFile, s.progress.job.outputLevel, s.progress.outputs)
  {
    hide ManifestOk, FlushOk, MemoryOk, LevelsOk, Merge, RankInputs;
    var p := s.progress;
    JobLevels(s.version.levels, p.job);
    hide JobOk;
    TilesOrdered(s.disk, p.outputs, p.merged, p.begin);
    hide Tiles, PairwiseDisjoint;
    assert Numbers(p.outputs) <= Reserved(s);
  }

  lemma {:induction false} AdditionsNumbers(level: int, files: seq<FileMeta>)
    ensures AddedNumbers(Additions(level, files)) == Numbers(files)
    ensures forall a :: a in Additions(level, files) ==> a.1 in files
  {
    var adds := Additions(level, files);
    forall f | f in files ensures f.number in AddedNumbers(adds) {
      var i :| 0 <= i < |files| && files[i] == f;
      assert adds[i] in adds;
    }
    forall a | a in adds ensures a.1 in files {
      var i :| 0 <= i < |adds| && adds[i] == a;
      assert files[i] in files;
    }
  }

  // What InstallJob leaves alone.
  lemma {:induction false} InstallJobFields(s: State)
    requires s.progress.Merging? && |s.version.levels| == MaxLevel
    ensures var s' := InstallJob(s);
            s'.mem == s.mem && s'.imm == s.imm && s'.flush == s.flush && s'.disk == s.disk && s'.pending == s.pending
            && s'.views == s.views && s'.progress == s.progress && s'.batches == s.batches && s'.wal == s.wal
            && s'.compacting == s.compacting && s'.ttl == s.ttl
            && s'.readers == s.readers + NumberList(s.progress.outputs) && |s'.version.levels| == MaxLevel
  {
  }

  lemma {:induction false} CommitKeepsManifest(s: State)
    requires Inv(s) && s.progress.Merging?
    requires Live(InstallJob(s).version.levels) <= Live(s.version.levels) + Numbers(s.progress.outputs)
    ensures ManifestOk(InstallJob(s))
    ensures InstallJob(s).version.nextFile == s.version.nextFile
  {
    JobOutputsFit(s);
    LevelsAreSorted(s.version.levels, s.disk, s.version.nextFile);
    AdditionsNumbers(s.progress.job.outputLevel, s.progress.outputs);
    hide FlushOk, MemoryOk, LevelsOk, ProgressOk, LifeCycle, Live, EditLines, ApplyEdit, Recover, LevelsSorted,
         AddedNumbers, Numbers, Additions, Deletions;
    LogKeepsManifest(s, JobEdit(s.progress));
  }

  lemma {:induction false} CommitKeepsLevels(s: State, T: seq<FileMeta>, S: seq<FileMeta>)
    requires Inv(s) && s.progress.Merging? && JobShape(s.version.levels, s.progress.job, T, S)
    ensures LevelsOk(InstallJob(s).version.levels, s.disk, s.version.nextFile)
    ensures Live(InstallJob(s).version.levels) ==
            (Live(s.version.levels) - InputNumbers(s.progress.job.inputs)) + Numbers(s.progress.outputs)
    ensures JobInstalled(s.version.levels, InstallJob(s).version.levels, s.progress.job, T, S, s.progress.outputs)
  {
    JobOutputsFit(s);
    hide FlushOk, MemoryOk, LifeCycle, ManifestOk, EditLines, ApplyEdit, OutputsOk, Disjoint, FilterOut, Deletions,
         Additions;
    var p, levels, levels' := s.progress, s.version.levels, InstallJob(s).version.levels;
    InstallJobLevels(s, T, S);
    if p.job.outputLevel == 1 {
      forall r, o | r in FilterOut(levels[1], Numbers(T)) && o in p.outputs ensures Disjoint(r, o) {
        OutputsAside(s, T, S, r, o);
      }
    }
    assert Ascending(levels[p.job.outputLevel - 1]) && NumbersUnique(levels);
    hide NumbersUnique, JobShape, LevelsOk, Ascending, JobInstalled, Moved, Numbers, Live, ProgressOk;
    JobKeepsLevels(levels, levels', s.disk, s.version.nextFile, p.job, T, S, p.outputs);
    InstalledMoves(levels, levels', p.job, T, S, p.outputs);
    MovedLive(levels, levels', p.job.outputLevel, Numbers(T), Numbers(S), p.outputs);
  }

  lemma {:induction false} CommitKeepsFiles(s: State, T: seq<FileMeta>, S: seq<FileMeta>)
    requires Inv(s) && s.progress.Merging? && JobShape(s.version.levels, s.progress.job, T, S)
    ensures FilesOk(FinishJob(InstallJob(s), s.progress.job))
  {
    hide LevelsOk, JobShape, JobOk, ManifestOk, FlushOk, MemoryOk, OutputsOk, JobInstalled, LifeCycle, Distinct, Live,
         OutputsFit,
      EditLines, ApplyEdit, InputList, InputNumbers, NumberList, Numbers, InstallJob;
    var s' := FinishJob(InstallJob(s), s.progress.job);
    var p := s.progress;
    CommitKeepsLevels(s, T, S);
    CommitKeepsManifest(s);
    InstallJobFields(s);
    CommitLists(s, T, S);
    assert Reserved(s') == FlushNumbers(s.flush);
    CommitLifeCycle(s.disk.Keys, s.version.nextFile, s.readers, s.version.obsolete, s.pending, Live(s.version.levels),
                    Reserved(s), Held(s.views), InputList(p.job.inputs), NumberList(p.outputs), Reserved(s'));
  }

  lemma {:induction false} CommitLists(s: State, T: seq<FileMeta>, S: seq<FileMeta>)
    requires Inv(s) && s.progress.Merging? && JobShape(s.version.levels, s.progress.job, T, S)
    ensures var p, ins, outs := s.progress, InputList(s.progress.job.inputs), NumberList(s.progress.outputs);
            && Distinct(ins) && Distinct(outs)
            && SetOf(ins) == InputNumbers(p.job.inputs) && SetOf(outs) == Numbers(p.outputs)
            && (forall n :: n in ins ==> n in Live(s.version.levels))
            && (forall n :: n in outs ==> n in Reserved(s) && n !in FlushNumbers(s.flush))
            && InstallJob(s).version.obsolete == s.version.obsolete + ins
  {
    hide ManifestOk, FlushOk, MemoryOk, LifeCycle, InstallJob, Tiles, Merge, RankInputs, MetaOk;
    InstallObsolete(s, T, S);
    InputsInVersion(s.version.levels, s.progress.job);
    hide JobShape, JobOk, LevelsOk;
    NumbersAscendingDistinct(s.progress.outputs);
    InputListSet(s.progress.job.inputs);
    hide Distinct, InputList, NumberList, Live, Numbers;
    forall n | n in InputList(s.progress.job.inputs) ensures n in Live(s.version.levels) {
      assert n in SetOf(InputList(s.progress.job.inputs));
    }
    forall n | n in NumberList(s.progress.outputs) ensures n in Numbers(s.progress.outputs) {
      assert n in SetOf(NumberList(s.progress.outputs));
    }
  }

  lemma {:induction false} InstallKeepsInv(s: State)
    requires Inv(s) && s.progress.Merging?
    ensures Inv(FinishJob(InstallJob(s), s.progress.job))
    ensures InputsValid(s.version.levels, s.progress.job.inputs)
  {
    hide LevelsOk, JobShape, OutputsOk, JobInstalled, LifeCycle, Live, EditLines, ApplyEdit, InstallJob, ManifestOk,
         FlushOk, InputsValid, Numbers;
    InputsStayValid(s);
    var T, S :| JobShape(s.version.levels, s.progress.job, T, S);
    var s' := FinishJob(InstallJob(s), s.progress.job);
    CommitKeepsLevels(s, T, S);
    CommitKeepsManifest(s);
    CommitKeepsFiles(s, T, S);
    InstallJobFields(s);
    FlushSurvivesJob(s, T, S);
    FlushFrame(InstallJob(s), s');
    ManifestFrame(InstallJob(s), s');
  }

  lemma {:induction false} FlushSurvivesJob(s: State, T: seq<FileMeta>, S: seq<FileMeta>)
    requires Inv(s) && s.progress.Merging? && JobShape(s.version.levels, s.progress.job, T, S)
    ensures FlushOk(InstallJob(s))
  {
    hide LifeCycle, ManifestOk, OutputsOk, JobOk, LevelsOk, Live, EditLines, ApplyEdit, FilterOut, Aside, Numbers;
    CommitKeepsLevels(s, T, S);
    CommitKeepsManifest(s);
    InstallJobFields(s);
    var levels, levels' := s.version.levels, InstallJob(s).version.levels;
    assert if s.progress.job.outputLevel == 1 then levels'[0] == levels[0][|S|..] else levels'[0] == levels[0];
    assert forall g :: g in levels'[0] ==> g in levels[0];
  }

  lemma {:induction false} FlushFrame(s: State, s': State)
    requires |s.version.levels| == MaxLevel && FlushOk(s)
    requires s'.version == s.version && s'.flush == s.flush && s'.disk == s.disk
    ensures FlushOk(s')
  {
  }
}
