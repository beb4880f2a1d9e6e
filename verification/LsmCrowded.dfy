// A level with more files than RangeQuery has ranks for: its oldest files then rank behind the next level.
module LsmCrowded {
  import opened Types
  import opened Version
  import opened RankedMerge
  import opened Lsm
  import opened LsmInvariant
  import opened LsmSteps
  import opened LsmCommits
  import opened LsmRetire
  import opened LsmMerge
  import opened LsmHistory
  import opened LsmReads
  import opened LsmRuns
  import opened LsmRange
  import opened LsmRestartRuns

  // ---------------------------------------------------------------- a file in level 1

  lemma {:induction false} OneTile(disk: Disk, outputs: seq<FileMeta>, merged: seq<Record>)
    requires |merged| == 1 && Tiles(disk, outputs, merged, 1)
    ensures |outputs| == 1 && Content(disk, outputs[0].number) == merged
  {
    assert merged[0..1] == merged;
  }

  lemma {:induction false} SoleFileMoves(s: State, m: FileMeta)
    requires Inv(s) && s.progress.Merging? && s.version.levels == EmptyLevels()[0 := [m]]
    ensures |InstallJob(s).version.levels| == MaxLevel
    ensures InstallJob(s).version.levels == EmptyLevels()[1 := s.progress.outputs]
  {
    hide Merge, FlushOk, ManifestOk, FilesOk, LevelsOk, OutputsOk, InstallJob, Live, Aside;
    var levels := s.version.levels;
    var T, S :| JobShape(levels, s.progress.job, T, S);
    assert forall l :: 1 <= l < MaxLevel ==> levels[l] == [];
    assert s.progress.job.outputLevel == 1;
    CommitKeepsLevels(s, T, S);
    InstallJobFields(s);
    var levels' := InstallJob(s).version.levels;
    assert levels'[0] == [] && S == [m] by { assert |S| == 1; assert S[0] == levels[0][0]; }
    FilterOutNone(levels[1], Numbers(T));
    assert levels'[1] == s.progress.outputs;
    forall l | 0 <= l < MaxLevel ensures levels'[l] == EmptyLevels()[1 := s.progress.outputs][l] {
    }
  }

  lemma {:induction false} OneFileBelow(r: Record) returns (s: State, h: History, f: FileMeta)
    requires InDomain(r.key)
    ensures Reachable(s, h) && Inv(s) && Settled(s)
    ensures s.version.levels == EmptyLevels()[1 := [f]] && Content(s.disk, f.number) == [r]
    ensures s.ttl == Touch(map[], r.key) && h.writes == [r] && h.lost == {}
  {
    hide Inv, Reachable, Touch, CommitJob, InstallJob, Merge, RankInputs, InDomain, Live;
    var s1, h1, m := MergedAlone(r);
    ReachableIsGood(s1, h1);
    var s2 := EmitOne(s1, h1);
    SoleFileMoves(s2, m);
    MergedTiles(s2);
    OneTile(s2.disk, s2.progress.outputs, s2.progress.merged);
    f := s2.progress.outputs[0];
    assert s2.progress.outputs == [f];
    SevenLevels(s2);
    StepReachable(s2, h1, DoCommitJob(false));
    s, h := CommitJob(s2, false), h1;
    ReachableIsGood(s, h);
    CommitJobFields(s2, false);
    InLive(InstallJob(s2).version.levels, 1, f);
  }

  lemma {:induction false} InLive(levels: Levels, l: nat, f: FileMeta)
    requires l < |levels| && f in levels[l]
    ensures f.number in Live(levels)
  {
  }

  lemma {:induction false} MergedTiles(s: State)
    requires Inv(s) && s.progress.Merging? && s.progress.begin == |s.progress.merged|
    ensures Tiles(s.disk, s.progress.outputs, s.progress.merged, |s.progress.merged|)
  {
    hide LevelsOk, FlushOk, ManifestOk, FilesOk, JobOk, Merge, RankInputs;
  }

  // ---------------------------------------------------------------- many files in level 0

  ghost predicate NoRules(ttl: TtlMap) {
    forall m :: m in ttl ==> ttl[m].seconds == 0
  }

  lemma {:induction false} LiveBelowNext(s: State)
    requires Inv(s) && |s.version.levels| == MaxLevel
    ensures forall l, f :: 0 <= l < MaxLevel && f in s.version.levels[l] ==> f.number < s.version.nextFile
  {
    hide ProgressOk, FlushOk, ManifestOk, FilesOk, MemoryOk, PairwiseDisjoint, NumbersUnique;
  }

  // What the flushes of a record leave of the files that were there.
  ghost predicate Piled(s0: State, s: State, n: nat, run: seq<Record>) {
    && |s0.version.levels| == |s.version.levels| == MaxLevel
    && (forall l :: 1 <= l < MaxLevel ==> s.version.levels[l] == s0.version.levels[l])
    && |s.version.levels[0]| == |s0.version.levels[0]| + n
    && s0.version.levels[0] == s.version.levels[0][..|s0.version.levels[0]|]
    && (forall i :: |s0.version.levels[0]| <= i < |s.version.levels[0]| ==>
          Content(s.disk, s.version.levels[0][i].number) == run)
    && (forall l, f :: 0 <= l < MaxLevel && f in s0.version.levels[l] ==>
          Content(s.disk, f.number) == Content(s0.disk, f.number))
  }

  lemma {:induction false} PiledOnce(s0: State, s1: State, s: State, n: nat, run: seq<Record>, m: FileMeta)
    requires Piled(s0, s1, n, run) && |s.version.levels| == MaxLevel
    requires s.version.levels == s1.version.levels[0 := s1.version.levels[0] + [m]]
    requires m.number == s1.version.nextFile && s.disk == s1.disk[m.number := run]
    requires forall l, f :: 0 <= l < MaxLevel && f in s1.version.levels[l] ==> f.number < s1.version.nextFile
    ensures Piled(s0, s, n + 1, run)
  {
    var first, before, files := s0.version.levels[0], s1.version.levels[0], s.version.levels[0];
    assert files[..|first|] == before[..|first|];
    forall i | |first| <= i < |files| ensures Content(s.disk, files[i].number) == run {
      if i < |before| {
        assert before[i] in before;
      }
    }
    forall l, f | 0 <= l < MaxLevel && f in s0.version.levels[l]
      ensures Content(s.disk, f.number) == Content(s0.disk, f.number)
    {
      assert f in s1.version.levels[l];
    }
  }

  lemma {:induction false} FlushMany(s0: State, h0: History, r: Record, n: nat) returns (s: State, h: History)
    requires Reachable(s0, h0) && Settled(s0) && NoRules(s0.ttl)
    ensures Reachable(s, h) && Settled(s) && NoRules(s.ttl) && Piled(s0, s, n, FromZeroKey([r]))
    ensures h.lost <= h0.lost && forall k :: k != r.key ==> CopiesIn(h.writes, k) == CopiesIn(h0.writes, k)
  {
    hide Inv, Reachable, FromZeroKey, CopiesIn, Touch, EditLines, Piled, MetaOf, NoRules;
    if n == 0 {
      s, h := s0, h0;
      PiledNothing(s0, FromZeroKey([r]));
    } else {
      var s1, h1 := FlushMany(s0, h0, r, n - 1);
      ReachableIsGood(s1, h1);
      LiveBelowNext(s1);
      var m;
      s, h, m := FlushWrite(s1, h1, r);
      NumberIs(s1.version.nextFile, FromZeroKey([r]));
      PiledOnce(s0, s1, s, n - 1, FromZeroKey([r]), m);
      TouchSetsNoRule(s1.ttl, r.key);
      forall k | k != r.key ensures CopiesIn(h.writes, k) == CopiesIn(h0.writes, k) {
        CopiesInConcat(h1.writes, [r], k);
        CopiesOfSingleton(r, k);
      }
    }
  }

  lemma {:induction false} PiledNothing(s: State, run: seq<Record>)
    requires |s.version.levels| == MaxLevel
    ensures Piled(s, s, 0, run)
  {
  }

  lemma {:induction false} TouchSetsNoRule(ttl: TtlMap, k: TsKey)
    requires NoRules(ttl)
    ensures NoRules(Touch(ttl, k)) && forall x :: !Expired(ttl, x)
  {
  }

  // ---------------------------------------------------------------- the query

  // The sources of the query: the empty table, level 0 with its newest file first, then the file in level 1.
  lemma {:induction false} CrowdedSources(s: State)
    requires |s.version.levels| == MaxLevel && ViewOf(s) == s.version.levels && s.mem == [] && s.imm.None?
    requires |s.version.levels[0]| > 0 && |s.version.levels[1]| == 1
    requires forall l :: 2 <= l < MaxLevel ==> s.version.levels[l] == []
    ensures var sources, files := SourcesOf(s), s.version.levels[0];
            && |sources| == |files| + 2 && sources[0].run == []
            && sources[|files| + 1] == Source(Content(s.disk, s.version.levels[1][0].number), 100_002)
            && forall i :: 1 <= i <= |files| ==>
                 sources[i] == Source(Content(s.disk, files[|files| - i].number), 1 + i)
  {
    hide Content, ViewOf;
    var levels := s.version.levels;
    var top, below := LevelSources(s.disk, levels[0], 2), LevelSources(s.disk, levels[1], 100_002);
    LevelSourcesRanks(s.disk, levels[0], 2);
    LevelSourcesRanks(s.disk, levels[1], 100_002);
    NothingBelow(s.disk, levels, 2);
    assert DeepSources(s.disk, levels, 1) == below + [];
    assert DeepSources(s.disk, levels, 0) == top + below;
    assert SourcesOf(s) == [Source([], 0)] + [] + (top + below);
  }

  // Every copy of k in them: the one in the oldest file of level 0, which ranks behind the one in level 1.
  lemma {:induction false} OnlyTwoCopies(s: State, k: TsKey, e1: Entry, e2: Entry, other: Record, x: Ranked)
    requires |s.version.levels| == MaxLevel && ViewOf(s) == s.version.levels && s.mem == [] && s.imm.None?
    requires |s.version.levels[0]| > 0 && |s.version.levels[1]| == 1 && other.key != k
    requires forall l :: 2 <= l < MaxLevel ==> s.version.levels[l] == []
    requires Content(s.disk, s.version.levels[0][0].number) == [Record(k, e2)]
    requires Content(s.disk, s.version.levels[1][0].number) == [Record(k, e1)]
    requires forall i :: 1 <= i < |s.version.levels[0]| ==> Content(s.disk, s.version.levels[0][i].number) == [other]
    ensures x in RankSources(SourcesOf(s), k, k)
            <==> x == Ranked(Record(k, e1), 100_002) || x == Ranked(Record(k, e2), |s.version.levels[0]| + 1)
  {
    hide RankSources, Content, ViewOf, SourcesOf, InSlice;
    var sources, n := SourcesOf(s), |s.version.levels[0]|;
    CrowdedSources(s);
    RankSourcesMembers(sources, k, k, x);
    SelfInSlice(k, x.record.key);
    assert forall i :: 0 < i < n ==> sources[i].run == [other];
    if x == Ranked(Record(k, e1), 100_002) {
      assert FromSource(sources, n + 1, k, k, x);
    }
    if x == Ranked(Record(k, e2), n + 1) {
      assert FromSource(sources, n, k, k, x);
    }
  }

  lemma {:induction false} SelfInSlice(k: TsKey, q: TsKey)
    ensures InSlice(q, k, k) <==> q == k
  {
    LessTotal(k, q);
    LessTotal(k, k);
  }

  lemma {:induction false} NothingBelow(disk: Disk, view: View, level: nat)
    requires level <= |view| && forall l :: level <= l < |view| ==> view[l] == []
    ensures DeepSources(disk, view, level) == []
    decreases |view| - level
  {
    if level < |view| {
      NothingBelow(disk, view, level + 1);
    }
  }

  // The query reports the older value.
  lemma {:induction false} OlderRanksFirst(s: State, k: TsKey, v1: Bytes, v2: Bytes, other: Record)
    requires |s.version.levels| == MaxLevel && ViewOf(s) == s.version.levels && s.mem == [] && s.imm.None?
    requires |s.version.levels[0]| >= 100_002 && |s.version.levels[1]| == 1 && other.key != k
    requires forall l :: 2 <= l < MaxLevel ==> s.version.levels[l] == []
    requires Content(s.disk, s.version.levels[0][0].number) == [Record(k, Value(v2))]
    requires Content(s.disk, s.version.levels[1][0].number) == [Record(k, Value(v1))]
    requires forall i :: 1 <= i < |s.version.levels[0]| ==> Content(s.disk, s.version.levels[0][i].number) == [other]
    requires !Expired(s.ttl, k)
    ensures Record(k, Value(v1)) in LsmRange.RangeQuery(s, k.measurement, k.timestamp, k.timestamp)
  {
    hide RankSources, Content, ViewOf, Less, SourcesOf, Merge, Expired, Reported;
    var all := RankSources(SourcesOf(s), k, k);
    var x1, x2 := Ranked(Record(k, Value(v1)), 100_002), Ranked(Record(k, Value(v2)), |s.version.levels[0]| + 1);
    forall x ensures x in all <==> x == x1 || x == x2 {
      OnlyTwoCopies(s, k, Value(v1), Value(v2), other, x);
    }
    assert x1 in all;
    assert Newest(all, x1);
    MergeKeepsNewest(all);
    ReportedMembers(Merge(all), s.ttl);
    assert TsKey(k.measurement, k.timestamp) == k;
  }

  // For every key of the domain and every number of level-0 files from 100002 up, a run after which Get finds the last
  // write and RangeQuery lists the one before it.
  lemma {:induction false} CrowdedLevelShowsOlder(k: TsKey, v1: Bytes, v2: Bytes, n: nat)
    returns (s: State, h: History)
    requires InDomain(k) && n >= 100_002
    ensures Reachable(s, h) && |s.version.levels| == MaxLevel && |s.version.levels[0]| == n
    ensures forall l :: 1 <= l < MaxLevel ==> |s.version.levels[l]| <= 1
    ensures Get(s, k) == Some(v2)
    ensures Record(k, Value(v1)) in LsmRange.RangeQuery(s, k.measurement, k.timestamp, k.timestamp)
  {
    hide Inv, Reachable, FromZeroKey, CopiesIn, Touch, EditLines, Piled, MetaOf, NoRules, Get, MapGet, InDomain, Less,
         LsmRange.RangeQuery, ViewOf, Expired;
    var r1, r2, other := Record(k, Value(v1)), Record(k, Value(v2)), OtherRecord(k);
    var s1, h1, f := OneFileBelow(r1);
    NoRulesAtFirst(k);
    LiveBelowNext(s1);
    assert f in s1.version.levels[1];
    var s2, h2, m := FlushWrite(s1, h1, r2);
    TouchSetsNoRule(s1.ttl, k);
    InDomainStays(r2);
    InDomainStays(other);
    s, h := FlushMany(s2, h2, other, n - 1);
    TouchSetsNoRule(s.ttl, k);
    ReachableIsGood(s, h);
    QueryView(s);
    NumberIs(s1.version.nextFile, FromZeroKey([r2]));
    PiledOnTop(s1, s2, s, f, m, n - 1, r1, r2, other);
    OlderRanksFirst(s, k, v1, v2, other);
    StoreRefinesMap(s, h, k);
    CopiesInConcat([r1], [r2], k);
    CopiesOfSingleton(r2, k);
    LastIsVisible(h.writes, s.ttl, k, CopiesIn([r1], k), Value(v2));
  }

  lemma {:induction false} LastIsVisible(writes: seq<Record>, ttl: TtlMap, k: TsKey, before: seq<Entry>, e: Entry)
    requires CopiesIn(writes, k) == before + [e] && !Expired(ttl, k)
    ensures MapGet(writes, ttl, k) == Visible(e)
  {
  }

  function OtherRecord(k: TsKey): (r: Record)
    ensures r.key != k && InDomain(r.key)
  {
    OtherKeys();
    Record(TsKey(if k.measurement == [0x61] then [0x62] else [0x61], 0), Deletion)
  }

  lemma {:induction false} OtherKeys()
    ensures InDomain(TsKey([0x61], 0)) && InDomain(TsKey([0x62], 0))
  {
    DomainInBytes(TsKey([0x61], 0));
    DomainInBytes(TsKey([0x62], 0));
  }

  lemma {:induction false} NoRulesAtFirst(k: TsKey)
    ensures NoRules(Touch(map[], k))
  {
  }

  lemma {:induction false} InDomainStays(r: Record)
    requires InDomain(r.key)
    ensures FromZeroKey([r]) == [r]
  {
    SingletonPrefix(r);
  }

  lemma {:induction false} PiledOnTop(s1: State, s2: State, s: State, f: FileMeta, m: FileMeta, n: nat, r1: Record,
                                      r2: Record, other: Record)
    requires s1.version.levels == EmptyLevels()[1 := [f]] && Content(s1.disk, f.number) == [r1]
    requires f.number != m.number && s2.disk == s1.disk[m.number := [r2]]
    requires s2.version.levels == s1.version.levels[0 := s1.version.levels[0] + [m]] && Piled(s2, s, n, [other])
    ensures s.version.levels[1] == [f] && forall l :: 2 <= l < MaxLevel ==> s.version.levels[l] == []
    ensures |s.version.levels[0]| == n + 1
    ensures Content(s.disk, s.version.levels[0][0].number) == [r2] && Content(s.disk, f.number) == [r1]
    ensures forall i :: 1 <= i < |s.version.levels[0]| ==> Content(s.disk, s.version.levels[0][i].number) == [other]
  {
    assert s2.version.levels[0] == [m];
    assert m in s2.version.levels[0] && f in s2.version.levels[1];
    assert s.version.levels[0][..1] == [m];
  }

  // ---------------------------------------------------------------- how many files a level may have

  ghost predicate QueryAgrees(s: State, m: Bytes, start: int64, end: int64)
    requires |s.version.levels| == MaxLevel
  {
    forall k, v :: Record(k, Value(v)) in LsmRange.RangeQuery(s, m, start, end)
                   <==> k.measurement == m && start <= k.timestamp <= end && Get(s, k) == Some(v)
  }

  // RangeQuery agrees with Get in every reachable state with no more than n files in any level.
  ghost predicate AgreesUpTo(n: nat) {
    forall s, h, m, start, end :: AgreesIn(n, s, h, m, start, end)
  }

  ghost predicate AgreesIn(n: nat, s: State, h: History, m: Bytes, start: int64, end: int64) {
    Reachable(s, h) && |s.version.levels| == MaxLevel && (forall l :: 0 <= l < MaxLevel ==> |s.version.levels[l]| <= n)
    ==> QueryAgrees(s, m, start, end)
  }

  // It does for up to 100000 files, and no longer from 100002 on. With 100001 two tables can share a rank, and which of
  // them comes first is up to std::sort.
  lemma {:induction false} AgreesUpToRanks(n: nat)
    ensures n <= 100_000 ==> AgreesUpTo(n)
    ensures n >= 100_002 ==> !AgreesUpTo(n)
  {
    hide Reachable, Get, LsmRange.RangeQuery;
    if n <= 100_000 {
      forall s, h, m, start, end ensures AgreesIn(n, s, h, m, start, end) {
        if Reachable(s, h) && |s.version.levels| == MaxLevel
          && forall l :: 0 <= l < MaxLevel ==> |s.version.levels[l]| <= n {
          RangeQueryAgreesWithGet(s, h, m, start, end);
        }
      }
    }
    if n >= 100_002 {
      var k := TsKey([0x61], 0);
      OtherKeys();
      var s, h := CrowdedLevelShowsOlder(k, [0], [1], n);
      assert Record(k, Value([0])) in LsmRange.RangeQuery(s, k.measurement, k.timestamp, k.timestamp);
      assert !QueryAgrees(s, k.measurement, k.timestamp, k.timestamp);
      assert !AgreesIn(n, s, h, k.measurement, k.timestamp, k.timestamp);
    }
  }
}
