// What holds of every reachable state of the store, and the runs that show where it stops holding.
module LsmRuns {
  import opened Types
  import opened Subsequence
  import opened Version
  import opened RankedMerge
  import opened Lsm
  import opened LsmInvariant
  import opened LsmSteps
  import opened LsmCommits
  import opened LsmRetire
  import opened LsmMerge
  import opened LsmHistory
  import opened LsmReads

  // ---------------------------------------------------------------- runs

  // A run: the states and histories passed through from an empty store, one action at a time.
  ghost predicate IsRun(states: seq<State>, histories: seq<History>, actions: seq<Action>) {
    && |states| == |histories| == |actions| + 1
    && (exists target: nat :: states[0] == Init(target)) && histories[0] == NoHistory
    && forall i :: 0 <= i < |actions| ==> IsStep(states[i], histories[i], actions[i], states[i + 1], histories[i + 1])
  }

  ghost predicate IsStep(s: State, h: History, a: Action, s': State, h': History) {
    |s.version.levels| == MaxLevel && Enabled(s, a) && s' == Next(s, a) && h' == NextHistory(s, h, a)
  }

  ghost predicate Reachable(s: State, h: History) {
    exists states, histories, actions :: IsRun(states, histories, actions) && states[|actions|] == s
      && histories[|actions|] == h
  }

  lemma {:induction false} InitReachable(target: nat)
    ensures Reachable(Init(target), NoHistory)
  {
    assert IsRun([Init(target)], [NoHistory], []);
  }

  lemma {:induction false} StepReachable(s: State, h: History, a: Action)
    requires Reachable(s, h) && |s.version.levels| == MaxLevel && Enabled(s, a)
    ensures Reachable(Next(s, a), NextHistory(s, h, a))
  {
    hide Enabled, Next, NextHistory;
    var states, histories, actions :| IsRun(states, histories, actions) && states[|actions|] == s
      && histories[|actions|] == h;
    var s', h' := Next(s, a), NextHistory(s, h, a);
    var states', histories', actions' := states + [s'], histories + [h'], actions + [a];
    forall i | 0 <= i < |actions'|
      ensures IsStep(states'[i], histories'[i], actions'[i], states'[i + 1], histories'[i + 1])
    {
      if i < |actions| {
        assert IsStep(states[i], histories[i], actions[i], states[i + 1], histories[i + 1]);
      } else {
        assert states'[i] == s && histories'[i] == h;
      }
    }
    assert IsRun(states', histories', actions');
  }

  lemma {:induction false} InitGood(target: nat)
    ensures Good(Init(target), NoHistory)
  {
    var s := Init(target);
    InitOk(target);
    forall k ensures Copies(s, k) == [] && CopiesIn([], k) == [] {
      NoDeepCopies(s.disk, s.version.levels, 0, k);
      assert Copies(s, k) == [] + ([] + [] + []);
    }
    SubseqEmpty<Entry>([]);
    forall k ensures LogAgrees(s, k) {
      assert MemoryCopies(s, k) + CopiesIn(Flatten(s.batches), k) == [];
    }
    assert forall k :: LastOf(CopiesIn(s.wal, k)) == [];
  }

  lemma {:induction false} NoDeepCopies(disk: Disk, levels: Levels, i: nat, k: TsKey)
    requires forall l :: i <= l < |levels| ==> levels[l] == []
    ensures DeepCopies(disk, levels, i, k) == []
    decreases |levels| - i
  {
    if i < |levels| {
      NoDeepCopies(disk, levels, i + 1, k);
    }
  }

  lemma {:induction false} RunIsGood(states: seq<State>, histories: seq<History>, actions: seq<Action>, i: nat)
    requires IsRun(states, histories, actions) && i <= |actions|
    ensures Good(states[i], histories[i])
  {
    hide Good, Enabled, Next, NextHistory;
    if i == 0 {
      var target: nat :| states[0] == Init(target);
      InitGood(target);
    } else {
      RunIsGood(states, histories, actions, i - 1);
      assert IsStep(states[i - 1], histories[i - 1], actions[i - 1], states[i], histories[i]);
      NextIsGood(states[i - 1], histories[i - 1], actions[i - 1]);
    }
  }

  lemma {:induction false} ReachableIsGood(s: State, h: History)
    requires Reachable(s, h)
    ensures Good(s, h) && Inv(s) && |s.version.levels| == MaxLevel
  {
    hide Inv;
    var states, histories, actions :| IsRun(states, histories, actions) && states[|actions|] == s
      && histories[|actions|] == h;
    RunIsGood(states, histories, actions, |actions|);
    SevenLevels(s);
  }

  // ---------------------------------------------------------------- the store is a map

  // In every reachable state, layering the active, sealed and in-flight tables over the levels keeps copies in write
  // order; for every key that no restart and no relaxed rule has cost a write the newest copy is the last write; at
  // most one table waits to be flushed; and Get is the lookup in the plain map of all writes.
  lemma {:induction false} StoreRefinesMap(s: State, h: History, k: TsKey)
    requires Reachable(s, h)
    ensures |s.version.levels| == MaxLevel
    ensures s.imm.None? || s.flush.NoFlush?
    ensures Subseq(Copies(s, k), CopiesIn(h.writes, k))
    ensures Trusted(h, k) && InDomain(k) && !Expired(s.ttl, k) ==> LastOf(Copies(s, k)) == LastOf(CopiesIn(h.writes, k))
    ensures Trusted(h, k) && InDomain(k) && (s.flush.NoFlush? || !HiddenInFlight(s, k))
            ==> Get(s, k) == MapGet(h.writes, s.ttl, k)
  {
    hide Inv, Copies, Subseq, LastOf, Expired, InDomain, CopiesIn, Get, MapGet, LogCovers, LogFollows, Trusted;
    ReachableIsGood(s, h);
    FlushOrSealed(s);
    NoCopies(k);
    assert s.flush.NoFlush? ==> !HiddenInFlight(s, k);
    if Trusted(h, k) && InDomain(k) && !Expired(s.ttl, k) {
      assert HoldsLastWrite(s, h, k);
    }
    if Trusted(h, k) && InDomain(k) && !HiddenInFlight(s, k) {
      GetIsMapGet(s, h, k);
    }
  }

  // A compaction commit is invisible to Get in every reachable state, flushes in between included,
  // as long as no TTL rule of the measurement was relaxed while the job was under way.
  lemma {:induction false} CommitsAreInvisible(s: State, h: History, cleanup: bool, k: TsKey)
    requires Reachable(s, h) && k.measurement !in h.relaxed && AtMost(k, LastReadKey)
    requires s.progress.Merging? && s.progress.begin == |s.progress.merged|
    ensures |s.version.levels| == MaxLevel && |CommitJob(s, cleanup).version.levels| == MaxLevel
    ensures Get(CommitJob(s, cleanup), k) == Get(s, k)
  {
    hide Inv, InWriteOrder, HoldsLastWrites, LogCovers, LogFollows, Expired, CommitJob, Get, Less;
    ReachableIsGood(s, h);
    CommitIsInvisible(s, cleanup, k);
  }

  // ---------------------------------------------------------------- keys outside the domain

  // The first actions of the runs below: one write, sealed, flushed and committed.
  lemma {:induction false} WriteAndSeal(r: Record) returns (s: State, h: History)
    ensures Reachable(s, h) && Inv(s) && s.imm == Some([r]) && s.flush.NoFlush? && s.mem == [] && s.batches == []
    ensures s.progress == Idle && s.compacting == {} && s.ttl == Touch(map[], r.key)
    ensures s.version == VersionState(EmptyLevels(), 1, []) && s.manifest == []
    ensures h == NoHistory.(writes := [r])
  {
    var s0 := Init(0);
    InitReachable(0);
    StepReachable(s0, NoHistory, DoPut(r));
    var s1 := Put(s0, r);
    assert [] + [r] == [r];
    assert NextHistory(s0, NoHistory, DoPut(r)) == NoHistory.(writes := [r]);
    StepReachable(s1, NoHistory.(writes := [r]), DoSeal);
    s, h := Seal(s1), NoHistory.(writes := [r]);
    hide Inv;
    ReachableIsGood(s, h);
  }

  lemma {:induction false} TakeForFlush(s0: State, h: History) returns (s: State)
    requires Reachable(s0, h) && |s0.version.levels| == MaxLevel && s0.imm.Some? && s0.flush.NoFlush?
    ensures s == BeginFlush(s0) && Reachable(s, h) && Inv(s)
  {
    hide Inv, Reachable;
    StepReachable(s0, h, DoBeginFlush);
    s := BeginFlush(s0);
    ReachableIsGood(s, h);
  }

  lemma {:induction false} BuildForFlush(s0: State, h: History) returns (s: State)
    requires Reachable(s0, h) && |s0.version.levels| == MaxLevel && s0.flush.Begun?
    ensures s == BuildFlush(s0, 0) && Reachable(s, h) && Inv(s)
  {
    hide Inv, Reachable;
    StepReachable(s0, h, DoBuildFlush(0));
    s := BuildFlush(s0, 0);
    ReachableIsGood(s, h);
  }

  lemma {:induction false} FlushOneWrite(r: Record) returns (s: State, h: History)
    ensures Reachable(s, h) && Inv(s) && s.imm.None? && s.flush.NoFlush? && s.mem == [] && s.batches == []
    ensures s.progress == Idle && s.compacting == {} && s.ttl == Touch(map[], r.key)
    ensures exists m :: s.version.levels == EmptyLevels()[0 := [m]] && Content(s.disk, m.number) == FromZeroKey([r])
    ensures h == NoHistory.(writes := [r])
  {
    hide Inv, Reachable, FromZeroKey, Touch, ApplyEdit, EditLines;
    var s2, h2 := WriteAndSeal(r);
    SevenLevels(s2);
    var s3 := TakeForFlush(s2, h2);
    var s4 := BuildForFlush(s3, h2);
    SevenLevels(s4);
    StepReachable(s4, h2, DoCommitFlush);
    s, h := CommitFlush(s4), NextHistory(s4, h2, DoCommitFlush);
    ReachableIsGood(s, h);
    var m := s4.flush.meta;
    FlushFacts(s4);
    InstallFlushLevels(s4);
    CommitFlushFields(s4);
    assert EmptyLevels()[0] + [m] == [m];
    assert s.version.levels == EmptyLevels()[0 := [m]];
    assert h == h2;
  }

  // Nothing in memory and no flush under way.
  ghost predicate Settled(s: State) {
    |s.version.levels| == MaxLevel && s.mem == [] && s.imm.None? && s.flush.NoFlush? && s.batches == []
  }

  // And no compaction either.
  ghost predicate Quiet(s: State) {
    Settled(s) && s.progress == Idle && s.compacting == {}
  }

  // One more write to a settled store, sealed and built into a file.
  lemma {:induction false} BuildWrite(s0: State, h0: History, r: Record) returns (s: State, h: History)
    requires Reachable(s0, h0) && Settled(s0)
    ensures Reachable(s, h) && Inv(s) && h == NextHistory(s0, h0, DoPut(r))
    ensures s == BuildFlush(BeginFlush(Seal(Put(s0, r))), 0) && |s.version.levels| == MaxLevel
    ensures s.flush == Built([r], MetaOf(s0.version.nextFile, 0, FromZeroKey([r])))
  {
    hide Inv, Reachable, FromZeroKey, Touch;
    StepReachable(s0, h0, DoPut(r));
    h := NextHistory(s0, h0, DoPut(r));
    StepReachable(Put(s0, r), h, DoSeal);
    var s2 := TakeForFlush(Seal(Put(s0, r)), h);
    s := BuildForFlush(s2, h);
  }

  // One more write to a settled store, sealed, flushed and committed: a new file ends level 0.
  lemma {:induction false} FlushWrite(s0: State, h0: History, r: Record) returns (s: State, h: History, m: FileMeta)
    requires Reachable(s0, h0) && Settled(s0)
    ensures Reachable(s, h) && Inv(s) && Settled(s) && s.wal == []
    ensures s.progress == s0.progress && s.compacting == s0.compacting
    ensures s.ttl == Touch(s0.ttl, r.key) && h.writes == h0.writes + [r] && h.relaxed == h0.relaxed
    ensures h.lost == h0.lost - {r.key} && h.stale == {}
    ensures m == MetaOf(s0.version.nextFile, 0, FromZeroKey([r])) && s.version.nextFile == s0.version.nextFile + 1
    ensures s.version.levels == s0.version.levels[0 := s0.version.levels[0] + [m]]
    ensures s.disk == s0.disk[m.number := FromZeroKey([r])]
    ensures s.manifest == s0.manifest + EditLines(Edit([(0, m)], []), s0.version.nextFile + 1)
  {
    hide Inv, Reachable, FromZeroKey, Touch, ApplyEdit, EditLines, Upsert;
    var s3, h1 := BuildWrite(s0, h0, r);
    StepReachable(s3, h1, DoCommitFlush);
    s, h := CommitFlush(s3), NextHistory(s3, h1, DoCommitFlush);
    m := s3.flush.meta;
    ReachableIsGood(s, h);
    FlushFacts(s3);
    InstallFlushLevels(s3);
    CommitFlushFields(s3);
    assert s.version.levels[0] == s0.version.levels[0] + [m];
  }

  lemma {:induction false} InitIsQuiet(target: nat)
    ensures Quiet(Init(target))
  {
  }

  lemma {:induction false} UnexpiredAfterOneWrite(r: Record)
    ensures !Expired(Touch(map[], r.key), r.key)
    ensures MapGet([r], Touch(map[], r.key), r.key) == Visible(r.entry)
  {
    CopiesOfSingleton(r, r.key);
  }

  lemma {:induction false} SoleFileCopies(disk: Disk, m: FileMeta, k: TsKey)
    ensures DeepCopies(disk, EmptyLevels()[0 := [m]], 0, k) == CopiesIn(Content(disk, m.number), k)
  {
    hide CopiesIn;
    var levels := EmptyLevels()[0 := [m]];
    NoDeepCopies(disk, levels, 1, k);
    LevelCopiesAppend(disk, [], m, k);
    assert [] + [m] == [m];
    assert LevelCopies(disk, [], k) == [];
    assert [] + ([] + CopiesIn(Content(disk, m.number), k)) == CopiesIn(Content(disk, m.number), k);
  }

  // A key below TsKey{} is lost by its flush.
  lemma {:induction false} LowKeyIsLost(k: TsKey, v: Bytes) returns (s: State, h: History)
    requires Less(k, ZeroKey)
    ensures Reachable(s, h) && Trusted(h, k) && s.flush.NoFlush? && |s.version.levels| == MaxLevel
    ensures Get(s, k) == None && MapGet(h.writes, s.ttl, k) == Some(v)
  {
    hide Inv, Reachable, CopiesIn, DeepCopies, Get, Touch, MapGet, Expired;
    var r := Record(k, Value(v));
    s, h := FlushOneWrite(r);
    SevenLevels(s);
    UnexpiredAfterOneWrite(r);
    var m :| s.version.levels == EmptyLevels()[0 := [m]] && Content(s.disk, m.number) == FromZeroKey([r]);
    SoleFileCopies(s.disk, m, k);
    FromZeroKeyCopies([r], k);
    NoCopies(k);
    GetAnswersNewest(s, k);
    assert ReadCopies(s, k) == [];
  }

  // The job over a single level-0 file, picked, merged, written and committed.
  lemma {:induction false} PickAndMerge(s0: State, h: History) returns (s: State)
    requires Reachable(s0, h) && |s0.version.levels| == MaxLevel && s0.progress == Idle && s0.compacting == {}
    requires s0.version.levels[0] != [] && h.relaxed == {}
    ensures Reachable(s, h) && Inv(s) && s.progress.Merging? && s.progress.ttl == s0.ttl
    ensures s.version.levels == s0.version.levels && s.mem == s0.mem && s.imm == s0.imm && s.flush == s0.flush
            && s.ttl == s0.ttl
    ensures s.disk == s0.disk
  {
    hide Inv, Reachable, Merge, RankInputs, L0Job;
    FilterOutNone(s0.version.levels[0], {});
    StepReachable(s0, h, DoPick(true));
    var s1 := StartJob(s0, PickJob(s0, true).value);
    StepReachable(s1, h, DoMerge);
    s := MergeJob(s1);
    ReachableIsGood(s, h);
  }

  lemma {:induction false} EmitAll(s0: State, h: History) returns (s: State)
    requires Reachable(s0, h) && s0.progress.Merging? && s0.progress.begin <= |s0.progress.merged|
    ensures Reachable(s, h) && Inv(s) && s.progress.Merging? && s.progress.begin == |s.progress.merged|
    ensures s.progress.job == s0.progress.job && s.progress.ttl == s0.progress.ttl
    ensures s.version.levels == s0.version.levels && s.mem == s0.mem && s.imm == s0.imm && s.flush == s0.flush
            && s.ttl == s0.ttl && s.wal == s0.wal && s.batches == s0.batches && s.manifest == s0.manifest
    ensures forall k :: Copies(s, k) == Copies(s0, k)
    ensures forall n :: n in Live(s0.version.levels) ==> Content(s.disk, n) == Content(s0.disk, n)
    decreases |s0.progress.merged| - s0.progress.begin
  {
    hide Inv, Reachable, Copies, Live;
    ReachableIsGood(s0, h);
    if s0.progress.begin == |s0.progress.merged| {
      s := s0;
    } else {
      StepReachable(s0, h, DoEmit(0));
      ContentKept(s0, DoEmit(0));
      var s1 := EmitOutput(s0, 0);
      SameMemorySameCopies(s0, s1);
      s := EmitAll(s1, h);
    }
  }

  // When the job's file was the only one, the levels end up with the outputs alone.
  lemma {:induction false} SoleFileJob(s: State, m: FileMeta, k: TsKey)
    requires Inv(s) && s.progress.Merging? && s.progress.begin == |s.progress.merged|
    requires s.version.levels == EmptyLevels()[0 := [m]] && !Kept(s.progress.ttl, k)
    ensures DeepCopies(CommitJob(s, false).disk, CommitJob(s, false).version.levels, 0, k) == []
  {
    hide ProgressOk, Merge, FlushOk, ManifestOk, FilesOk, LevelsOk, JobShape, CopiesIn, LevelCopies, Kept, InstallJob,
         CommitJob, Live;
    CommitJobFields(s, false);
    InstallJobFields(s);
    SoleFileInstalled(s, m, k);
    SameVersionSameDeep(InstallJob(s), CommitJob(s, false), k);
  }

  lemma {:induction false} SoleFileInstalled(s: State, m: FileMeta, k: TsKey)
    requires Inv(s) && s.progress.Merging? && s.progress.begin == |s.progress.merged|
    requires s.version.levels == EmptyLevels()[0 := [m]] && !Kept(s.progress.ttl, k)
    ensures DeepCopies(s.disk, InstallJob(s).version.levels, 0, k) == []
  {
    hide Merge, FlushOk, ManifestOk, FilesOk, LevelsOk, OutputsOk, CopiesIn, LevelCopies, Kept, InstallJob, Live, Aside;
    var levels := s.version.levels;
    var T, S :| JobShape(levels, s.progress.job, T, S);
    var out := s.progress.job.outputLevel;
    assert forall l :: 1 <= l < MaxLevel ==> levels[l] == [];
    assert out == 1;
    CommitKeepsLevels(s, T, S);
    InstallJobFields(s);
    var levels' := InstallJob(s).version.levels;
    assert levels'[0] == [] && S == [m] by { assert |S| == 1; assert S[0] == levels[0][0]; }
    FilterOutNone(levels[1], Numbers(T));
    assert levels'[1] == s.progress.outputs;
    InstallOutputs(s, T, S, k);
    NoDeepCopies(s.disk, levels', 2, k);
    NoLevelCopies(s.disk, k);
    assert DeepCopies(s.disk, levels', 1, k) == [] + [];
    assert DeepCopies(s.disk, levels', 0, k) == [] + [] + [];
  }

  // After the commit of such a job Get finds nothing for a key the job dropped.
  lemma {:induction false} SoleFileCommit(s0: State, h: History, m: FileMeta, k: TsKey) returns (s: State)
    requires Reachable(s0, h) && Inv(s0) && s0.progress.Merging? && s0.progress.begin == |s0.progress.merged|
    requires s0.version.levels == EmptyLevels()[0 := [m]] && !Kept(s0.progress.ttl, k)
    requires CopiesIn(s0.mem, k) == [] && s0.imm.None? && s0.flush.NoFlush?
    ensures s == CommitJob(s0, false) && Reachable(s, h) && |s.version.levels| == MaxLevel
    ensures s.flush.NoFlush? && s.ttl == s0.ttl && Get(s, k) == None
  {
    hide Inv, Reachable, CopiesIn, DeepCopies, Get, Kept, CommitJob, InstallJob, Live, Expired;
    SevenLevels(s0);
    StepReachable(s0, h, DoCommitJob(false));
    s := CommitJob(s0, false);
    ReachableIsGood(s, h);
    SoleFileJob(s0, m, k);
    CommitJobFields(s0, false);
    NoCopies(k);
    GetAnswersNewest(s, k);
    assert ReadCopies(s, k) == [];
  }

  // A key above the compaction reader's last key is lost by its first compaction.
  lemma {:induction false} HighKeyIsLost(k: TsKey, v: Bytes) returns (s: State, h: History)
    requires Less(LastReadKey, k)
    ensures Reachable(s, h) && Trusted(h, k) && s.flush.NoFlush? && |s.version.levels| == MaxLevel
    ensures Get(s, k) == None && MapGet(h.writes, s.ttl, k) == Some(v)
  {
    hide Inv, Reachable, CopiesIn, DeepCopies, Get, Touch, MapGet, Expired, Less, CommitJob;
    var r := Record(k, Value(v));
    var s0, h0 := FlushOneWrite(r);
    SevenLevels(s0);
    UnexpiredAfterOneWrite(r);
    var m :| s0.version.levels == EmptyLevels()[0 := [m]];
    var s1 := PickAndMerge(s0, h0);
    MergingWithin(s1);
    var s2 := EmitAll(s1, h0);
    NoCopies(k);
    s := SoleFileCommit(s2, h0, m, k);
    h := h0;
  }

  lemma {:induction false} MergingWithin(s: State)
    requires Inv(s) && s.progress.Merging?
    ensures s.progress.begin <= |s.progress.merged|
  {
    hide LevelsOk, FlushOk, ManifestOk, FilesOk, JobOk, Tiles, Merge;
  }

  // Get agrees with the map on k at the end of every run that has no flush in flight and in which k has been written
  // since a relaxed rule, or a restart, could last have cost it a write.
  ghost predicate ReadsBack(k: TsKey) {
    forall s, h :: ReadsBackIn(s, h, k)
  }

  ghost predicate ReadsBackIn(s: State, h: History, k: TsKey) {
    Reachable(s, h) && Trusted(h, k) && s.flush.NoFlush? && |s.version.levels| == MaxLevel
    ==> Get(s, k) == MapGet(h.writes, s.ttl, k)
  }

  // The bytes of the keys from TsKey{} to (0xFF, INT64_MAX).
  lemma {:induction false} DomainInBytes(k: TsKey)
    ensures InDomain(k) <==> if k.measurement == [] then k.timestamp >= 0
                             else k.measurement[0] < 0xFF || k.measurement == [0xFF]
  {
    var m := k.measurement;
    KeyOrderInBytes(k, ZeroKey, 0);
    if m == [] || m[0] != 0xFF {
      KeyOrderInBytes(LastReadKey, k, 0);
    } else {
      assert [0xFF][..1] == m[..1];
      KeyOrderInBytes(LastReadKey, k, 1);
    }
  }

  // The store is a map for exactly the keys whose measurement is the single byte 0xFF or starts with a smaller byte,
  // and under the empty measurement for the timestamps from 0 up.
  lemma {:induction false} DomainIsExact(k: TsKey)
    ensures ReadsBack(k) <==> if k.measurement == [] then k.timestamp >= 0
                              else k.measurement[0] < 0xFF || k.measurement == [0xFF]
  {
    hide Inv, Reachable, Get, MapGet, Less;
    DomainInBytes(k);
    if Less(k, ZeroKey) {
      var s, h := LowKeyIsLost(k, []);
      assert !ReadsBackIn(s, h, k);
    } else if Less(LastReadKey, k) {
      var s, h := HighKeyIsLost(k, []);
      assert !ReadsBackIn(s, h, k);
    } else {
      forall s, h ensures ReadsBackIn(s, h, k) {
        if Reachable(s, h) && Trusted(h, k) && s.flush.NoFlush? && |s.version.levels| == MaxLevel {
          StoreRefinesMap(s, h, k);
        }
      }
    }
  }

  // ---------------------------------------------------------------- the table in flight

  // While a table is in flight Get can miss a write that the map holds, whatever the key.
  lemma {:induction false} InFlightIsHidden(k: TsKey, v: Bytes) returns (s: State, h: History)
    ensures Reachable(s, h) && Trusted(h, k) && HiddenInFlight(s, k) && |s.version.levels| == MaxLevel
    ensures Get(s, k) == None && MapGet(h.writes, s.ttl, k) == Some(v)
  {
    hide Inv, Reachable, CopiesIn, DeepCopies, Get, Touch, MapGet, Expired;
    var r := Record(k, Value(v));
    var s0, h0 := WriteAndSeal(r);
    SevenLevels(s0);
    UnexpiredAfterOneWrite(r);
    s := TakeForFlush(s0, h0);
    h := h0;
    CopiesOfSingleton(r, k);
    NoCopies(k);
    NoDeepCopies(s.disk, s.version.levels, 0, k);
    GetAnswersNewest(s, k);
    assert ReadCopies(s, k) == [];
  }

  // ---------------------------------------------------------------- relaxing a TTL rule

  // A value flushed, then expired by a rule, with a compaction job merged under that rule.
  lemma {:induction false} ExpiredJob(m: Bytes, v: Bytes) returns (s: State, h: History, f: FileMeta)
    ensures Reachable(s, h) && Inv(s) && s.progress.Merging? && s.progress.begin == |s.progress.merged|
    ensures s.version.levels == EmptyLevels()[0 := [f]] && s.imm.None? && s.flush.NoFlush?
    ensures var k := TsKey(m, 0);
            && CopiesIn(s.mem, k) == [] && Copies(s, k) == [Value(v)]
            && s.progress.ttl == s.ttl && s.ttl == map[m := TtlRule(1, 2_000_000_000)]
  {
    hide Inv, Reachable, CopiesIn, DeepCopies, Copies, FromZeroKey;
    var k, r, r2 := TsKey(m, 0), Record(TsKey(m, 0), Value(v)), Record(TsKey(m, 2_000_000_000), Deletion);
    var s0, h0 := FlushOneWrite(r);
    SevenLevels(s0);
    f :| s0.version.levels == EmptyLevels()[0 := [f]] && Content(s0.disk, f.number) == FromZeroKey([r]);
    NonNegativeIsNotLow(m);
    OneWriteCopies(s0, f, r);
    StepReachable(s0, h0, DoPut(r2));
    var s1, h1 := Put(s0, r2), NextHistory(s0, h0, DoPut(r2));
    EmptySorted();
    WriteCopies(s0, r2, k);
    UpsertCopies(s0.mem, r2.key, r2.entry, k);
    NoCopies(k);
    StepReachable(s1, h1, DoSetTtl(m, 1));
    var s2, h2 := s1.(ttl := SetTtl(s1.ttl, m, 1)), NextHistory(s1, h1, DoSetTtl(m, 1));
    assert s2.ttl == map[m := TtlRule(1, 2_000_000_000)];
    SameMemorySameCopies(s1, s2);
    assert Copies(s1, k) == Copies(Write(s0, r2), k) by { SameMemorySameCopies(Write(s0, r2), s1); }
    var s3 := PickAndMerge(s2, h2);
    SameMemorySameCopies(s2, s3);
    MergingWithin(s3);
    s := EmitAll(s3, h2);
    h := h2;
  }

  lemma {:induction false} EmptySorted()
    ensures Sorted([])
  {
  }

  lemma {:induction false} OneWriteCopies(s: State, f: FileMeta, r: Record)
    requires s.version.levels == EmptyLevels()[0 := [f]] && Content(s.disk, f.number) == FromZeroKey([r])
    requires !Less(r.key, ZeroKey) && s.mem == [] && s.imm.None? && s.flush.NoFlush?
    ensures Copies(s, r.key) == [r.entry]
  {
    hide DeepCopies, CopiesIn, FromZeroKey, Less;
    SoleFileCopies(s.disk, f, r.key);
    FromZeroKeyCopies([r], r.key);
    CopiesOfSingleton(r, r.key);
    NoCopies(r.key);
    assert Copies(s, r.key) == [r.entry] + ([] + [] + []);
  }

  lemma {:induction false} NonNegativeIsNotLow(m: Bytes)
    ensures !Less(TsKey(m, 0), ZeroKey)
  {
    CompareBytesLaws(m, []);
  }

  // Relaxing a rule after the job's snapshot, by clearing or by raising it, makes the commit visible: a value that Get
  // returned is gone.
  lemma {:induction false} RelaxedRuleShowsCommit(m: Bytes, v: Bytes, seconds: int)
    returns (s: State, h: History, k: TsKey)
    requires !(0 < seconds <= 1)
    ensures Reachable(s, h) && s.progress.Merging? && s.progress.begin == |s.progress.merged|
    ensures |s.version.levels| == MaxLevel && |CommitJob(s, false).version.levels| == MaxLevel
    ensures s.progress.ttl == map[m := TtlRule(1, 2_000_000_000)] && s.ttl == map[m := TtlRule(seconds, 2_000_000_000)]
    ensures k.measurement == m && Get(s, k) == Some(v) && Get(CommitJob(s, false), k) == None
  {
    hide Inv, Reachable, CopiesIn, DeepCopies, Get, CommitJob, ReadCopies, Copies, Less;
    k := TsKey(m, 0);
    var s0, h0, f := ExpiredJob(m, v);
    SevenLevels(s0);
    StepReachable(s0, h0, DoSetTtl(m, seconds));
    s, h := s0.(ttl := SetTtl(s0.ttl, m, seconds)), NextHistory(s0, h0, DoSetTtl(m, seconds));
    ReachableIsGood(s, h);
    SameMemorySameCopies(s0, s);
    NoCopies(k);
    VisibleCopies(s, k);
    GetAnswersNewest(s, k);
    var after := SoleFileCommit(s, h, f, k);
  }

  // ---------------------------------------------------------------- the exact condition on rules

  // Rules as later actions of the same process can leave them: no measurement is forgotten, no latest timestamp falls.
  ghost predicate Grown(older: TtlMap, newer: TtlMap) {
    forall m :: m in older ==> m in newer && older[m].latest <= newer[m].latest
  }

  // Every commit, in any run, of a job with this snapshot under these rules leaves Get(k) alone.
  ghost predicate CommitsLeaveAlone(snapshot: TtlMap, rules: TtlMap, k: TsKey) {
    forall s, h, cleanup :: LeavesAlone(s, h, cleanup, snapshot, rules, k)
  }

  ghost predicate LeavesAlone(s: State, h: History, cleanup: bool, snapshot: TtlMap, rules: TtlMap, k: TsKey) {
    Reachable(s, h) && s.progress.Merging? && s.progress.begin == |s.progress.merged| && s.progress.ttl == snapshot
      && s.ttl == rules
    && |s.version.levels| == MaxLevel && |CommitJob(s, cleanup).version.levels| == MaxLevel
    ==> Get(CommitJob(s, cleanup), k) == Get(s, k)
  }

  // Commits are invisible on k exactly when what the snapshot expires is expired by the rules in force, or no run
  // brings the two together.
  lemma {:induction false} CommitsLeaveAloneExactlyWhen(snapshot: TtlMap, rules: TtlMap, k: TsKey)
    requires InDomain(k)
    ensures CommitsLeaveAlone(snapshot, rules, k)
            <==> (Grown(snapshot, rules) && Expired(snapshot, k) ==> Expired(rules, k))
  {
    hide Inv, Reachable, Good, Get, CommitJob, Expired, Less, Grown;
    if Grown(snapshot, rules) && Expired(snapshot, k) && !Expired(rules, k) {
      var s, h := JobUnderRules(snapshot, rules, k);
      assert !LeavesAlone(s, h, false, snapshot, rules, k);
    } else {
      forall s, h, cleanup ensures LeavesAlone(s, h, cleanup, snapshot, rules, k) {
        if Reachable(s, h) && s.progress.Merging? && s.progress.begin == |s.progress.merged|
          && s.progress.ttl == snapshot && s.ttl == rules {
          ReachableIsGood(s, h);
          RulesGrow(s, h);
          CommitIsInvisible(s, cleanup, k);
        }
      }
    }
  }

  // ---------------------------------------------------------------- rules only grow while a job is under way

  ghost predicate SnapshotGrown(s: State) {
    s.progress != Idle ==> Grown(s.progress.ttl, s.ttl)
  }

  lemma {:induction false} TouchGrows(older: TtlMap, ttl: TtlMap, k: TsKey)
    requires Grown(older, ttl)
    ensures Grown(older, Touch(ttl, k))
  {
  }

  lemma {:induction false} SetTtlGrows(older: TtlMap, ttl: TtlMap, m: Bytes, seconds: int)
    requires Grown(older, ttl)
    ensures Grown(older, SetTtl(ttl, m, seconds))
  {
  }

  lemma {:induction false} NextGrows(s: State, a: Action)
    requires Inv(s) && |s.version.levels| == MaxLevel && Enabled(s, a) && SnapshotGrown(s)
    ensures SnapshotGrown(Next(s, a))
  {
    hide Inv, PickJob, Merge, RankInputs, MoveObsolete, StillPending, Deletable, Touch, SetTtl, Grown, Upsert, Recover,
         LiveFiles, Replay, TouchAll, CommitJob, Published, ViewOf;
    match a {
      case DoPut(r) => if s.progress != Idle { TouchGrows(s.progress.ttl, s.ttl, r.key); }
      case DoApplyFromBatch(i) =>
        if s.progress != Idle { TouchGrows(s.progress.ttl, s.ttl, s.batches[i][0].key); }
      case DoSetTtl(m, seconds) => if s.progress != Idle { SetTtlGrows(s.progress.ttl, s.ttl, m, seconds); }
      case DoPick(_) => GrownItself(s.ttl);
      case DoCommitJob(cleanup) => CommitJobFields(s, cleanup);
      case _ =>
    }
  }

  lemma {:induction false} GrownItself(ttl: TtlMap)
    ensures Grown(ttl, ttl)
  {
  }

  lemma {:induction false} RunGrows(states: seq<State>, histories: seq<History>, actions: seq<Action>, i: nat)
    requires IsRun(states, histories, actions) && i <= |actions|
    ensures SnapshotGrown(states[i])
  {
    hide Good, Inv, Enabled, Next, NextHistory, Grown;
    if i > 0 {
      RunGrows(states, histories, actions, i - 1);
      assert IsStep(states[i - 1], histories[i - 1], actions[i - 1], states[i], histories[i]);
      RunIsGood(states, histories, actions, i - 1);
      GoodIsInv(states[i - 1], histories[i - 1]);
      NextGrows(states[i - 1], actions[i - 1]);
    }
  }

  lemma {:induction false} GoodIsInv(s: State, h: History)
    requires Good(s, h)
    ensures Inv(s)
  {
    hide Inv;
  }

  lemma {:induction false} RulesGrow(s: State, h: History)
    requires Reachable(s, h) && s.progress != Idle
    ensures Grown(s.progress.ttl, s.ttl)
  {
    hide IsStep, Grown;
    var states, histories, actions :| IsRun(states, histories, actions) && states[|actions|] == s
      && histories[|actions|] == h;
    RunGrows(states, histories, actions, |actions|);
  }

  // ---------------------------------------------------------------- a run to any rules

  // The measurements whose rules are not yet as wanted.
  function Differing(ttl: TtlMap, rules: TtlMap): set<Bytes> {
    set m | m in rules && (m !in ttl || ttl[m] != rules[m])
  }

  // What changes when a process only sets rules and writes.
  ghost predicate OnlyWrites(s: State, s': State, k: TsKey) {
    && s' == s.(mem := s'.mem, wal := s'.wal, ttl := s'.ttl)
    && CopiesIn(s'.mem, k) == CopiesIn(s.mem, k)
  }

  // From any state of a run, setting rules and writing tombstones at the wanted latest timestamps gives these rules.
  lemma {:induction false} ReachRules(s0: State, h0: History, rules: TtlMap, k: TsKey) returns (s: State, h: History)
    requires Reachable(s0, h0) && Grown(s0.ttl, rules)
    requires k.measurement in rules ==> k.timestamp < rules[k.measurement].latest
    ensures Reachable(s, h) && s.ttl == rules && OnlyWrites(s0, s, k)
    decreases |Differing(s0.ttl, rules)|
  {
    hide Reachable, CopiesIn;
    if Differing(s0.ttl, rules) == {} {
      s, h := s0, h0;
      NothingDiffers(s0.ttl, rules);
    } else {
      var m :| m in Differing(s0.ttl, rules);
      var s1, h1 := ReachRule(s0, h0, rules, k, m);
      OneLessDiffers(s0.ttl, s1.ttl, rules, m);
      s, h := ReachRules(s1, h1, rules, k);
    }
  }

  lemma {:induction false} NothingDiffers(ttl: TtlMap, rules: TtlMap)
    requires Grown(ttl, rules) && Differing(ttl, rules) == {}
    ensures ttl == rules
  {
    forall m ensures m in ttl <==> m in rules {
      if m in rules {
        assert m !in Differing(ttl, rules);
      }
    }
    forall m | m in rules ensures ttl[m] == rules[m] {
      assert m !in Differing(ttl, rules);
    }
  }

  lemma {:induction false} OneLessDiffers(ttl: TtlMap, ttl': TtlMap, rules: TtlMap, m: Bytes)
    requires Grown(ttl, rules) && m in Differing(ttl, rules) && ttl' == ttl[m := rules[m]]
    ensures Grown(ttl', rules) && |Differing(ttl', rules)| < |Differing(ttl, rules)|
  {
    assert Differing(ttl', rules) == Differing(ttl, rules) - {m};
  }

  // The rule of one measurement.
  lemma {:induction false} ReachRule(s0: State, h0: History, rules: TtlMap, k: TsKey, m: Bytes)
    returns (s: State, h: History)
    requires Reachable(s0, h0) && Grown(s0.ttl, rules) && m in rules
    requires k.measurement in rules ==> k.timestamp < rules[k.measurement].latest
    ensures Reachable(s, h) && s.ttl == s0.ttl[m := rules[m]] && OnlyWrites(s0, s, k)
  {
    hide Reachable, CopiesIn, Inv, Good, Upsert;
    ReachableIsGood(s0, h0);
    StepReachable(s0, h0, DoSetTtl(m, rules[m].seconds));
    s, h := s0.(ttl := SetTtl(s0.ttl, m, rules[m].seconds)), NextHistory(s0, h0, DoSetTtl(m, rules[m].seconds));
    if s.ttl[m].latest < rules[m].latest {
      var r := Record(TsKey(m, rules[m].latest), Deletion);
      StepReachable(s, h, DoPut(r));
      MemSorted(s0);
      UpsertCopies(s.mem, r.key, r.entry, k);
      s, h := Put(s, r), NextHistory(s, h, DoPut(r));
    }
  }

  lemma {:induction false} MemSorted(s: State)
    requires Inv(s)
    ensures Sorted(s.mem)
  {
    hide LevelsOk, ProgressOk, FlushOk, ManifestOk, FilesOk, Sorted;
  }

  // ---------------------------------------------------------------- a job under a snapshot, and other rules after it

  // The table in memory, flushed to the only file.
  lemma {:induction false} FlushFirst(s0: State, h0: History) returns (s: State, h: History, m: FileMeta)
    requires Reachable(s0, h0) && s0.imm.None? && s0.flush.NoFlush? && s0.version == VersionState(EmptyLevels(), 1, [])
    ensures Reachable(s, h) && s.mem == [] && s.imm.None? && s.flush.NoFlush? && s.ttl == s0.ttl
    ensures s.progress == s0.progress && s.compacting == s0.compacting
    ensures s.version.levels == EmptyLevels()[0 := [m]] && Content(s.disk, m.number) == FromZeroKey(s0.mem)
  {
    hide Inv, Reachable, FromZeroKey, ApplyEdit, EditLines;
    StepReachable(s0, h0, DoSeal);
    var s1 := TakeForFlush(Seal(s0), h0);
    var s2 := BuildForFlush(s1, h0);
    SevenLevels(s2);
    StepReachable(s2, h0, DoCommitFlush);
    s, h := CommitFlush(s2), NextHistory(s2, h0, DoCommitFlush);
    m := s2.flush.meta;
    FlushFacts(s2);
    InstallFlushLevels(s2);
    CommitFlushFields(s2);
    assert EmptyLevels()[0] + [m] == [m];
    assert s.version.levels == EmptyLevels()[0 := [m]];
  }

  // A store with a value of k in its only file, under the snapshot.
  lemma {:induction false} FileUnderRules(snapshot: TtlMap, k: TsKey) returns (s: State, h: History, m: FileMeta)
    requires InDomain(k) && Expired(snapshot, k)
    ensures Reachable(s, h) && s.mem == [] && s.imm.None? && s.flush.NoFlush? && s.progress == Idle
            && s.compacting == {}
    ensures s.version.levels == EmptyLevels()[0 := [m]] && s.ttl == snapshot
    ensures CopiesIn(Content(s.disk, m.number), k) == [Value([])]
  {
    hide Inv, Reachable, CopiesIn, FromZeroKey, Less, Upsert;
    var r := Record(k, Value([]));
    InitReachable(0);
    StepReachable(Init(0), NoHistory, DoPut(r));
    var s1, h1 := Put(Init(0), r), NextHistory(Init(0), NoHistory, DoPut(r));
    EmptySorted();
    UpsertCopies([], r.key, r.entry, k);
    NoCopies(k);
    var s2, h2 := ReachRules(s1, h1, snapshot, k);
    s, h, m := FlushFirst(s2, h2);
    FromZeroKeyCopies(s2.mem, k);
  }

  // A finished job over that file, and the other rules in force.
  lemma {:induction false} JobUnderRules(snapshot: TtlMap, rules: TtlMap, k: TsKey) returns (s: State, h: History)
    requires InDomain(k) && Expired(snapshot, k) && !Expired(rules, k) && Grown(snapshot, rules)
    ensures Reachable(s, h) && s.progress.Merging? && s.progress.begin == |s.progress.merged|
    ensures s.progress.ttl == snapshot && s.ttl == rules
    ensures |s.version.levels| == MaxLevel && |CommitJob(s, false).version.levels| == MaxLevel
    ensures Get(CommitJob(s, false), k) != Get(s, k)
  {
    hide Inv, Reachable, Get, CommitJob, Less, CopiesIn, DeepCopies, Merge, RankInputs, Copies, Live;
    var s0, h0, m := FileUnderRules(snapshot, k);
    var s1, h1 := PickAlone(s0, h0);
    StepReachable(s1, h1, DoMerge);
    var s2 := MergeJob(s1);
    ReachableIsGood(s2, h1);
    MergingWithin(s2);
    var s3 := EmitAll(s2, h1);
    s, h := ReachRules(s3, h1, rules, k);
    ReachableIsGood(s, h);
    SoleFileCopies(s.disk, m, k);
    SameFileContent(s0, s, m);
    NoCopies(k);
    GetAnswersNewest(s, k);
    assert ReadCopies(s, k) == [Value([])];
    var after := SoleFileCommit(s, h, m, k);
  }

  lemma {:induction false} SameFileContent(s0: State, s: State, m: FileMeta)
    requires s0.version.levels == EmptyLevels()[0 := [m]]
    requires forall n :: n in Live(s0.version.levels) ==> Content(s.disk, n) == Content(s0.disk, n)
    ensures Content(s.disk, m.number) == Content(s0.disk, m.number)
  {
    assert m in s0.version.levels[0];
  }

  // The job over level 0, picked but not yet merged.
  lemma {:induction false} PickAlone(s0: State, h0: History) returns (s: State, h: History)
    requires Reachable(s0, h0) && |s0.version.levels| == MaxLevel && s0.progress == Idle && s0.compacting == {}
    requires s0.version.levels[0] != []
    ensures Reachable(s, h) && Inv(s) && s.progress.Picked? && s.progress.ttl == s0.ttl
    ensures s == s0.(progress := s.progress, compacting := s.compacting)
    ensures s.progress.job == L0Job(s0.version.levels, s0.version.levels[0]) && h == h0.(relaxed := {})
  {
    hide Inv, Reachable, L0Job;
    FilterOutNone(s0.version.levels[0], {});
    StepReachable(s0, h0, DoPick(true));
    s, h := StartJob(s0, PickJob(s0, true).value), NextHistory(s0, h0, DoPick(true));
    ReachableIsGood(s, h);
  }
}
