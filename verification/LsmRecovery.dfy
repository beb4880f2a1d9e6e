// Restarting: replaying the log over the manifest's version.
module LsmRecovery {
  import opened Types
  import opened Subsequence
  import opened Version
  import opened RankedMerge
  import opened Lsm
  import opened LsmInvariant
  import opened LsmSteps
  import opened LsmCommits
  import opened LsmRetire
  import opened LsmMerge
  import opened LsmHistory
  import opened LsmReads
  import opened LsmRuns
  import Manifest
  import Text
  import Wal

  // What the store holds for k once every logged operation has been applied.
  function LoggedCopies(s: State, k: TsKey): seq<Entry> {
    Copies(s, k) + CopiesIn(Flatten(s.batches), k)
  }

  lemma {:induction false} LastAcross(deep: seq<Entry>, mem: seq<Entry>, batch: seq<Entry>, log: seq<Entry>)
    requires LastOf(log) == LastOf(mem + batch)
    ensures LastOf(deep + LastOf(log)) == LastOf((deep + mem) + batch)
  {
    assert deep + (mem + batch) + [] == (deep + mem) + batch;
    assert deep + LastOf(mem + batch) + [] == deep + LastOf(log);
    LastOfShrink(deep, mem + batch, []);
  }

  lemma {:induction false} ReopenRestores(s: State, k: TsKey)
    requires Inv(s) && LogAgrees(s, k)
    ensures LastOf(Copies(Reopen(s), k)) == LastOf(LoggedCopies(s, k))
  {
    hide Inv, CopiesIn, DeepCopies, Reopen, LastOf, Flatten, MemoryCopies;
    ReopenCopies(s, k);
    LastAcross(DeepCopies(s.disk, s.version.levels, 0, k), MemoryCopies(s, k), CopiesIn(Flatten(s.batches), k),
               CopiesIn(s.wal, k));
  }

  // Between LogAndApply of a flush and the rotation of the log.
  function MidCommit(s: State): State
    requires s.flush.Built? && |s.version.levels| == MaxLevel
  {
    CommitFlush(s).(wal := s.wal)
  }

  // Replaying records that a new file already holds is harmless.
  lemma {:induction false} MidCommitRestores(s: State, k: TsKey)
    requires Inv(s) && LogAgrees(s, k) && s.flush.Built? && InDomain(k)
    ensures |s.version.levels| == MaxLevel && Inv(MidCommit(s))
    ensures LastOf(Copies(Reopen(MidCommit(s)), k)) == LastOf(LoggedCopies(s, k))
  {
    hide Inv, CopiesIn, DeepCopies, Reopen, LastOf, Flatten, MemoryCopies, CommitFlush, Less;
    MidCommitOk(s);
    var x := MidCommit(s);
    ReopenCopies(x, k);
    CommitFlushCopies(s, k);
    CommitFlushDeep(s, k);
    FlushFacts(s);
    MidMemory(s, k);
    var deep, t := DeepCopies(s.disk, s.version.levels, 0, k), CopiesIn(s.flush.table, k);
    var mem, batch := CopiesIn(s.mem, k), CopiesIn(Flatten(s.batches), k);
    RepeatedBlock(deep, t, mem, batch, CopiesIn(s.wal, k));
  }

  lemma {:induction false} MidMemory(s: State, k: TsKey)
    requires Inv(s) && s.flush.Built?
    ensures MemoryCopies(s, k) == CopiesIn(s.flush.table, k) + CopiesIn(s.mem, k)
  {
    hide CopiesIn, LevelsOk, ProgressOk, FlushOk, ManifestOk, FilesOk;
    FlushFacts(s);
    NoCopies(k);
  }

  lemma {:induction false} MidCommitOk(s: State)
    requires Inv(s) && s.flush.Built?
    ensures |s.version.levels| == MaxLevel && Inv(MidCommit(s))
    ensures MidCommit(s).wal == s.wal && MidCommit(s).disk == CommitFlush(s).disk
            && MidCommit(s).version == CommitFlush(s).version
  {
    hide LevelsOk, ProgressOk, FlushOk, ManifestOk, FilesOk, CommitFlush;
    CommitFlushKeepsInv(s);
    SevenLevels(s);
    MemoryStep(CommitFlush(s), MidCommit(s));
  }

  lemma {:induction false} RepeatedBlock(deep: seq<Entry>, t: seq<Entry>, mem: seq<Entry>, batch: seq<Entry>,
                                         log: seq<Entry>)
    requires LastOf(log) == LastOf((t + mem) + batch)
    ensures LastOf((deep + t) + LastOf(log)) == LastOf((deep + t + mem) + batch)
  {
    hide LastOf;
    var all := (t + mem) + batch;
    LastOfConcat(deep + t, LastOf(log));
    assert (deep + t + mem) + batch == deep + all;
    LastOfConcat(deep, all);
    LastOfTwice(log);
    NothingLast(log);
    NothingLast(all);
    if all == [] {
      assert |t| + |mem| + |batch| == |all|;
      assert deep + t == deep && deep + all == deep;
    }
  }

  // Rotating keeps the log in step with memory for exactly the keys that memory no longer holds.
  lemma {:induction false} RotationIsCleanExactlyFor(s: State, h: History, k: TsKey)
    requires Reachable(s, h) && s.flush.Built?
    ensures |s.version.levels| == MaxLevel
    ensures LogAgrees(CommitFlush(s), k) <==> k !in Keys(s.mem) && k !in Keys(Flatten(s.batches))
  {
    hide Inv, Reachable, Good, CopiesIn, CommitFlush, MemoryCopies, Flatten;
    ReachableIsGood(s, h);
    CommitFlushLog(s, k);
  }

  // So it is clean for every key exactly when nothing is left in memory.
  lemma {:induction false} RotationIsCleanExactlyWhenMemoryIsEmpty(s: State, h: History)
    requires Reachable(s, h) && s.flush.Built?
    ensures |s.version.levels| == MaxLevel
    ensures (forall k :: LogAgrees(CommitFlush(s), k)) <==> s.mem == [] && s.batches == []
  {
    hide Inv, Reachable, Good, CommitFlush, LogAgrees, Flatten;
    ReachableIsGood(s, h);
    forall k ensures LogAgrees(CommitFlush(s), k) <==> k !in Keys(s.mem) && k !in Keys(Flatten(s.batches)) {
      CommitFlushLog(s, k);
    }
    if s.mem == [] && s.batches == [] {
      NothingFlattened();
    } else {
      var left := s.mem + Flatten(s.batches);
      if s.batches != [] { BatchesNotEmpty(s); }
      assert left[0] in s.mem || left[0] in Flatten(s.batches);
      assert !LogAgrees(CommitFlush(s), left[0].key);
    }
  }

  lemma {:induction false} NothingFlattened()
    ensures Flatten([]) == []
  {
  }

  lemma {:induction false} BatchesNotEmpty(s: State)
    requires Inv(s) && s.batches != []
    ensures s.mem + Flatten(s.batches) != []
  {
    hide LevelsOk, ProgressOk, FlushOk, ManifestOk, FilesOk, Sorted;
    assert s.batches[0] in s.batches;
  }

  // ---------------------------------------------------------------- a rotation with a write left in memory

  // One write flushed while a second one reaches the next active table.
  lemma {:induction false} WriteDuringFlush(r0: Record, r1: Record) returns (s: State, h: History)
    ensures Reachable(s, h) && Inv(s) && |s.version.levels| == MaxLevel
            && s.version == VersionState(EmptyLevels(), 2, [])
    ensures s.flush == Built([r0], MetaOf(1, 0, FromZeroKey([r0]))) && s.mem == [r1] && s.batches == []
            && s.manifest == []
    ensures h.writes == [r0] + [r1]
  {
    hide Inv, Reachable, FromZeroKey, Touch;
    var s0, h0 := WriteAndSeal(r0);
    SevenLevels(s0);
    var s1 := TakeForFlush(s0, h0);
    SevenLevels(s1);
    var s2 := BuildForFlush(s1, h0);
    SevenLevels(s2);
    StepReachable(s2, h0, DoPut(r1));
    s, h := Put(s2, r1), NextHistory(s2, h0, DoPut(r1));
    ReachableIsGood(s, h);
  }

  lemma {:induction false} OneAddLine(m: FileMeta, next: nat)
    ensures EditLines(Edit([(0, m)], []), next) == [LineAdd(0, m), LineNext(next)]
  {
    SingletonPrefix((0, m));
    assert AddLines([(0, m)]) == AddLines([]) + [LineAdd(0, m)];
  }

  // The manifest after one flush of a table whose end keys have words for measurements.
  lemma {:induction false} OneAddIsPrintable(m: FileMeta, next: nat)
    requires Text.IsToken(m.smallest.measurement) && Text.IsToken(m.largest.measurement)
    requires m.number <= Manifest.MaxUint64 && m.size <= Manifest.MaxUint64 && next <= Manifest.MaxUint64
    ensures Manifest.Printable(EditLines(Edit([(0, m)], []), next))
  {
    OneAddLine(m, next);
  }

  lemma {:induction false} OneRecordMeta(r: Record)
    requires !Less(r.key, ZeroKey)
    ensures FromZeroKey([r]) == [r] && MetaOf(1, 0, FromZeroKey([r])) == FileMeta(1, 0, r.key, r.key)
  {
    SingletonPrefix(r);
  }

  // The flush of r0 commits and rotates while r1 is in memory, and the process restarts: r1 is gone.
  lemma {:induction false} DirtyRotation(r0: Record, r1: Record) returns (s: State, h: History)
    requires !Less(r0.key, ZeroKey) && Text.IsToken(r0.key.measurement)
    ensures Reachable(s, h) && Inv(s) && s.flush.NoFlush? && |s.version.levels| == MaxLevel && s.ttl == map[]
    ensures h.writes == [r0] + [r1]
    ensures forall k :: ReadCopies(s, k) == CopiesIn([r0], k)
  {
    hide Inv, Reachable, CopiesIn, DeepCopies, Less, Reopen, CommitFlush, ReadCopies, EditLines, FromZeroKey;
    var s3, h3 := WriteDuringFlush(r0, r1);
    StepReachable(s3, h3, DoCommitFlush);
    var s4, h4 := CommitFlush(s3), NextHistory(s3, h3, DoCommitFlush);
    ReachableIsGood(s4, h4);
    CommitFlushFields'(s3);
    CommittedSoleFile(s3);
    OneRecordMeta(r0);
    OneAddIsPrintable(s3.flush.meta, 2);
    NothingFlattened();
    StepReachable(s4, h4, DoReopen);
    s, h := Reopen(s4), NextHistory(s4, h4, DoReopen);
    ReachableIsGood(s, h);
    assert h.writes == [r0] + [r1];
    ReopenTtl(s4);
    forall k ensures ReadCopies(s, k) == CopiesIn([r0], k) {
      ReopenedCopies(s3, s4, k, r0);
    }
  }

  // Rotating with a write left in memory loses it in a crash, whatever its key.
  lemma {:induction false} DirtyRotationLosesWrite(k: TsKey, v: Bytes) returns (s: State, h: History)
    ensures Reachable(s, h) && s.flush.NoFlush? && |s.version.levels| == MaxLevel
    ensures Get(s, k) == None && MapGet(h.writes, s.ttl, k) == Some(v)
  {
    hide Inv, Reachable, CopiesIn, DeepCopies, Get, ReadCopies, Less;
    var r0 := Record(TsKey(if k.measurement == [97] then [98] else [97], 0), Deletion);
    NonNegativeIsNotLow(r0.key.measurement);
    s, h := DirtyRotation(r0, Record(k, Value(v)));
    CopiesInConcat([r0], [Record(k, Value(v))], k);
    CopiesOfSingleton(r0, k);
    CopiesOfSingleton(Record(k, Value(v)), k);
    assert [] + [Value(v)] == [Value(v)];
    GetAnswersNewest(s, k);
  }

  // When the flushed table held an older value, that value comes back.
  lemma {:induction false} DirtyRotationBringsBackOlder(k: TsKey, old0: Bytes, new0: Bytes)
    returns (s: State, h: History)
    requires !Less(k, ZeroKey) && Text.IsToken(k.measurement)
    ensures Reachable(s, h) && s.flush.NoFlush? && |s.version.levels| == MaxLevel
    ensures Get(s, k) == Some(old0) && MapGet(h.writes, s.ttl, k) == Some(new0)
  {
    hide Inv, Reachable, CopiesIn, DeepCopies, Get, Less, ReadCopies;
    var r0, r1 := Record(k, Value(old0)), Record(k, Value(new0));
    s, h := DirtyRotation(r0, r1);
    CopiesOfWrites(h.writes, r0, r1);
    CopiesOfSingleton(r0, k);
    GetAnswersNewest(s, k);
  }

  lemma {:induction false} CommittedSoleFile(s: State)
    requires Inv(s) && s.flush.Built? && |s.version.levels| == MaxLevel && s.version.levels == EmptyLevels()
    ensures |CommitFlush(s).version.levels| == MaxLevel && CommitFlush(s).version.levels[0] != []
    ensures CommitFlush(s).manifest == s.manifest + EditLines(Edit([(0, s.flush.meta)], []), s.version.nextFile)
  {
    hide ProgressOk, ManifestOk, FilesOk, ApplyEdit, EditLines;
    FlushFacts(s);
    InstallFlushLevels(s);
    CommitFlushFields(s);
  }

  lemma {:induction false} CopiesOfWrites(writes: seq<Record>, r0: Record, r1: Record)
    requires writes == [r0] + [r1] && r0.key == r1.key
    ensures CopiesIn(writes, r0.key) == [r0.entry, r1.entry]
  {
    CopiesInConcat([r0], [r1], r0.key);
    CopiesOfSingleton(r0, r0.key);
    CopiesOfSingleton(r1, r0.key);
  }

  lemma {:induction false} ReopenTtl(s: State)
    requires s.wal == []
    ensures Reopen(s).ttl == map[] && Reopen(s).flush.NoFlush?
  {
  }

  // What a restart finds of k when only a flushed table was left.
  lemma {:induction false} ReopenedCopies(s3: State, s4: State, k: TsKey, r0: Record)
    requires Inv(s3) && s3.flush.Built? && s3.flush.table == [r0] && !Less(r0.key, ZeroKey)
    requires |s3.version.levels| == MaxLevel && s4 == CommitFlush(s3) && Inv(s4)
    requires s3.version.levels == EmptyLevels()
    ensures ReadCopies(Reopen(s4), k) == CopiesIn([r0], k)
  {
    hide Inv, CopiesIn, DeepCopies, Less, Reopen, CommitFlush;
    CommitFlushFields'(s3);
    CommitFlushDeep(s3, k);
    ReopenCopies(s4, k);
    NoDeepCopies(s3.disk, s3.version.levels, 0, k);
    CopiesOfSingleton(r0, k);
    NoCopies(k);
    assert [] + CopiesIn([r0], k) == CopiesIn([r0], k);
    assert CopiesIn([r0], k) + [] == CopiesIn([r0], k);
    ReopenedReads(s4, k);
  }

  lemma {:induction false} ReopenedReads(s: State, k: TsKey)
    ensures ReadCopies(Reopen(s), k) == Copies(Reopen(s), k)
  {
    hide CopiesIn, DeepCopies, Recover, Replay;
    NoCopies(k);
  }

  // ---------------------------------------------------------------- a write that overtakes a logged batch

  // A put between the logging of a batch and its application, on a key of the batch: the batch's value is the last
  // write, but the log has the put last, so a restart brings the put's value back.
  lemma {:induction false} OvertakingPutReturns(k: TsKey, v1: Bytes, v2: Bytes)
    returns (s: State, h: History, s': State, h': History)
    requires Wal.Loggable(Record(k, Value(v1)))
    ensures Reachable(s, h) && |s.version.levels| == MaxLevel && s.flush.NoFlush? && (k in h.stale <==> v1 != v2)
    ensures Get(s, k) == Some(v1) && MapGet(h.writes, s.ttl, k) == Some(v1)
    ensures Enabled(s, DoReopen) && s' == Reopen(s) && Reachable(s', h') && |s'.version.levels| == MaxLevel
            && (k in h'.lost <==> v1 != v2)
    ensures Get(s', k) == Some(v2) && MapGet(h'.writes, s'.ttl, k) == Some(v1)
  {
    hide Inv, Reachable, CopiesIn, DeepCopies, Get, Reopen, ReadCopies, Upsert;
    var r1, r2 := Record(k, Value(v1)), Record(k, Value(v2));
    s, h := OvertakenBatch(r1, r2);
    CopiesOfWrites(h.writes, r2, r1);
    SoleCopyReads(s, k, r1.entry);
    StepReachable(s, h, DoReopen);
    s', h' := Reopen(s), NextHistory(s, h, DoReopen);
    ReachableIsGood(s', h');
    NothingFlattened();
    assert h'.writes == h.writes;
    ReplayedLast(s, r1, r2);
    SoleCopyReads(s', k, r2.entry);
  }

  // A batch of one operation is logged, and a put on its key overtakes it.
  lemma {:induction false} LogThenPut(r1: Record, r2: Record) returns (s: State, h: History)
    requires r1.key == r2.key
    ensures Reachable(s, h) && s == Put(LogBatch(Init(0), [r1]), r2)
    ensures h == History([r2], if r1 == r2 then {} else {r1.key}, {}, {})
  {
    hide Reachable, Keys, EndsOtherThan, Upsert, Touch;
    InitReachable(0);
    StepReachable(Init(0), NoHistory, DoLogBatch([r1]));
    var s1 := LogBatch(Init(0), [r1]);
    assert NextHistory(Init(0), NoHistory, DoLogBatch([r1])) == NoHistory;
    assert s1.batches == [[r1]];
    FlattenOne([r1]);
    OneEndsOther(r1, r2);
    StepReachable(s1, NoHistory, DoPut(r2));
    s, h := Put(s1, r2), NextHistory(s1, NoHistory, DoPut(r2));
    assert [] + [r2] == [r2];
  }

  lemma {:induction false} OvertakenBatch(r1: Record, r2: Record) returns (s: State, h: History)
    requires r1.key == r2.key && Wal.Loggable(r1)
    ensures Reachable(s, h) && Inv(s) && |s.version.levels| == MaxLevel && Enabled(s, DoReopen)
    ensures s.mem == [r1] && s.imm.None? && s.flush.NoFlush? && s.batches == [] && s.wal == [r1, r2]
    ensures s.version.levels == EmptyLevels() && !Expired(s.ttl, r1.key)
    ensures h == History([r2] + [r1], if r1 == r2 then {} else {r1.key}, {}, {})
  {
    hide Inv, Reachable, LoggedAfter, Keys, EndsOtherThan;
    var s2, h2 := LogThenPut(r1, r2);
    assert s2.batches == [[r1]];
    StepReachable(s2, h2, DoApplyFromBatch(0));
    s, h := ApplyFromBatch(s2, 0), NextHistory(s2, h2, DoApplyFromBatch(0));
    ReachableIsGood(s, h);
    assert [r1][1..] == [];
    assert s2.batches[..0] == [] && s2.batches[1..] == [];
    NothingFlattened();
    OneEndsOther(r1, r2);
    OverwrittenOnce(r1, r2);
  }

  lemma {:induction false} OneEndsOther(r1: Record, r2: Record)
    requires r1.key == r2.key
    ensures EndsOtherThan([r1], r2.key, r2.entry) <==> r1 != r2
    ensures !EndsOtherThan([], r1.key, r1.entry)
  {
    CopiesOfSingleton(r1, r2.key);
  }

  lemma {:induction false} OverwrittenOnce(r1: Record, r2: Record)
    requires r1.key == r2.key
    ensures Upsert([], r2.key, r2.entry) == [r2] && Upsert([r2], r1.key, r1.entry) == [r1]
  {
    SingletonPrefix(r2);
    LessTotal(r1.key, r1.key);
  }

  lemma {:induction false} ReplayedLast(s: State, r1: Record, r2: Record)
    requires Inv(s) && s.wal == [r1, r2] && r1.key == r2.key && s.version.levels == EmptyLevels()
    ensures Reopen(s).mem == [r2] && Reopen(s).imm.None? && Reopen(s).flush.NoFlush?
    ensures Reopen(s).version.levels == EmptyLevels() && !Expired(Reopen(s).ttl, r1.key)
  {
    hide LevelsOk, ProgressOk, FlushOk, FilesOk, Recover, Expired;
    ReplayedTable(r1, r2);
  }

  lemma {:induction false} ReplayedTable(r1: Record, r2: Record)
    requires r1.key == r2.key
    ensures Replay([r1, r2]) == [r2] && !Expired(TouchAll(map[], [r1, r2]), r1.key)
  {
    var ops := [r1, r2];
    assert ops[..1] == [r1] && ops[1] == r2;
    SingletonPrefix(r1);
    OverwrittenOnce(r2, r1);
    assert Replay([r1]) == [r1];
    assert TouchAll(map[], [r1]) == Touch(map[], r1.key);
    assert TouchAll(map[], ops) == Touch(TouchAll(map[], [r1]), r2.key);
  }

  lemma {:induction false} SoleCopyReads(s: State, k: TsKey, e: Entry)
    requires Inv(s) && |s.version.levels| == MaxLevel && s.version.levels == EmptyLevels() && !Expired(s.ttl, k)
    requires s.mem == [Record(k, e)] && s.imm.None? && s.flush.NoFlush? && e.Value?
    ensures Get(s, k) == Some(e.value)
  {
    hide Inv, CopiesIn, DeepCopies, Get;
    NoDeepCopies(s.disk, s.version.levels, 0, k);
    CopiesOfSingleton(s.mem[0], k);
    NoCopies(k);
    GetAnswersNewest(s, k);
    assert ReadCopies(s, k) == [e];
  }
}
