// What Get returns, in every reachable state.
module LsmReads {
  import opened Types
  import opened Subsequence
  import opened Version
  import opened Lsm
  import opened LsmInvariant
  import opened LsmSteps
  import opened LsmCommits
  import opened LsmRetire
  import opened LsmMerge
  import opened LsmHistory

  // The answer for the newest copy in a list: a value, or nothing for a tombstone or no copy.
  function Answer(copies: seq<Entry>): Option<Bytes> {
    if copies == [] then None else Visible(copies[|copies| - 1])
  }

  // What a map from keys to the last entry written would answer.
  function MapGet(writes: seq<Record>, ttl: TtlMap, k: TsKey): Option<Bytes> {
    if Expired(ttl, k) then None else Answer(CopiesIn(writes, k))
  }

  // The copies Get can see: everything but the table in flight.
  function ReadCopies(s: State, k: TsKey): seq<Entry> {
    DeepCopies(s.disk, s.version.levels, 0, k) + (CopiesIn(SealedTable(s), k) + CopiesIn(s.mem, k))
  }

  // ---------------------------------------------------------------- searching the levels

  function LatestCopy(c: seq<Entry>): Option<Entry> {
    if c == [] then None else Some(c[|c| - 1])
  }

  lemma {:induction false} LatestCopyConcat(a: seq<Entry>, b: seq<Entry>)
    ensures LatestCopy(a + b) == if b == [] then LatestCopy(a) else LatestCopy(b)
  {
    if b == [] { assert a + b == a; }
  }

  // Skipping a file by its bounds skips no copy.
  lemma {:induction false} OutOfBoundsHasNoCopy(disk: Disk, m: FileMeta, k: TsKey)
    requires MetaOk(disk, m) && (Less(k, m.smallest) || Less(m.largest, k))
    ensures CopiesIn(Content(disk, m.number), k) == []
  {
    CopiesInMembers(disk[m.number], k);
    forall r | r in disk[m.number] ensures r.key != k {
      KeysWithinBounds(disk, m, r);
    }
  }

  lemma {:induction false} GetFromLevelFindsNewest(disk: Disk, files: seq<FileMeta>, k: TsKey)
    requires forall f :: f in files ==> MetaOk(disk, f)
    ensures GetFromLevel(disk, files, k) == LatestCopy(LevelCopies(disk, files, k))
  {
    hide CopiesIn, Less;
    if files != [] {
      var n := |files| - 1;
      GetFromLevelFindsNewest(disk, files[..n], k);
      LatestCopyConcat(LevelCopies(disk, files[..n], k), CopiesIn(Content(disk, files[n].number), k));
      if Less(k, files[n].smallest) || Less(files[n].largest, k) {
        OutOfBoundsHasNoCopy(disk, files[n], k);
      }
    }
  }

  lemma {:induction false} GetFromLevelsFindsNewest(disk: Disk, levels: Levels, level: nat, k: TsKey)
    requires forall l, f :: 0 <= l < |levels| && f in levels[l] ==> MetaOk(disk, f)
    ensures GetFromLevels(disk, levels, level, k) == LatestCopy(DeepCopies(disk, levels, level, k))
    decreases |levels| - level
  {
    hide CopiesIn, GetFromLevel, LevelCopies, MetaOk;
    if level < |levels| {
      GetFromLevelsFindsNewest(disk, levels, level + 1, k);
      GetFromLevelFindsNewest(disk, levels[level], k);
      LatestCopyConcat(DeepCopies(disk, levels, level + 1, k), LevelCopies(disk, levels[level], k));
    }
  }

  // Get answers with the newest copy it can see.
  lemma {:induction false} GetAnswersNewest(s: State, k: TsKey)
    requires Inv(s)
    ensures |s.version.levels| == MaxLevel
    ensures Get(s, k) == if Expired(s.ttl, k) then None else Answer(ReadCopies(s, k))
  {
    hide ProgressOk, FlushOk, ManifestOk, LifeCycle, MetaOk, NumbersUnique, PairwiseDisjoint, CopiesIn, DeepCopies,
         GetFromLevels, Expired, ViewOf;
    ViewIsVersion(s);
    GetFromLevelsFindsNewest(s.disk, s.version.levels, 0, k);
    NoCopies(k);
    var deep, imm, mem := DeepCopies(s.disk, s.version.levels, 0, k), CopiesIn(SealedTable(s), k), CopiesIn(s.mem, k);
    LatestCopyConcat(deep, imm + mem);
    LatestCopyConcat(imm, mem);
    assert Answer(ReadCopies(s, k)) == if LatestCopy(ReadCopies(s, k)).Some?
           then Visible(LatestCopy(ReadCopies(s, k)).value) else None;
  }

  // ---------------------------------------------------------------- Get against the map

  // The table in flight hides k when it holds k and the active table does not.
  predicate HiddenInFlight(s: State, k: TsKey) {
    CopiesIn(FlushTable(s.flush), k) != [] && CopiesIn(s.mem, k) == []
  }

  lemma {:induction false} VisibleCopies(s: State, k: TsKey)
    requires !HiddenInFlight(s, k)
    requires CopiesIn(FlushTable(s.flush), k) != [] ==> s.imm.None?
    ensures Answer(ReadCopies(s, k)) == Answer(Copies(s, k))
  {
    hide CopiesIn, DeepCopies;
    NoCopies(k);
    var deep, f, imm, mem := DeepCopies(s.disk, s.version.levels, 0, k), CopiesIn(FlushTable(s.flush), k),
      CopiesIn(SealedTable(s), k), CopiesIn(s.mem, k);
    assert Copies(s, k) == deep + (f + imm + mem);
    if f == [] {
      assert f + imm + mem == imm + mem;
    }
  }

  lemma {:induction false} FlushOrSealed(s: State)
    requires Inv(s)
    ensures s.flush.NoFlush? || s.imm.None?
  {
    hide LevelsOk, ProgressOk, ManifestOk, FilesOk;
  }

  // In a good state Get is the map's lookup for every key of the domain that is not hidden in flight.
  lemma {:induction false} GetIsMapGet(s: State, h: History, k: TsKey)
    requires Good(s, h) && Trusted(h, k) && InDomain(k) && !HiddenInFlight(s, k)
    ensures |s.version.levels| == MaxLevel
    ensures Get(s, k) == MapGet(h.writes, s.ttl, k)
  {
    hide Inv, CopiesIn, DeepCopies, Expired, InDomain, Get, Copies, ReadCopies;
    GetAnswersNewest(s, k);
    FlushOrSealed(s);
    NoCopies(k);
    if !Expired(s.ttl, k) {
      assert HoldsLastWrite(s, h, k);
      VisibleCopies(s, k);
      AnswerOfLast(Copies(s, k), CopiesIn(h.writes, k));
    }
  }

  lemma {:induction false} AnswerOfLast(a: seq<Entry>, b: seq<Entry>)
    requires LastOf(a) == LastOf(b)
    ensures Answer(a) == Answer(b)
  {
    if a != [] && b != [] {
      assert LastOf(a)[0] == LastOf(b)[0];
    }
  }

  // ---------------------------------------------------------------- compaction is invisible

  // Committing a compaction leaves Get alone on every key the compaction reader sees, unless the
  // job's TTL snapshot expired the key and today's rules do not.
  lemma {:induction false} CommitIsInvisible(s: State, cleanup: bool, k: TsKey)
    requires Inv(s) && s.progress.Merging? && s.progress.begin == |s.progress.merged|
    requires AtMost(k, LastReadKey) && (Expired(s.progress.ttl, k) ==> Expired(s.ttl, k))
    ensures |s.version.levels| == MaxLevel && |CommitJob(s, cleanup).version.levels| == MaxLevel
    ensures Get(CommitJob(s, cleanup), k) == Get(s, k)
  {
    hide Inv, CopiesIn, DeepCopies, Expired, Get, CommitJob, BlockShrinks, InstallJob, Answer, Live, Less, LastOf;
    SevenLevels(s);
    var s' := CommitJob(s, cleanup);
    CommitJobKeepsInv(s, cleanup);
    CommitJobFields(s, cleanup);
    GetAnswersNewest(s, k);
    GetAnswersNewest(s', k);
    if !Expired(s.ttl, k) {
      CommitJobCopies(s, cleanup, k);
      var mem := CopiesIn(SealedTable(s), k) + CopiesIn(s.mem, k);
      ShrinkKeeps(DeepCopies(s.disk, s.version.levels, 0, k), DeepCopies(s'.disk, s'.version.levels, 0, k), true, mem,
                  []);
      AnswerOfLast(ReadCopies(s, k), ReadCopies(s', k));
    }
  }
}
