// The store against the history of writes: the copies of a key, from the deepest level to the active
// table, are always a subsequence of what was written to it, and the newest copy is the last write.
module LsmHistory {
  import opened Types
  import opened Subsequence
  import opened Version
  import opened RankedMerge
  import opened Lsm
  import opened LsmInvariant
  import opened LsmSteps
  import opened LsmCommits
  import opened LsmRetire
  import opened LsmMerge

  // ---------------------------------------------------------------- history

  // writes: everything written, in the order it reached the active table.
  // stale: keys for which the log, replayed, may not give what memory holds.
  // lost: keys whose last write a restart or a relaxed TTL rule may have dropped, until they are written again.
  // relaxed: measurements whose TTL rule was relaxed after the running compaction took its snapshot of the rules.
  datatype History = History(writes: seq<Record>, stale: set<TsKey>, lost: set<TsKey>, relaxed: set<Bytes>)

  const NoHistory := History([], {}, {}, {})

  // Setting seconds lets timestamps that were expired come back.
  predicate Relaxes(ttl: TtlMap, m: Bytes, seconds: int) {
    m in ttl && ttl[m].seconds > 0 && !(0 < seconds <= ttl[m].seconds)
  }

  // The written keys that were expired and no longer are; a compaction may have dropped them in between.
  function Revived(writes: seq<Record>, before: TtlMap, after: TtlMap): set<TsKey> {
    set r | r in writes && Expired(before, r.key) && !Expired(after, r.key) :: r.key
  }

  function Flatten(batches: seq<seq<Record>>): seq<Record> {
    if batches == [] then [] else batches[0] + Flatten(batches[1..])
  }

  function Keys(ops: seq<Record>): set<TsKey> {
    set r | r in ops :: r.key
  }

  // The last of these operations on the key leaves something other than e.
  predicate EndsOtherThan(ops: seq<Record>, k: TsKey, e: Entry) {
    var last := LastOf(CopiesIn(ops, k));
    last != [] && last != [e]
  }

  // What the batches have logged after the next operation of batch i, in the order of the log.
  function LoggedAfter(batches: seq<seq<Record>>, i: nat): seq<Record>
    requires i < |batches| && batches[i] != []
  {
    batches[i][1..] + Flatten(batches[i + 1..])
  }

  // What every action does to the history. A write that overtakes a logged operation on its key, and a rotation with
  // records left in memory, leave the log behind; the next write that reaches both in order puts it right.
  function NextHistory(s: State, h: History, a: Action): History
    requires |s.version.levels| == MaxLevel && Enabled(s, a)
  {
    match a
    case DoPut(r) =>
      h.(writes := h.writes + [r], lost := h.lost - {r.key},
         stale := if EndsOtherThan(Flatten(s.batches), r.key, r.entry) then h.stale + {r.key}
                  else h.stale - {r.key})
    case DoLogBatch(ops) => h.(stale := h.stale - Keys(ops))
    case DoApplyFromBatch(i) =>
      var r := s.batches[i][0];
      h.(writes := h.writes + [r], lost := h.lost - {r.key},
         stale := if r.key !in Keys(LoggedAfter(s.batches, i)) && EndsOtherThan(Flatten(s.batches[..i]), r.key, r.entry)
                  then h.stale + {r.key} else h.stale)
    case DoSetTtl(m, seconds) =>
      h.(lost := h.lost + Revived(h.writes, s.ttl, SetTtl(s.ttl, m, seconds)),
         relaxed := if Relaxes(s.ttl, m, seconds) then h.relaxed + {m} else h.relaxed)
    case DoPick(_) => h.(relaxed := {})
    case DoCommitFlush => h.(stale := Keys(s.mem) + Keys(Flatten(s.batches)))
    case DoReopen =>
      var pending := Flatten(s.batches);
      History(h.writes + pending, {}, ((h.lost + Revived(h.writes, s.ttl, map[])) - Keys(pending)) + h.stale, {})
    case _ => h
  }

  // ---------------------------------------------------------------- copies of a key

  function FlushTable(f: FlushState): seq<Record> {
    if f.NoFlush? then [] else f.table
  }

  function SealedTable(s: State): seq<Record> {
    if s.imm.Some? then s.imm.value else []
  }

  // The copies in memory: the table being flushed, the sealed table, the active table.
  function MemoryCopies(s: State, k: TsKey): seq<Entry> {
    CopiesIn(FlushTable(s.flush), k) + CopiesIn(SealedTable(s), k) + CopiesIn(s.mem, k)
  }

  // All copies of k the engine still counts on, oldest first.
  function Copies(s: State, k: TsKey): seq<Entry> {
    DeepCopies(s.disk, s.version.levels, 0, k) + MemoryCopies(s, k)
  }

  // Keys that both the flush and the compaction reader see (src/memtable.cpp:105, src/tsdb_engine.cpp:387).
  predicate InDomain(k: TsKey) {
    !Less(k, ZeroKey) && AtMost(k, LastReadKey)
  }

  // ---------------------------------------------------------------- what the theorems say of one state

  // Copies are in write order: anything shallower, or later in a level, is newer.
  ghost predicate InWriteOrder(s: State, h: History) {
    forall k :: Subseq(Copies(s, k), CopiesIn(h.writes, k))
  }

  // The newest copy of an unexpired key is the last write to it.
  ghost predicate HoldsLastWrite(s: State, h: History, k: TsKey) {
    LastOf(Copies(s, k)) == LastOf(CopiesIn(h.writes, k))
  }

  // Neither a restart nor a relaxed rule may have cost k its last write.
  predicate Trusted(h: History, k: TsKey) {
    k !in h.lost
  }

  ghost predicate HoldsLastWrites(s: State, h: History) {
    forall k :: Trusted(h, k) && InDomain(k) && !Expired(s.ttl, k) ==> HoldsLastWrite(s, h, k)
  }

  // The log and the tables in memory, with the logged operations still to come, tell the same story of k.
  ghost predicate LogAgrees(s: State, k: TsKey) {
    LastOf(CopiesIn(s.wal, k)) == LastOf(MemoryCopies(s, k) + CopiesIn(Flatten(s.batches), k))
  }

  ghost predicate LogCovers(s: State, h: History) {
    forall k :: k !in h.stale ==> LogAgrees(s, k)
  }

  // Replaying the log never puts an older write on top of a newer file.
  ghost predicate Follows(deep: seq<Entry>, last: seq<Entry>, writes: seq<Entry>, pending: seq<Entry>) {
    (forall e :: e in last ==> e in pending) || Subseq(deep + last, writes)
  }

  ghost predicate LogFollows(s: State, h: History) {
    forall k :: Follows(DeepCopies(s.disk, s.version.levels, 0, k), LastOf(CopiesIn(s.wal, k)), CopiesIn(h.writes, k),
                        CopiesIn(Flatten(s.batches), k))
  }

  // What the running job's TTL snapshot drops is expired by the rules of today, unless they were relaxed since.
  ghost predicate SnapshotCovered(s: State, h: History) {
    s.progress != Idle ==>
      forall k: TsKey :: k.measurement !in h.relaxed && Expired(s.progress.ttl, k) ==> Expired(s.ttl, k)
  }

  // The copies that the running job cannot touch, oldest first.
  function SparedCopies(s: State, k: TsKey): seq<Entry> {
    DeepCopies(s.disk, Remaining(s.version.levels, s.compacting), 0, k) + MemoryCopies(s, k)
  }

  ghost predicate Spared(s: State, k: TsKey) {
    LastOf(SparedCopies(s, k)) == LastOf(Copies(s, k))
  }

  // Where the snapshot drops a key that is not expired any more, the key's last write lies outside the job.
  ghost predicate JobSpares(s: State, h: History) {
    s.progress != Idle ==>
      forall k :: Trusted(h, k) && InDomain(k) && Expired(s.progress.ttl, k) && !Expired(s.ttl, k) ==> Spared(s, k)
  }

  ghost predicate Good(s: State, h: History) {
    && Inv(s) && InWriteOrder(s, h) && HoldsLastWrites(s, h) && LogCovers(s, h) && LogFollows(s, h)
    && SnapshotCovered(s, h) && JobSpares(s, h)
  }

  // ---------------------------------------------------------------- replaying the log

  lemma {:induction false} ReplayCopies(ops: seq<Record>, k: TsKey)
    ensures CopiesIn(Replay(ops), k) == LastOf(CopiesIn(ops, k))
  {
    if ops != [] {
      var n := |ops| - 1;
      ReplayCopies(ops[..n], k);
      ReplaySorted(ops[..n]);
      UpsertCopies(Replay(ops[..n]), ops[n].key, ops[n].entry, k);
    }
  }

  // ---------------------------------------------------------------- expiry only grows

  // Outside the relaxed measurements.
  ghost predicate Covers(newer: TtlMap, older: TtlMap, relaxed: set<Bytes>) {
    forall k: TsKey :: k.measurement !in relaxed && Expired(older, k) ==> Expired(newer, k)
  }

  lemma {:induction false} TouchCovers(ttl: TtlMap, k: TsKey)
    ensures Covers(Touch(ttl, k), ttl, {})
  {
  }

  lemma {:induction false} SetTtlCovers(ttl: TtlMap, m: Bytes, seconds: int, relaxed: set<Bytes>)
    requires Relaxes(ttl, m, seconds) ==> m in relaxed
    ensures Covers(SetTtl(ttl, m, seconds), ttl, relaxed)
  {
  }

  // ---------------------------------------------------------------- copies under each action

  // The copies outside the active table.
  function OlderCopies(s: State, k: TsKey): seq<Entry> {
    DeepCopies(s.disk, s.version.levels, 0, k) + (CopiesIn(FlushTable(s.flush), k) + CopiesIn(SealedTable(s), k))
  }

  lemma {:induction false} CopiesParts(s: State, k: TsKey)
    ensures Copies(s, k) == OlderCopies(s, k) + CopiesIn(s.mem, k)
  {
    hide CopiesIn, DeepCopies, FlushTable, SealedTable;
  }

  lemma {:induction false} WriteCopies(s: State, r: Record, k: TsKey)
    requires Sorted(s.mem)
    ensures Copies(Write(s, r), k) == if k == r.key then OlderCopies(s, k) + [r.entry] else Copies(s, k)
  {
    UpsertCopies(s.mem, r.key, r.entry, k);
    CopiesParts(s, k);
    CopiesParts(Write(s, r), k);
    assert OlderCopies(Write(s, r), k) == OlderCopies(s, k);
  }

  lemma {:induction false} CopiesOfSingleton(r: Record, k: TsKey)
    ensures CopiesIn([r], k) == if r.key == k then [r.entry] else []
  {
    SingletonPrefix(r);
  }

  lemma {:induction false} ReplaceNewest(rest: seq<Entry>, stale: seq<Entry>, e: Entry, writes: seq<Entry>)
    ensures Subseq(rest + stale, writes) ==> Subseq(rest + [e], writes + [e])
    ensures LastOf(rest + [e]) == LastOf(writes + [e])
  {
    if Subseq(rest + stale, writes) {
      assert rest + stale == rest + stale + [];
      SubseqDrop(rest, stale, [], writes);
      assert rest + [] == rest;
      SubseqAppend(rest, writes, [e]);
    }
    LastOfConcat(rest, [e]);
    LastOfConcat(writes, [e]);
  }

  lemma {:induction false} WriteKeepsKey(s: State, h: History, r: Record, k: TsKey)
    requires Sorted(s.mem)
    ensures Subseq(Copies(s, k), CopiesIn(h.writes, k)) ==> Subseq(Copies(Write(s, r), k), CopiesIn(h.writes + [r], k))
    ensures k == r.key || LastOf(Copies(s, k)) == LastOf(CopiesIn(h.writes, k))
            ==> LastOf(Copies(Write(s, r), k)) == LastOf(CopiesIn(h.writes + [r], k))
  {
    WriteCopies(s, r, k);
    CopiesParts(s, k);
    CopiesInConcat(h.writes, [r], k);
    CopiesOfSingleton(r, k);
    hide CopiesIn, Copies, Write, Subseq, LastOf, OlderCopies;
    if k == r.key {
      ReplaceNewest(OlderCopies(s, k), CopiesIn(s.mem, k), r.entry, CopiesIn(h.writes, k));
    } else {
      assert CopiesIn(h.writes + [r], k) == CopiesIn(h.writes, k);
    }
  }

  // A write that reaches the active table becomes the last write and the newest copy.
  lemma {:induction false} WriteKeepsOrder(s: State, h: History, s': State, h': History, r: Record)
    requires Sorted(s.mem) && InWriteOrder(s, h) && HoldsLastWrites(s, h)
    requires s'.(wal := s.wal, batches := s.batches) == Write(s, r)
    requires h'.writes == h.writes + [r] && h'.lost == h.lost - {r.key} && h'.relaxed == h.relaxed
    ensures InWriteOrder(s', h') && HoldsLastWrites(s', h')
  {
    TouchCovers(s.ttl, r.key);
    forall k
      ensures Subseq(Copies(s', k), CopiesIn(h'.writes, k))
      ensures Trusted(h', k) && InDomain(k) && !Expired(s'.ttl, k) ==> HoldsLastWrite(s', h', k)
    {
      WriteKeepsKey(s, h, r, k);
      assert Copies(s', k) == Copies(Write(s, r), k);
      hide CopiesIn, Copies, Write, Subseq, LastOf, Expired, InDomain;
      assert Trusted(h', k) ==> k == r.key || Trusted(h, k);
    }
  }

  // What memory holds, no job can touch.
  lemma {:induction false} MemoryIsSpared(s: State, k: TsKey)
    requires MemoryCopies(s, k) != []
    ensures Spared(s, k)
  {
    hide DeepCopies, LastOf, Remaining, MemoryCopies;
    LastOfConcat(DeepCopies(s.disk, s.version.levels, 0, k), MemoryCopies(s, k));
    LastOfConcat(DeepCopies(s.disk, Remaining(s.version.levels, s.compacting), 0, k), MemoryCopies(s, k));
  }

  lemma {:induction false} WriteKeepsSpares(s: State, h: History, s': State, h': History, r: Record)
    requires Sorted(s.mem) && JobSpares(s, h)
    requires s'.(wal := s.wal, batches := s.batches) == Write(s, r)
    requires h'.lost == h.lost - {r.key}
    ensures JobSpares(s', h')
  {
    hide CopiesIn, Upsert, Touch, Expired, InDomain, DeepCopies, Remaining, LastOf;
    TouchCovers(s.ttl, r.key);
    forall k ensures k == r.key || Spared(s, k) ==> Spared(s', k) {
      UpsertCopies(s.mem, r.key, r.entry, k);
      if k == r.key {
        MemoryIsSpared(s', k);
      } else {
        assert MemoryCopies(s', k) == MemoryCopies(s, k);
      }
    }
    assert Covers(s'.ttl, s.ttl, {});
  }

  // ---------------------------------------------------------------- actions that move no record out of reach

  lemma {:induction false} NeverWritten(s: State, h: History, k: TsKey)
    requires InWriteOrder(s, h) && CopiesIn(h.writes, k) == []
    ensures Copies(s, k) == []
  {
    hide Copies, CopiesIn;
    if Copies(s, k) != [] {
      SubseqNotEmpty(Copies(s, k), CopiesIn(h.writes, k));
    }
  }

  lemma {:induction false} SameCopiesKeepOrder(s: State, h: History, s': State, h': History)
    requires InWriteOrder(s, h) && HoldsLastWrites(s, h)
    requires forall k :: Copies(s', k) == Copies(s, k)
    requires h'.writes == h.writes && h.lost <= h'.lost
    requires forall k :: Trusted(h', k) && Expired(s.ttl, k) && !Expired(s'.ttl, k) ==> CopiesIn(h.writes, k) == []
    ensures InWriteOrder(s', h') && HoldsLastWrites(s', h')
  {
    hide Copies, Subseq, LastOf, Expired, InDomain, CopiesIn;
    forall k | Trusted(h', k) && InDomain(k) && !Expired(s'.ttl, k) ensures HoldsLastWrite(s', h', k) {
      assert Trusted(h, k);
      if Expired(s.ttl, k) {
        NeverWritten(s, h, k);
      } else {
        assert HoldsLastWrite(s, h, k);
      }
    }
  }

  // The disk may change around the files of the version.
  lemma {:induction false} SameVersionSameDeep(s: State, s': State, k: TsKey)
    requires s'.version.levels == s.version.levels
    requires forall n :: n in Live(s.version.levels) ==> Content(s'.disk, n) == Content(s.disk, n)
    ensures DeepCopies(s'.disk, s'.version.levels, 0, k) == DeepCopies(s.disk, s.version.levels, 0, k)
  {
    forall l, f | 0 <= l < |s.version.levels| && f in s.version.levels[l]
      ensures Content(s.disk, f.number) == Content(s'.disk, f.number)
    {
      assert f.number in Live(s.version.levels);
    }
    DeepCopiesSameContent(s.disk, s'.disk, s.version.levels, 0, k);
  }

  // And the same of the files outside the job.
  lemma {:induction false} SameVersionSameRemaining(s: State, s': State, k: TsKey)
    requires s'.version.levels == s.version.levels && s'.compacting == s.compacting
    requires forall n :: n in Live(s.version.levels) ==> Content(s'.disk, n) == Content(s.disk, n)
    ensures DeepCopies(s'.disk, Remaining(s'.version.levels, s'.compacting), 0, k)
            == DeepCopies(s.disk, Remaining(s.version.levels, s.compacting), 0, k)
  {
    hide FilterOut;
    var rest := Remaining(s.version.levels, s.compacting);
    forall l, f: FileMeta | 0 <= l < |rest| && f in rest[l]
      ensures Content(s.disk, f.number) == Content(s'.disk, f.number)
    {
      FilterOutContents(s.version.levels[l], s.compacting);
      assert f in s.version.levels[l] && f.number in Live(s.version.levels);
    }
    DeepCopiesSameContent(s.disk, s'.disk, rest, 0, k);
  }

  ghost predicate SameRemaining(s: State, s': State) {
    forall k :: DeepCopies(s'.disk, Remaining(s'.version.levels, s'.compacting), 0, k)
                == DeepCopies(s.disk, Remaining(s.version.levels, s.compacting), 0, k)
  }

  ghost predicate SameDeep(s: State, s': State) {
    forall k :: DeepCopies(s'.disk, s'.version.levels, 0, k) == DeepCopies(s.disk, s.version.levels, 0, k)
  }

  lemma {:induction false} SameMemorySameCopies(s: State, s': State)
    requires s'.version.levels == s.version.levels
    requires forall n :: n in Live(s.version.levels) ==> Content(s'.disk, n) == Content(s.disk, n)
    requires FlushTable(s'.flush) == FlushTable(s.flush) && SealedTable(s') == SealedTable(s) && s'.mem == s.mem
    ensures forall k :: Copies(s', k) == Copies(s, k)
    ensures forall k :: MemoryCopies(s', k) == MemoryCopies(s, k)
    ensures SameDeep(s, s') && (s'.compacting == s.compacting ==> SameRemaining(s, s'))
  {
    hide Remaining, Live;
    forall k
      ensures DeepCopies(s'.disk, s'.version.levels, 0, k) == DeepCopies(s.disk, s.version.levels, 0, k)
    {
      SameVersionSameDeep(s, s', k);
    }
    if s'.compacting == s.compacting {
      forall k
        ensures DeepCopies(s'.disk, Remaining(s'.version.levels, s'.compacting), 0, k)
                == DeepCopies(s.disk, Remaining(s.version.levels, s.compacting), 0, k)
      {
        SameVersionSameRemaining(s, s', k);
      }
    }
  }

  // Sealing and taking a table over for flushing only rename it.
  lemma {:induction false} RenamedTablesSameCopies(s: State, s': State)
    requires s'.version == s.version && s'.disk == s.disk
    requires (s.imm.None? && s.flush.NoFlush? && s' == Seal(s))
             || (s.imm.Some? && s.flush.NoFlush? && s' == BeginFlush(s))
    ensures forall k :: Copies(s', k) == Copies(s, k)
    ensures forall k :: MemoryCopies(s', k) == MemoryCopies(s, k)
    ensures SameDeep(s, s') && SameRemaining(s, s')
  {
    forall k ensures MemoryCopies(s', k) == MemoryCopies(s, k) {
      assert CopiesIn([], k) == [];
    }
  }

  lemma {:induction false} NothingInLevel(disk: Disk, files: seq<FileMeta>, gone: set<nat>, k: TsKey)
    requires LevelCopies(disk, files, k) == []
    ensures LevelCopies(disk, FilterOut(files, gone), k) == []
  {
    hide CopiesIn;
    if files != [] {
      var n := |files| - 1;
      NothingInLevel(disk, files[..n], gone, k);
      var rest := FilterOut(files[..n], gone);
      assert (rest + [files[n]])[..|rest|] == rest;
    }
  }

  lemma {:induction false} NothingRemains(disk: Disk, levels: Levels, gone: set<nat>, i: nat, k: TsKey)
    requires DeepCopies(disk, levels, i, k) == []
    ensures DeepCopies(disk, Remaining(levels, gone), i, k) == []
    decreases |levels| - i
  {
    hide LevelCopies, FilterOut;
    if i < |levels| {
      NothingRemains(disk, levels, gone, i + 1, k);
      NothingInLevel(disk, levels[i], gone, k);
    }
  }

  lemma {:induction false} NeverWrittenIsSpared(s: State, h: History, k: TsKey)
    requires InWriteOrder(s, h) && CopiesIn(h.writes, k) == []
    ensures Spared(s, k)
  {
    hide CopiesIn, DeepCopies, MemoryCopies, Remaining, InWriteOrder;
    NeverWritten(s, h, k);
    var deep := DeepCopies(s.disk, s.version.levels, 0, k);
    assert |deep| + |MemoryCopies(s, k)| == |Copies(s, k)|;
    NothingRemains(s.disk, s.version.levels, s.compacting, 0, k);
    assert SparedCopies(s, k) == [] + [];
  }

  // An action on the log or the rules leaves what the job spares.
  lemma {:induction false} SameCopiesKeepSpares(s: State, h: History, s': State, h': History)
    requires InWriteOrder(s, h) && JobSpares(s, h)
    requires forall k :: Copies(s', k) == Copies(s, k)
    requires forall k :: MemoryCopies(s', k) == MemoryCopies(s, k)
    requires SameRemaining(s, s') && s'.progress == s.progress && h.lost <= h'.lost
    requires forall k :: Trusted(h', k) && Expired(s.ttl, k) && !Expired(s'.ttl, k) ==> CopiesIn(h.writes, k) == []
    ensures JobSpares(s', h')
  {
    hide Copies, MemoryCopies, LastOf, Expired, InDomain, CopiesIn, DeepCopies, Remaining, InWriteOrder;
    if s'.progress != Idle {
      forall k | Trusted(h', k) && InDomain(k) && Expired(s'.progress.ttl, k) && !Expired(s'.ttl, k)
        ensures Spared(s', k)
      {
        assert Trusted(h, k);
        if Expired(s.ttl, k) {
          NeverWrittenIsSpared(s, h, k);
        }
        assert Spared(s, k);
      }
    }
  }

  // The job stays as it is, or takes a snapshot of the rules in force, or ends.
  ghost predicate SameJob(s: State, h: History, s': State, h': History) {
    || s'.progress == Idle
    || (s'.progress != Idle && s'.progress.ttl == s.ttl)
    || (s.progress != Idle && s'.progress != Idle && s'.progress.ttl == s.progress.ttl && h'.relaxed == h.relaxed
        && SameRemaining(s, s'))
  }

  lemma {:induction false} QuietStep(s: State, h: History, s': State, h': History)
    requires Good(s, h) && Inv(s')
    requires forall k :: Copies(s', k) == Copies(s, k)
    requires forall k :: MemoryCopies(s', k) == MemoryCopies(s, k)
    requires SameDeep(s, s') && SameJob(s, h, s', h')
    requires s'.wal == s.wal && s'.batches == s.batches && s'.ttl == s.ttl && h' == h.(relaxed := h'.relaxed)
    ensures Good(s', h')
  {
    hide Inv, Copies, MemoryCopies, Subseq, LastOf, InDomain, CopiesIn, Expired, DeepCopies, Flatten, Follows,
         Remaining;
    SameCopiesKeepOrder(s, h, s', h');
    forall k | k !in h.stale ensures LogAgrees(s', k) {
      assert LogAgrees(s, k);
    }
    if s'.progress != Idle && s'.progress.ttl != s.ttl {
      forall k | Spared(s, k) ensures Spared(s', k) {
      }
    }
  }

  lemma {:induction false} NeededContent(s: State, disk': Disk)
    requires KeepsNeeded(s, disk')
    ensures forall n :: n in Live(s.version.levels) ==> Content(disk', n) == Content(s.disk, n)
  {
  }

  lemma {:induction false} QuietJob(s: State, h: History, a: Action)
    requires |s.version.levels| == MaxLevel && Enabled(s, a)
    requires a.DoSeal? || a.DoBeginFlush? || a.DoBuildFlush? || a.DoPick? || a.DoMerge? || a.DoEmit? || a.DoCleanup?
             || a.DoTryDelete? || a.DoCapture? || a.DoRelease? || a.DoWriteSnapshot?
    requires Next(s, a).compacting == s.compacting ==> SameRemaining(s, Next(s, a))
    ensures SameJob(s, h, Next(s, a), NextHistory(s, h, a))
    ensures var s', h' := Next(s, a), NextHistory(s, h, a);
            s'.wal == s.wal && s'.batches == s.batches && s'.ttl == s.ttl && h' == h.(relaxed := h'.relaxed)
  {
    hide Remaining, DeepCopies, PickJob, Merge, RankInputs, MoveObsolete, StillPending, Deletable;
  }

  // Everything but writes, commits, TTL changes and restarts leaves all copies where reads find them.
  lemma {:induction false} QuietActions(s: State, h: History, a: Action)
    requires Good(s, h) && Enabled(s, a)
    requires a.DoSeal? || a.DoBeginFlush? || a.DoBuildFlush? || a.DoPick? || a.DoMerge? || a.DoEmit? || a.DoCleanup?
             || a.DoTryDelete? || a.DoCapture? || a.DoRelease? || a.DoWriteSnapshot?
    ensures Good(Next(s, a), NextHistory(s, h, a))
  {
    hide Remaining, DeepCopies, CopiesIn, Live, InWriteOrder, HoldsLastWrites, LogCovers, LogFollows, SnapshotCovered,
         JobSpares, SameJob, NextHistory;
    var s' := Next(s, a);
    NextKeepsInv(s, a);
    if a.DoSeal? || a.DoBeginFlush? {
      RenamedTablesSameCopies(s, s');
    } else {
      ContentKept(s, a);
      hide Inv;
      SameMemorySameCopies(s, s');
    }
    hide Inv, Copies, MemoryCopies, PickJob;
    QuietJob(s, h, a);
    QuietStep(s, h, s', NextHistory(s, h, a));
  }

  lemma {:induction false} ContentKept(s: State, a: Action)
    requires Inv(s) && Enabled(s, a)
    requires a.DoBuildFlush? || a.DoPick? || a.DoMerge? || a.DoEmit? || a.DoCleanup?
             || a.DoTryDelete? || a.DoCapture? || a.DoRelease? || a.DoWriteSnapshot?
    ensures Next(s, a).version.levels == s.version.levels
    ensures forall n :: n in Live(s.version.levels) ==> Content(Next(s, a).disk, n) == Content(s.disk, n)
  {
    hide LevelsOk, ProgressOk, FlushOk, ManifestOk, Live;
    var s' := Next(s, a);
    if a.DoBuildFlush? {
      NewFileIsFresh(s, s'.disk[s.version.nextFile]);
      NeededContent(s, s'.disk);
    } else if a.DoEmit? {
      NewFileIsFresh(s, s'.disk[s.version.nextFile]);
      NeededContent(s, s'.disk);
    } else if a.DoTryDelete? {
      TryDeleteIsSafe(s);
    } else if a.DoCleanup? {
      var (r, p) := MoveObsolete(s.readers, s.pending, s.version.obsolete);
      RetireKeepsFiles(s);
      TryDeleteIsSafe(s.(version := s.version.(obsolete := []), readers := r, pending := p));
    }
  }

  // ---------------------------------------------------------------- the log under writes

  lemma {:induction false} FlattenConcat(a: seq<seq<Record>>, b: seq<seq<Record>>)
    ensures Flatten(a + b) == Flatten(a) + Flatten(b)
  {
    if a == [] {
      assert a + b == b;
    } else {
      FlattenConcat(a[1..], b);
      assert (a + b)[1..] == a[1..] + b;
    }
  }

  lemma {:induction false} FlattenOne(b: seq<Record>)
    ensures Flatten([b]) == b
  {
    assert [b][1..] == [];
    assert b + [] == b;
  }

  lemma {:induction false} NoKeyNoCopies(ops: seq<Record>, k: TsKey)
    ensures k !in Keys(ops) <==> CopiesIn(ops, k) == []
  {
    CopiesInMembers(ops, k);
  }

  // A put keeps the log in step with memory for its key exactly when no logged batch will leave another entry there;
  // for the other keys it changes nothing.
  lemma {:induction false} PutKeepsLogExactlyWhen(s: State, r: Record, k: TsKey)
    requires Sorted(s.mem)
    ensures LogAgrees(Put(s, r), k)
            <==> if k == r.key then !EndsOtherThan(Flatten(s.batches), k, r.entry) else LogAgrees(s, k)
  {
    hide CopiesIn, Upsert, LastOf, Touch, Flatten;
    CopiesInConcat(s.wal, [r], k);
    CopiesOfSingleton(r, k);
    UpsertCopies(s.mem, r.key, r.entry, k);
    var older := CopiesIn(FlushTable(s.flush), k) + CopiesIn(SealedTable(s), k);
    var pending := CopiesIn(Flatten(s.batches), k);
    LastOfConcat(CopiesIn(s.wal, k), CopiesIn([r], k));
    if k == r.key {
      LastOfConcat(older + [r.entry], pending);
      LastOfConcat(older, [r.entry]);
      LastOfOne(r.entry);
      NothingLast(pending);
    }
  }

  lemma {:induction false} LastOfOne(e: Entry)
    ensures LastOf([e]) == [e]
  {
  }

  lemma {:induction false} NothingLast(s: seq<Entry>)
    ensures LastOf(s) == [] <==> s == []
  {
  }

  lemma {:induction false} PutKeepsLog(s: State, h: History, r: Record)
    requires |s.version.levels| == MaxLevel && Sorted(s.mem) && LogCovers(s, h)
    ensures LogCovers(Put(s, r), NextHistory(s, h, DoPut(r)))
  {
    hide CopiesIn, Upsert, LastOf, Touch, MemoryCopies, Flatten, Keys, EndsOtherThan;
    var s', h' := Put(s, r), NextHistory(s, h, DoPut(r));
    forall k | k !in h'.stale ensures LogAgrees(s', k) {
      PutKeepsLogExactlyWhen(s, r, k);
    }
  }

  lemma {:induction false} DeepInOrder(s: State, h: History, k: TsKey)
    requires InWriteOrder(s, h)
    ensures Subseq(DeepCopies(s.disk, s.version.levels, 0, k), CopiesIn(h.writes, k))
  {
    hide CopiesIn, DeepCopies, Subseq, MemoryCopies;
    var deep := DeepCopies(s.disk, s.version.levels, 0, k);
    assert Subseq(Copies(s, k), CopiesIn(h.writes, k));
    assert Copies(s, k) == deep + MemoryCopies(s, k) + [];
    SubseqDrop(deep, MemoryCopies(s, k), [], CopiesIn(h.writes, k));
    assert deep + [] == deep;
  }

  lemma {:induction false} PutKeepsFollowing(s: State, h: History, r: Record)
    requires |s.version.levels| == MaxLevel && InWriteOrder(s, h) && LogFollows(s, h)
    ensures LogFollows(Put(s, r), NextHistory(s, h, DoPut(r)))
  {
    hide CopiesIn, DeepCopies, Subseq, Flatten, Keys, Touch, Upsert, InWriteOrder;
    forall k
      ensures Follows(DeepCopies(s.disk, s.version.levels, 0, k), LastOf(CopiesIn(s.wal + [r], k)),
                      CopiesIn(h.writes + [r], k), CopiesIn(Flatten(s.batches), k))
    {
      var deep := DeepCopies(s.disk, s.version.levels, 0, k);
      CopiesInConcat(s.wal, [r], k);
      CopiesInConcat(h.writes, [r], k);
      CopiesOfSingleton(r, k);
      LastOfConcat(CopiesIn(s.wal, k), CopiesIn([r], k));
      if k == r.key {
        DeepInOrder(s, h, k);
        SubseqAppend(deep, CopiesIn(h.writes, k), [r.entry]);
      } else {
        assert CopiesIn(h.writes + [r], k) == CopiesIn(h.writes, k);
      }
    }
  }

  lemma {:induction false} PutIsGood(s: State, h: History, r: Record)
    requires Good(s, h)
    ensures Good(Put(s, r), NextHistory(s, h, DoPut(r)))
  {
    PutKeepsInv(s, r);
    assert Sorted(s.mem);
    PutKeepsLog(s, h, r);
    PutKeepsFollowing(s, h, r);
    TouchCovers(s.ttl, r.key);
    hide Inv, LogCovers, LogFollows, Copies, Subseq, LastOf, Expired, InDomain, CopiesIn, Touch, Upsert, Flatten, Keys;
    WriteKeepsOrder(s, h, Put(s, r), NextHistory(s, h, DoPut(r)), r);
    WriteKeepsSpares(s, h, Put(s, r), NextHistory(s, h, DoPut(r)), r);
  }

  lemma {:induction false} LogBatchPending(s: State, ops: seq<Record>, k: TsKey)
    ensures CopiesIn(Flatten(LogBatch(s, ops).batches), k) == CopiesIn(Flatten(s.batches), k) + CopiesIn(ops, k)
  {
    FlattenConcat(s.batches, [ops]);
    FlattenOne(ops);
    CopiesInConcat(Flatten(s.batches), ops, k);
  }

  lemma {:induction false} LogBatchKeepsKey(s: State, h: History, ops: seq<Record>, k: TsKey)
    ensures CopiesIn(ops, k) != [] || LogAgrees(s, k) ==> LogAgrees(LogBatch(s, ops), k)
    ensures var deep := DeepCopies(s.disk, s.version.levels, 0, k); var writes := CopiesIn(h.writes, k);
            Follows(deep, LastOf(CopiesIn(s.wal, k)), writes, CopiesIn(Flatten(s.batches), k))
            ==> Follows(deep, LastOf(CopiesIn(s.wal + ops, k)), writes, CopiesIn(Flatten(LogBatch(s, ops).batches), k))
  {
    hide CopiesIn, DeepCopies, MemoryCopies, Subseq, Flatten, LastOf;
    var s' := LogBatch(s, ops);
    LogBatchPending(s, ops, k);
    CopiesInConcat(s.wal, ops, k);
    LastOfConcat(CopiesIn(s.wal, k), CopiesIn(ops, k));
    var memory, pending := MemoryCopies(s, k), CopiesIn(Flatten(s.batches), k);
    assert MemoryCopies(s', k) == memory by { SameTablesSameMemory(s, s', k); }
    assert memory + (pending + CopiesIn(ops, k)) == (memory + pending) + CopiesIn(ops, k);
    LastOfConcat(memory + pending, CopiesIn(ops, k));
    LastIsMember(CopiesIn(ops, k));
  }

  lemma {:induction false} LastIsMember(c: seq<Entry>)
    ensures forall e :: e in LastOf(c) ==> e in c
  {
  }

  lemma {:induction false} SameTablesSameMemory(s: State, s': State, k: TsKey)
    requires s'.mem == s.mem && s'.imm == s.imm && s'.flush == s.flush
    ensures MemoryCopies(s', k) == MemoryCopies(s, k)
  {
  }

  lemma {:induction false} LogBatchIsGood(s: State, h: History, ops: seq<Record>)
    requires Good(s, h) && ops != []
    ensures Good(LogBatch(s, ops), NextHistory(s, h, DoLogBatch(ops)))
  {
    hide Inv, Copies, MemoryCopies, Subseq, LastOf, InDomain, CopiesIn, Expired, DeepCopies, Flatten, Follows, Keys,
         LogAgrees;
    SevenLevels(s);
    var s', h' := LogBatch(s, ops), NextHistory(s, h, DoLogBatch(ops));
    NextKeepsInv(s, DoLogBatch(ops));
    SameMemorySameCopies(s, s');
    SameCopiesKeepOrder(s, h, s', h');
    SameCopiesKeepSpares(s, h, s', h');
    forall k
      ensures k !in h'.stale ==> LogAgrees(s', k)
      ensures Follows(DeepCopies(s.disk, s.version.levels, 0, k), LastOf(CopiesIn(s'.wal, k)), CopiesIn(h.writes, k),
                      CopiesIn(Flatten(s'.batches), k))
    {
      NoKeyNoCopies(ops, k);
      LogBatchKeepsKey(s, h, ops, k);
    }
  }

  // The next operation of batch i, between what the batches before it and after it still have to add.
  lemma {:induction false} ApplyPending(s: State, i: nat, k: TsKey)
    requires i < |s.batches| && s.batches[i] != []
    ensures var before, r := CopiesIn(Flatten(s.batches[..i]), k), s.batches[i][0];
            var after := CopiesIn(s.batches[i][1..] + Flatten(s.batches[i + 1..]), k);
            && CopiesIn(Flatten(s.batches), k) == before + ((if r.key == k then [r.entry] else []) + after)
            && CopiesIn(Flatten(ApplyFromBatch(s, i).batches), k) == before + after
  {
    hide CopiesIn, Write, Flatten;
    var b, front, back := s.batches[i], s.batches[..i], s.batches[i + 1..];
    var r, rest := b[0], b[1..];
    assert s.batches == front + ([b] + back);
    FlattenConcat(front, [b] + back);
    FlattenConcat([b], back);
    FlattenOne(b);
    assert b + Flatten(back) == [r] + (rest + Flatten(back));
    CopiesInConcat(Flatten(front), [r] + (rest + Flatten(back)), k);
    CopiesInConcat([r], rest + Flatten(back), k);
    CopiesOfSingleton(r, k);
    CopiesInConcat(Flatten(front), rest + Flatten(back), k);
    if rest == [] {
      FlattenConcat(front, back);
      assert [] + Flatten(back) == Flatten(back);
    } else {
      assert s.batches[i := rest] == front + ([rest] + back);
      FlattenConcat(front, [rest] + back);
      FlattenConcat([rest], back);
      FlattenOne(rest);
    }
  }

  // Applying a logged operation keeps the log in step with memory for its key exactly when the log has a later one for
  // it, or the batches before it will leave no other entry there; for the other keys it changes nothing.
  lemma {:induction false} ApplyKeepsLogExactlyWhen(s: State, i: nat, k: TsKey)
    requires Sorted(s.mem) && i < |s.batches| && s.batches[i] != []
    ensures var r := s.batches[i][0];
            if k != r.key then LogAgrees(ApplyFromBatch(s, i), k) <==> LogAgrees(s, k)
            else LogAgrees(s, k) ==>
                   (LogAgrees(ApplyFromBatch(s, i), k)
                    <==> k in Keys(LoggedAfter(s.batches, i))
                         || !EndsOtherThan(Flatten(s.batches[..i]), k, r.entry))
  {
    hide CopiesIn, Upsert, LastOf, Touch, Flatten, Keys;
    var r := s.batches[i][0];
    ApplyPending(s, i, k);
    UpsertCopies(s.mem, r.key, r.entry, k);
    var older := CopiesIn(FlushTable(s.flush), k) + CopiesIn(SealedTable(s), k);
    var before := CopiesIn(Flatten(s.batches[..i]), k);
    var after := CopiesIn(LoggedAfter(s.batches, i), k);
    NoKeyNoCopies(LoggedAfter(s.batches, i), k);
    if k == r.key {
      OvertakenExactlyWhen(older, CopiesIn(s.mem, k), before, r.entry, after);
      assert MemoryCopies(ApplyFromBatch(s, i), k) == older + [r.entry];
    } else {
      assert [] + after == after;
    }
  }

  // The last of memory and batches, before and after e moves from its place in the batches to memory.
  lemma {:induction false} OvertakenExactlyWhen(older: seq<Entry>, active: seq<Entry>, before: seq<Entry>, e: Entry,
                                                after: seq<Entry>)
    ensures LastOf((older + [e]) + (before + after)) == LastOf((older + active) + (before + ([e] + after)))
            <==> after != [] || LastOf(before) == [] || LastOf(before) == [e]
  {
    LastOfConcat(older + [e], before + after);
    LastOfConcat(older, [e]);
    LastOfConcat(before, after);
    LastOfConcat(older + active, before + ([e] + after));
    LastOfConcat(before, [e] + after);
    LastOfConcat([e], after);
    assert before + after == [] <==> before == [] && after == [];
  }

  lemma {:induction false} ApplyKeepsLog(s: State, h: History, i: nat)
    requires |s.version.levels| == MaxLevel && Sorted(s.mem) && LogCovers(s, h) && i < |s.batches| && s.batches[i] != []
    ensures LogCovers(ApplyFromBatch(s, i), NextHistory(s, h, DoApplyFromBatch(i)))
  {
    hide CopiesIn, LastOf, Upsert, Touch, Flatten, Keys, LogAgrees, ApplyFromBatch, EndsOtherThan, LoggedAfter;
    var h' := NextHistory(s, h, DoApplyFromBatch(i));
    forall k | k !in h'.stale ensures LogAgrees(ApplyFromBatch(s, i), k) {
      ApplyKeepsLogExactlyWhen(s, i, k);
    }
  }

  lemma {:induction false} ApplyKeepsFollowing(s: State, h: History, i: nat)
    requires |s.version.levels| == MaxLevel && InWriteOrder(s, h) && LogFollows(s, h)
    requires i < |s.batches| && s.batches[i] != []
    ensures LogFollows(ApplyFromBatch(s, i), NextHistory(s, h, DoApplyFromBatch(i)))
  {
    hide CopiesIn, DeepCopies, Subseq, Flatten, Keys, Touch, Upsert, LastOf, InWriteOrder;
    var r, s' := s.batches[i][0], ApplyFromBatch(s, i);
    forall k
      ensures Follows(DeepCopies(s.disk, s.version.levels, 0, k), LastOf(CopiesIn(s.wal, k)),
                      CopiesIn(h.writes + [r], k),
                      CopiesIn(Flatten(s'.batches), k))
    {
      ApplyPending(s, i, k);
      CopiesInConcat(h.writes, [r], k);
      CopiesOfSingleton(r, k);
      DeepInOrder(s, h, k);
      FollowsApplied(DeepCopies(s.disk, s.version.levels, 0, k), CopiesIn(s.wal, k), CopiesIn(h.writes, k),
                     CopiesIn(Flatten(s.batches), k), CopiesIn(Flatten(s'.batches), k), CopiesIn([r], k));
    }
  }

  lemma {:induction false} FollowsApplied(deep: seq<Entry>, log: seq<Entry>, writes: seq<Entry>,
                                          pending: seq<Entry>, pending': seq<Entry>, now: seq<Entry>)
    requires Follows(deep, LastOf(log), writes, pending) && Subseq(deep, writes)
    requires forall e :: e in pending ==> e in pending' || e in now
    ensures Follows(deep, LastOf(log), writes + now, pending')
  {
    hide Subseq;
    var last := LastOf(log);
    if Subseq(deep + last, writes) {
      SubseqLonger(deep + last, writes, now);
    } else if last != [] && last[0] !in pending' {
      SubseqOneMore(deep, writes, now, last[0]);
      assert last == [last[0]];
    }
  }

  lemma {:induction false} ApplyIsGood(s: State, h: History, i: nat)
    requires Good(s, h) && i < |s.batches| && s.batches[i] != []
    ensures Good(ApplyFromBatch(s, i), NextHistory(s, h, DoApplyFromBatch(i)))
  {
    var r := s.batches[i][0];
    ApplyFromBatchKeepsInv(s, i);
    assert Sorted(s.mem) && |s.version.levels| == MaxLevel;
    ApplyKeepsLog(s, h, i);
    ApplyKeepsFollowing(s, h, i);
    TouchCovers(s.ttl, r.key);
    hide Inv, LogCovers, LogFollows, Copies, Subseq, LastOf, Expired, InDomain, CopiesIn, Touch, Upsert, Flatten, Keys;
    WriteKeepsOrder(s, h, ApplyFromBatch(s, i), NextHistory(s, h, DoApplyFromBatch(i)), r);
    WriteKeepsSpares(s, h, ApplyFromBatch(s, i), NextHistory(s, h, DoApplyFromBatch(i)), r);
  }

  // A rule that brings a key back marks it, if it was ever written.
  lemma {:induction false} RevivedOrUnwritten(writes: seq<Record>, before: TtlMap, after: TtlMap, k: TsKey)
    requires Expired(before, k) && !Expired(after, k) && k !in Revived(writes, before, after)
    ensures CopiesIn(writes, k) == []
  {
    hide Expired;
    CopiesInMembers(writes, k);
  }

  lemma {:induction false} SetTtlIsGood(s: State, h: History, m: Bytes, seconds: int)
    requires Good(s, h)
    ensures Good(Next(s, DoSetTtl(m, seconds)), NextHistory(s, h, DoSetTtl(m, seconds)))
  {
    hide Inv, Copies, Subseq, LastOf, InDomain, CopiesIn, MemoryCopies, Expired, DeepCopies, Flatten, Follows, Relaxes,
         Revived, SetTtl, Remaining, Live;
    SevenLevels(s);
    var a := DoSetTtl(m, seconds);
    var s', h' := Next(s, a), NextHistory(s, h, a);
    NextKeepsInv(s, a);
    SetTtlCovers(s.ttl, m, seconds, h'.relaxed);
    SameMemorySameCopies(s, s');
    forall k | Trusted(h', k) && Expired(s.ttl, k) && !Expired(s'.ttl, k) ensures CopiesIn(h.writes, k) == [] {
      RevivedOrUnwritten(h.writes, s.ttl, s'.ttl, k);
    }
    SameCopiesKeepOrder(s, h, s', h');
    SameCopiesKeepSpares(s, h, s', h');
    forall k | k !in h.stale ensures LogAgrees(s', k) {
      assert LogAgrees(s, k);
    }
  }

  // ---------------------------------------------------------------- flush commit

  lemma {:induction false} DeepAppend(disk: Disk, levels: Levels, m: FileMeta, k: TsKey)
    requires |levels| == MaxLevel
    ensures DeepCopies(disk, levels[0 := levels[0] + [m]], 0, k)
            == DeepCopies(disk, levels, 0, k) + CopiesIn(Content(disk, m.number), k)
  {
    var levels' := levels[0 := levels[0] + [m]];
    DeepCopiesSameLevels(disk, levels, levels', 1, k);
    LevelCopiesAppend(disk, levels[0], m, k);
    hide LevelCopies, CopiesIn;
    var x, l0, t := DeepCopies(disk, levels, 1, k), LevelCopies(disk, levels[0], k),
      CopiesIn(Content(disk, m.number), k);
    assert DeepCopies(disk, levels', 0, k) == x + (l0 + t);
    assert x + (l0 + t) == (x + l0) + t;
  }

  lemma {:induction false} NoCopies(k: TsKey)
    ensures CopiesIn([], k) == []
  {
  }

  lemma {:induction false} FlushFacts(s: State)
    requires Inv(s) && s.flush.Built?
    ensures s.imm.None? && FlushOk(s) && LevelsOk(s.version.levels, s.disk, s.version.nextFile)
    ensures Content(s.disk, s.flush.meta.number) == FromZeroKey(s.flush.table)
  {
  }

  lemma {:induction false} CommitFlushFields(s: State)
    requires s.flush.Built? && |s.version.levels| == MaxLevel
    ensures var s' := CommitFlush(s);
            s'.disk == s.disk && s'.mem == s.mem && s'.imm == s.imm && s'.flush.NoFlush? && s'.wal == []
              && s'.batches == s.batches
            && s'.ttl == s.ttl && s'.progress == s.progress && s'.compacting == s.compacting
            && s'.version == InstallFlush(s).version
  {
  }

  lemma {:induction false} CommitFlushDeep(s: State, k: TsKey)
    requires Inv(s) && s.flush.Built?
    ensures DeepCopies(CommitFlush(s).disk, CommitFlush(s).version.levels, 0, k) ==
            DeepCopies(s.disk, s.version.levels, 0, k) + (if Less(k, ZeroKey) then [] else CopiesIn(s.flush.table, k))
  {
    hide Inv, FlushOk, LevelsOk, CopiesIn, FromZeroKey, InstallFlush, CommitFlush, DeepCopies, Less;
    FlushFacts(s);
    InstallFlushLevels(s);
    FromZeroKeyCopies(s.flush.table, k);
    CommitFlushFields(s);
    DeepAppend(s.disk, s.version.levels, s.flush.meta, k);
  }

  // Committing a flush moves the table's copies to the newest file of level 0; keys below TsKey{} are lost.
  lemma {:induction false} CommitFlushCopies(s: State, k: TsKey)
    requires Inv(s) && s.flush.Built?
    ensures Copies(s, k) == DeepCopies(s.disk, s.version.levels, 0, k) + CopiesIn(s.flush.table, k) + CopiesIn(s.mem, k)
    ensures Copies(CommitFlush(s), k) == DeepCopies(s.disk, s.version.levels, 0, k)
                                         + (if Less(k, ZeroKey) then [] else CopiesIn(s.flush.table, k))
                                           + CopiesIn(s.mem, k)
    ensures MemoryCopies(CommitFlush(s), k) == CopiesIn(s.mem, k)
  {
    hide Inv, FlushOk, LevelsOk, CopiesIn, FromZeroKey, InstallFlush, CommitFlush, DeepCopies, Less;
    FlushFacts(s);
    CommitFlushFields(s);
    CommitFlushDeep(s, k);
    NoCopies(k);
    assert MemoryCopies(s, k) == CopiesIn(s.flush.table, k) + CopiesIn(s.mem, k);
    assert MemoryCopies(CommitFlush(s), k) == CopiesIn(s.mem, k);
  }

  lemma {:induction false} CommitFlushKeepsKey(s: State, writes: seq<Entry>, k: TsKey)
    requires Inv(s) && s.flush.Built?
    ensures Subseq(Copies(s, k), writes) ==> Subseq(Copies(CommitFlush(s), k), writes)
    ensures !Less(k, ZeroKey) ==> Copies(CommitFlush(s), k) == Copies(s, k)
  {
    hide Inv, Copies, CopiesIn, DeepCopies, CommitFlush, Less, Subseq;
    CommitFlushCopies(s, k);
    var deep, t, m := DeepCopies(s.disk, s.version.levels, 0, k), CopiesIn(s.flush.table, k), CopiesIn(s.mem, k);
    if Less(k, ZeroKey) && Subseq(Copies(s, k), writes) {
      assert deep + [] + m == deep + m;
      SubseqDrop(deep, t, m, writes);
    }
  }

  // After the rotation the log is behind for exactly the keys that are still in memory or in a logged batch.
  lemma {:induction false} CommitFlushLog(s: State, k: TsKey)
    requires Inv(s) && s.flush.Built?
    ensures LogAgrees(CommitFlush(s), k) <==> k !in Keys(s.mem) && k !in Keys(Flatten(s.batches))
    ensures LastOf(CopiesIn(CommitFlush(s).wal, k)) == []
  {
    hide Inv, CommitFlush, MemoryCopies, Copies, CopiesIn, DeepCopies, Less, Flatten, Keys;
    CommitFlushFields'(s);
    CommitFlushCopies(s, k);
    NoCopies(k);
    NoKeyNoCopies(s.mem, k);
    NoKeyNoCopies(Flatten(s.batches), k);
    var all := CopiesIn(s.mem, k) + CopiesIn(Flatten(s.batches), k);
    assert all == [] <==> CopiesIn(s.mem, k) == [] && CopiesIn(Flatten(s.batches), k) == [];
  }

  lemma {:induction false} CommitFlushKeepsLog(s: State, h: History)
    requires |s.version.levels| == MaxLevel && s.flush.Built? && Inv(s)
    ensures var h' := h.(stale := Keys(s.mem) + Keys(Flatten(s.batches)));
            LogCovers(CommitFlush(s), h') && LogFollows(CommitFlush(s), h')
  {
    hide Inv, CommitFlush, LogAgrees, Copies, CopiesIn, DeepCopies, Flatten, Keys, LastOf, Subseq;
    forall k
      ensures k !in Keys(s.mem) + Keys(Flatten(s.batches)) ==> LogAgrees(CommitFlush(s), k)
      ensures LastOf(CopiesIn(CommitFlush(s).wal, k)) == []
    {
      CommitFlushLog(s, k);
    }
  }

  // The new file is none of the job's.
  lemma {:induction false} CommitFlushSpares(s: State, k: TsKey)
    requires Inv(s) && s.flush.Built? && s.progress != Idle && !Less(k, ZeroKey)
    ensures Spared(s, k) ==> Spared(CommitFlush(s), k)
  {
    hide Inv, FlushOk, LevelsOk, CopiesIn, FromZeroKey, InstallFlush, CommitFlush, DeepCopies, Less, Copies,
         MemoryCopies, LastOf, FilterOut;
    FlushFacts(s);
    InstallFlushLevels(s);
    CommitFlushFields(s);
    FromZeroKeyCopies(s.flush.table, k);
    CommitFlushKeepsKey(s, [], k);
    FlushedIsNoInput(s);
    var levels, levels', m := s.version.levels, CommitFlush(s).version.levels, s.flush.meta;
    var rest := Remaining(levels, s.compacting);
    AppendOutside(levels[0], m, s.compacting);
    assert Remaining(levels', s.compacting) == rest[0 := rest[0] + [m]];
    DeepAppend(s.disk, rest, m, k);
    CommitFlushMemory(s, k);
    var deep, t, mem := DeepCopies(s.disk, rest, 0, k), CopiesIn(s.flush.table, k), CopiesIn(s.mem, k);
    assert deep + (t + mem) == (deep + t) + mem;
  }

  lemma {:induction false} AppendOutside(files: seq<FileMeta>, m: FileMeta, gone: set<nat>)
    requires m.number !in gone
    ensures FilterOut(files + [m], gone) == FilterOut(files, gone) + [m]
  {
    assert (files + [m])[..|files|] == files;
  }

  lemma {:induction false} FlushedIsNoInput(s: State)
    requires Inv(s) && s.flush.Built?
    ensures s.flush.meta.number !in s.compacting
  {
    hide LevelsOk, JobShape, OutputsOk, MetaOk, Live;
    if s.progress != Idle {
      InputsInVersion(s.version.levels, JobOf(s.progress));
      assert s.flush.meta.number in Reserved(s);
    }
  }

  lemma {:induction false} CommitFlushMemory(s: State, k: TsKey)
    requires Inv(s) && s.flush.Built?
    ensures MemoryCopies(s, k) == CopiesIn(s.flush.table, k) + CopiesIn(s.mem, k)
    ensures MemoryCopies(CommitFlush(s), k) == CopiesIn(s.mem, k)
  {
    hide Inv, FlushOk, LevelsOk, CopiesIn, CommitFlush;
    FlushFacts(s);
    CommitFlushFields(s);
    NoCopies(k);
  }

  lemma {:induction false} CommitFlushFields'(s: State)
    requires Inv(s) && s.flush.Built?
    ensures var s' := CommitFlush(s);
            s'.wal == [] && s'.batches == s.batches && s'.ttl == s.ttl && s'.progress == s.progress
              && s'.compacting == s.compacting
    ensures |s.version.levels| == MaxLevel
  {
    hide LevelsOk, ProgressOk, FlushOk, ManifestOk, LifeCycle;
    CommitFlushFields(s);
  }

  lemma {:induction false} CommitFlushIsGood(s: State, h: History)
    requires Good(s, h) && s.flush.Built?
    ensures |s.version.levels| == MaxLevel && Good(CommitFlush(s), NextHistory(s, h, DoCommitFlush))
  {
    hide Inv, Copies, CopiesIn, CommitFlush, Less, Subseq, LogCovers, LogFollows, LastOf, Expired, Keys, Flatten,
         Spared;
    CommitFlushFields'(s);
    var s', h' := CommitFlush(s), NextHistory(s, h, DoCommitFlush);
    CommitFlushKeepsInv(s);
    CommitFlushKeepsLog(s, h);
    forall k
      ensures Subseq(Copies(s', k), CopiesIn(h.writes, k))
      ensures !Less(k, ZeroKey) ==> Copies(s', k) == Copies(s, k)
    {
      CommitFlushKeepsKey(s, CopiesIn(h.writes, k), k);
    }
    if s.progress != Idle {
      forall k | InDomain(k) ensures Spared(s, k) ==> Spared(s', k) {
        CommitFlushSpares(s, k);
      }
    }
    forall k | Trusted(h', k) && InDomain(k) && !Expired(s'.ttl, k) ensures HoldsLastWrite(s', h', k) {
      assert Trusted(h, k);
      assert HoldsLastWrite(s, h, k);
    }
  }

  // ---------------------------------------------------------------- compaction commit

  lemma {:induction false} ShrinkKeeps(before: seq<Entry>, after: seq<Entry>, keep: bool, mem: seq<Entry>,
                                       writes: seq<Entry>)
    requires BlockShrinks(before, after, keep)
    ensures Subseq(before + mem, writes) ==> Subseq(after + mem, writes)
    ensures keep ==> LastOf(after + mem) == LastOf(before + mem)
  {
    hide Subseq, LastOf;
    var pre, block, post :| BlockAt(before, after, keep, pre, block, post);
    assert before + mem == pre + block + (post + mem);
    if keep {
      assert after + mem == pre + LastOf(block) + (post + mem);
      LastOfShrink(pre, block, post + mem);
      if Subseq(before + mem, writes) { SubseqShrink(pre, block, post + mem, writes); }
    } else {
      assert after + mem == pre + (post + mem);
      if Subseq(before + mem, writes) { SubseqDrop(pre, block, post + mem, writes); }
    }
  }

  // The commit is the installation, then possibly a cleanup.
  lemma {:induction false} CommitJobShape(s: State, cleanup: bool)
    requires Inv(s) && s.progress.Merging?
    ensures Inv(FinishJob(InstallJob(s), s.progress.job))
    ensures CommitJob(s, cleanup) ==
            var x := FinishJob(InstallJob(s), s.progress.job); if cleanup then Cleanup(x) else x
  {
    hide LevelsOk, ProgressOk, FlushOk, ManifestOk, FilesOk, InstallJob, Cleanup, FinishJob, InputsValid;
    InstallKeepsInv(s);
    FinishCleanup(InstallJob(s), s.progress.job);
  }

  lemma {:induction false} CleanupFields(s: State)
    ensures var s' := Cleanup(s);
            s'.mem == s.mem && s'.imm == s.imm && s'.flush == s.flush && s'.batches == s.batches && s'.wal == s.wal
            && s'.progress == s.progress && s'.ttl == s.ttl
  {
    hide MoveObsolete, StillPending, Deletable;
  }

  // What a commit leaves as it was.
  lemma {:induction false} CommitJobFields(s: State, cleanup: bool)
    requires Inv(s) && s.progress.Merging?
    ensures var s' := CommitJob(s, cleanup);
            s'.mem == s.mem && s'.imm == s.imm && s'.flush == s.flush && s'.batches == s.batches && s'.wal == s.wal
            && s'.progress == Idle && s'.ttl == s.ttl && s'.version.levels == InstallJob(s).version.levels
    ensures forall n :: n in Live(InstallJob(s).version.levels) ==>
                          Content(CommitJob(s, cleanup).disk, n) == Content(s.disk, n)
  {
    hide LevelsOk, ProgressOk, FlushOk, ManifestOk, FilesOk, InstallJob, Cleanup, Live;
    CommitJobShape(s, cleanup);
    InstallJobFields(s);
    var x := FinishJob(InstallJob(s), s.progress.job);
    CleanupFields(x);
    if cleanup {
      ContentKept(x, DoCleanup);
    }
  }

  lemma {:induction false} CommitJobCopies(s: State, cleanup: bool, k: TsKey)
    requires Inv(s) && s.progress.Merging? && s.progress.begin == |s.progress.merged|
    ensures MemoryCopies(CommitJob(s, cleanup), k) == MemoryCopies(s, k)
    ensures BlockShrinks(DeepCopies(s.disk, s.version.levels, 0, k),
                         DeepCopies(CommitJob(s, cleanup).disk, CommitJob(s, cleanup).version.levels, 0, k),
                           Kept(s.progress.ttl, k))
  {
    hide LevelsOk, ProgressOk, FlushOk, ManifestOk, FilesOk, InstallJob, CommitJob, Live, BlockShrinks, Kept, CopiesIn,
         DeepCopies;
    CommitJobFields(s, cleanup);
    InstallShrinks(s, k);
    InstallJobFields(s);
    var s', x := CommitJob(s, cleanup), InstallJob(s);
    SameVersionSameDeep(x, s', k);
  }

  lemma {:induction false} CommitJobKeepsKey(s: State, cleanup: bool, writes: seq<Entry>, k: TsKey)
    requires Inv(s) && s.progress.Merging? && s.progress.begin == |s.progress.merged|
    ensures Subseq(Copies(s, k), writes) ==> Subseq(Copies(CommitJob(s, cleanup), k), writes)
    ensures Kept(s.progress.ttl, k) ==> LastOf(Copies(CommitJob(s, cleanup), k)) == LastOf(Copies(s, k))
  {
    hide Inv, CommitJob, BlockShrinks, Kept, DeepCopies, MemoryCopies, Subseq, LastOf;
    SevenLevels(s);
    CommitJobCopies(s, cleanup, k);
    var s' := CommitJob(s, cleanup);
    ShrinkKeeps(DeepCopies(s.disk, s.version.levels, 0, k), DeepCopies(s'.disk, s'.version.levels, 0, k),
                Kept(s.progress.ttl, k),
                MemoryCopies(s, k), writes);
  }

  lemma {:induction false} SevenLevels(s: State)
    requires Inv(s)
    ensures |s.version.levels| == MaxLevel
  {
    hide LevelsOk, ProgressOk, FlushOk, ManifestOk, FilesOk;
  }

  lemma {:induction false} CommitJobMemory(s: State, cleanup: bool, k: TsKey)
    requires Inv(s) && s.progress.Merging? && s.progress.begin == |s.progress.merged|
    ensures |s.version.levels| == MaxLevel && MemoryCopies(CommitJob(s, cleanup), k) == MemoryCopies(s, k)
  {
    hide LevelsOk, ProgressOk, FlushOk, ManifestOk, FilesOk, CommitJob, BlockShrinks, Kept, CopiesIn, DeepCopies;
    SevenLevels(s);
    CommitJobCopies(s, cleanup, k);
  }

  lemma {:induction false} CommitJobKeepsFollowing(s: State, h: History, cleanup: bool)
    requires Inv(s) && s.progress.Merging? && s.progress.begin == |s.progress.merged| && LogFollows(s, h)
    ensures |s.version.levels| == MaxLevel && LogFollows(CommitJob(s, cleanup), h)
  {
    hide Inv, CopiesIn, CommitJob, BlockShrinks, DeepCopies, Subseq, LastOf, Flatten, MemoryCopies, InstallJob, Live,
         Kept;
    SevenLevels(s);
    CommitJobFields(s, cleanup);
    var s' := CommitJob(s, cleanup);
    forall k
      ensures Follows(DeepCopies(s'.disk, s'.version.levels, 0, k), LastOf(CopiesIn(s.wal, k)), CopiesIn(h.writes, k),
                      CopiesIn(Flatten(s.batches), k))
    {
      CommitJobCopies(s, cleanup, k);
      ShrinkKeeps(DeepCopies(s.disk, s.version.levels, 0, k), DeepCopies(s'.disk, s'.version.levels, 0, k),
                  Kept(s.progress.ttl, k), LastOf(CopiesIn(s.wal, k)), CopiesIn(h.writes, k));
    }
  }

  // A key the job drops keeps its newest copy when that lies outside the job.
  lemma {:induction false} CommitJobSpares(s: State, cleanup: bool, k: TsKey)
    requires Inv(s) && s.progress.Merging? && s.progress.begin == |s.progress.merged| && !Kept(s.progress.ttl, k)
    ensures Spared(s, k) ==> LastOf(Copies(CommitJob(s, cleanup), k)) == LastOf(Copies(s, k))
  {
    hide Inv, CommitJob, InstallJob, Kept, DeepCopies, MemoryCopies, LastOf, Live, Remaining;
    SevenLevels(s);
    CommitJobFields(s, cleanup);
    CommitJobMemory(s, cleanup, k);
    InstallJobFields(s);
    InstallDrops(s, k);
    SameVersionSameDeep(InstallJob(s), CommitJob(s, cleanup), k);
  }

  lemma {:induction false} CommitJobIsGood(s: State, h: History, cleanup: bool)
    requires Good(s, h) && s.progress.Merging? && s.progress.begin == |s.progress.merged|
    ensures |s.version.levels| == MaxLevel && Good(CommitJob(s, cleanup), h)
  {
    hide Inv, Copies, CopiesIn, CommitJob, Less, Subseq, LastOf, Expired, MemoryCopies, Flatten, InstallJob, Live,
         LogFollows, Spared;
    SevenLevels(s);
    var s' := CommitJob(s, cleanup);
    CommitJobKeepsInv(s, cleanup);
    CommitJobFields(s, cleanup);
    CommitJobKeepsFollowing(s, h, cleanup);
    forall k
      ensures Subseq(Copies(s', k), CopiesIn(h.writes, k))
      ensures Kept(s.progress.ttl, k) ==> LastOf(Copies(s', k)) == LastOf(Copies(s, k))
      ensures MemoryCopies(s', k) == MemoryCopies(s, k)
    {
      CommitJobKeepsKey(s, cleanup, CopiesIn(h.writes, k), k);
      CommitJobMemory(s, cleanup, k);
    }
    forall k | Trusted(h, k) && InDomain(k) && !Expired(s'.ttl, k) ensures HoldsLastWrite(s', h, k) {
      assert HoldsLastWrite(s, h, k);
      if !Kept(s.progress.ttl, k) {
        CommitJobSpares(s, cleanup, k);
      }
    }
    forall k | k !in h.stale ensures LogAgrees(s', k) {
      assert LogAgrees(s, k);
    }
  }

  // ---------------------------------------------------------------- restart

  lemma {:induction false} ReopenCopies(s: State, k: TsKey)
    requires Inv(s)
    ensures MemoryCopies(Reopen(s), k) == LastOf(CopiesIn(s.wal, k))
    ensures Copies(Reopen(s), k) == DeepCopies(s.disk, s.version.levels, 0, k) + LastOf(CopiesIn(s.wal, k))
  {
    hide LevelsOk, ProgressOk, FlushOk, ManifestOk, FilesOk, CopiesIn, DeepCopies, Recover, AllNumbers, LastOf, Live,
         Replay;
    ReopenFiles(s);
    ReplayCopies(s.wal, k);
    NoCopies(k);
    var s' := Reopen(s);
    SameVersionSameDeep(s, s', k);
    assert MemoryCopies(s', k) == [] + [] + CopiesIn(Replay(s.wal), k);
  }

  // A restart replaces the memory copies, and what the batches still had to add, by the newest one in the log.
  lemma {:induction false} RestartKeepsOrder(deep: seq<Entry>, log: seq<Entry>, writes: seq<Entry>, pending: seq<Entry>)
    requires Subseq(deep, writes) && Follows(deep, LastOf(log), writes, pending)
    ensures Subseq(deep + LastOf(log), writes + pending)
  {
    hide Subseq;
    var last := LastOf(log);
    assert last == [] ==> deep + last == deep;
    if Subseq(deep + last, writes) {
      SubseqLonger(deep + last, writes, pending);
    } else {
      SubseqOneMore(deep, writes, pending, last[0]);
      assert last == [last[0]];
    }
  }

  lemma {:induction false} RestartKeepsLast(deep: seq<Entry>, mem: seq<Entry>, pending: seq<Entry>, log: seq<Entry>,
                                            writes: seq<Entry>)
    requires LastOf(log) == LastOf(mem + pending)
    requires pending == [] ==> LastOf(deep + mem) == LastOf(writes)
    ensures LastOf(deep + LastOf(log)) == LastOf(writes + pending)
  {
    assert deep + (mem + pending) + [] == deep + mem + pending;
    assert deep + LastOf(mem + pending) + [] == deep + LastOf(mem + pending);
    LastOfShrink(deep, mem + pending, []);
    LastOfConcat(deep + mem, pending);
    LastOfConcat(writes, pending);
  }

  lemma {:induction false} ReopenKeepsOrder(s: State, h: History, k: TsKey)
    requires Inv(s) && InWriteOrder(s, h) && LogFollows(s, h)
    ensures Subseq(Copies(Reopen(s), k), CopiesIn(h.writes + Flatten(s.batches), k))
  {
    hide Inv, CopiesIn, DeepCopies, Reopen, LastOf, Subseq, Flatten, InWriteOrder;
    ReopenCopies(s, k);
    DeepInOrder(s, h, k);
    CopiesInConcat(h.writes, Flatten(s.batches), k);
    RestartKeepsOrder(DeepCopies(s.disk, s.version.levels, 0, k), CopiesIn(s.wal, k), CopiesIn(h.writes, k),
                      CopiesIn(Flatten(s.batches), k));
  }

  lemma {:induction false} ReopenKeepsLast(s: State, h: History, k: TsKey)
    requires Inv(s) && LogAgrees(s, k) && (k in Keys(Flatten(s.batches)) || HoldsLastWrite(s, h, k))
    ensures LastOf(Copies(Reopen(s), k)) == LastOf(CopiesIn(h.writes + Flatten(s.batches), k))
  {
    hide Inv, CopiesIn, DeepCopies, Reopen, LastOf, Flatten, MemoryCopies, Keys;
    ReopenCopies(s, k);
    NoKeyNoCopies(Flatten(s.batches), k);
    CopiesInConcat(h.writes, Flatten(s.batches), k);
    RestartKeepsLast(DeepCopies(s.disk, s.version.levels, 0, k), MemoryCopies(s, k), CopiesIn(Flatten(s.batches), k),
                     CopiesIn(s.wal, k), CopiesIn(h.writes, k));
  }

  lemma {:induction false} NoRulesNotExpired(k: TsKey)
    ensures !Expired(map[], k)
  {
  }

  lemma {:induction false} ReopenFields(s: State)
    ensures var s' := Reopen(s); s'.wal == s.wal && s'.batches == [] && s'.progress == Idle
  {
  }

  lemma {:induction false} ReopenKeepsLog(s: State, k: TsKey)
    requires Inv(s)
    ensures LogAgrees(Reopen(s), k)
  {
    hide Inv, CopiesIn, DeepCopies, Reopen, LastOf, MemoryCopies, Copies;
    ReopenFields(s);
    ReopenCopies(s, k);
    NoCopies(k);
    var s' := Reopen(s);
    assert Flatten(s'.batches) == [];
    assert MemoryCopies(s', k) + [] == MemoryCopies(s', k);
    LastOfTwice(CopiesIn(s.wal, k));
  }

  lemma {:induction false} ReopenDeep(s: State, k: TsKey)
    requires Inv(s)
    ensures DeepCopies(Reopen(s).disk, Reopen(s).version.levels, 0, k) == DeepCopies(s.disk, s.version.levels, 0, k)
  {
    hide LevelsOk, ProgressOk, FlushOk, ManifestOk, FilesOk, CopiesIn, DeepCopies, Reopen, Live;
    ReopenFiles(s);
    SameVersionSameDeep(s, Reopen(s), k);
  }

  lemma {:induction false} ReopenKeepsFollowing(s: State, h: History, k: TsKey)
    requires Inv(s) && InWriteOrder(s, h) && LogFollows(s, h)
    ensures var s' := Reopen(s);
            Follows(DeepCopies(s'.disk, s'.version.levels, 0, k), LastOf(CopiesIn(s'.wal, k)),
                    CopiesIn(h.writes + Flatten(s.batches), k), CopiesIn(Flatten(s'.batches), k))
  {
    hide Inv, CopiesIn, DeepCopies, Reopen, LastOf, Subseq, Flatten, InWriteOrder, LogFollows, Copies;
    ReopenFields(s);
    ReopenKeepsOrder(s, h, k);
    ReopenDeep(s, k);
    ReopenCopies(s, k);
  }

  lemma {:induction false} LastOfTwice(c: seq<Entry>)
    ensures LastOf(LastOf(c)) == LastOf(c)
  {
  }

  lemma {:induction false} ReopenIsGood(s: State, h: History)
    requires Good(s, h) && |s.version.levels| == MaxLevel && Enabled(s, DoReopen)
    ensures Good(Reopen(s), NextHistory(s, h, DoReopen))
  {
    hide Inv, Copies, CopiesIn, DeepCopies, Reopen, Subseq, LastOf, Expired, MemoryCopies, Flatten, Follows, Keys,
         LogAgrees, InDomain, Revived;
    var s', h' := Reopen(s), NextHistory(s, h, DoReopen);
    ReopenKeepsInv(s);
    ReopenFields(s);
    forall k
      ensures Subseq(Copies(s', k), CopiesIn(h'.writes, k)) && LogAgrees(s', k)
      ensures Follows(DeepCopies(s'.disk, s'.version.levels, 0, k), LastOf(CopiesIn(s'.wal, k)), CopiesIn(h'.writes, k),
                      CopiesIn(Flatten(s'.batches), k))
    {
      ReopenKeepsOrder(s, h, k);
      ReopenKeepsLog(s, k);
      ReopenKeepsFollowing(s, h, k);
    }
    forall k | Trusted(h', k) && InDomain(k) ensures HoldsLastWrite(s', h', k) {
      NoRulesNotExpired(k);
      if k !in Keys(Flatten(s.batches)) && Expired(s.ttl, k) {
        RevivedOrUnwritten(h.writes, s.ttl, map[], k);
        NeverWritten(s, h, k);
      }
      ReopenKeepsLast(s, h, k);
    }
  }

  // ---------------------------------------------------------------- every action

  lemma {:induction false} NextIsGood(s: State, h: History, a: Action)
    requires Good(s, h) && |s.version.levels| == MaxLevel && Enabled(s, a)
    ensures Good(Next(s, a), NextHistory(s, h, a))
  {
    hide Good, PickJob;
    match a {
      case DoPut(r) => PutIsGood(s, h, r);
      case DoLogBatch(ops) => LogBatchIsGood(s, h, ops);
      case DoApplyFromBatch(i) => ApplyIsGood(s, h, i);
      case DoSetTtl(m, seconds) => SetTtlIsGood(s, h, m, seconds);
      case DoCommitFlush => CommitFlushIsGood(s, h);
      case DoCommitJob(cleanup) => CommitJobIsGood(s, h, cleanup);
      case DoReopen => ReopenIsGood(s, h);
      case _ => QuietActions(s, h, a);
    }
  }
}
