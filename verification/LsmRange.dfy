// RangeQuery: merging the slices of every table by rank, against Get.
module LsmRange {
  import opened Types
  import opened Version
  import opened RankedMerge
  import opened Lsm
  import opened LsmInvariant
  import opened LsmSteps
  import opened LsmCommits
  import opened LsmRetire
  import opened LsmMerge
  import opened LsmHistory
  import opened LsmReads
  import opened LsmRuns

  const RanksPerLevel: nat := 100000

  // ---------------------------------------------------------------- the query

  // AddSourceRecords
  function RankAll(records: seq<Record>, rank: int): seq<Ranked> {
    if records == [] then [] else RankAll(records[..|records| - 1], rank) + [Ranked(records[|records| - 1], rank)]
  }

  // A table and its rank; a smaller rank is newer.
  datatype Source = Source(run: seq<Record>, rank: int)

  // The files of one level, newest first, from the given rank up.
  function LevelSources(disk: Disk, files: seq<FileMeta>, rank: int): seq<Source> {
    if files == [] then [] else
      [Source(Content(disk, files[|files| - 1].number), rank)] + LevelSources(disk, files[..|files| - 1], rank + 1)
  }

  function DeepSources(disk: Disk, view: View, level: nat): seq<Source>
    decreases |view| - level
  {
    if level >= |view| then [] else
      LevelSources(disk, view[level], 2 + level * RanksPerLevel) + DeepSources(disk, view, level + 1)
  }

  // Every table of a read view: active, sealed, then the levels.
  function SourcesOf(s: State): seq<Source>
    requires |s.version.levels| == MaxLevel
  {
    [Source(s.mem, 0)] + (if s.imm.Some? then [Source(s.imm.value, 1)] else []) + DeepSources(s.disk, ViewOf(s), 0)
  }

  function RankSources(sources: seq<Source>, lo: TsKey, hi: TsKey): seq<Ranked> {
    if sources == [] then [] else
      RankSources(sources[..|sources| - 1], lo, hi)
      + RankAll(Slice(sources[|sources| - 1].run, lo, hi), sources[|sources| - 1].rank)
  }

  // The records a query reports: values that have not expired.
  function Reported(merged: seq<Record>, ttl: TtlMap): seq<Record> {
    if merged == [] then [] else
      var rest := Reported(merged[..|merged| - 1], ttl);
      var r := merged[|merged| - 1];
      if r.entry.Value? && !Expired(ttl, r.key) then rest + [r] else rest
  }

  // TsdbEngine::RangeQuery
  function RangeQuery(s: State, m: Bytes, start: int64, end: int64): seq<Record>
    requires |s.version.levels| == MaxLevel
  {
    if end < start then [] else
      Reported(Merge(RankSources(SourcesOf(s), TsKey(m, start), TsKey(m, end))), s.ttl)
  }

  // ---------------------------------------------------------------- slices

  lemma {:induction false} RankAllMembers(records: seq<Record>, rank: int)
    ensures forall x :: x in RankAll(records, rank) <==> x.age == rank && x.record in records
  {
    if records != [] {
      var n := |records| - 1;
      RankAllMembers(records[..n], rank);
      assert records == records[..n] + [records[n]];
      forall x: Ranked | x.age == rank && x.record == records[n] ensures x == Ranked(records[n], rank) {}
    }
  }

  // x comes from source i.
  ghost predicate FromSource(sources: seq<Source>, i: int, lo: TsKey, hi: TsKey, x: Ranked) {
    0 <= i < |sources| && x.age == sources[i].rank && x.record in sources[i].run && InSlice(x.record.key, lo, hi)
  }

  lemma {:induction false} RankSourcesMembers(sources: seq<Source>, lo: TsKey, hi: TsKey, x: Ranked)
    ensures x in RankSources(sources, lo, hi) <==> exists i :: FromSource(sources, i, lo, hi, x)
  {
    if sources != [] {
      var n := |sources| - 1;
      RankSourcesMembers(sources[..n], lo, hi, x);
      SliceMembers(sources[n].run, lo, hi);
      RankAllMembers(Slice(sources[n].run, lo, hi), sources[n].rank);
      if x in RankSources(sources[..n], lo, hi) {
        var i :| FromSource(sources[..n], i, lo, hi, x);
        assert FromSource(sources, i, lo, hi, x);
      }
      if x in RankAll(Slice(sources[n].run, lo, hi), sources[n].rank) {
        assert FromSource(sources, n, lo, hi, x);
      }
      if i :| FromSource(sources, i, lo, hi, x) {
        if i < n { assert FromSource(sources[..n], i, lo, hi, x); }
      }
    }
  }

  // ---------------------------------------------------------------- ranks order the tables

  ghost predicate RanksAscend(sources: seq<Source>) {
    forall i, j :: 0 <= i < j < |sources| ==> sources[i].rank < sources[j].rank
  }

  lemma {:induction false} LevelSourcesRanks(disk: Disk, files: seq<FileMeta>, rank: int)
    ensures |LevelSources(disk, files, rank)| == |files|
    ensures forall i :: 0 <= i < |files| ==> LevelSources(disk, files, rank)[i].rank == rank + i
    ensures forall i :: 0 <= i < |files| ==>
                          LevelSources(disk, files, rank)[i].run == Content(disk, files[|files| - 1 - i].number)
  {
    if files != [] {
      LevelSourcesRanks(disk, files[..|files| - 1], rank + 1);
    }
  }

  lemma {:induction false} DeepSourcesRanks(disk: Disk, view: View, level: nat)
    requires forall l :: 0 <= l < |view| ==> |view[l]| <= RanksPerLevel
    ensures RanksAscend(DeepSources(disk, view, level))
    ensures forall i :: 0 <= i < |DeepSources(disk, view, level)| ==>
                          DeepSources(disk, view, level)[i].rank >= 2 + level * RanksPerLevel
    decreases |view| - level
  {
    if level < |view| {
      DeepSourcesRanks(disk, view, level + 1);
      LevelSourcesRanks(disk, view[level], 2 + level * RanksPerLevel);
      hide LevelSources;
      assert (level + 1) * RanksPerLevel == level * RanksPerLevel + RanksPerLevel;
    }
  }

  // Copies of k over a list of tables given newest first, oldest first.
  function SourceCopies(sources: seq<Source>, k: TsKey): seq<Entry> {
    if sources == [] then [] else SourceCopies(sources[1..], k) + CopiesIn(sources[0].run, k)
  }

  lemma {:induction false} SourceCopiesConcat(a: seq<Source>, b: seq<Source>, k: TsKey)
    ensures SourceCopies(a + b, k) == SourceCopies(b, k) + SourceCopies(a, k)
  {
    hide CopiesIn;
    if a == [] {
      assert a + b == b;
      assert SourceCopies(b, k) + [] == SourceCopies(b, k);
    } else {
      SourceCopiesConcat(a[1..], b, k);
      assert (a + b)[1..] == a[1..] + b;
      assert (a + b)[0] == a[0];
    }
  }

  lemma {:induction false} LevelSourceCopies(disk: Disk, files: seq<FileMeta>, rank: int, k: TsKey)
    ensures SourceCopies(LevelSources(disk, files, rank), k) == LevelCopies(disk, files, k)
  {
    hide CopiesIn;
    if files != [] {
      LevelSourceCopies(disk, files[..|files| - 1], rank + 1, k);
      assert LevelSources(disk, files, rank)[1..] == LevelSources(disk, files[..|files| - 1], rank + 1);
    }
  }

  lemma {:induction false} DeepSourceCopies(disk: Disk, view: View, level: nat, k: TsKey)
    ensures SourceCopies(DeepSources(disk, view, level), k) == DeepCopies(disk, view, level, k)
    decreases |view| - level
  {
    hide CopiesIn, LevelSources, LevelCopies;
    if level < |view| {
      DeepSourceCopies(disk, view, level + 1, k);
      LevelSourceCopies(disk, view[level], 2 + level * RanksPerLevel, k);
      SourceCopiesConcat(LevelSources(disk, view[level], 2 + level * RanksPerLevel),
                         DeepSources(disk, view, level + 1), k);
    }
  }

  lemma {:induction false} OneSourceCopies(x: Source, k: TsKey)
    ensures SourceCopies([x], k) == CopiesIn(x.run, k)
  {
    hide CopiesIn;
    assert [x][1..] == [];
    assert [] + CopiesIn(x.run, k) == CopiesIn(x.run, k);
  }

  // The tables of a query hold the copies Get looks through.
  lemma {:induction false} SourcesHoldReadCopies(s: State, k: TsKey)
    requires |s.version.levels| == MaxLevel && ViewOf(s) == s.version.levels
    ensures SourceCopies(SourcesOf(s), k) == ReadCopies(s, k)
  {
    hide CopiesIn, DeepSources, DeepCopies, ViewOf, SourceCopies;
    var deep := DeepSources(s.disk, ViewOf(s), 0);
    var mem, imm := [Source(s.mem, 0)], if s.imm.Some? then [Source(s.imm.value, 1)] else [];
    SourceCopiesConcat(mem + imm, deep, k);
    SourceCopiesConcat(mem, imm, k);
    OneSourceCopies(Source(s.mem, 0), k);
    if s.imm.Some? { OneSourceCopies(Source(s.imm.value, 1), k); } else { NoSourceCopies(k); }
    NoCopies(k);
    DeepSourceCopies(s.disk, ViewOf(s), 0, k);
  }

  lemma {:induction false} NoSourceCopies(k: TsKey)
    ensures SourceCopies([], k) == []
  {
  }

  // ---------------------------------------------------------------- merging keeps the newest copy

  lemma {:induction false} SourceAgesDistinct(sources: seq<Source>, lo: TsKey, hi: TsKey)
    requires RanksAscend(sources) && forall i :: 0 <= i < |sources| ==> Sorted(sources[i].run)
    ensures AgesDistinct(RankSources(sources, lo, hi))
  {
    hide RankSources, Sorted, InSlice;
    var all := RankSources(sources, lo, hi);
    forall x, y | x in all && y in all && x.record.key == y.record.key && x.age == y.age ensures x == y {
      RankSourcesMembers(sources, lo, hi, x);
      RankSourcesMembers(sources, lo, hi, y);
      var i :| FromSource(sources, i, lo, hi, x);
      var j :| FromSource(sources, j, lo, hi, y);
      assert !(i < j) && !(j < i);
      SortedUnique(sources[i].run, x.record, y.record);
    }
  }

  // The first table, newest first, that holds k.
  lemma {:induction false} NewestSource(sources: seq<Source>, k: TsKey) returns (i: nat, e: Entry)
    requires SourceCopies(sources, k) != []
    ensures i < |sources| && Record(k, e) in sources[i].run
    ensures forall j :: 0 <= j < i ==> CopiesIn(sources[j].run, k) == []
    ensures LastOf(SourceCopies(sources, k)) == [e]
  {
    var c := CopiesIn(sources[0].run, k);
    CopiesInMembers(sources[0].run, k);
    if c != [] {
      i, e := 0, c[|c| - 1];
      assert e in c;
    } else {
      assert SourceCopies(sources, k) == SourceCopies(sources[1..], k);
      i, e := NewestSource(sources[1..], k);
      i := i + 1;
      forall j | 0 <= j < i ensures CopiesIn(sources[j].run, k) == [] {
        if j > 0 { assert sources[1..][j - 1] == sources[j]; }
      }
    }
  }

  lemma {:induction false} NoSourceNoRecord(sources: seq<Source>, k: TsKey, i: nat, r: Record)
    requires SourceCopies(sources, k) == [] && i < |sources| && r in sources[i].run
    ensures r.key != k
  {
    CopiesInMembers(sources[0].run, k);
    if i > 0 {
      NoSourceNoRecord(sources[1..], k, i - 1, r);
    }
  }

  lemma {:induction false} MergedNewestSource(sources: seq<Source>, lo: TsKey, hi: TsKey, k: TsKey)
    requires RanksAscend(sources) && AgesDistinct(RankSources(sources, lo, hi))
    requires InSlice(k, lo, hi) && SourceCopies(sources, k) != []
    ensures CopiesIn(Merge(RankSources(sources, lo, hi)), k) == LastOf(SourceCopies(sources, k))
  {
    hide RankSources, Merge, SourceCopies, CopiesIn, InSlice, AgesDistinct;
    var all := RankSources(sources, lo, hi);
    var i, e := NewestSource(sources, k);
    var x := Ranked(Record(k, e), sources[i].rank);
    assert FromSource(sources, i, lo, hi, x);
    RankSourcesMembers(sources, lo, hi, x);
    forall y | y in all && y.record.key == k ensures x.age <= y.age {
      RankSourcesMembers(sources, lo, hi, y);
      var j :| FromSource(sources, j, lo, hi, y);
      CopiesInMembers(sources[j].run, k);
      assert !(j < i);
    }
    assert Newest(all, x);
    MergeCopies(all, k);
  }

  lemma {:induction false} MergedSources(sources: seq<Source>, lo: TsKey, hi: TsKey, k: TsKey)
    requires RanksAscend(sources) && forall i :: 0 <= i < |sources| ==> Sorted(sources[i].run)
    ensures CopiesIn(Merge(RankSources(sources, lo, hi)), k) == if InSlice(k, lo, hi)
            then LastOf(SourceCopies(sources, k)) else []
  {
    hide RankSources, Merge, SourceCopies, CopiesIn, Sorted, InSlice, AgesDistinct;
    var all := RankSources(sources, lo, hi);
    SourceAgesDistinct(sources, lo, hi);
    MergeCopies(all, k);
    if InSlice(k, lo, hi) && SourceCopies(sources, k) != [] {
      MergedNewestSource(sources, lo, hi, k);
    } else {
      forall x | x in all ensures x.record.key != k {
        RankSourcesMembers(sources, lo, hi, x);
        var i :| FromSource(sources, i, lo, hi, x);
        if InSlice(k, lo, hi) { NoSourceNoRecord(sources, k, i, x.record); }
      }
    }
  }

  // ---------------------------------------------------------------- the query against Get

  lemma {:induction false} ReportedMembers(merged: seq<Record>, ttl: TtlMap)
    ensures forall r :: r in Reported(merged, ttl) <==> r in merged && r.entry.Value? && !Expired(ttl, r.key)
    ensures Sorted(merged) ==> Sorted(Reported(merged, ttl))
  {
    if merged != [] {
      var n := |merged| - 1;
      ReportedMembers(merged[..n], ttl);
      assert merged == merged[..n] + [merged[n]];
      var r := Reported(merged[..n], ttl);
      assert forall i :: 0 <= i < |r| ==> r[i] in r && r[i] in merged[..n];
    }
  }

  lemma {:induction false} SourcesAreSorted(s: State)
    requires Inv(s) && |s.version.levels| == MaxLevel && ViewOf(s) == s.version.levels
    requires forall l :: 0 <= l < MaxLevel ==> |s.version.levels[l]| <= 100_000
    ensures RanksAscend(SourcesOf(s))
    ensures forall i :: 0 <= i < |SourcesOf(s)| ==> Sorted(SourcesOf(s)[i].run)
  {
    hide ProgressOk, FlushOk, ManifestOk, LifeCycle, ViewOf, NumbersUnique, PairwiseDisjoint, Sorted, DeepSources;
    DeepSourcesRanks(s.disk, s.version.levels, 0);
    assert forall l, f :: 0 <= l < MaxLevel && f in s.version.levels[l] ==> MetaOk(s.disk, f);
    DeepSourcesSorted(s.disk, s.version.levels, 0);
  }

  lemma {:induction false} DeepSourcesSorted(disk: Disk, view: View, level: nat)
    requires forall l, f :: 0 <= l < |view| && f in view[l] ==> MetaOk(disk, f)
    ensures forall i :: 0 <= i < |DeepSources(disk, view, level)| ==> Sorted(DeepSources(disk, view, level)[i].run)
    decreases |view| - level
  {
    hide Sorted;
    if level < |view| {
      DeepSourcesSorted(disk, view, level + 1);
      var files := view[level];
      LevelSourcesRanks(disk, files, 2 + level * RanksPerLevel);
      var sources := LevelSources(disk, files, 2 + level * RanksPerLevel);
      forall i | 0 <= i < |sources| ensures Sorted(sources[i].run) {
        assert MetaOk(disk, files[|files| - 1 - i]);
      }
    }
  }

  lemma {:induction false} KeysOfMeasurement(m: Bytes, start: int64, end: int64, k: TsKey)
    ensures InSlice(k, TsKey(m, start), TsKey(m, end)) <==> k.measurement == m && start <= k.timestamp <= end
  {
    CompareBytesLaws(k.measurement, m);
  }

  lemma {:induction false} AscendingTimestamps(out: seq<Record>, m: Bytes)
    requires Sorted(out) && forall r :: r in out ==> r.key.measurement == m
    ensures forall i, j :: 0 <= i < j < |out| ==> out[i].key.timestamp < out[j].key.timestamp
  {
    CompareBytesLaws(m, m);
    forall i, j | 0 <= i < j < |out| ensures out[i].key.timestamp < out[j].key.timestamp {
      assert out[i] in out && out[j] in out && Less(out[i].key, out[j].key);
    }
  }

  // In every reachable state with at most 100000 files a level, RangeQuery returns ascending timestamps
  // of its measurement and interval, and holds a value exactly when Get returns it.
  lemma {:induction false} RangeQueryAgreesWithGet(s: State, h: History, m: Bytes, start: int64, end: int64)
    requires Reachable(s, h) && |s.version.levels| == MaxLevel
    requires forall l :: 0 <= l < MaxLevel ==> |s.version.levels[l]| <= 100_000
    ensures var out := RangeQuery(s, m, start, end);
            && (forall i, j :: 0 <= i < j < |out| ==> out[i].key.timestamp < out[j].key.timestamp)
            && (forall r :: r in out <==> r.key.measurement == m && start <= r.key.timestamp <= end && r.entry.Value?
                                          && Get(s, r.key) == Some(r.entry.value))
  {
    hide Reachable, Inv, InWriteOrder, HoldsLastWrites, LogCovers, ViewOf, Merge, RankSources, CopiesIn, SourcesOf,
         Get, ReadCopies,
      Expired, Sorted, Reported, InSlice;
    ReachableIsGood(s, h);
    QueryView(s);
    SourcesAreSorted(s);
    var lo, hi := TsKey(m, start), TsKey(m, end);
    var merged := Merge(RankSources(SourcesOf(s), lo, hi));
    var out := RangeQuery(s, m, start, end);
    if start <= end {
      ReportedMembers(merged, s.ttl);
      QuerySorted(s, lo, hi);
      forall r ensures r in out <==> r.key.measurement == m && start <= r.key.timestamp <= end && r.entry.Value?
                                     && Get(s, r.key) == Some(r.entry.value) {
        KeysOfMeasurement(m, start, end, r.key);
        MergedSources(SourcesOf(s), lo, hi, r.key);
        SourcesHoldReadCopies(s, r.key);
        GetAnswersNewest(s, r.key);
        CopiesInMembers(merged, r.key);
        LastAnswer(ReadCopies(s, r.key), r.entry);
        assert r == Record(r.key, r.entry);
      }
      AscendingTimestamps(out, m);
    }
  }

  lemma {:induction false} LastAnswer(c: seq<Entry>, e: Entry)
    ensures e.Value? ==> (e in LastOf(c) <==> Answer(c) == Some(e.value))
  {
    if c != [] { assert LastOf(c)[0] == c[|c| - 1]; }
  }

  lemma {:induction false} QueryView(s: State)
    requires Inv(s) && |s.version.levels| == MaxLevel
    ensures ViewOf(s) == s.version.levels
  {
    hide LevelsOk, ProgressOk, FlushOk, ManifestOk, ViewOf, LifeCycle;
    ViewIsVersion(s);
  }

  lemma {:induction false} QuerySorted(s: State, lo: TsKey, hi: TsKey)
    requires |s.version.levels| == MaxLevel
    requires RanksAscend(SourcesOf(s)) && forall i :: 0 <= i < |SourcesOf(s)| ==> Sorted(SourcesOf(s)[i].run)
    ensures Sorted(Merge(RankSources(SourcesOf(s), lo, hi)))
  {
    hide RankSources, Merge, SourcesOf, Sorted, AgesDistinct;
    SourceAgesDistinct(SourcesOf(s), lo, hi);
    MergeKeepsNewest(RankSources(SourcesOf(s), lo, hi));
  }
}
