// Which compaction is picked, and when: the conditions over file counts, sizes and key ranges of the levels.
module LsmPicks {
  import opened Types
  import opened Version
  import opened Lsm
  import opened LsmInvariant
  import opened LsmSteps
  import opened LsmCommits
  import opened LsmHistory
  import opened LsmRuns
  import opened LsmSafety

  // ---------------------------------------------------------------- level sizes

  // The size of a level is the sum of its files' sizes.
  lemma {:induction false} TotalSizeAdds(a: seq<FileMeta>, b: seq<FileMeta>)
    ensures TotalSize(a + b) == TotalSize(a) + TotalSize(b)
    ensures TotalSize([]) == 0 && (|a| == 1 ==> TotalSize(a) == a[0].size)
  {
    if b == [] {
      assert a + b == a;
    } else {
      TotalSizeAdds(a, b[..|b| - 1]);
      assert (a + b)[..|a + b| - 1] == a + b[..|b| - 1];
    }
  }

  // 2 MiB for level 1, doubled for every level below.
  function Limit(level: nat): nat {
    match level
    case 1 => 2_097_152
    case 2 => 4_194_304
    case 3 => 8_388_608
    case 4 => 16_777_216
    case _ => 33_554_432
  }

  lemma {:induction false} OversizedIs(levels: Levels, level: nat)
    requires |levels| == 7 && 1 <= level <= 5
    ensures Oversized(levels, level) <==> TotalSize(levels[level]) > Limit(level)
  {
    hide TotalSize;
    assert Pow2(1) == 2 && Pow2(2) == 4;
    assert Pow2(3) == 8;
    assert Pow2(4) == 16;
    assert Pow2(5) == 32;
  }

  lemma {:induction false} LowestOversized(levels: Levels, level: nat)
    requires |levels| == 7 && 1 <= level <= 6
    ensures PickLevelJob(levels, level) == None
            <==> forall l :: level <= l <= 5 ==> TotalSize(levels[l]) <= Limit(l)
    ensures forall l :: level <= l <= 5 && TotalSize(levels[l]) > Limit(l)
                        && (forall m :: level <= m < l ==> TotalSize(levels[m]) <= Limit(m))
              ==> PickLevelJob(levels, level) == Some(Job(InputsAt(l, levels[l]), l + 1))
    decreases 7 - level
  {
    hide TotalSize, Oversized, InputsAt, Limit;
    if level < 6 {
      OversizedIs(levels, level);
      LowestOversized(levels, level + 1);
    }
  }

  // ---------------------------------------------------------------- the level-0 job

  lemma {:induction false} RangeIsReached(files: seq<FileMeta>, key: TsKey)
    ensures LowestKey(files, key) == key || exists f :: f in files && f.smallest == LowestKey(files, key)
    ensures HighestKey(files, key) == key || exists f :: f in files && f.largest == HighestKey(files, key)
  {
    hide Less;
    if files != [] {
      var n := |files| - 1;
      RangeIsReached(files[..n], key);
      assert files == files[..n] + [files[n]];
    }
  }

  lemma {:induction false} OverlappingAscends(files: seq<FileMeta>, lo: TsKey, hi: TsKey)
    requires Ascending(files)
    ensures Ascending(Overlapping(files, lo, hi))
  {
    hide Overlaps;
    if files != [] {
      var n := |files| - 1;
      OverlappingAscends(files[..n], lo, hi);
      OverlappingMembers(files[..n], lo, hi);
      var rest := Overlapping(files[..n], lo, hi);
      forall i | 0 <= i < |rest| ensures rest[i].number < files[n].number {
        assert rest[i] in files[..n];
      }
    }
  }

  // f does not lie entirely below the lowest key of the files, nor entirely above the highest one.
  ghost predicate MeetsRange(f: FileMeta, files: seq<FileMeta>) {
    && (exists a :: a in files && AtMost(a.smallest, f.largest))
    && (exists b :: b in files && AtMost(f.smallest, b.largest))
  }

  lemma {:induction false} OverlapsIs(f: FileMeta, files: seq<FileMeta>)
    requires files != []
    ensures Overlaps(f, LowestKey(files, files[0].smallest), HighestKey(files, files[0].largest))
            <==> MeetsRange(f, files)
  {
    hide Less;
    var lo, hi := LowestKey(files, files[0].smallest), HighestKey(files, files[0].largest);
    RangeBounds(files, files[0].smallest);
    RangeBounds(files, files[0].largest);
    RangeIsReached(files, files[0].smallest);
    RangeIsReached(files, files[0].largest);
    assert files[0] in files;
    var a :| a in files && a.smallest == lo;
    var b :| b in files && b.largest == hi;
    KeyOrder();
  }

  // The job over level 0: first the level-1 files that meet its key range, then all of level 0, into level 1.
  lemma {:induction false} L0JobIs(levels: Levels) returns (below: seq<FileMeta>)
    requires |levels| == 7 && levels[0] != [] && Ascending(levels[1])
    ensures L0Job(levels, levels[0]) == Job(InputsAt(1, below) + InputsAt(0, levels[0]), 1)
    ensures Ascending(below) && forall f :: f in below <==> f in levels[1] && MeetsRange(f, levels[0])
  {
    hide LowestKey, HighestKey, Overlaps, MeetsRange, InputsAt;
    var files := levels[0];
    var lo, hi := LowestKey(files, files[0].smallest), HighestKey(files, files[0].largest);
    below := Overlapping(levels[1], lo, hi);
    OverlappingAscends(levels[1], lo, hi);
    OverlappingMembers(levels[1], lo, hi);
    forall f ensures f in below <==> f in levels[1] && MeetsRange(f, files) {
      OverlapsIs(f, files);
    }
  }

  // ---------------------------------------------------------------- the picker

  lemma {:induction false} IdleLevels(s: State)
    requires Inv(s) && s.progress == Idle
    ensures |s.version.levels| == 7 && s.compacting == {} && Ascending(s.version.levels[1])
    ensures FilterOut(s.version.levels[0], s.compacting) == s.version.levels[0]
  {
    hide MemoryOk, FlushOk, ManifestOk, FilesOk, FilterOut, MetaOk, PairwiseDisjoint;
    FilterOutNone(s.version.levels[0], {});
  }

  // With no job running, the unforced picker finds work exactly when level 0 has at least 4 files or some level from 1
  // to 5 is over its limit, and takes level 0 first, then the lowest such level as a whole.
  lemma {:induction false} PickedExactlyWhen(s: State, h: History)
    requires Reachable(s, h) && s.progress == Idle
    ensures |s.version.levels| == 7
    ensures var levels := s.version.levels;
            && (PickJob(s, false).Some?
                <==> |levels[0]| >= 4 || TotalSize(levels[1]) > 2_097_152 || TotalSize(levels[2]) > 4_194_304
                     || TotalSize(levels[3]) > 8_388_608 || TotalSize(levels[4]) > 16_777_216
                     || TotalSize(levels[5]) > 33_554_432)
            && (|levels[0]| >= 4 ==> PickJob(s, false) == Some(L0Job(levels, levels[0])))
            && (|levels[0]| < 4 ==>
                  forall l :: 1 <= l <= 5 && TotalSize(levels[l]) > Limit(l)
                              && (forall m :: 1 <= m < l ==> TotalSize(levels[m]) <= Limit(m))
                    ==> PickJob(s, false) == Some(Job(InputsAt(l, levels[l]), l + 1)))
            && (ShouldSchedule(s) <==> PickJob(s, false).Some?)
  {
    hide Reachable, Good, Inv, TotalSize, FilterOut, L0Job, InputsAt, Oversized;
    ReachableIsGood(s, h);
    IdleLevels(s);
    LowestOversized(s.version.levels, 1);
    ScheduledExactlyWhenPicked(s);
  }

  // Forced, it takes level 0 whenever that has a file.
  lemma {:induction false} ForcedPick(s: State, h: History)
    requires Reachable(s, h)
    ensures |s.version.levels| == 7
    ensures s.progress != Idle ==> PickJob(s, false) == PickJob(s, true) == None && !ShouldSchedule(s)
    ensures s.progress == Idle ==>
              PickJob(s, true) == if s.version.levels[0] != [] then Some(L0Job(s.version.levels, s.version.levels[0]))
                                  else PickJob(s, false)
  {
    hide Reachable, Good, Inv, FilterOut, L0Job;
    ReachableIsGood(s, h);
    if s.progress == Idle {
      IdleLevels(s);
    }
  }
}
