// Every action keeps the invariant.
module LsmSteps {
  import opened Types
  import opened Version
  import opened RankedMerge
  import opened Lsm
  import opened LsmInvariant

  // ---------------------------------------------------------------- what does not touch tables or files

  // Everything the invariant reads except the memory tables.
  ghost predicate SameFiles(s: State, s': State) {
    && s'.version == s.version && s'.disk == s.disk && s'.readers == s.readers && s'.pending == s.pending
    && s'.views == s.views && s'.progress == s.progress && s'.compacting == s.compacting && s'.manifest == s.manifest
  }

  lemma {:induction false} MemoryStep(s: State, s': State)
    requires Inv(s) && SameFiles(s, s') && MemoryOk(s')
    requires s'.flush == s.flush || (s.flush.NoFlush? && s'.flush.Begun? && Sorted(s'.flush.table))
    ensures Inv(s')
  {
    assert Reserved(s') == Reserved(s);
  }

  lemma {:induction false} PutKeepsInv(s: State, r: Record)
    requires Inv(s)
    ensures Inv(Put(s, r)) && Inv(Write(s, r))
  {
    UpsertMembers(s.mem, r.key, r.entry);
    MemoryStep(s, Put(s, r));
    MemoryStep(s, Write(s, r));
  }

  lemma {:induction false} ApplyFromBatchKeepsInv(s: State, i: nat)
    requires Inv(s) && i < |s.batches| && s.batches[i] != []
    ensures Inv(ApplyFromBatch(s, i))
  {
    UpsertMembers(s.mem, s.batches[i][0].key, s.batches[i][0].entry);
    var s' := ApplyFromBatch(s, i);
    assert forall b :: b in s'.batches ==> b in s.batches || b == s.batches[i][1..];
    if s.batches[i][1..] == [] {
      assert forall b :: b in s'.batches ==> b in s.batches;
    }
    MemoryStep(s, ApplyFromBatch(s, i));
  }

  // ---------------------------------------------------------------- what adds or removes files

  // The files some part of the engine still counts on keep their contents.
  ghost predicate KeepsNeeded(s: State, disk': Disk) {
    forall n :: n in Live(s.version.levels) || n in Reserved(s)
      ==> n in disk' && Content(disk', n) == Content(s.disk, n)
  }

  lemma {:induction false} LevelsFrame(levels: Levels, disk: Disk, disk': Disk, next: nat, next': nat)
    requires LevelsOk(levels, disk, next) && next <= next'
    requires forall n :: n in Live(levels) ==> n in disk' && Content(disk', n) == Content(disk, n)
    ensures LevelsOk(levels, disk', next')
  {
    forall l, f | 0 <= l < MaxLevel && f in levels[l] ensures f.number in disk' && disk'[f.number] == disk[f.number] {
      assert f.number in Live(levels);
    }
  }

  lemma {:induction false} TargetsInLevel(levels: Levels, job: Job, T: seq<FileMeta>, S: seq<FileMeta>)
    requires |levels| == MaxLevel && JobShape(levels, job, T, S)
    ensures forall x :: 0 <= x < |T| ==> T[x] in levels[job.outputLevel]
    ensures forall x :: 0 <= x < |S| ==> S[x] in levels[job.outputLevel - 1]
  {
    var out := job.outputLevel;
    FilterOutMembers(levels[out], Numbers(levels[out]) - Numbers(T));
    forall x | 0 <= x < |S| ensures S[x] in levels[out - 1] {
      assert S[x] == levels[out - 1][x];
    }
  }

  lemma {:induction false} InputsLocated(levels: Levels, inputs: seq<Input>, out: nat, T: seq<FileMeta>,
                                         S: seq<FileMeta>)
    requires |levels| == MaxLevel && 1 <= out < MaxLevel
    requires inputs == InputsAt(out, T) + InputsAt(out - 1, S)
    requires forall x :: 0 <= x < |T| ==> T[x] in levels[out]
    requires forall x :: 0 <= x < |S| ==> S[x] in levels[out - 1]
    ensures forall i :: i in inputs ==> InRange(i.level) && i.meta in levels[i.level] && i.meta.number in Live(levels)
  {
    forall x | 0 <= x < |inputs|
      ensures var i := inputs[x]; InRange(i.level) && i.meta in levels[i.level] && i.meta.number in Live(levels)
    {
      var i := inputs[x];
      assert if x < |T| then i == Input(out, T[x]) else i == Input(out - 1, S[x - |T|]);
    }
  }

  lemma {:induction false} InputsInVersion(levels: Levels, job: Job)
    requires |levels| == MaxLevel && JobOk(levels, job)
    ensures forall i :: i in job.inputs ==>
                          InRange(i.level) && i.meta in levels[i.level] && i.meta.number in Live(levels)
  {
    var T, S :| JobShape(levels, job, T, S);
    TargetsInLevel(levels, job, T, S);
    InputsLocated(levels, job.inputs, job.outputLevel, T, S);
  }

  lemma {:induction false} RankInputsFrame(disk: Disk, disk': Disk, inputs: seq<Input>, ttl: TtlMap)
    requires forall i :: i in inputs ==> Content(disk', i.meta.number) == Content(disk, i.meta.number)
    ensures RankInputs(disk', inputs, ttl) == RankInputs(disk, inputs, ttl)
  {
    if inputs != [] {
      RankInputsFrame(disk, disk', inputs[..|inputs| - 1], ttl);
    }
  }

  lemma {:induction false} TilesFrame(disk: Disk, disk': Disk, outputs: seq<FileMeta>, merged: seq<Record>, end: nat)
    requires Tiles(disk, outputs, merged, end)
    requires forall f :: f in outputs ==> f.number in disk' && Content(disk', f.number) == Content(disk, f.number)
    ensures Tiles(disk', outputs, merged, end)
  {
    if outputs != [] {
      var f := outputs[|outputs| - 1];
      TilesFrame(disk, disk', outputs[..|outputs| - 1], merged, end - |disk[f.number]|);
    }
  }

  lemma {:induction false} OutputsFrame(s: State, s': State)
    requires |s.version.levels| == MaxLevel && s.progress.Merging? && OutputsOk(s)
             && JobOk(s.version.levels, s.progress.job)
    requires KeepsNeeded(s, s'.disk) && s'.progress == s.progress
    requires s'.version.levels == s.version.levels && s.version.nextFile <= s'.version.nextFile
    ensures OutputsOk(s')
  {
    var p := s.progress;
    InputsInVersion(s.version.levels, p.job);
    RankInputsFrame(s.disk, s'.disk, p.job.inputs, p.ttl);
    forall f | f in p.outputs ensures f.number in s'.disk && Content(s'.disk, f.number) == Content(s.disk, f.number) {
      assert f.number in Reserved(s);
    }
    TilesFrame(s.disk, s'.disk, p.outputs, p.merged, p.begin);
  }

  // Levels, flush and progress survive any change of the disk that keeps the needed files.
  lemma {:induction false} DiskStep(s: State, s': State)
    requires Inv(s) && KeepsNeeded(s, s'.disk)
    requires s'.version.levels == s.version.levels && s.version.nextFile <= s'.version.nextFile
    ensures LevelsOk(s'.version.levels, s'.disk, s'.version.nextFile)
    ensures s'.flush == s.flush ==> FlushOk(s')
    ensures s'.progress == s.progress && s'.compacting == s.compacting ==> ProgressOk(s')
    ensures s'.manifest == s.manifest ==> ManifestOk(s')
  {
    LevelsFrame(s.version.levels, s.disk, s'.disk, s.version.nextFile, s'.version.nextFile);
    if s'.flush == s.flush && s.flush.Built? {
      assert s.flush.meta.number in Reserved(s);
      assert FlushOk(s');
    }
    if s'.progress == s.progress && s'.compacting == s.compacting && s.progress.Merging? {
      OutputsFrame(s, s');
    }
  }

  lemma {:induction false} NewFileIsFresh(s: State, run: seq<Record>)
    requires Inv(s)
    ensures s.version.nextFile !in s.disk
    ensures KeepsNeeded(s, s.disk[s.version.nextFile := run])
    ensures s.version.nextFile !in s.readers && s.version.nextFile !in PendingNumbers(s.pending)
  {
    hide LevelsOk, ProgressOk, FlushOk, ManifestOk, MemoryOk;
  }

  lemma {:induction false} BuildFlushKeepsInv(s: State, size: nat)
    requires Inv(s) && s.flush.Begun?
    ensures Inv(BuildFlush(s, size))
  {
    hide ProgressOk, ManifestOk;
    var s' := BuildFlush(s, size);
    NewFileIsFresh(s, FromZeroKey(s.flush.table));
    DiskStep(s, s');
    assert FlushOk(s') by {
      FromZeroKeyMembers(s.flush.table);
    }
    assert FilesOk(s') by {
      hide LevelsOk, FlushOk;
      assert Reserved(s') == Reserved(s) + {s.version.nextFile};
    }
  }

  lemma {:induction false} MergeSorted(disk: Disk, inputs: seq<Input>, ttl: TtlMap)
    requires forall i :: i in inputs ==> Sorted(Content(disk, i.meta.number))
    ensures Sorted(Merge(RankInputs(disk, inputs, ttl)))
  {
    SortOrdered(RankInputs(disk, inputs, ttl));
    FirstsSorted(SortRanked(RankInputs(disk, inputs, ttl)));
  }

  lemma {:induction false} PickKeepsInv(s: State, force: bool)
    requires Inv(s) && PickJob(s, force).Some?
    ensures Inv(StartJob(s, PickJob(s, force).value))
  {
    var job := PickJob(s, force).value;
    var s' := StartJob(s, job);
    FilterOutNone(s.version.levels[0], {});
    PickedJobOk(s, force);
    assert Reserved(s') == Reserved(s);
    assert ProgressOk(s');
  }

  lemma {:induction false} PickedJobOk(s: State, force: bool)
    requires LevelsOk(s.version.levels, s.disk, s.version.nextFile) && s.compacting == {}
    requires PickJob(s, force).Some?
    ensures JobOk(s.version.levels, PickJob(s, force).value)
  {
    var levels := s.version.levels;
    FilterOutNone(levels[0], {});
    var byLevel := PickLevelJob(levels, 1);
    if levels[0] != [] && (force || |levels[0]| >= L0CompactionTrigger) {
      L0JobShape(levels, s.disk, s.version.nextFile);
      assert PickJob(s, force) == Some(L0Job(levels, levels[0]));
    } else {
      assert PickJob(s, force) == byLevel;
      PickLevelJobShape(levels, 1);
    }
  }

  lemma {:induction false} PickLevelJobShape(levels: Levels, level: nat)
    requires |levels| == MaxLevel && 1 <= level <= MaxLevel - 1
    requires PickLevelJob(levels, level).Some?
    ensures JobOk(levels, PickLevelJob(levels, level).value)
    decreases MaxLevel - level
  {
    if Oversized(levels, level) {
      var job := PickLevelJob(levels, level).value;
      FilterOutAll(levels[level + 1], Numbers(levels[level + 1]) - Numbers([]));
      assert InputsAt(level + 1, []) + InputsAt(level, levels[level]) == InputsAt(level, levels[level]);
      assert JobShape(levels, job, [], levels[level]);
    } else {
      PickLevelJobShape(levels, level + 1);
    }
  }

  lemma {:induction false} OverlappingMembers(files: seq<FileMeta>, lo: TsKey, hi: TsKey)
    ensures forall f :: f in Overlapping(files, lo, hi) <==> f in files && Overlaps(f, lo, hi)
  {
    if files != [] {
      OverlappingMembers(files[..|files| - 1], lo, hi);
      assert files == files[..|files| - 1] + [files[|files| - 1]];
    }
  }

  lemma {:induction false} OverlappingIsFilter(files: seq<FileMeta>, lo: TsKey, hi: TsKey, gone: set<nat>)
    requires forall f :: f in files ==> (f.number in gone <==> !Overlaps(f, lo, hi))
    ensures Overlapping(files, lo, hi) == FilterOut(files, gone)
  {
    if files != [] {
      OverlappingIsFilter(files[..|files| - 1], lo, hi, gone);
    }
  }

  lemma {:induction false} RangeBounds(files: seq<FileMeta>, key: TsKey)
    ensures AtMost(LowestKey(files, key), key) && AtMost(key, HighestKey(files, key))
    ensures forall f :: f in files ==> AtMost(LowestKey(files, key), f.smallest)
    ensures forall f :: f in files ==> AtMost(f.largest, HighestKey(files, key))
  {
    LessTotal(key, key);
    if files != [] {
      var n := |files| - 1;
      RangeBounds(files[..n], key);
      assert files == files[..n] + [files[n]];
      KeyOrder();
    }
  }

  lemma {:induction false} AscendingUnique(files: seq<FileMeta>, f: FileMeta, g: FileMeta)
    requires Ascending(files) && f in files && g in files && f.number == g.number
    ensures f == g
  {
    var i :| 0 <= i < |files| && files[i] == f;
    var j :| 0 <= j < |files| && files[j] == g;
  }

  // A level-1 file outside [lo, hi] lies on one side of every file that overlaps it.
  lemma {:induction false} BelowStaysBelow(files: seq<FileMeta>, lo: TsKey, hi: TsKey, r: FileMeta, t: FileMeta)
    requires PairwiseDisjoint(files) && r in files && t in files && AtMost(t.smallest, t.largest)
             && AtMost(r.smallest, r.largest)
    requires Overlaps(t, lo, hi) && !Overlaps(r, lo, hi) && AtMost(lo, hi)
    ensures Less(r.largest, lo) ==> Less(r.largest, t.smallest)
    ensures Less(hi, r.smallest) ==> Less(t.largest, r.smallest)
  {
    var i :| 0 <= i < |files| && files[i] == r;
    var j :| 0 <= j < |files| && files[j] == t;
    assert r != t;
    assert Disjoint(r, t) || Disjoint(t, r);
    KeyOrder();
  }

  lemma {:induction false} L0JobShape(levels: Levels, disk: Disk, next: nat)
    requires LevelsOk(levels, disk, next) && levels[0] != []
    ensures JobOk(levels, L0Job(levels, levels[0]))
  {
    var S := levels[0];
    var lo := LowestKey(S, S[0].smallest);
    var hi := HighestKey(S, S[0].largest);
    var T := Overlapping(levels[1], lo, hi);
    var job := L0Job(levels, S);
    RangeBounds(S, S[0].smallest);
    RangeBounds(S, S[0].largest);
    OverlappingMembers(levels[1], lo, hi);
    forall f | f in levels[1] ensures f.number in Numbers(levels[1]) - Numbers(T) <==> !Overlaps(f, lo, hi) {
      if f.number in Numbers(T) {
        var g :| g in T && g.number == f.number;
        AscendingUnique(levels[1], f, g);
      }
    }
    OverlappingIsFilter(levels[1], lo, hi, Numbers(levels[1]) - Numbers(T));
    FilterOutMembers(levels[1], Numbers(T));
    forall r | r in FilterOut(levels[1], Numbers(T)) ensures Aside(r, T + S) {
      L0JobAside(levels, disk, next, lo, hi, T, r);
    }
    assert JobShape(levels, job, T, S);
  }

  lemma {:induction false} EndsOrdered(disk: Disk, m: FileMeta)
    requires MetaOk(disk, m)
    ensures AtMost(m.smallest, m.largest)
  {
    LessTotal(m.smallest, m.largest);
    LessTotal(ZeroKey, ZeroKey);
  }

  lemma {:induction false} L0JobAside(levels: Levels, disk: Disk, next: nat, lo: TsKey, hi: TsKey, T: seq<FileMeta>,
                                      r: FileMeta)
    requires LevelsOk(levels, disk, next) && levels[0] != []
    requires forall f :: f in levels[0] ==> AtMost(lo, f.smallest) && AtMost(f.largest, hi)
    requires forall f :: f in T ==> f in levels[1] && Overlaps(f, lo, hi)
    requires r in levels[1] && r.number !in Numbers(T) && !Overlaps(r, lo, hi)
    ensures Aside(r, T + levels[0])
  {
    var S := levels[0];
    assert S[0] in S;
    EndsOrdered(disk, S[0]);
    EndsOrdered(disk, r);
    var lo0, hi0, s0, l0 := lo, hi, S[0].smallest, S[0].largest;
    assert AtMost(lo, hi) by { KeyOrder(); }
    forall f | f in T
      ensures Less(r.largest, lo) ==> Less(r.largest, f.smallest)
      ensures Less(hi, r.smallest) ==> Less(f.largest, r.smallest)
    {
      EndsOrdered(disk, f);
      BelowStaysBelow(levels[1], lo, hi, r, f);
    }
    forall f | f in S
      ensures Less(r.largest, lo) ==> Less(r.largest, f.smallest)
      ensures Less(hi, r.smallest) ==> Less(f.largest, r.smallest)
    {
      LessTotal(lo, f.smallest);
      LessTotal(f.largest, hi);
      if Less(r.largest, lo) && Less(lo, f.smallest) { LessTransitive(r.largest, lo, f.smallest); }
      if Less(hi, r.smallest) && Less(f.largest, hi) { LessTransitive(f.largest, hi, r.smallest); }
    }
  }

  // ---------------------------------------------------------------- output slices

  // Stored records in a list of files.
  function Records(disk: Disk, files: seq<FileMeta>): nat {
    if files == [] then 0 else Records(disk, files[..|files| - 1]) + |Content(disk, files[|files| - 1].number)|
  }

  lemma {:induction false} TilesTotal(disk: Disk, outputs: seq<FileMeta>, merged: seq<Record>, end: nat)
    requires Tiles(disk, outputs, merged, end)
    ensures Records(disk, outputs) == end && (outputs != [] ==> end <= |merged|)
  {
    if outputs != [] {
      var n := |outputs| - 1;
      TilesTotal(disk, outputs[..n], merged, end - |disk[outputs[n].number]|);
    }
  }

  lemma {:induction false} TileAt(disk: Disk, outputs: seq<FileMeta>, merged: seq<Record>, end: nat, i: nat)
    requires Tiles(disk, outputs, merged, end) && i < |outputs|
    ensures Records(disk, outputs) == end <= |merged|
    ensures outputs[i].number in disk
    ensures Records(disk, outputs[..i]) < Records(disk, outputs[..i + 1]) <= end
    ensures disk[outputs[i].number] == merged[Records(disk, outputs[..i])..Records(disk, outputs[..i + 1])]
  {
    hide Records;
    var n := |outputs| - 1;
    var before := end - |disk[outputs[n].number]|;
    TilesTotal(disk, outputs, merged, end);
    if i < n {
      TileAt(disk, outputs[..n], merged, before, i);
      assert outputs[..n][..i] == outputs[..i] && outputs[..n][..i + 1] == outputs[..i + 1];
    } else {
      TilesTotal(disk, outputs[..n], merged, before);
      assert outputs[..n + 1] == outputs;
    }
  }

  lemma {:induction false} RecordsMonotone(disk: Disk, files: seq<FileMeta>, i: nat, j: nat)
    requires i <= j <= |files|
    ensures Records(disk, files[..i]) <= Records(disk, files[..j])
  {
    if i < j {
      RecordsMonotone(disk, files, i, j - 1);
      assert files[..j][..j - 1] == files[..j - 1];
    }
  }

  // Output files carry keys of merged at their ends, and follow one another in key order.
  lemma {:induction false} TilesOrdered(disk: Disk, outputs: seq<FileMeta>, merged: seq<Record>, end: nat)
    requires Tiles(disk, outputs, merged, end) && Sorted(merged) && end <= |merged|
    requires forall f :: f in outputs ==> MetaOk(disk, f)
    ensures PairwiseDisjoint(outputs)
    ensures forall f :: f in outputs ==> f.number in disk && disk[f.number] != []
                                         && (exists a :: a in merged && a.key == f.smallest)
                                         && (exists b :: b in merged && b.key == f.largest)
  {
    hide Disjoint, Sorted, Tiles, MetaOk;
    forall i | 0 <= i < |outputs|
      ensures outputs[i].number in disk && disk[outputs[i].number] != []
      ensures exists a :: a in merged && a.key == outputs[i].smallest
      ensures exists b :: b in merged && b.key == outputs[i].largest
    {
      TileEnds(disk, outputs, merged, end, i);
    }
    forall i, j | 0 <= i < j < |outputs| ensures Disjoint(outputs[i], outputs[j]) {
      TilesDisjoint(disk, outputs, merged, end, i, j);
    }
  }

  lemma {:induction false} TileEnds(disk: Disk, outputs: seq<FileMeta>, merged: seq<Record>, end: nat, i: nat)
    requires Tiles(disk, outputs, merged, end) && i < |outputs| && MetaOk(disk, outputs[i])
    ensures outputs[i].number in disk && disk[outputs[i].number] != []
    ensures exists a :: a in merged && a.key == outputs[i].smallest
    ensures exists b :: b in merged && b.key == outputs[i].largest
  {
    hide Tiles, Sorted;
    TileAt(disk, outputs, merged, end, i);
    var lo, hi := Records(disk, outputs[..i]), Records(disk, outputs[..i + 1]);
    assert merged[lo] in merged && merged[hi - 1] in merged;
  }

  lemma {:induction false} TilesDisjoint(disk: Disk, outputs: seq<FileMeta>, merged: seq<Record>, end: nat, i: nat,
                                         j: nat)
    requires Tiles(disk, outputs, merged, end) && Sorted(merged) && i < j < |outputs|
    requires MetaOk(disk, outputs[i]) && MetaOk(disk, outputs[j])
    ensures Disjoint(outputs[i], outputs[j])
  {
    hide Tiles, Records, Less;
    TileAt(disk, outputs, merged, end, i);
    TileAt(disk, outputs, merged, end, j);
    RecordsMonotone(disk, outputs, i + 1, j);
    var a, b := Records(disk, outputs[..i + 1]) - 1, Records(disk, outputs[..j]);
    assert outputs[i].largest == merged[a].key && outputs[j].smallest == merged[b].key;
  }

  lemma {:induction false} SortedSlice(run: seq<Record>, lo: nat, hi: nat)
    requires Sorted(run) && lo <= hi <= |run|
    ensures Sorted(run[lo..hi])
  {
  }

  lemma {:induction false} EmitKeepsTiles(disk: Disk, outputs: seq<FileMeta>, merged: seq<Record>, begin: nat,
                                          end: nat, m: FileMeta)
    requires Tiles(disk, outputs, merged, begin) && begin < end <= |merged| && m.number !in disk
    requires forall f :: f in outputs ==> f.number in disk
    ensures Tiles(disk[m.number := merged[begin..end]], outputs + [m], merged, end)
  {
    var disk' := disk[m.number := merged[begin..end]];
    TilesFrame(disk, disk', outputs, merged, begin);
    assert (outputs + [m])[..|outputs|] == outputs;
  }

  lemma {:induction false} EmitKeepsOutputs(s: State, size: nat)
    requires |s.version.levels| == MaxLevel && s.progress.Merging? && OutputsOk(s)
             && JobOk(s.version.levels, s.progress.job)
    requires s.progress.begin < |s.progress.merged| && s.version.nextFile !in s.disk
    requires forall g :: g in s.version.levels[s.progress.job.outputLevel] ==> g.number < s.version.nextFile
    requires KeepsNeeded(s, s.disk[s.version.nextFile := s.progress.merged[s.progress.begin..EmitOutput(s,
             size).progress.begin]])
    ensures OutputsOk(EmitOutput(s, size))
  {
    hide JobOk, RankInputs, Merge;
    var s' := EmitOutput(s, size);
    var p, p' := s.progress, s'.progress;
    var m := p'.outputs[|p'.outputs| - 1];
    assert forall f :: f in p.outputs ==> f.number in s.disk;
    assert Tiles(s'.disk, p'.outputs, p'.merged, p'.begin) by {
      EmitKeepsTiles(s.disk, p.outputs, p.merged, p.begin, p'.begin, m);
    }
    assert MetaOk(s'.disk, m) by {
      SortedSlice(p.merged, p.begin, p'.begin);
    }
    assert RankInputs(s'.disk, p'.job.inputs, p'.ttl) == RankInputs(s.disk, p.job.inputs, p.ttl) by {
      InputsInVersion(s.version.levels, p.job);
      RankInputsFrame(s.disk, s'.disk, p.job.inputs, p.ttl);
    }
  }

  lemma {:induction false} OutputsBelowNext(s: State)
    requires Inv(s) && s.progress.Merging?
    ensures s.progress.job.outputLevel < MaxLevel
    ensures forall g :: g in s.version.levels[s.progress.job.outputLevel] ==> g.number < s.version.nextFile
  {
    hide ManifestOk, FlushOk, LifeCycle, OutputsOk;
  }

  lemma {:induction false} EmitKeepsInv(s: State, size: nat)
    requires Inv(s) && s.progress.Merging? && s.progress.begin < |s.progress.merged|
    ensures Inv(EmitOutput(s, size))
  {
    hide ManifestOk, FlushOk, LevelsOk, OutputsOk, JobOk, Merge, RankInputs, KeepsNeeded, Live;
    var s' := EmitOutput(s, size);
    var n := s.version.nextFile;
    NewFileIsFresh(s, s'.disk[n]);
    OutputsBelowNext(s);
    EmitKeepsOutputs(s, size);
    DiskStep(s, s');
    assert FilesOk(s') by {
      assert Reserved(s') == Reserved(s) + {n};
    }
  }

  lemma {:induction false} JobTablesSorted(levels: Levels, disk: Disk, next: nat, job: Job)
    requires |levels| == MaxLevel && LevelsOk(levels, disk, next) && JobOk(levels, job)
    ensures forall i :: i in job.inputs ==> Sorted(Content(disk, i.meta.number))
  {
    InputsInVersion(levels, job);
    hide JobOk, NumbersUnique, PairwiseDisjoint, Disjoint, Sorted, Ascending, InputNumbers, Live;
    forall i | i in job.inputs ensures Sorted(Content(disk, i.meta.number)) {
      assert MetaOk(disk, i.meta);
    }
  }

  lemma {:induction false} MergeOutputsOk(s: State)
    requires |s.version.levels| == MaxLevel && LevelsOk(s.version.levels, s.disk, s.version.nextFile)
    requires s.progress.Picked? && JobOk(s.version.levels, s.progress.job)
    ensures OutputsOk(MergeJob(s))
  {
    hide LevelsOk, JobOk, Merge, RankInputs, Sorted;
    JobTablesSorted(s.version.levels, s.disk, s.version.nextFile, s.progress.job);
    MergeSorted(s.disk, s.progress.job.inputs, s.progress.ttl);
  }

  lemma {:induction false} SameDisk(s: State)
    requires Inv(s)
    ensures KeepsNeeded(s, s.disk)
  {
    hide LevelsOk, ProgressOk, FlushOk, ManifestOk, MemoryOk;
  }

  lemma {:induction false} MergeKeepsInv(s: State)
    requires Inv(s) && s.progress.Picked?
    ensures Inv(MergeJob(s))
  {
    hide ManifestOk, FlushOk, LevelsOk, OutputsOk, JobOk, LifeCycle, Merge, RankInputs, KeepsNeeded, Live;
    var s' := MergeJob(s);
    SameDisk(s);
    DiskStep(s, s');
    MergeOutputsOk(s);
    assert Reserved(s') == Reserved(s);
  }
}
