// What holds in every reachable state of the step system: the level invariant, the state of the
// compaction job and of the flush, and the life cycle of table files.
module LsmInvariant {
  import opened Types
  import opened Version
  import opened RankedMerge
  import opened Lsm

  // ---------------------------------------------------------------- levels

  // A table file on disk, strictly ascending, with metadata bounds that are exactly its end keys.
  ghost predicate MetaOk(disk: Disk, m: FileMeta) {
    && m.number in disk
    && Sorted(disk[m.number])
    && m.smallest == MinKey(disk[m.number])
    && m.largest == MaxKey(disk[m.number])
  }

  ghost predicate Disjoint(f: FileMeta, g: FileMeta) {
    Less(f.largest, g.smallest) || Less(g.largest, f.smallest)
  }

  ghost predicate PairwiseDisjoint(files: seq<FileMeta>) {
    forall i, j :: 0 <= i < j < |files| ==> Disjoint(files[i], files[j])
  }

  // The file numbers of a version.
  function Live(levels: Levels): set<nat> {
    set l, f | 0 <= l < |levels| && f in levels[l] :: f.number
  }

  ghost predicate NumbersUnique(levels: Levels) {
    forall l, m :: 0 <= l < m < |levels| ==> Numbers(levels[l]) !! Numbers(levels[m])
  }

  ghost predicate LevelsOk(levels: Levels, disk: Disk, next: nat) {
    && |levels| == MaxLevel
    && (forall l :: 0 <= l < MaxLevel ==> Ascending(levels[l]))
    && NumbersUnique(levels)
    && (forall l, f :: 0 <= l < MaxLevel && f in levels[l] ==> MetaOk(disk, f) && f.number < next)
    && (forall l, f :: 0 < l < MaxLevel && f in levels[l] ==> disk[f.number] != [])
    && PairwiseDisjoint(levels[1])
  }

  // ---------------------------------------------------------------- the compaction job

  // r lies entirely below or entirely above all the files.
  ghost predicate Aside(r: FileMeta, files: seq<FileMeta>) {
    (forall f :: f in files ==> Less(r.largest, f.smallest)) || (forall f :: f in files ==> Less(f.largest, r.smallest))
  }

  // The inputs are some files T of the output level, then the oldest files S of the level above it;
  // what stays behind in level 1 shares no key range with them.
  ghost predicate JobShape(levels: Levels, job: Job, T: seq<FileMeta>, S: seq<FileMeta>)
    requires |levels| == MaxLevel
  {
    var out := job.outputLevel;
    && 1 <= out < MaxLevel
    && job.inputs == InputsAt(out, T) + InputsAt(out - 1, S)
    && S != [] && S <= levels[out - 1]
    && T == FilterOut(levels[out], Numbers(levels[out]) - Numbers(T))
    && (out > 1 ==> T == [])
    && (out == 1 ==> forall r :: r in FilterOut(levels[1], Numbers(T)) ==> Aside(r, T + S))
  }

  ghost predicate JobOk(levels: Levels, job: Job)
    requires |levels| == MaxLevel
  {
    exists T, S :: JobShape(levels, job, T, S)
  }

  function JobOf(p: Progress): Job
    requires p != Idle
  {
    p.job
  }

  // The output files are consecutive slices of merged, up to position end.
  ghost predicate Tiles(disk: Disk, outputs: seq<FileMeta>, merged: seq<Record>, end: nat) {
    if outputs == [] then end == 0 else
      var f := outputs[|outputs| - 1];
      && f.number in disk && 0 < |disk[f.number]| <= end <= |merged|
      && disk[f.number] == merged[end - |disk[f.number]|..end]
      && Tiles(disk, outputs[..|outputs| - 1], merged, end - |disk[f.number]|)
  }

  ghost predicate OutputsOk(s: State)
    requires s.progress.Merging? && |s.version.levels| == MaxLevel
  {
    var p := s.progress;
    && p.merged == Merge(RankInputs(s.disk, p.job.inputs, p.ttl))
    && Sorted(p.merged)
    && p.begin <= |p.merged|
    && Tiles(s.disk, p.outputs, p.merged, p.begin)
    && Ascending(p.outputs)
    && (forall f :: f in p.outputs ==> MetaOk(s.disk, f) && f.number < s.version.nextFile)
    && (p.job.outputLevel < MaxLevel ==>
          forall f, g :: f in p.outputs && g in s.version.levels[p.job.outputLevel] ==> g.number < f.number)
  }

  ghost predicate ProgressOk(s: State)
    requires |s.version.levels| == MaxLevel
  {
    && (s.progress == Idle ==> s.compacting == {})
    && (s.progress != Idle ==> JobOk(s.version.levels, JobOf(s.progress))
                               && s.compacting == InputNumbers(JobOf(s.progress).inputs))
    && (s.progress.Merging? ==> OutputsOk(s))
  }

  // ---------------------------------------------------------------- memory

  ghost predicate FlushOk(s: State)
    requires |s.version.levels| == MaxLevel
  {
    match s.flush
    case NoFlush => true
    case Begun(t) => Sorted(t)
    case Built(t, m) =>
      && Sorted(t) && MetaOk(s.disk, m) && s.disk[m.number] == FromZeroKey(t)
      && m.number < s.version.nextFile
      && forall g :: g in s.version.levels[0] ==> g.number < m.number
  }

  ghost predicate MemoryOk(s: State) {
    && Sorted(s.mem)
    && (s.imm.Some? ==> Sorted(s.imm.value) && s.flush.NoFlush?)
    && (forall b :: b in s.batches ==> b != [])
  }

  // ---------------------------------------------------------------- files

  ghost predicate Distinct(s: seq<nat>) {
    forall i, j :: 0 <= i < j < |s| ==> s[i] != s[j]
  }

  function FlushNumbers(f: FlushState): set<nat> {
    if f.Built? then {f.meta.number} else {}
  }

  function OutputNumbers(p: Progress): set<nat> {
    if p.Merging? then Numbers(p.outputs) else {}
  }

  // Files written but not yet part of a version.
  function Reserved(s: State): set<nat> {
    FlushNumbers(s.flush) + OutputNumbers(s.progress)
  }

  function PendingNumbers(pending: seq<Pending>): set<nat> {
    set p | p in pending :: p.number
  }

  // A file is live, obsolete, pending deletion, or reserved, and only one of these. Live and obsolete
  // files have a published reader; a file that a view holds is still on disk and cannot lose its reader.
  ghost predicate LifeCycle(onDisk: set<nat>, next: nat, readers: seq<nat>, obsolete: seq<nat>, pending: seq<Pending>,
                            live: set<nat>, reserved: set<nat>, held: set<nat>)
  {
    && (forall n :: n in onDisk ==> n < next)
    && Distinct(readers) && Distinct(obsolete)
    && (forall n :: n in readers <==> n in live || n in obsolete)
    && (forall n :: n in obsolete ==> n !in live)
    && live <= onDisk && (forall n :: n in obsolete ==> n in onDisk) && reserved <= onDisk && held <= onDisk
    && (forall p :: p in pending ==> p.held && p.number !in readers && p.number < next)
    && reserved !! PendingNumbers(pending)
    && (forall n :: n in reserved ==> n !in readers)
    && (forall n :: n in held ==> n in readers || n in PendingNumbers(pending))
  }

  ghost predicate FilesOk(s: State) {
    && LifeCycle(s.disk.Keys, s.version.nextFile, s.readers, s.version.obsolete, s.pending,
                 Live(s.version.levels), Reserved(s), Held(s.views))
    && FlushNumbers(s.flush) !! OutputNumbers(s.progress)
  }

  // ---------------------------------------------------------------- the manifest

  // The manifest always describes the current levels.
  ghost predicate ManifestOk(s: State) {
    && Recover(s.manifest).levels == s.version.levels
    && Recover(s.manifest).nextFile <= s.version.nextFile
    && forall n :: n in Live(s.version.levels) ==> n < Recover(s.manifest).nextFile
  }

  ghost predicate Inv(s: State) {
    && |s.version.levels| == MaxLevel
    && LevelsOk(s.version.levels, s.disk, s.version.nextFile)
    && MemoryOk(s) && FlushOk(s) && ProgressOk(s) && FilesOk(s) && ManifestOk(s)
  }

  // ---------------------------------------------------------------- facts about runs and levels

  lemma {:induction false} KeysWithinBounds(disk: Disk, m: FileMeta, r: Record)
    requires MetaOk(disk, m) && r in disk[m.number]
    ensures AtMost(m.smallest, r.key) && AtMost(r.key, m.largest)
  {
    var run := disk[m.number];
    var i :| 0 <= i < |run| && run[i] == r;
    LessTotal(run[0].key, r.key);
    LessTotal(r.key, run[|run| - 1].key);
  }

  lemma {:induction false} EmptyLevelsOk(levels: Levels)
    requires |levels| == MaxLevel && forall l :: 0 <= l < MaxLevel ==> levels[l] == []
    ensures LevelsOk(levels, map[], 1)
    ensures Live(levels) == {}
  {
  }

  lemma {:induction false} InitOk(target: nat)
    ensures Inv(Init(target))
  {
    var s := Init(target);
    EmptyLevelsOk(s.version.levels);
    assert Recover([]) == VersionState(EmptyLevels(), 1, []);
  }
}
