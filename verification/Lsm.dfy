// The storage engine as a step system. Every action is one region that src/tsdb_engine.cpp runs under
// mu_ (or, for file numbers, under the version manager's own mutex); actions of the writers, the flush
// thread, the compaction thread and the readers interleave freely.
module Lsm {
  import opened Types
  import opened Version
  import opened RankedMerge
  import Manifest
  import Wal

  // ---------------------------------------------------------------- state

  datatype TtlRule = TtlRule(seconds: int, latest: int64)

  type TtlMap = map<Bytes, TtlRule>

  // The table the flush thread has taken out of imm_, then the file it was built into.
  datatype FlushState = NoFlush | Begun(table: seq<Record>) | Built(table: seq<Record>, meta: FileMeta)

  datatype Input = Input(level: nat, meta: FileMeta)

  datatype Job = Job(inputs: seq<Input>, outputLevel: nat)

  // The compaction thread: idle, job picked, or writing output files from merged[begin..].
  datatype Progress =
    | Idle
    | Picked(job: Job, ttl: TtlMap)
    | Merging(job: Job, ttl: TtlMap, merged: seq<Record>, begin: nat, outputs: seq<FileMeta>)

  // A file waiting for its last reader; held says that a reader object came with it.
  datatype Pending = Pending(number: nat, held: bool)

  // The part of a ReadView that keeps files alive.
  type View = Levels

  datatype State = State(
    mem: seq<Record>,
    imm: Option<seq<Record>>,
    flush: FlushState,
    version: VersionState,
    disk: Disk,
    readers: seq<nat>,
    pending: seq<Pending>,
    views: seq<View>,
    ttl: TtlMap,
    progress: Progress,
    compacting: set<nat>,
    batches: seq<seq<Record>>,   // operations logged by Write but not yet in mem
    wal: seq<Record>,
    manifest: seq<ManifestLine>,
    target: nat)                 // target_file_size_

  const L0CompactionTrigger: nat := 4
  const LevelSizeBase: nat := 1024 * 1024

  function Init(target: nat): State {
    State([], None, NoFlush, VersionState(EmptyLevels(), 1, []), map[], [], [], [], map[], Idle, {}, [], [], [], target)
  }

  // ---------------------------------------------------------------- time to live

  function RuleExpires(rule: TtlRule, timestamp: int64): bool {
    rule.seconds > 0 && rule.latest != MinTs && timestamp < rule.latest - rule.seconds * 1_000_000_000
  }

  predicate Expired(ttl: TtlMap, k: TsKey) {
    k.measurement in ttl && RuleExpires(ttl[k.measurement], k.timestamp)
  }

  // UpdateLatestTimestampUnlocked
  function Touch(ttl: TtlMap, k: TsKey): TtlMap {
    var rule := if k.measurement in ttl then ttl[k.measurement] else TtlRule(0, MinTs);
    ttl[k.measurement := if k.timestamp > rule.latest then rule.(latest := k.timestamp) else rule]
  }

  function TouchAll(ttl: TtlMap, ops: seq<Record>): TtlMap {
    if ops == [] then ttl else Touch(TouchAll(ttl, ops[..|ops| - 1]), ops[|ops| - 1].key)
  }

  function SetTtl(ttl: TtlMap, m: Bytes, seconds: int): TtlMap {
    ttl[m := if m in ttl then ttl[m].(seconds := seconds) else TtlRule(seconds, MinTs)]
  }

  // ---------------------------------------------------------------- writes and the log

  function Write(s: State, r: Record): State {
    s.(mem := Upsert(s.mem, r.key, r.entry), ttl := Touch(s.ttl, r.key))
  }

  function Put(s: State, r: Record): State {
    Write(s, r).(wal := s.wal + [r])
  }

  function LogBatch(s: State, ops: seq<Record>): State {
    s.(wal := s.wal + ops, batches := s.batches + [ops])
  }

  // One operation of a logged batch reaches mem; the batch disappears with its last operation.
  function ApplyFromBatch(s: State, i: nat): State
    requires i < |s.batches| && s.batches[i] != []
  {
    var rest := s.batches[i][1..];
    Write(s, s.batches[i][0]).(
    batches := if rest == [] then s.batches[..i] + s.batches[i + 1..] else s.batches[i := rest])
  }

  function Replay(ops: seq<Record>): seq<Record> {
    if ops == [] then [] else
      var r := ops[|ops| - 1];
      Upsert(Replay(ops[..|ops| - 1]), r.key, r.entry)
  }

  // ---------------------------------------------------------------- flush

  function Seal(s: State): State {
    s.(imm := Some(s.mem), mem := [])
  }

  function BeginFlush(s: State): State
    requires s.imm.Some?
  {
    s.(imm := None, flush := Begun(s.imm.value))
  }

  function MetaOf(number: nat, size: nat, run: seq<Record>): FileMeta {
    FileMeta(number, size, MinKey(run), MaxKey(run))
  }

  function BuildFlush(s: State, size: nat): State
    requires s.flush.Begun?
  {
    var n := s.version.nextFile;
    var run := FromZeroKey(s.flush.table);
    s.(version := s.version.(nextFile := n + 1),
    disk := s.disk[n := run],
    flush := Built(s.flush.table, MetaOf(n, size, run)))
  }

  // LogAndApply: append the edit to the manifest, then apply it.
  function LogAndApply(s: State, e: Edit): State
    requires |s.version.levels| == MaxLevel
  {
    s.(manifest := s.manifest + EditLines(e, s.version.nextFile), version := ApplyEdit(s.version, e))
  }

  function InstallFlush(s: State): State
    requires s.flush.Built? && |s.version.levels| == MaxLevel
  {
    LogAndApply(s, Edit([(0, s.flush.meta)], [])).(readers := s.readers + [s.flush.meta.number])
  }

  function CommitFlush(s: State): State
    requires s.flush.Built? && |s.version.levels| == MaxLevel
  {
    InstallFlush(s).(wal := [], flush := NoFlush)
  }

  // ---------------------------------------------------------------- compaction

  function LowestKey(files: seq<FileMeta>, lo: TsKey): TsKey {
    if files == [] then lo else
      var l := LowestKey(files[..|files| - 1], lo);
      if Less(files[|files| - 1].smallest, l) then files[|files| - 1].smallest else l
  }

  function HighestKey(files: seq<FileMeta>, hi: TsKey): TsKey {
    if files == [] then hi else
      var h := HighestKey(files[..|files| - 1], hi);
      if Less(h, files[|files| - 1].largest) then files[|files| - 1].largest else h
  }

  predicate Overlaps(f: FileMeta, lo: TsKey, hi: TsKey) {
    !(Less(f.largest, lo) || Less(hi, f.smallest))
  }

  function Overlapping(files: seq<FileMeta>, lo: TsKey, hi: TsKey): seq<FileMeta> {
    if files == [] then [] else
      var rest := Overlapping(files[..|files| - 1], lo, hi);
      if Overlaps(files[|files| - 1], lo, hi) then rest + [files[|files| - 1]] else rest
  }

  function InputsAt(level: nat, files: seq<FileMeta>): (r: seq<Input>)
    ensures |r| == |files|
    ensures forall i :: 0 <= i < |r| ==> r[i] == Input(level, files[i])
  {
    if files == [] then [] else
      InputsAt(level, files[..|files| - 1]) + [Input(level, files[|files| - 1])]
  }

  function TotalSize(files: seq<FileMeta>): nat {
    if files == [] then 0 else TotalSize(files[..|files| - 1]) + files[|files| - 1].size
  }

  predicate Oversized(levels: Levels, level: nat)
    requires level < |levels|
  {
    TotalSize(levels[level]) > LevelSizeBase * Pow2(level)
  }

  function PickLevelJob(levels: Levels, level: nat): Option<Job>
    requires |levels| == MaxLevel && level <= MaxLevel - 1
    decreases MaxLevel - level
  {
    if level >= MaxLevel - 1 then None
    else if !Oversized(levels, level) then PickLevelJob(levels, level + 1)
    else Some(Job(InputsAt(level, levels[level]), level + 1))
  }

  function L0Job(levels: Levels, candidates: seq<FileMeta>): Job
    requires |levels| == MaxLevel && candidates != []
  {
    var lo := LowestKey(candidates, candidates[0].smallest);
    var hi := HighestKey(candidates, candidates[0].largest);
    Job(InputsAt(1, Overlapping(levels[1], lo, hi)) + InputsAt(0, candidates), 1)
  }

  // PickCompactionWorkUnlocked
  function PickJob(s: State, force: bool): Option<Job>
    requires |s.version.levels| == MaxLevel
  {
    if s.progress != Idle then None else
      var candidates := FilterOut(s.version.levels[0], s.compacting);
      if candidates != [] && (force || |candidates| >= L0CompactionTrigger) then
        Some(L0Job(s.version.levels, candidates))
      else
        PickLevelJob(s.version.levels, 1)
  }

  predicate SomeOversized(levels: Levels, level: nat)
    requires |levels| == MaxLevel && level <= MaxLevel - 1
    decreases MaxLevel - level
  {
    level < MaxLevel - 1 && (Oversized(levels, level) || SomeOversized(levels, level + 1))
  }

  // ShouldScheduleCompactionUnlocked
  predicate ShouldSchedule(s: State)
    requires |s.version.levels| == MaxLevel
  {
    s.progress == Idle
    && (|FilterOut(s.version.levels[0], s.compacting)| >= L0CompactionTrigger || SomeOversized(s.version.levels, 1))
  }

  function InputNumbers(inputs: seq<Input>): set<nat> {
    set i | i in inputs :: i.meta.number
  }

  function StartJob(s: State, job: Job): State {
    s.(progress := Picked(job, s.ttl), compacting := s.compacting + InputNumbers(job.inputs))
  }

  // The compaction reader's scan and the TTL filter, over one input file.
  predicate Kept(ttl: TtlMap, k: TsKey) {
    AtMost(k, LastReadKey) && !Expired(ttl, k)
  }

  function RankFile(run: seq<Record>, ttl: TtlMap, age: int): seq<Ranked> {
    if run == [] then [] else
      var rest := RankFile(run[..|run| - 1], ttl, age);
      if Kept(ttl, run[|run| - 1].key) then rest + [Ranked(run[|run| - 1], age)] else rest
  }

  // Later inputs are newer, so input i gets age -i.
  function RankInputs(disk: Disk, inputs: seq<Input>, ttl: TtlMap): seq<Ranked> {
    if inputs == [] then [] else
      var n := |inputs| - 1;
      RankInputs(disk, inputs[..n], ttl) + RankFile(Content(disk, inputs[n].meta.number), ttl, -n)
  }

  function MergeJob(s: State): State
    requires s.progress.Picked?
  {
    var p := s.progress;
    s.(progress := Merging(p.job, p.ttl, Merge(RankInputs(s.disk, p.job.inputs, p.ttl)), 0, []))
  }

  function ApproxBytes(r: Record): nat {
    |r.key.measurement| + (if r.entry.Value? then |r.entry.value| else 0) + 32
  }

  // Where the output file that starts at begin ends: the first record that reaches the target size.
  function SplitEnd(merged: seq<Record>, end: nat, bytes: nat, target: nat): (r: nat)
    requires end < |merged|
    ensures end < r <= |merged|
    decreases |merged| - end
  {
    var b := bytes + ApproxBytes(merged[end]);
    if (target != 0 && b >= target) || end + 1 == |merged| then end + 1
    else SplitEnd(merged, end + 1, b, target)
  }

  function EmitOutput(s: State, size: nat): State
    requires s.progress.Merging? && s.progress.begin < |s.progress.merged|
  {
    var p := s.progress;
    var end := SplitEnd(p.merged, p.begin, 0, s.target);
    var n := s.version.nextFile;
    var run := p.merged[p.begin..end];
    s.(version := s.version.(nextFile := n + 1),
    disk := s.disk[n := run],
    progress := p.(begin := end, outputs := p.outputs + [MetaOf(n, size, run)]))
  }

  function Deletions(inputs: seq<Input>): (r: seq<(int, nat)>)
    ensures |r| == |inputs|
    ensures forall i :: 0 <= i < |r| ==> r[i] == (inputs[i].level, inputs[i].meta.number)
  {
    if inputs == [] then [] else
      Deletions(inputs[..|inputs| - 1]) + [(inputs[|inputs| - 1].level as int, inputs[|inputs| - 1].meta.number)]
  }

  function JobEdit(p: Progress): Edit
    requires p.Merging?
  {
    Edit(Additions(p.job.outputLevel, p.outputs), Deletions(p.job.inputs))
  }

  function NumberList(files: seq<FileMeta>): (r: seq<nat>)
    ensures |r| == |files|
    ensures forall i :: 0 <= i < |r| ==> r[i] == files[i].number
  {
    if files == [] then [] else NumberList(files[..|files| - 1]) + [files[|files| - 1].number]
  }

  // IsCompactionInputValidUnlocked
  predicate InputsValid(levels: Levels, inputs: seq<Input>)
    requires |levels| == MaxLevel
  {
    forall i :: i in inputs ==> InRange(i.level) && HasNumber(levels[i.level], i.meta.number)
  }

  function InstallJob(s: State): State
    requires s.progress.Merging? && |s.version.levels| == MaxLevel
  {
    LogAndApply(s, JobEdit(s.progress)).(readers := s.readers + NumberList(s.progress.outputs))
  }

  function FinishJob(s: State, job: Job): State {
    s.(progress := Idle, compacting := s.compacting - InputNumbers(job.inputs))
  }

  // The locked half of RunCompactionWork.
  function CommitJob(s: State, cleanup: bool): State
    requires s.progress.Merging? && |s.version.levels| == MaxLevel
  {
    var p := s.progress;
    if InputsValid(s.version.levels, p.job.inputs) then
      FinishJob(if cleanup then Cleanup(InstallJob(s)) else InstallJob(s), p.job)
    else
      FinishJob(s.(disk := s.disk - Numbers(p.outputs)), p.job)
  }

  // ---------------------------------------------------------------- readers and deletion

  function RemoveFirst(s: seq<nat>, n: nat): seq<nat> {
    if s == [] then [] else if s[0] == n then s[1..] else [s[0]] + RemoveFirst(s[1..], n)
  }

  // Move the readers of obsolete files to the pending list.
  function MoveObsolete(readers: seq<nat>, pending: seq<Pending>, files: seq<nat>): (seq<nat>, seq<Pending>) {
    if files == [] then (readers, pending) else
      var n := |files| - 1;
      var (r, p) := MoveObsolete(readers, pending, files[..n]);
      (RemoveFirst(r, files[n]), p + [Pending(files[n], files[n] in r)])
  }

  // The files whose reader objects some captured view still references.
  function Held(views: seq<View>): set<nat> {
    set v, files, f | v in views && files in v && f in files :: f.number
  }

  predicate InUse(views: seq<View>, n: nat) {
    n in Held(views)
  }

  function StillPending(pending: seq<Pending>, views: seq<View>): seq<Pending> {
    if pending == [] then [] else
      var p := pending[|pending| - 1];
      var rest := StillPending(pending[..|pending| - 1], views);
      if p.held && InUse(views, p.number) then rest + [p] else rest
  }

  // The files TryDeletePendingFilesUnlocked removes from disk.
  function Deletable(pending: seq<Pending>, views: seq<View>): set<nat> {
    set p | p in pending && !(p.held && InUse(views, p.number)) :: p.number
  }

  function TryDelete(s: State): State {
    s.(disk := s.disk - Deletable(s.pending, s.views), pending := StillPending(s.pending, s.views))
  }

  // CleanupObsoleteFilesUnlocked
  function Cleanup(s: State): State {
    var (r, p) := MoveObsolete(s.readers, s.pending, s.version.obsolete);
    TryDelete(s.(version := s.version.(obsolete := []), readers := r, pending := p))
  }

  function Published(files: seq<FileMeta>, readers: seq<nat>): seq<FileMeta> {
    if files == [] then [] else
      var rest := Published(files[..|files| - 1], readers);
      if files[|files| - 1].number in readers then rest + [files[|files| - 1]] else rest
  }

  // CaptureReadView: the files of the current version whose reader is published.
  function ViewOf(s: State): (v: View)
    requires |s.version.levels| == MaxLevel
    ensures |v| == MaxLevel
  {
    seq(MaxLevel, l requires 0 <= l < MaxLevel => Published(s.version.levels[l], s.readers))
  }

  // ---------------------------------------------------------------- reads

  function GetFromLevel(disk: Disk, files: seq<FileMeta>, k: TsKey): Option<Entry> {
    if files == [] then None else
      var f := files[|files| - 1];
      var rest := files[..|files| - 1];
      if Less(k, f.smallest) || Less(f.largest, k) then GetFromLevel(disk, rest, k)
      else if Find(Content(disk, f.number), k).Some? then Find(Content(disk, f.number), k)
      else GetFromLevel(disk, rest, k)
  }

  // GetFromSSTables
  function GetFromLevels(disk: Disk, view: View, level: nat, k: TsKey): Option<Entry>
    decreases |view| - level
  {
    if level >= |view| then None
    else if GetFromLevel(disk, view[level], k).Some? then GetFromLevel(disk, view[level], k)
    else GetFromLevels(disk, view, level + 1, k)
  }

  function Visible(e: Entry): Option<Bytes> {
    if e.Value? then Some(e.value) else None
  }

  // TsdbEngine::Get
  function Get(s: State, k: TsKey): Option<Bytes>
    requires |s.version.levels| == MaxLevel
  {
    if Expired(s.ttl, k) then None
    else if Find(s.mem, k).Some? then Visible(Find(s.mem, k).value)
    else if s.imm.Some? && Find(s.imm.value, k).Some? then Visible(Find(s.imm.value, k).value)
    else
      var e := GetFromLevels(s.disk, ViewOf(s), 0, k);
      if e.Some? then Visible(e.value) else None
  }

  // ---------------------------------------------------------------- closing and opening

  function WriteSnapshot(s: State): State
    requires |s.version.levels| == MaxLevel
  {
    s.(manifest := SnapshotLines(s.version.levels, s.version.nextFile))
  }

  function AllNumbers(levels: Levels): seq<nat> {
    if levels == [] then [] else AllNumbers(levels[..|levels| - 1]) + NumberList(levels[|levels| - 1])
  }

  // The readers that opening gives to these files: one for each that is on disk.
  function Opened(numbers: seq<nat>, disk: Disk): seq<nat> {
    if numbers == [] then [] else
      var n := numbers[|numbers| - 1];
      var rest := Opened(numbers[..|numbers| - 1], disk);
      if n in rest || n !in disk then rest else rest + [n]
  }

  // MarkFileNumberUsed for each of them.
  function AfterUsed(next: nat, numbers: seq<nat>): nat {
    if numbers == [] then next else
      var m := AfterUsed(next, numbers[..|numbers| - 1]);
      if numbers[|numbers| - 1] >= m then numbers[|numbers| - 1] + 1 else m
  }

  // GarbageCollectSSTablesOnStartupUnlocked: only the files of the version stay.
  function LiveFiles(disk: Disk, live: seq<nat>): Disk {
    map n | n in disk && n in live :: disk[n]
  }

  // A table file as the directory lists it.
  datatype DirEntry = DirEntry(number: nat, size: nat)

  // The directory lists every table file once; in which order is up to the file names.
  ghost predicate Lists(dir: seq<DirEntry>, disk: Disk) {
    && (forall i, j :: 0 <= i < j < |dir| ==> dir[i].number != dir[j].number)
    && (forall e :: e in dir ==> e.number in disk)
    && (forall n :: n in disk ==> exists e :: e in dir && e.number == n)
  }

  // LoadExistingSSTables where the version names no file: every table file is added to level 0.
  function Scan(v: VersionState, disk: Disk, dir: seq<DirEntry>): (w: VersionState)
    requires |v.levels| == MaxLevel
    ensures |w.levels| == MaxLevel
  {
    if dir == [] then v else
      var e := dir[|dir| - 1];
      ApplyEdit(Scan(v, disk, dir[..|dir| - 1]), Edit([(0, MetaOf(e.number, e.size, Content(disk, e.number)))], []))
  }

  function DirNumbers(dir: seq<DirEntry>): seq<nat> {
    if dir == [] then [] else DirNumbers(dir[..|dir| - 1]) + [dir[|dir| - 1].number]
  }

  // A new process over the same directory: as much of the manifest as can be read, or else the table files that are
  // there, then the records the log gives.
  function Restart(s: State, records: seq<Record>, dir: seq<DirEntry>): State {
    var v := Manifest.RecoverText(Manifest.PrintAll(s.manifest));
    var base := Init(s.target).(mem := Replay(records), ttl := TouchAll(map[], records), wal := records);
    if HasFile(v.levels) then
      var live := AllNumbers(v.levels);
      var readers := Opened(live, s.disk);
      base.(version := v.(nextFile := AfterUsed(v.nextFile, readers)), readers := readers,
      disk := LiveFiles(s.disk, live), manifest := s.manifest)
    else
      var w := Scan(v, s.disk, dir);
      base.(version := w, readers := DirNumbers(dir), disk := s.disk,
      manifest := if HasFile(w.levels) then SnapshotLines(w.levels, w.nextFile) else s.manifest)
  }

  // The same when every line of the manifest is read and the directory need not be scanned.
  function Reopen(s: State): State {
    var v := Recover(s.manifest);
    var live := AllNumbers(v.levels);
    Init(s.target).(
    mem := Replay(s.wal), version := v, readers := live, ttl := TouchAll(map[], s.wal),
    disk := LiveFiles(s.disk, live), wal := s.wal, manifest := s.manifest)
  }

  // ---------------------------------------------------------------- actions

  datatype Action =
    | DoPut(r: Record)
    | DoLogBatch(ops: seq<Record>)
    | DoApplyFromBatch(i: nat)
    | DoSetTtl(measurement: Bytes, seconds: int)
    | DoSeal
    | DoBeginFlush
    | DoBuildFlush(size: nat)
    | DoCommitFlush
    | DoPick(force: bool)
    | DoMerge
    | DoEmit(size: nat)
    | DoCommitJob(cleanup: bool)
    | DoCleanup
    | DoTryDelete
    | DoCapture
    | DoRelease(v: nat)
    | DoWriteSnapshot
    | DoReopen

  ghost predicate Enabled(s: State, a: Action)
    requires |s.version.levels| == MaxLevel
  {
    match a
    case DoPut(_) => true
    case DoLogBatch(ops) => ops != []
    case DoApplyFromBatch(i) => i < |s.batches| && s.batches[i] != []
    case DoSetTtl(_, _) => true
    case DoSeal => s.imm.None? && s.flush.NoFlush?
    case DoBeginFlush => s.imm.Some? && s.flush.NoFlush?
    case DoBuildFlush(_) => s.flush.Begun?
    case DoCommitFlush => s.flush.Built?
    case DoPick(force) => PickJob(s, force).Some?
    case DoMerge => s.progress.Picked?
    case DoEmit(_) => s.progress.Merging? && s.progress.begin < |s.progress.merged|
    case DoCommitJob(_) => s.progress.Merging? && s.progress.begin == |s.progress.merged|
    case DoCleanup => true
    case DoTryDelete => true
    case DoCapture => true
    case DoRelease(v) => v < |s.views|
    case DoWriteSnapshot => true
    // Opening reads the manifest to its end and the log as it was written, and does not scan the directory.
    case DoReopen =>
      && Manifest.Printable(s.manifest) && Wal.AllLoggable(s.wal)
      && (s.disk == map[] || HasFile(s.version.levels))
  }

  function Next(s: State, a: Action): State
    requires |s.version.levels| == MaxLevel
    requires Enabled(s, a)
  {
    match a
    case DoPut(r) => Put(s, r)
    case DoLogBatch(ops) => LogBatch(s, ops)
    case DoApplyFromBatch(i) => ApplyFromBatch(s, i)
    case DoSetTtl(m, seconds) => s.(ttl := SetTtl(s.ttl, m, seconds))
    case DoSeal => Seal(s)
    case DoBeginFlush => BeginFlush(s)
    case DoBuildFlush(size) => BuildFlush(s, size)
    case DoCommitFlush => CommitFlush(s)
    case DoPick(force) => StartJob(s, PickJob(s, force).value)
    case DoMerge => MergeJob(s)
    case DoEmit(size) => EmitOutput(s, size)
    case DoCommitJob(cleanup) => CommitJob(s, cleanup)
    case DoCleanup => Cleanup(s)
    case DoTryDelete => TryDelete(s)
    case DoCapture => s.(views := s.views + [ViewOf(s)])
    case DoRelease(v) => s.(views := s.views[..v] + s.views[v + 1..])
    case DoWriteSnapshot => WriteSnapshot(s)
    case DoReopen => Reopen(s)
  }
}
