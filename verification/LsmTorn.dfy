// A crash while the lines of an edit are being appended to the manifest. LogAndApply writes the deletions first
// (src/version.cpp:79-100), so a manifest that ends between them and the additions names neither the inputs of a
// compaction nor all of its outputs, and the start-up collection removes both.
module LsmTorn {
  import opened Types
  import opened Subsequence
  import opened Version
  import opened RankedMerge
  import opened Lsm
  import opened LsmInvariant
  import opened LsmSteps
  import opened LsmCommits
  import opened LsmRetire
  import opened LsmMerge
  import opened LsmHistory
  import opened LsmReads
  import opened LsmRuns
  import opened LsmRecovery
  import opened LsmRestart
  import opened LsmRestartRuns
  import Manifest
  import ManifestTorn
  import Text
  import Wal

  // ---------------------------------------------------------------- the part of an edit in its first lines

  function CutEdit(e: Edit, j: nat): Edit {
    var d, a := |e.deleted|, |e.added|;
    if j <= d then Edit([], e.deleted[..j])
    else if j <= d + a then Edit(e.added[..j - d], e.deleted)
    else e
  }

  lemma {:induction false} DelLinesPrefix(ds: seq<(int, nat)>, j: nat)
    requires j <= |ds|
    ensures |DelLines(ds)| == |ds| && DelLines(ds)[..j] == DelLines(ds[..j])
  {
    if ds != [] {
      var n := |ds| - 1;
      DelLinesPrefix(ds[..n], if j <= n then j else n);
      if j <= n {
        assert ds[..n][..j] == ds[..j];
      } else {
        assert ds[..j] == ds;
      }
    }
  }

  lemma {:induction false} AddLinesPrefix(adds: seq<(int, FileMeta)>, j: nat)
    requires j <= |adds|
    ensures |AddLines(adds)| == |adds| && AddLines(adds)[..j] == AddLines(adds[..j])
  {
    if adds != [] {
      var n := |adds| - 1;
      AddLinesPrefix(adds[..n], if j <= n then j else n);
      if j <= n {
        assert adds[..n][..j] == adds[..j];
      } else {
        assert adds[..j] == adds;
      }
    }
  }

  // The first lines of an edit are the lines of the part, up to the next file number at the end.
  lemma {:induction false} CutLines(e: Edit, next: nat, j: nat)
    requires j <= |e.deleted| + |e.added| + 1
    ensures |EditLines(e, next)| == |e.deleted| + |e.added| + 1
    ensures var c := CutEdit(e, j);
            EditLines(e, next)[..j] == DelLines(c.deleted) + AddLines(c.added)
                                       + (if j > |e.deleted| + |e.added| then [LineNext(next)] else [])
  {
    hide DelLines, AddLines;
    var d, a := |e.deleted|, |e.added|;
    var dels, adds := DelLines(e.deleted), AddLines(e.added);
    DelLinesPrefix(e.deleted, if j <= d then j else d);
    AddLinesPrefix(e.added, if d < j <= d + a then j - d else a);
    AddLinesPrefix([], 0);
    if j <= d {
      assert EditLines(e, next)[..j] == dels[..j] + [] + [];
      assert AddLines([]) == [];
    } else if j <= d + a {
      assert EditLines(e, next)[..j] == dels + adds[..j - d] + [];
    }
  }

  // The manifest when its last edit was cut after j lines.
  function CutManifest(s: State, e: Edit, j: nat): seq<ManifestLine>
    requires j <= |EditLines(e, s.version.nextFile)|
  {
    s.manifest + EditLines(e, s.version.nextFile)[..j]
  }

  lemma {:induction false} ReadPart(v: VersionState, c: Edit, bound: nat)
    requires |v.levels| == MaxLevel && LevelsSorted(v.levels)
    ensures var r := ReadLines(v, DelLines(c.deleted) + AddLines(c.added));
            && r.levels == ApplyEdit(v, c).levels && v.nextFile <= r.nextFile
            && (forall a :: a in c.added ==> a.1.number < r.nextFile)
            && (v.nextFile <= bound && (forall a :: a in c.added ==> a.1.number < bound) ==> r.nextFile <= bound)
  {
    hide ReadLines, DelLines, AddLines, ApplyDeletes, ApplyAdds, LevelsSorted, SortLevels;
    ReadLinesConcat(v, DelLines(c.deleted), AddLines(c.added));
    ReadDelLines(v, c.deleted);
    ReadAddLines(ReadLines(v, DelLines(c.deleted)), c.added, bound);
  }

  // Recovery of the cut manifest gives the levels with that part of the edit applied.
  lemma {:induction false} CutRecovers(s: State, e: Edit, j: nat)
    requires |s.version.levels| == MaxLevel && ManifestOk(s) && LevelsSorted(s.version.levels)
    requires j <= |e.deleted| + |e.added| + 1 && forall a :: a in e.added ==> a.1.number < s.version.nextFile
    ensures |EditLines(e, s.version.nextFile)| == |e.deleted| + |e.added| + 1
    ensures var r, c := Recover(CutManifest(s, e, j)), CutEdit(e, j);
            && r.levels == ApplyEdit(s.version, c).levels
            && Recover(s.manifest).nextFile <= r.nextFile <= s.version.nextFile
            && forall a :: a in c.added ==> a.1.number < r.nextFile
  {
    hide ReadLines, DelLines, AddLines, EditLines, ApplyEdit, LevelsSorted, Live;
    var v, next := VersionState(EmptyLevels(), 1, []), s.version.nextFile;
    var w, c := ReadLines(v, s.manifest), CutEdit(e, j);
    CutLines(e, next, j);
    var part := DelLines(c.deleted) + AddLines(c.added);
    assert forall a :: a in c.added ==> a in e.added;
    ReadPart(w, c, next);
    ApplyEditSameLevels(w, s.version, c);
    if j > |e.deleted| + |e.added| {
      ReadLinesConcat(v, s.manifest, part + [LineNext(next)]);
      ReadLinesConcat(w, part, [LineNext(next)]);
      OneMoreLine(ReadLines(w, part), next);
    } else {
      assert part + [] == part;
      ReadLinesConcat(v, s.manifest, part);
    }
  }

  lemma {:induction false} OneMoreLine(w: VersionState, next: nat)
    requires |w.levels| == MaxLevel
    ensures ReadLines(w, [LineNext(next)]) == w.(nextFile := if next > w.nextFile then next else w.nextFile)
  {
    SingletonPrefix(LineNext(next));
    assert ReadLines(w, []) == w;
  }

  // A cut inside the next line, before its last number, reads as the cut in front of that line; a cut after the whole
  // line, as the cut behind it.
  lemma {:induction false} TornLineReadsAsCut(s: State, e: Edit, j: nat, n: nat)
    requires j < |EditLines(e, s.version.nextFile)| && Manifest.Printable(CutManifest(s, e, j + 1))
    requires n <= |Manifest.Print(EditLines(e, s.version.nextFile)[j])|
    ensures var line := EditLines(e, s.version.nextFile)[j];
            var text := Manifest.PrintAll(CutManifest(s, e, j)) + Manifest.Print(line)[..n];
            var levels := Manifest.RecoverText(text).levels;
            && (n + |ManifestTorn.LastNumber(line)| <= |Manifest.Print(line)|
                ==> levels == Recover(CutManifest(s, e, j)).levels)
            && (n == |Manifest.Print(line)| ==> levels == Recover(CutManifest(s, e, j + 1)).levels)
  {
    hide EditLines, Recover, Manifest.Print, Manifest.PrintAll, Manifest.RecoverText, Manifest.InWidth,
         Manifest.Readable, ManifestTorn.LastNumber;
    var lines := EditLines(e, s.version.nextFile);
    assert lines[..j + 1] == lines[..j] + [lines[j]];
    assert CutManifest(s, e, j + 1) == CutManifest(s, e, j) + [lines[j]];
    assert forall x :: x in CutManifest(s, e, j) ==> x in CutManifest(s, e, j + 1);
    assert lines[j] in CutManifest(s, e, j + 1);
    ManifestTorn.CutLineReads(CutManifest(s, e, j), lines[j], n);
  }

  // ---------------------------------------------------------------- which cuts are clean

  lemma {:induction false} EditMembers(v: VersionState, e: Edit, l: nat, f: FileMeta)
    requires |v.levels| == MaxLevel && l < MaxLevel
    ensures f in ApplyEdit(v, e).levels[l]
            <==> (f in v.levels[l] && f.number !in DeletedAt(e.deleted, l)) || f in AddedAt(e.added, l)
  {
    hide ApplyEdit, SortByNumber, FilterOut, AddedAt;
    ApplyEditLevels(v, e);
    FilterOutMembers(v.levels[l], DeletedAt(e.deleted, l));
    SortNonDescending(FilterOut(v.levels[l], DeletedAt(e.deleted, l)) + AddedAt(e.added, l));
  }

  // Deletions of files that are there, each once; additions of files with numbers of their own, each once.
  ghost predicate Exact(v: VersionState, e: Edit)
    requires |v.levels| == MaxLevel
  {
    && (forall d :: d in e.deleted ==> InRange(d.0) && HasNumber(v.levels[d.0], d.1))
    && (forall i, j :: 0 <= i < j < |e.deleted| ==> e.deleted[i] != e.deleted[j])
    && (forall a :: a in e.added ==> InRange(a.0) && a.1.number !in Live(v.levels))
    && (forall i, j :: 0 <= i < j < |e.added| ==> e.added[i].1 != e.added[j].1)
  }

  // A file that deletion i takes away.
  lemma {:induction false} DeletedFile(v: VersionState, e: Edit, i: nat) returns (f: FileMeta)
    requires |v.levels| == MaxLevel && Exact(v, e) && i < |e.deleted|
    ensures InRange(e.deleted[i].0) && f in v.levels[e.deleted[i].0] && f.number == e.deleted[i].1
    ensures f.number in Live(v.levels)
  {
    hide Live;
    var d := e.deleted[i];
    assert d in e.deleted;
    f :| f in v.levels[d.0] && f.number == d.1;
    LiveMember(v.levels, d.0, f);
  }

  lemma {:induction false} LiveMember(levels: Levels, l: nat, f: FileMeta)
    requires l < |levels| && f in levels[l]
    ensures f.number in Live(levels)
  {
  }

  lemma {:induction false} NotAdded(v: VersionState, adds: seq<(int, FileMeta)>, l: nat, f: FileMeta)
    requires f.number in Live(v.levels) && forall a :: a in adds ==> a.1.number !in Live(v.levels)
    ensures f !in AddedAt(adds, l)
  {
    hide Live, AddedAt;
    if f in AddedAt(adds, l) {
      AddedAtMember(adds, l, f);
      assert false;
    }
  }

  // Any part that is not nothing changes the levels.
  lemma {:induction false} SomePartShows(v: VersionState, e: Edit, j: nat)
    requires |v.levels| == MaxLevel && Exact(v, e) && 0 < j <= |e.deleted| + |e.added|
    ensures ApplyEdit(v, CutEdit(e, j)).levels != v.levels
  {
    hide ApplyEdit, Live, AddedAt;
    var c := CutEdit(e, j);
    assert forall a :: a in c.added ==> a in e.added;
    if e.deleted != [] {
      var f := DeletedFile(v, e, 0);
      var l := e.deleted[0].0;
      assert c.deleted[0] == e.deleted[0] && e.deleted[0] in c.deleted;
      NotAdded(v, c.added, l, f);
      EditMembers(v, c, l, f);
    } else {
      var a := e.added[0];
      assert c.added[0] == a && a in c.added;
      Manifest.MemberAddedAt(c.added, a);
      EditMembers(v, c, a.0, a.1);
      if a.1 in v.levels[a.0] {
        LiveMember(v.levels, a.0, a.1);
        assert false;
      }
    }
  }

  // Any part that is not the whole falls short of it.
  lemma {:induction false} SomePartMissing(v: VersionState, e: Edit, j: nat)
    requires |v.levels| == MaxLevel && Exact(v, e) && j < |e.deleted| + |e.added|
    ensures ApplyEdit(v, CutEdit(e, j)).levels != ApplyEdit(v, e).levels
  {
    hide ApplyEdit, Live, AddedAt;
    var c := CutEdit(e, j);
    if j < |e.deleted| {
      var d := e.deleted[j];
      var f := DeletedFile(v, e, j);
      assert d in e.deleted;
      forall x | x in c.deleted ensures x != d {
        var i :| 0 <= i < j && e.deleted[i] == x;
      }
      EditMembers(v, c, d.0, f);
      EditMembers(v, e, d.0, f);
      NotAdded(v, e.added, d.0, f);
    } else {
      var a := e.added[|e.added| - 1];
      Manifest.MemberAddedAt(e.added, a);
      EditMembers(v, e, a.0, a.1);
      EditMembers(v, c, a.0, a.1);
      forall x | x in c.added ensures x.1 != a.1 {
        var i :| 0 <= i < j - |e.deleted| && e.added[i] == x;
      }
      if a.1 in AddedAt(c.added, a.0) {
        AddedAtMember(c.added, a.0, a.1);
        assert false;
      }
      if a.1 in v.levels[a.0] {
        LiveMember(v.levels, a.0, a.1);
        assert false;
      }
    }
  }

  // A cut leaves the levels before the edit or those after it exactly when no line of it, or every deletion and every
  // addition, was written.
  lemma {:induction false} CutIsCleanExactlyWhen(v: VersionState, e: Edit, j: nat)
    requires |v.levels| == MaxLevel && LevelsSorted(v.levels) && Exact(v, e)
    ensures var levels := ApplyEdit(v, CutEdit(e, j)).levels;
            levels == v.levels || levels == ApplyEdit(v, e).levels <==> j == 0 || j >= |e.deleted| + |e.added|
  {
    hide ApplyEdit, Exact, LevelsSorted;
    if j == 0 {
      NothingApplied(v, e);
    } else if j >= |e.deleted| + |e.added| {
      assert e.added[..|e.added|] == e.added && e.deleted[..|e.deleted|] == e.deleted;
      assert CutEdit(e, j) == e;
    } else {
      SomePartShows(v, e, j);
      SomePartMissing(v, e, j);
    }
  }

  lemma {:induction false} NothingApplied(v: VersionState, e: Edit)
    requires |v.levels| == MaxLevel && LevelsSorted(v.levels)
    ensures ApplyEdit(v, CutEdit(e, 0)).levels == v.levels
  {
    hide LevelsSorted, SortLevels;
    assert CutEdit(e, 0) == Edit([], []);
    SortLevelsIdentity(v.levels);
  }

  // ---------------------------------------------------------------- the edits of the engine

  lemma {:induction false} FlushEditIsExact(s: State)
    requires Inv(s) && s.flush.Built?
    ensures |s.version.levels| == MaxLevel && LevelsSorted(s.version.levels)
    ensures Exact(s.version, Edit([(0, s.flush.meta)], [])) && s.flush.meta.number < s.version.nextFile
  {
    hide ProgressOk, ManifestOk, MemoryOk, Live;
    LevelsAreSorted(s.version.levels, s.disk, s.version.nextFile);
    assert s.flush.meta.number in Reserved(s);
  }

  lemma {:induction false} JobInputsOnce(s: State)
    requires Inv(s) && s.progress.Merging?
    ensures InputsValid(s.version.levels, s.progress.job.inputs)
    ensures forall i, j :: 0 <= i < j < |s.progress.job.inputs| ==>
                             s.progress.job.inputs[i].meta.number != s.progress.job.inputs[j].meta.number
  {
    hide ManifestOk, MemoryOk, FlushOk, FilesOk, LevelsOk, JobShape, OutputsOk, InstallJob, Live, InputsValid;
    var T, S :| JobShape(s.version.levels, s.progress.job, T, S);
    CommitLists(s, T, S);
    InputsStayValid(s);
    InputListIs(s.progress.job.inputs);
  }

  lemma {:induction false} JobOutputsNew(s: State)
    requires Inv(s) && s.progress.Merging?
    ensures Ascending(s.progress.outputs) && 1 <= s.progress.job.outputLevel < MaxLevel
    ensures forall f :: f in s.progress.outputs ==>
                          f.number < s.version.nextFile && f.number !in Live(s.version.levels)
  {
    hide ManifestOk, MemoryOk, FlushOk, LevelsOk, Live, MetaOk, Tiles, Merge, RankInputs, Ascending;
    assert forall f :: f in s.progress.outputs ==> f.number in Reserved(s);
    var T, S :| JobShape(s.version.levels, s.progress.job, T, S);
  }

  lemma {:induction false} LevelsInOrder(s: State)
    requires Inv(s)
    ensures |s.version.levels| == MaxLevel && LevelsSorted(s.version.levels)
  {
    hide ManifestOk, MemoryOk, FlushOk, FilesOk, ProgressOk;
    LevelsAreSorted(s.version.levels, s.disk, s.version.nextFile);
  }

  lemma {:induction false} JobEditIsExact(s: State)
    requires Inv(s) && s.progress.Merging?
    ensures |s.version.levels| == MaxLevel && LevelsSorted(s.version.levels)
    ensures Exact(s.version, JobEdit(s.progress))
    ensures forall a :: a in JobEdit(s.progress).added ==> a.1.number < s.version.nextFile
  {
    hide Inv, Live, LevelsSorted, HasNumber;
    LevelsInOrder(s);
    JobInputsOnce(s);
    JobOutputsNew(s);
    var p, e := s.progress, JobEdit(s.progress);
    forall d | d in e.deleted ensures InRange(d.0) && HasNumber(s.version.levels[d.0], d.1) {
      var i :| 0 <= i < |e.deleted| && e.deleted[i] == d;
      assert p.job.inputs[i] in p.job.inputs;
    }
    forall a | a in e.added ensures a.1 in p.outputs && InRange(a.0) {
    }
  }

  lemma {:induction false} InputListIs(inputs: seq<Input>)
    ensures |InputList(inputs)| == |inputs|
    ensures forall i :: 0 <= i < |inputs| ==> InputList(inputs)[i] == inputs[i].meta.number
  {
    if inputs != [] {
      InputListIs(inputs[..|inputs| - 1]);
    }
  }

  // A compaction's edit, cut after j lines, recovers as the version before the commit or the one after it exactly when
  // no line, or every deletion and addition, was written.
  lemma {:induction false} TornJobIsCleanExactlyWhen(s: State, h: History, j: nat)
    requires Reachable(s, h) && s.progress.Merging? && |s.version.levels| == MaxLevel
    requires j <= |s.progress.job.inputs| + |s.progress.outputs| + 1
    ensures |EditLines(JobEdit(s.progress), s.version.nextFile)| == |s.progress.job.inputs| + |s.progress.outputs| + 1
    ensures var levels := Recover(CutManifest(s, JobEdit(s.progress), j)).levels;
            levels == s.version.levels || levels == InstallJob(s).version.levels
            <==> j == 0 || j >= |s.progress.job.inputs| + |s.progress.outputs|
  {
    hide Inv, Reachable, Good, Recover, CutManifest, LevelsSorted, Exact, EditLines, ApplyEdit, Deletions, Additions;
    ReachableIsGood(s, h);
    JobEditIsExact(s);
    ManifestIsVersion(s);
    CutRecovers(s, JobEdit(s.progress), j);
    CutIsCleanExactlyWhen(s.version, JobEdit(s.progress), j);
  }

  lemma {:induction false} ManifestIsVersion(s: State)
    requires Inv(s)
    ensures ManifestOk(s)
  {
    hide LevelsOk, ProgressOk, FlushOk, ManifestOk, FilesOk;
  }

  // ---------------------------------------------------------------- a clean cut loses nothing

  lemma {:induction false} OtherManifest(x: State, manifest: seq<ManifestLine>)
    requires Inv(x) && ManifestOk(x.(manifest := manifest))
    ensures Inv(x.(manifest := manifest))
  {
    hide LevelsOk, LifeCycle, ManifestOk, JobOk, OutputsOk;
    var y := x.(manifest := manifest);
    assert Reserved(y) == Reserved(x);
    SameProgress(x, y);
  }

  lemma {:induction false} SameProgress(x: State, y: State)
    requires |x.version.levels| == MaxLevel && ProgressOk(x)
    requires y.progress == x.progress && y.compacting == x.compacting && y.version == x.version && y.disk == x.disk
    ensures ProgressOk(y)
  {
  }

  // The next process reads the same from these states.
  lemma {:induction false} SameBytes(c: State, x: State, dir: seq<DirEntry>)
    requires x.manifest == c.manifest && x.wal == c.wal && x.disk == c.disk && x.target == c.target
    ensures FromDisk(c, dir) == FromDisk(x, dir)
  {
    hide Replay, TouchAll, Scan, Opened, AfterUsed, LiveFiles, AllNumbers, Manifest.RecoverText, Manifest.PrintAll,
         Wal.Replay, Wal.LogOf, HasFile, SnapshotLines, DirNumbers;
  }

  // The state of a process whose job is committed, but whose manifest ends after j lines of its edit.
  function Installed(s: State, j: nat): State
    requires s.progress.Merging? && |s.version.levels| == MaxLevel
    requires j <= |EditLines(JobEdit(s.progress), s.version.nextFile)|
  {
    FinishJob(InstallJob(s), s.progress.job).(manifest := CutManifest(s, JobEdit(s.progress), j))
  }

  lemma {:induction false} InstalledOk(s: State, j: nat)
    requires Inv(s) && s.progress.Merging? && |s.version.levels| == MaxLevel
    requires |s.progress.job.inputs| + |s.progress.outputs| <= j
             <= |EditLines(JobEdit(s.progress), s.version.nextFile)|
    ensures Inv(Installed(s, j))
    ensures Recover(CutManifest(s, JobEdit(s.progress), j)).levels == InstallJob(s).version.levels
  {
    hide LevelsOk, MemoryOk, FlushOk, ProgressOk, FilesOk, Recover, CutManifest, LevelsSorted, Exact, EditLines,
         ApplyEdit, Deletions, Additions, Live;
    var e := JobEdit(s.progress);
    JobEditIsExact(s);
    CutLines(e, s.version.nextFile, 0);
    CutRecovers(s, e, j);
    assert e.added[..|e.added|] == e.added && CutEdit(e, j) == e;
    InstallKeepsInv(s);
    InstalledNumbers(s);
    OtherManifest(FinishJob(InstallJob(s), s.progress.job), CutManifest(s, e, j));
  }

  lemma {:induction false} InstalledNumbers(s: State)
    requires Inv(s) && s.progress.Merging? && |s.version.levels| == MaxLevel
    ensures InstallJob(s).version.nextFile == s.version.nextFile
    ensures forall n :: n in Live(InstallJob(s).version.levels) ==>
                          n in Live(s.version.levels) || exists a :: a in JobEdit(s.progress).added && a.1.number == n
  {
    hide LevelsOk, MemoryOk, FlushOk, FilesOk, ManifestOk, InstallJob, OutputsOk, JobShape, JobInstalled, Live;
    var T, S :| JobShape(s.version.levels, s.progress.job, T, S);
    CommitKeepsLevels(s, T, S);
    CommitKeepsManifest(s);
    forall n | n in Numbers(s.progress.outputs)
      ensures exists a :: a in JobEdit(s.progress).added && a.1.number == n
    {
      var f :| f in s.progress.outputs && f.number == n;
      var i :| 0 <= i < |s.progress.outputs| && s.progress.outputs[i] == f;
      assert JobEdit(s.progress).added[i].1 == f;
    }
  }

  // Replaced by its outputs, the job leaves the newest copy of every key it keeps.
  lemma {:induction false} InstalledCopies(s: State, j: nat, k: TsKey)
    requires Inv(s) && s.progress.Merging? && s.progress.begin == |s.progress.merged| && |s.version.levels| == MaxLevel
    requires j <= |EditLines(JobEdit(s.progress), s.version.nextFile)| && Kept(s.progress.ttl, k)
    ensures LastOf(LoggedCopies(Installed(s, j), k)) == LastOf(LoggedCopies(s, k))
    ensures LogAgrees(Installed(s, j), k) <==> LogAgrees(s, k)
  {
    hide Inv, CopiesIn, DeepCopies, LastOf, Flatten, MemoryCopies, InstallJob, Kept, BlockShrinks, EditLines,
         CutManifest;
    InstallJobFields(s);
    InstallShrinks(s, k);
    var x := Installed(s, j);
    SameTablesSameMemory(s, x, k);
    var rest := MemoryCopies(s, k) + CopiesIn(Flatten(s.batches), k);
    var before, after := DeepCopies(s.disk, s.version.levels, 0, k), DeepCopies(s.disk, x.version.levels, 0, k);
    ShrinkKeeps(before, after, true, rest, []);
    assert LoggedCopies(s, k) == before + rest;
    assert LoggedCopies(x, k) == after + rest;
  }

  // A crash while a compaction's edit is being written, at a clean cut: as long as the next process finds a file in the
  // manifest, it finds every key that the job keeps as it was.
  lemma {:induction false} TornJobLosesNothing(s: State, h: History, j: nat, dir: seq<DirEntry>, k: TsKey)
    requires Reachable(s, h) && s.progress.Merging? && s.progress.begin == |s.progress.merged|
    requires |s.version.levels| == MaxLevel && j <= |EditLines(JobEdit(s.progress), s.version.nextFile)|
    requires j == 0 || |s.progress.job.inputs| + |s.progress.outputs| <= j
    requires var c := s.(manifest := CutManifest(s, JobEdit(s.progress), j));
             Manifest.Printable(c.manifest) && NamesFile(c.manifest) && Wal.AllLoggable(s.wal)
    requires Lists(dir, s.disk) && k !in h.stale && Kept(s.progress.ttl, k)
    ensures var c := s.(manifest := CutManifest(s, JobEdit(s.progress), j));
            LastOf(Copies(FromDisk(c, dir), k)) == LastOf(LoggedCopies(s, k))
  {
    hide Inv, Reachable, InWriteOrder, HoldsLastWrites, LogFollows, JobSpares, SnapshotCovered, CopiesIn, LastOf,
         LoggedCopies, Copies, LogAgrees, FromDisk, Lists, EditLines, CutManifest, Kept, Manifest.Printable, NamesFile,
         Wal.AllLoggable, HasFile, FinishJob, InstallJob, JobEdit, Recover;
    ReachableIsGood(s, h);
    var c := s.(manifest := CutManifest(s, JobEdit(s.progress), j));
    if j == 0 {
      NoLines(s, JobEdit(s.progress));
      NamedMeansFile(s);
      CrashLosesNothing(s, h, dir, k);
    } else {
      var x := Installed(s, j);
      InstalledOk(s, j);
      InstalledFields(s, j);
      NamedMeansFile(x);
      SameBytes(c, x, dir);
      FromDiskIsReopen(x, dir);
      InstalledCopies(s, j, k);
      ReopenRestores(x, k);
    }
  }

  lemma {:induction false} NoLines(s: State, e: Edit)
    ensures CutManifest(s, e, 0) == s.manifest
  {
    hide EditLines;
  }

  lemma {:induction false} InstalledFields(s: State, j: nat)
    requires s.progress.Merging? && |s.version.levels| == MaxLevel
    requires j <= |EditLines(JobEdit(s.progress), s.version.nextFile)|
    ensures var x := Installed(s, j);
            && x.manifest == CutManifest(s, JobEdit(s.progress), j) && x.wal == s.wal && x.disk == s.disk
            && x.target == s.target && |x.version.levels| == MaxLevel
  {
    hide EditLines, CutManifest, InputNumbers;
    InstallJobFields(s);
  }

  // ---------------------------------------------------------------- a flush's edit is always cut cleanly

  function FlushEdit(s: State): Edit
    requires s.flush.Built?
  {
    Edit([(0, s.flush.meta)], [])
  }

  // The state between the commit of a flush and the rotation, when the manifest ends after j lines of its edit.
  function FlushLogged(s: State, j: nat): State
    requires s.flush.Built? && |s.version.levels| == MaxLevel && j <= |EditLines(FlushEdit(s), s.version.nextFile)|
  {
    MidCommit(s).(manifest := CutManifest(s, FlushEdit(s), j))
  }

  lemma {:induction false} FlushLoggedOk(s: State, j: nat)
    requires Inv(s) && s.flush.Built? && |s.version.levels| == MaxLevel
    requires 1 <= j <= |EditLines(FlushEdit(s), s.version.nextFile)|
    ensures Inv(FlushLogged(s, j))
    ensures var x, y := FlushLogged(s, j), MidCommit(s);
            && |x.version.levels| == MaxLevel && HasFile(x.version.levels)
            && x.manifest == CutManifest(s, FlushEdit(s), j) && x.wal == s.wal && x.disk == s.disk
            && x.target == s.target && x.version.levels == y.version.levels
  {
    hide LevelsOk, MemoryOk, FlushOk, ProgressOk, FilesOk, Recover, CutManifest, LevelsSorted, Exact, EditLines,
         ApplyEdit, Live;
    var e := FlushEdit(s);
    FlushEditIsExact(s);
    CutLines(e, s.version.nextFile, 0);
    CutRecovers(s, e, j);
    assert e.added[..1] == e.added && CutEdit(e, j) == e;
    MidCommitOk(s);
    FlushedLevels(s);
    OtherManifest(MidCommit(s), CutManifest(s, e, j));
  }

  lemma {:induction false} FlushedLevels(s: State)
    requires Inv(s) && s.flush.Built? && |s.version.levels| == MaxLevel
    ensures var v := MidCommit(s).version;
            && v == ApplyEdit(s.version, FlushEdit(s)) && HasFile(v.levels) && v.nextFile == s.version.nextFile
            && MidCommit(s).disk == s.disk && MidCommit(s).target == s.target
            && forall n :: n in Live(v.levels) ==> n in Live(s.version.levels) || n == s.flush.meta.number
  {
    hide ProgressOk, ManifestOk, FilesOk, EditLines, ApplyEdit, PairwiseDisjoint, NumbersUnique, MetaOk;
    FlushFacts(s);
    InstallFlushLevels(s);
    CommitFlushFields(s);
    var m, levels := s.flush.meta, s.version.levels;
    assert MidCommit(s).version.levels == levels[0 := levels[0] + [m]];
    assert MidCommit(s).version.levels[0] != [];
  }

  // Wherever a crash cuts the edit of a flush, the next process finds every key of the domain as it was.
  lemma {:induction false} TornFlushLosesNothing(s: State, h: History, j: nat, dir: seq<DirEntry>, k: TsKey)
    requires Reachable(s, h) && s.flush.Built? && |s.version.levels| == MaxLevel
    requires j <= |EditLines(FlushEdit(s), s.version.nextFile)|
    requires var c := s.(manifest := CutManifest(s, FlushEdit(s), j));
             Manifest.Printable(c.manifest) && NamesFile(c.manifest) && Wal.AllLoggable(s.wal)
    requires Lists(dir, s.disk) && k !in h.stale && InDomain(k)
    ensures var c := s.(manifest := CutManifest(s, FlushEdit(s), j));
            LastOf(Copies(FromDisk(c, dir), k)) == LastOf(LoggedCopies(s, k))
  {
    hide Inv, Reachable, InWriteOrder, HoldsLastWrites, LogFollows, JobSpares, SnapshotCovered, CopiesIn, LastOf,
         LoggedCopies, Copies, LogAgrees, FromDisk, Lists, EditLines, CutManifest, InDomain, Manifest.Printable,
         NamesFile, Wal.AllLoggable, HasFile, MidCommit, FlushEdit, Recover;
    ReachableIsGood(s, h);
    if j == 0 {
      NoLines(s, FlushEdit(s));
      NamedMeansFile(s);
      CrashLosesNothing(s, h, dir, k);
    } else {
      var c, x, y := s.(manifest := CutManifest(s, FlushEdit(s), j)), FlushLogged(s, j), MidCommit(s);
      FlushLoggedOk(s, j);
      SameBytes(c, x, dir);
      FromDiskIsReopen(x, dir);
      MidCommitRestores(s, k);
      SameReopenCopies(x, y, k);
    }
  }

  lemma {:induction false} SameReopenCopies(x: State, y: State, k: TsKey)
    requires Inv(x) && Inv(y) && x == y.(manifest := x.manifest)
    ensures Copies(Reopen(x), k) == Copies(Reopen(y), k)
  {
    hide Inv, CopiesIn, DeepCopies, Reopen, LastOf;
    ReopenCopies(x, k);
    ReopenCopies(y, k);
  }

  // ---------------------------------------------------------------- a cut that loses a record

  // The job over one level-0 file, merged and written, while a second file has been flushed beside it.
  lemma {:induction false} JobBesideFlush(r1: Record, r2: Record)
    returns (s: State, h: History, m1: FileMeta, m2: FileMeta)
    requires !Less(r1.key, ZeroKey) && !Less(r2.key, ZeroKey)
    ensures Reachable(s, h) && Inv(s) && s.progress.Merging? && s.progress.begin == |s.progress.merged| && Settled(s)
    ensures m1 == FileMeta(1, 0, r1.key, r1.key) && m2 == FileMeta(2, 0, r2.key, r2.key)
    ensures s.version.levels == EmptyLevels()[0 := [m1, m2]] && s.progress.job.inputs == [Input(0, m1)]
    ensures Content(s.disk, 1) == [r1] && Content(s.disk, 2) == [r2] && s.wal == []
    ensures s.manifest == EditLines(FileEdit(m1), 2) + EditLines(FileEdit(m2), 3)
    ensures s.ttl == Touch(Touch(map[], r1.key), r2.key)
  {
    hide Inv, Reachable, Touch, FromZeroKey, EditLines, MetaOf, Merge, RankInputs, Copies, Live, L0Job;
    InitReachable(0);
    InitIsQuiet(0);
    var s1, h1;
    s1, h1, m1 := FlushWrite(Init(0), NoHistory, r1);
    var s2, h2 := PickAlone(s1, h1);
    StepReachable(s2, h2, DoMerge);
    var s3 := MergeJob(s2);
    var s4, h4;
    s4, h4, m2 := FlushWrite(s3, h2, r2);
    MergingWithin(s4);
    s := EmitAll(s4, h4);
    h := h4;
    SoleFileMeta(1, r1);
    SoleFileMeta(2, r2);
    assert [] + [m1] == [m1];
    assert s1.version.levels == EmptyLevels()[0 := [m1]];
    OneFileJob(s1.version.levels, m1);
    assert m1 in s4.version.levels[0] && m2 in s4.version.levels[0];
    LiveMember(s4.version.levels, 0, m1);
    LiveMember(s4.version.levels, 0, m2);
    assert [m1] + [m2] == [m1, m2];
    assert s.version.levels[0] == [m1, m2];
  }

  function FileEdit(m: FileMeta): Edit {
    Edit([(0, m)], [])
  }

  lemma {:induction false} SoleFileMeta(n: nat, r: Record)
    requires !Less(r.key, ZeroKey)
    ensures FromZeroKey([r]) == [r] && MetaOf(n, 0, FromZeroKey([r])) == FileMeta(n, 0, r.key, r.key)
  {
    SingletonPrefix(r);
  }

  // The manifest cut after the deletion of the job's input names the other file alone.
  lemma {:induction false} OnlyOtherFile(s: State, m1: FileMeta, m2: FileMeta)
    requires Inv(s) && s.progress.Merging? && s.progress.job.inputs == [Input(0, m1)] && |s.version.levels| == MaxLevel
    requires s.version.levels == EmptyLevels()[0 := [m1, m2]] && m1.number == 1 && m2.number == 2
    ensures 1 <= |EditLines(JobEdit(s.progress), s.version.nextFile)|
    ensures EditLines(JobEdit(s.progress), s.version.nextFile)[..1] == [LineDel(0, 1)]
    ensures Recover(CutManifest(s, JobEdit(s.progress), 1)).levels == EmptyLevels()[0 := [m2]]
  {
    hide Inv, Recover, CutManifest, LevelsSorted, Exact, EditLines, ApplyEdit, Additions, SortByNumber, FilterOut;
    var e := JobEdit(s.progress);
    JobEditIsExact(s);
    ManifestIsVersion(s);
    CutRecovers(s, e, 1);
    CutLines(e, s.version.nextFile, 1);
    assert e.deleted == [(0, 1)] && CutEdit(e, 1) == Edit([], [(0, 1)]);
    SingletonPrefix((0 as int, 1 as nat));
    assert DelLines([(0, 1)]) == [LineDel(0, 1)] && AddLines([]) == [];
    ApplyEditLevels(s.version, Edit([], [(0, 1)]));
    forall l | 0 <= l < MaxLevel
      ensures ApplyEdit(s.version, Edit([], [(0, 1)])).levels[l] == EmptyLevels()[0 := [m2]][l]
    {
      var files := s.version.levels[l];
      SecondStays(m1, m2);
      assert DeletedAt([(0, 1)], l) == if l == 0 then {1} else {};
      NothingAdded(l);
      FilterOutNone(files, {});
      var left := EmptyLevels()[0 := [m2]][l];
      assert left + [] == left;
      SortIsIdentity(left);
    }
  }

  lemma {:induction false} SecondStays(m1: FileMeta, m2: FileMeta)
    requires m1.number == 1 && m2.number == 2
    ensures FilterOut([m1, m2], {1}) == [m2]
  {
    assert [m1, m2][..1] == [m1] && [m1][..0] == [];
    assert FilterOut([m1], {1}) == [];
  }

  // A crash after the first line of such a job's edit: a value that every read returned is gone, its file deleted.
  lemma {:induction false} TornJobLosesRecord(k: TsKey, v: Bytes, r2: Record) returns (s: State, h: History, c: State)
    requires !Less(k, ZeroKey) && Text.IsToken(k.measurement)
    requires !Less(r2.key, ZeroKey) && Text.IsToken(r2.key.measurement) && r2.key != k
    ensures Reachable(s, h) && s.progress.Merging? && s.progress.begin == |s.progress.merged|
    ensures |s.version.levels| == MaxLevel && Get(s, k) == Some(v)
    ensures 1 <= |EditLines(JobEdit(s.progress), s.version.nextFile)|
    ensures c == s.(manifest := CutManifest(s, JobEdit(s.progress), 1)) && Manifest.Printable(c.manifest)
    ensures forall dir :: |FromDisk(c, dir).version.levels| == MaxLevel && Get(FromDisk(c, dir), k) == None
                          && 1 !in FromDisk(c, dir).disk
  {
    hide Inv, Reachable, Get, CopiesIn, DeepCopies, FromZeroKey, EditLines, CutManifest, Recover, Manifest.Printable,
         JobEdit, Touch, Text.IsToken, FromDisk, ReadCopies, Less;
    var r1 := Record(k, Value(v));
    var m1, m2;
    s, h, m1, m2 := JobBesideFlush(r1, r2);
    SevenLevels(s);
    OnlyOtherFile(s, m1, m2);
    c := s.(manifest := CutManifest(s, JobEdit(s.progress), 1));
    TwoFilesRead(s, r1, r2);
    CutIsPrintable(s, m1, m2);
    forall dir
      ensures |FromDisk(c, dir).version.levels| == MaxLevel && Get(FromDisk(c, dir), k) == None
              && 1 !in FromDisk(c, dir).disk
    {
      OtherFileAlone(c, dir, m2);
      OneFileMisses(FromDisk(c, dir), m2, k);
    }
  }

  lemma {:induction false} TwoFilesRead(s: State, r1: Record, r2: Record)
    requires Inv(s) && Settled(s) && r1.key != r2.key && r1.entry.Value?
    requires var m1, m2 := FileMeta(1, 0, r1.key, r1.key), FileMeta(2, 0, r2.key, r2.key);
             s.version.levels == EmptyLevels()[0 := [m1, m2]]
    requires Content(s.disk, 1) == [r1] && Content(s.disk, 2) == [r2]
    requires s.ttl == Touch(Touch(map[], r1.key), r2.key)
    ensures Get(s, r1.key) == Some(r1.entry.value)
  {
    hide Inv, CopiesIn, Get;
    var k := r1.key;
    var m1, m2 := FileMeta(1, 0, r1.key, r1.key), FileMeta(2, 0, r2.key, r2.key);
    var levels := s.version.levels;
    NoDeepCopies(s.disk, levels, 1, k);
    LevelCopiesAppend(s.disk, [], m1, k);
    LevelCopiesAppend(s.disk, [m1], m2, k);
    NoLevelCopies(s.disk, k);
    assert [] + [m1] == [m1] && [m1] + [m2] == [m1, m2];
    CopiesOfSingleton(r1, k);
    CopiesOfSingleton(r2, k);
    assert DeepCopies(s.disk, levels, 0, k) == [] + ([] + [r1.entry] + []);
    NoCopies(k);
    assert ReadCopies(s, k) == [r1.entry];
    GetAnswersNewest(s, k);
  }

  lemma {:induction false} CutIsPrintable(s: State, m1: FileMeta, m2: FileMeta)
    requires s.progress.Merging? && 1 <= |EditLines(JobEdit(s.progress), s.version.nextFile)|
    requires EditLines(JobEdit(s.progress), s.version.nextFile)[..1] == [LineDel(0, 1)]
    requires s.manifest == EditLines(FileEdit(m1), 2) + EditLines(FileEdit(m2), 3)
    requires m1.number == 1 && m1.size == 0 && m2.number == 2 && m2.size == 0
    requires Manifest.Words(m1) && Manifest.Words(m2)
    ensures Manifest.Printable(CutManifest(s, JobEdit(s.progress), 1))
  {
    hide EditLines, JobEdit, Text.IsToken;
    OneAddLine(m1, 2);
    OneAddLine(m2, 3);
    assert CutManifest(s, JobEdit(s.progress), 1)
           == [LineAdd(0, m1), LineNext(2), LineAdd(0, m2), LineNext(3), LineDel(0, 1)];
  }

  lemma {:induction false} OtherFileAlone(c: State, dir: seq<DirEntry>, m: FileMeta)
    requires Manifest.Printable(c.manifest) && Recover(c.manifest).levels == EmptyLevels()[0 := [m]] && c.wal == []
    requires m.number == 2
    ensures var s' := FromDisk(c, dir);
            && s'.mem == [] && s'.imm.None? && s'.version.levels == EmptyLevels()[0 := [m]] && 1 !in s'.disk
  {
    hide Recover, Manifest.Printable, Manifest.PrintAll, Manifest.RecoverText, Wal.Replay, Wal.LogOf, Opened, AfterUsed,
         Scan, AllNumbers, HasFile, TouchAll, DirNumbers, SnapshotLines;
    Manifest.TextIsLines(c.manifest);
    Wal.ReplayOfLog([]);
    assert EmptyLevels()[0 := [m]][0] != [];
    OneNumber(m);
    HasFileHasNumber(EmptyLevels()[0 := [m]]);
  }
}
