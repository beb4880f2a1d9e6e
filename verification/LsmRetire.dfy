// Retiring files, capturing views, snapshots of the manifest and reopening keep the invariant, and so
// does every run.
module LsmRetire {
  import opened Types
  import opened Version
  import opened Lsm
  import opened LsmInvariant
  import opened LsmSteps
  import opened LsmCommits

  // ---------------------------------------------------------------- deletion

  lemma {:induction false} StillPendingMembers(pending: seq<Pending>, views: seq<View>)
    ensures forall p :: p in StillPending(pending, views) <==> p in pending && p.held && InUse(views, p.number)
  {
    if pending != [] {
      var n := |pending| - 1;
      StillPendingMembers(pending[..n], views);
      assert pending == pending[..n] + [pending[n]];
    }
  }

  // No file that anything still counts on is removed.
  lemma {:induction false} TryDeleteIsSafe(s: State)
    requires FilesOk(s)
    ensures Deletable(s.pending, s.views) !! Live(s.version.levels) + Reserved(s) + Held(s.views)
    ensures forall n :: n in Deletable(s.pending, s.views) ==> n !in s.version.obsolete
  {
    hide Live, Held, Reserved;
    forall p | p in s.pending && !(p.held && InUse(s.views, p.number))
      ensures p.number !in Live(s.version.levels) + Reserved(s) + Held(s.views) && p.number !in s.version.obsolete
    {
      assert p.number in PendingNumbers(s.pending);
    }
  }

  lemma {:induction false} TryDeleteKeepsFiles(s: State)
    requires FilesOk(s)
    ensures FilesOk(TryDelete(s))
  {
    var s' := TryDelete(s);
    TryDeleteIsSafe(s);
    StillPendingMembers(s.pending, s.views);
    assert s'.disk.Keys == s.disk.Keys - Deletable(s.pending, s.views);
    assert Reserved(s') == Reserved(s);
    hide Live, Held, Reserved, StillPending, Deletable;
    assert PendingNumbers(s'.pending) <= PendingNumbers(s.pending);
    forall n | n in Held(s.views) ensures n in s'.readers || n in PendingNumbers(s'.pending) {
      if n !in s.readers {
        var p :| p in s.pending && p.number == n;
        assert p in s'.pending;
      }
    }
  }

  lemma {:induction false} TryDeleteKeepsInv(s: State)
    requires Inv(s)
    ensures Inv(TryDelete(s))
  {
    hide LevelsOk, ProgressOk, FlushOk, ManifestOk, LifeCycle;
    var s' := TryDelete(s);
    SameDisk(s);
    TryDeleteIsSafe(s);
    TryDeleteKeepsFiles(s);
    assert KeepsNeeded(s, s'.disk);
    DiskStep(s, s');
  }

  lemma {:induction false} DistinctRest(s: seq<nat>)
    requires Distinct(s) && s != []
    ensures Distinct(s[1..]) && s[0] !in s[1..]
  {
    assert forall i :: 0 <= i < |s| - 1 ==> s[1..][i] == s[i + 1];
  }

  lemma {:induction false} DistinctAdd(x: nat, s: seq<nat>)
    requires Distinct(s) && x !in s
    ensures Distinct([x] + s)
  {
  }

  lemma {:induction false} RemoveFirstSpec(s: seq<nat>, n: nat)
    requires Distinct(s)
    ensures Distinct(RemoveFirst(s, n))
    ensures forall x :: x in RemoveFirst(s, n) <==> x in s && x != n
  {
    hide Distinct;
    if s != [] {
      var rest := s[1..];
      assert s == [s[0]] + rest;
      DistinctRest(s);
      RemoveFirstSpec(rest, n);
      if s[0] != n {
        DistinctAdd(s[0], RemoveFirst(rest, n));
      }
    }
  }

  // Every obsolete file finds its reader, and takes it to the pending list.
  lemma {:induction false} MoveObsoleteSpec(readers: seq<nat>, pending: seq<Pending>, files: seq<nat>)
    requires Distinct(readers) && Distinct(files) && forall n :: n in files ==> n in readers
    ensures var (r, p) := MoveObsolete(readers, pending, files);
            && Distinct(r) && (forall n :: n in r <==> n in readers && n !in files)
            && (forall x :: x in p <==> x in pending || (x.held && x.number in files))
  {
    if files != [] {
      var n := |files| - 1;
      MoveObsoleteSpec(readers, pending, files[..n]);
      assert files == files[..n] + [files[n]];
      var (r, p) := MoveObsolete(readers, pending, files[..n]);
      RemoveFirstSpec(r, files[n]);
      assert files[n] in r;
      forall x: Pending | x.held && x.number == files[n] ensures x == Pending(files[n], true) {}
    }
  }

  lemma {:induction false} RetireKeepsFiles(s: State)
    requires FilesOk(s)
    ensures var (r, p) := MoveObsolete(s.readers, s.pending, s.version.obsolete);
            FilesOk(s.(version := s.version.(obsolete := []), readers := r, pending := p))
  {
    MoveObsoleteSpec(s.readers, s.pending, s.version.obsolete);
    var (r, p) := MoveObsolete(s.readers, s.pending, s.version.obsolete);
    var s' := s.(version := s.version.(obsolete := []), readers := r, pending := p);
    assert Reserved(s') == Reserved(s);
    hide MoveObsolete, Live, Held, Reserved, Distinct;
    assert Distinct([]) by { EmptyDistinct(); }
    forall n | n in s.version.obsolete ensures n in PendingNumbers(p) {
      assert Pending(n, true) in p;
    }
    forall n ensures n in PendingNumbers(p) <==> n in PendingNumbers(s.pending) || n in s.version.obsolete {
    }
  }

  lemma {:induction false} EmptyDistinct()
    ensures Distinct([])
  {
  }

  lemma {:induction false} CleanupKeepsInv(s: State)
    requires Inv(s)
    ensures Inv(Cleanup(s))
  {
    hide LevelsOk, ProgressOk, FlushOk, ManifestOk, LifeCycle, MoveObsolete;
    var (r, p) := MoveObsolete(s.readers, s.pending, s.version.obsolete);
    var s' := s.(version := s.version.(obsolete := []), readers := r, pending := p);
    RetireKeepsFiles(s);
    SameDisk(s);
    DiskStep(s, s');
    assert ManifestOk(s') by { ManifestLevels(s, s'); }
    TryDeleteKeepsInv(s');
  }

  lemma {:induction false} ManifestLevels(s: State, s': State)
    requires ManifestOk(s) && s'.manifest == s.manifest
    requires s'.version.levels == s.version.levels && s.version.nextFile <= s'.version.nextFile
    ensures ManifestOk(s')
  {
  }

  lemma {:induction false} FinishCleanup(s: State, job: Job)
    ensures FinishJob(Cleanup(s), job) == Cleanup(FinishJob(s, job))
  {
  }

  lemma {:induction false} CommitJobKeepsInv(s: State, cleanup: bool)
    requires Inv(s) && s.progress.Merging?
    ensures Inv(CommitJob(s, cleanup))
  {
    InstallKeepsInv(s);
    hide Inv, InstallJob, Cleanup, InputsValid;
    var s' := InstallJob(s);
    if cleanup {
      CleanupKeepsInv(FinishJob(s', s.progress.job));
      FinishCleanup(s', s.progress.job);
    }
  }

  // ---------------------------------------------------------------- views

  lemma {:induction false} PublishedMembers(files: seq<FileMeta>, readers: seq<nat>)
    ensures forall f :: f in Published(files, readers) <==> f in files && f.number in readers
    ensures (forall f :: f in files ==> f.number in readers) ==> Published(files, readers) == files
  {
    if files != [] {
      var n := |files| - 1;
      PublishedMembers(files[..n], readers);
      assert files == files[..n] + [files[n]];
    }
  }

  // A captured view misses no file of the version.
  lemma {:induction false} ViewIsVersion(s: State)
    requires |s.version.levels| == MaxLevel && FilesOk(s)
    ensures ViewOf(s) == s.version.levels
  {
    forall l | 0 <= l < MaxLevel ensures ViewOf(s)[l] == s.version.levels[l] {
      PublishedMembers(s.version.levels[l], s.readers);
      forall f | f in s.version.levels[l] ensures f.number in s.readers {
        assert f.number in Live(s.version.levels);
      }
    }
  }

  lemma {:induction false} CaptureKeepsInv(s: State)
    requires Inv(s)
    ensures Inv(s.(views := s.views + [ViewOf(s)]))
  {
    hide LevelsOk, ProgressOk, FlushOk, ManifestOk;
    var s' := s.(views := s.views + [ViewOf(s)]);
    ViewIsVersion(s);
    assert Held(s'.views) == Held(s.views) + Live(s.version.levels) by {
      HeldAppend(s.views, s.version.levels);
    }
    hide Live, Held;
    assert Reserved(s') == Reserved(s);
    assert FilesOk(s') by { hide ViewOf; }
    SameDisk(s);
    DiskStep(s, s');
  }

  lemma {:induction false} HeldAppend(views: seq<View>, v: View)
    ensures Held(views + [v]) == Held(views) + Live(v)
  {
    forall n ensures n in Held(views + [v]) <==> n in Held(views) + Live(v) {
      if n in Held(views + [v]) {
        var w, files, f :| w in views + [v] && files in w && f in files && f.number == n;
        if w !in views {
          var l :| 0 <= l < |v| && v[l] == files;
          assert f in v[l];
        }
      }
      if n in Held(views) {
        var w, files, f :| w in views && files in w && f in files && f.number == n;
        assert w in views + [v];
      }
      if n in Live(v) {
        var l, f :| 0 <= l < |v| && f in v[l] && f.number == n;
        assert v in views + [v] && v[l] in v;
      }
    }
  }

  lemma {:induction false} ReleaseKeepsInv(s: State, i: nat)
    requires Inv(s) && i < |s.views|
    ensures Inv(s.(views := s.views[..i] + s.views[i + 1..]))
  {
    hide LevelsOk, ProgressOk, FlushOk, ManifestOk;
    var s' := s.(views := s.views[..i] + s.views[i + 1..]);
    assert forall v :: v in s'.views ==> v in s.views;
    assert Held(s'.views) <= Held(s.views);
    assert Reserved(s') == Reserved(s);
    hide Held, Live;
    assert FilesOk(s');
    SameDisk(s);
    DiskStep(s, s');
  }

  // ---------------------------------------------------------------- closing and opening

  lemma {:induction false} SnapshotKeepsInv(s: State)
    requires Inv(s)
    ensures Inv(WriteSnapshot(s))
  {
    hide ProgressOk, FlushOk, LifeCycle;
    var s' := WriteSnapshot(s);
    LevelsAreSorted(s.version.levels, s.disk, s.version.nextFile);
    NextFilePositive(s);
    RecoverSnapshot(s.version.levels, s.version.nextFile);
    assert ManifestOk(s') by { hide LevelsOk, SnapshotLines, Recover; }
    assert Reserved(s') == Reserved(s);
    SameDisk(s);
    DiskStep(s, s');
    hide LevelsOk, ManifestOk;
  }

  lemma {:induction false} ReadLinesPositive(v: VersionState, lines: seq<ManifestLine>)
    requires |v.levels| == MaxLevel
    ensures v.nextFile <= ReadLines(v, lines).nextFile
  {
    if lines != [] {
      ReadLinesPositive(v, lines[..|lines| - 1]);
    }
  }

  lemma {:induction false} NextFilePositive(s: State)
    requires ManifestOk(s)
    ensures 1 <= s.version.nextFile
  {
    ReadLinesPositive(VersionState(EmptyLevels(), 1, []), s.manifest);
  }

  lemma {:induction false} AllNumbersSpec(levels: Levels)
    requires NumbersUnique(levels) && forall l :: 0 <= l < |levels| ==> Ascending(levels[l])
    ensures Distinct(AllNumbers(levels))
    ensures SetOf(AllNumbers(levels)) == Live(levels)
  {
    if levels != [] {
      var n := |levels| - 1;
      AllNumbersSpec(levels[..n]);
      NumbersAscendingDistinct(levels[n]);
      var a, b := AllNumbers(levels[..n]), NumberList(levels[n]);
      forall l, f | 0 <= l < n && f in levels[..n][l] ensures f.number !in Numbers(levels[n]) {
        assert f.number in Numbers(levels[l]) && Numbers(levels[l]) !! Numbers(levels[n]);
      }
      assert SetOf(a) !! SetOf(b);
      forall x | x in b ensures x !in a {
        assert x in SetOf(b) && x !in SetOf(a);
      }
      DistinctConcat(a, b);
      LiveSplit(levels);
      assert SetOf(a + b) == SetOf(a) + SetOf(b);
    }
  }

  lemma {:induction false} LiveSplit(levels: Levels)
    requires levels != []
    ensures Live(levels) == Live(levels[..|levels| - 1]) + Numbers(levels[|levels| - 1])
  {
    var n := |levels| - 1;
    forall x | x in Live(levels) ensures x in Live(levels[..n]) + Numbers(levels[n]) {
      var l, f :| 0 <= l < |levels| && f in levels[l] && f.number == x;
      if l < n { assert f in levels[..n][l]; }
    }
    forall x | x in Live(levels[..n]) ensures x in Live(levels) {
      var l, f :| 0 <= l < n && f in levels[..n][l] && f.number == x;
      assert f in levels[l];
    }
  }

  lemma {:induction false} ReplaySorted(ops: seq<Record>)
    ensures Sorted(Replay(ops))
  {
    if ops != [] {
      var n := |ops| - 1;
      ReplaySorted(ops[..n]);
      UpsertMembers(Replay(ops[..n]), ops[n].key, ops[n].entry);
    }
  }

  lemma {:induction false} ReopenFiles(s: State)
    requires Inv(s)
    ensures FilesOk(Reopen(s))
    ensures LevelsOk(Reopen(s).version.levels, Reopen(s).disk, Reopen(s).version.nextFile)
    ensures Reopen(s).version.levels == s.version.levels
    ensures forall n :: n in Live(s.version.levels) ==>
                          n in Reopen(s).disk && Content(Reopen(s).disk, n) == Content(s.disk, n)
  {
    hide ProgressOk, FlushOk;
    var s' := Reopen(s);
    var levels := s.version.levels;
    assert s'.version.levels == levels;
    AllNumbersSpec(levels);
    assert forall n :: n in AllNumbers(levels) <==> n in SetOf(AllNumbers(levels));
    assert Live(levels) <= s.disk.Keys;
    assert s'.disk.Keys == Live(levels) by { hide Live, AllNumbers, Recover; }
    hide Live, AllNumbers, Recover;
    assert Reserved(s') == {};
    assert Held([]) == {};
    assert FilesOk(s') by { hide LevelsOk; }
    ReopenLevels(levels, s.disk, s'.disk, s.version.nextFile, s'.version.nextFile);
  }

  lemma {:induction false} ReopenLevels(levels: Levels, disk: Disk, disk': Disk, next: nat, next': nat)
    requires LevelsOk(levels, disk, next)
    requires forall n :: n in Live(levels) ==> n in disk' && Content(disk', n) == Content(disk, n) && n < next'
    ensures LevelsOk(levels, disk', next')
  {
    hide NumbersUnique, Disjoint, Sorted;
    forall l, f | 0 <= l < MaxLevel && f in levels[l]
      ensures f.number in disk' && disk'[f.number] == disk[f.number] && f.number < next'
    {
      assert f.number in Live(levels);
    }
  }

  lemma {:induction false} ReopenKeepsInv(s: State)
    requires Inv(s)
    ensures Inv(Reopen(s))
  {
    var s' := Reopen(s);
    ReopenFiles(s);
    ReplaySorted(s.wal);
    hide LevelsOk, LifeCycle;
    assert ManifestOk(s') by { hide Recover; }
  }

  // ---------------------------------------------------------------- every action, every run

  // The invariant holds after every action of every thread.
  lemma {:induction false} NextKeepsInv(s: State, a: Action)
    requires Inv(s) && Enabled(s, a)
    ensures Inv(Next(s, a))
  {
    hide LevelsOk, ProgressOk, FlushOk, ManifestOk, FilesOk;
    match a {
      case DoPut(r) => PutKeepsInv(s, r);
      case DoLogBatch(ops) => MemoryStep(s, LogBatch(s, ops));
      case DoApplyFromBatch(i) => ApplyFromBatchKeepsInv(s, i);
      case DoSetTtl(m, seconds) => MemoryStep(s, Next(s, a));
      case DoSeal => MemoryStep(s, Seal(s));
      case DoBeginFlush => MemoryStep(s, BeginFlush(s));
      case DoBuildFlush(size) => BuildFlushKeepsInv(s, size);
      case DoCommitFlush => CommitFlushKeepsInv(s);
      case DoPick(force) => PickKeepsInv(s, force);
      case DoMerge => MergeKeepsInv(s);
      case DoEmit(size) => EmitKeepsInv(s, size);
      case DoCommitJob(cleanup) => CommitJobKeepsInv(s, cleanup);
      case DoCleanup => CleanupKeepsInv(s);
      case DoTryDelete => TryDeleteKeepsInv(s);
      case DoCapture => CaptureKeepsInv(s);
      case DoRelease(v) => ReleaseKeepsInv(s, v);
      case DoWriteSnapshot => SnapshotKeepsInv(s);
      case DoReopen => ReopenKeepsInv(s);
    }
  }
}
