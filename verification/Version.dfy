// The version: which table files make up each of the seven levels, and how edits change it.
// Models src/version.cpp and src/version.h. A file is identified by its number: the name written to
// disk is a function of the number (src/version.cpp:215-220).
module Version {
  import opened Types

  const MaxLevel: nat := 7

  datatype FileMeta = FileMeta(number: nat, size: nat, smallest: TsKey, largest: TsKey)

  type Levels = seq<seq<FileMeta>>

  // Table contents by file number.
  type Disk = map<nat, seq<Record>>

  datatype Edit = Edit(added: seq<(int, FileMeta)>, deleted: seq<(int, nat)>)

  datatype VersionState = VersionState(levels: Levels, nextFile: nat, obsolete: seq<nat>)

  function EmptyLevels(): (r: Levels)
    ensures |r| == MaxLevel && forall l :: 0 <= l < MaxLevel ==> r[l] == []
  {
    seq(MaxLevel, _ => [])
  }

  // NumFiles() > 0
  predicate HasFile(levels: Levels) {
    exists l :: 0 <= l < |levels| && levels[l] != []
  }

  predicate InRange(level: int) {
    0 <= level < MaxLevel
  }

  // ---------------------------------------------------------------- applying an edit

  function FilterOut(files: seq<FileMeta>, gone: set<nat>): (r: seq<FileMeta>)
    ensures |r| <= |files|
  {
    if files == [] then [] else
      var rest := FilterOut(files[..|files| - 1], gone);
      if files[|files| - 1].number in gone then rest else rest + [files[|files| - 1]]
  }

  predicate HasNumber(files: seq<FileMeta>, n: nat) {
    exists f :: f in files && f.number == n
  }

  function ApplyDelete(v: VersionState, d: (int, nat)): (r: VersionState)
    requires |v.levels| == MaxLevel
    ensures |r.levels| == MaxLevel
  {
    if !InRange(d.0) then v else
      v.(levels := v.levels[d.0 := FilterOut(v.levels[d.0], {d.1})],
         obsolete := v.obsolete + (if HasNumber(v.levels[d.0], d.1) then [d.1] else []))
  }

  function ApplyDeletes(v: VersionState, ds: seq<(int, nat)>): (r: VersionState)
    requires |v.levels| == MaxLevel
    ensures |r.levels| == MaxLevel
  {
    if ds == [] then v else ApplyDelete(ApplyDeletes(v, ds[..|ds| - 1]), ds[|ds| - 1])
  }

  function ApplyAdds(levels: Levels, adds: seq<(int, FileMeta)>): (r: Levels)
    requires |levels| == MaxLevel
    ensures |r| == MaxLevel
  {
    if adds == [] then levels else
      var r := ApplyAdds(levels, adds[..|adds| - 1]);
      var a := adds[|adds| - 1];
      if InRange(a.0) then r[a.0 := r[a.0] + [a.1]] else r
  }

  function InsertByNumber(files: seq<FileMeta>, f: FileMeta): seq<FileMeta> {
    if files == [] || files[|files| - 1].number <= f.number then files + [f]
    else InsertByNumber(files[..|files| - 1], f) + [files[|files| - 1]]
  }

  function SortByNumber(files: seq<FileMeta>): seq<FileMeta> {
    if files == [] then [] else InsertByNumber(SortByNumber(files[..|files| - 1]), files[|files| - 1])
  }

  function SortLevels(levels: Levels): (r: Levels)
    ensures |r| == |levels|
  {
    seq(|levels|, i requires 0 <= i < |levels| => SortByNumber(levels[i]))
  }

  function BumpNextFile(next: nat, adds: seq<(int, FileMeta)>): (r: nat)
    ensures r >= next
  {
    if adds != [] && adds[|adds| - 1].1.number >= next then adds[|adds| - 1].1.number + 1 else next
  }

  // VersionManager::ApplyUnlocked
  function ApplyEdit(v: VersionState, e: Edit): (r: VersionState)
    requires |v.levels| == MaxLevel
    ensures |r.levels| == MaxLevel
  {
    var d := ApplyDeletes(v, e.deleted);
    VersionState(SortLevels(ApplyAdds(d.levels, e.added)), BumpNextFile(v.nextFile, e.added), d.obsolete)
  }

  // ---------------------------------------------------------------- numbers

  ghost predicate Ascending(files: seq<FileMeta>) {
    forall i, j :: 0 <= i < j < |files| ==> files[i].number < files[j].number
  }

  function Numbers(files: seq<FileMeta>): set<nat> {
    set f | f in files :: f.number
  }

  ghost predicate NonDescending(files: seq<FileMeta>) {
    forall i, j :: 0 <= i < j < |files| ==> files[i].number <= files[j].number
  }

  lemma {:induction false} InsertAtEnd(files: seq<FileMeta>, f: FileMeta)
    requires files == [] || files[|files| - 1].number <= f.number
    ensures InsertByNumber(files, f) == files + [f]
  {
  }

  lemma {:induction false} SortIsIdentity(files: seq<FileMeta>)
    requires NonDescending(files)
    ensures SortByNumber(files) == files
  {
    hide InsertByNumber;
    if files != [] {
      var n := |files| - 1;
      SortIsIdentity(files[..n]);
      if n > 0 {
        assert files[n - 1].number <= files[n].number;
      }
      InsertAtEnd(files[..n], files[n]);
      assert files == files[..n] + [files[n]];
    }
  }

  lemma {:induction false} FilterOutMembers(files: seq<FileMeta>, gone: set<nat>)
    ensures forall f :: f in FilterOut(files, gone) <==> f in files && f.number !in gone
    ensures Ascending(files) ==> Ascending(FilterOut(files, gone))
  {
    FilterOutContents(files, gone);
    if Ascending(files) {
      FilterOutAscending(files, gone);
    }
  }

  lemma {:induction false} FilterOutContents(files: seq<FileMeta>, gone: set<nat>)
    ensures forall f :: f in FilterOut(files, gone) <==> f in files && f.number !in gone
  {
    if files != [] {
      var n := |files| - 1;
      FilterOutContents(files[..n], gone);
      assert files == files[..n] + [files[n]];
    }
  }

  lemma {:induction false} FilterOutAscending(files: seq<FileMeta>, gone: set<nat>)
    requires Ascending(files)
    ensures Ascending(FilterOut(files, gone))
  {
    if files != [] {
      var n := |files| - 1;
      FilterOutAscending(files[..n], gone);
      FilterOutContents(files[..n], gone);
      var r := FilterOut(files[..n], gone);
      forall i | 0 <= i < |r| ensures r[i].number < files[n].number {
        assert r[i] in files[..n];
      }
    }
  }

  lemma {:induction false} FilterOutConcat(a: seq<FileMeta>, b: seq<FileMeta>, gone: set<nat>)
    ensures FilterOut(a + b, gone) == FilterOut(a, gone) + FilterOut(b, gone)
  {
    if b == [] {
      assert a + b == a;
    } else {
      FilterOutConcat(a, b[..|b| - 1], gone);
      assert (a + b)[..|a + b| - 1] == a + b[..|b| - 1];
    }
  }

  lemma {:induction false} FilterOutNone(files: seq<FileMeta>, gone: set<nat>)
    requires forall f :: f in files ==> f.number !in gone
    ensures FilterOut(files, gone) == files
  {
    if files != [] {
      FilterOutNone(files[..|files| - 1], gone);
      assert files == files[..|files| - 1] + [files[|files| - 1]];
    }
  }

  lemma {:induction false} FilterOutAll(files: seq<FileMeta>, gone: set<nat>)
    requires forall f :: f in files ==> f.number in gone
    ensures FilterOut(files, gone) == []
  {
    if files != [] {
      FilterOutAll(files[..|files| - 1], gone);
    }
  }

  lemma {:induction false} FilterOutTwice(files: seq<FileMeta>, a: set<nat>, b: set<nat>)
    ensures FilterOut(FilterOut(files, a), b) == FilterOut(files, a + b)
  {
    if files != [] {
      var n := |files| - 1;
      FilterOutTwice(files[..n], a, b);
      FilterOutConcat(FilterOut(files[..n], a), if files[n].number in a then [] else [files[n]], b);
      assert FilterOut([files[n]], b) == if files[n].number in b then [] else [files[n]];
    }
  }

  // The numbers an edit deletes from one level.
  function DeletedAt(ds: seq<(int, nat)>, level: int): set<nat> {
    set d | d in ds && d.0 == level :: d.1
  }

  lemma {:induction false} DeletesFilter(v: VersionState, ds: seq<(int, nat)>)
    requires |v.levels| == MaxLevel
    ensures forall l :: 0 <= l < MaxLevel ==>
              ApplyDeletes(v, ds).levels[l] == FilterOut(v.levels[l], DeletedAt(ds, l))
    ensures ApplyDeletes(v, ds).nextFile == v.nextFile
  {
    if ds == [] {
      forall l | 0 <= l < MaxLevel ensures FilterOut(v.levels[l], DeletedAt(ds, l)) == v.levels[l] {
        FilterOutNone(v.levels[l], DeletedAt(ds, l));
      }
    } else {
      var n := |ds| - 1;
      DeletesFilter(v, ds[..n]);
      forall l | 0 <= l < MaxLevel
        ensures ApplyDeletes(v, ds).levels[l] == FilterOut(v.levels[l], DeletedAt(ds, l))
      {
        assert forall d :: d in ds <==> d in ds[..n] || d == ds[n];
        if ds[n].0 == l {
          assert DeletedAt(ds, l) == DeletedAt(ds[..n], l) + {ds[n].1};
          FilterOutTwice(v.levels[l], DeletedAt(ds[..n], l), {ds[n].1});
        } else {
          assert DeletedAt(ds, l) == DeletedAt(ds[..n], l);
        }
      }
    }
  }

  // ---------------------------------------------------------------- what a level says about a key

  function Content(disk: Disk, n: nat): seq<Record> {
    if n in disk then disk[n] else []
  }

  // The copies of k in one level, oldest (lowest file number) first.
  function LevelCopies(disk: Disk, files: seq<FileMeta>, k: TsKey): seq<Entry> {
    if files == [] then [] else
      LevelCopies(disk, files[..|files| - 1], k) + CopiesIn(Content(disk, files[|files| - 1].number), k)
  }

  // The copies of k in levels i and deeper, oldest (deepest level) first.
  function DeepCopies(disk: Disk, levels: Levels, i: nat, k: TsKey): seq<Entry>
    decreases |levels| - i
  {
    if i >= |levels| then [] else DeepCopies(disk, levels, i + 1, k) + LevelCopies(disk, levels[i], k)
  }

  lemma {:induction false} LevelCopiesAppend(disk: Disk, files: seq<FileMeta>, f: FileMeta, k: TsKey)
    ensures LevelCopies(disk, files + [f], k) == LevelCopies(disk, files, k) + CopiesIn(Content(disk, f.number), k)
  {
    assert (files + [f])[..|files|] == files;
  }

  lemma {:induction false} LevelCopiesConcat(disk: Disk, a: seq<FileMeta>, b: seq<FileMeta>, k: TsKey)
    ensures LevelCopies(disk, a + b, k) == LevelCopies(disk, a, k) + LevelCopies(disk, b, k)
  {
    hide CopiesIn, Content;
    if b == [] {
      assert a + b == a;
    } else {
      var n := |b| - 1;
      LevelCopiesConcat(disk, a, b[..n], k);
      assert (a + b)[..|a| + n] == a + b[..n] && (a + b)[|a| + n] == b[n];
    }
  }

  lemma {:induction false} LevelCopiesSameContent(disk: Disk, disk': Disk, files: seq<FileMeta>, k: TsKey)
    requires forall f :: f in files ==> Content(disk, f.number) == Content(disk', f.number)
    ensures LevelCopies(disk, files, k) == LevelCopies(disk', files, k)
  {
    if files != [] {
      LevelCopiesSameContent(disk, disk', files[..|files| - 1], k);
    }
  }

  lemma {:induction false} LevelCopiesNone(disk: Disk, files: seq<FileMeta>, k: TsKey)
    requires forall f :: f in files ==> CopiesIn(Content(disk, f.number), k) == []
    ensures LevelCopies(disk, files, k) == []
  {
    if files != [] {
      LevelCopiesNone(disk, files[..|files| - 1], k);
    }
  }

  // A key's copies in a level lie with the files kept or with the files removed, but not both,
  // whenever no kept file and removed file can share the key.
  lemma {:induction false} LevelCopiesSplit(disk: Disk, files: seq<FileMeta>, gone: set<nat>, k: TsKey)
    requires forall f, g :: f in files && g in files && f.number in gone && g.number !in gone
               ==> CopiesIn(Content(disk, f.number), k) == [] || CopiesIn(Content(disk, g.number), k) == []
    ensures LevelCopies(disk, files, k) ==
            LevelCopies(disk, FilterOut(files, gone), k)
            + LevelCopies(disk, FilterOut(files, Numbers(files) - gone), k)
  {
    var others := Numbers(files) - gone;
    FilterOutMembers(files, gone);
    FilterOutMembers(files, others);
    if f :| f in files && f.number in gone && CopiesIn(Content(disk, f.number), k) != [] {
      LevelCopiesNone(disk, FilterOut(files, gone), k);
      LevelCopiesDrop(disk, files, others, k);
    } else {
      LevelCopiesNone(disk, FilterOut(files, others), k);
      LevelCopiesDrop(disk, files, gone, k);
    }
  }

  // Files without the key can be dropped from a level unnoticed.
  lemma {:induction false} LevelCopiesDrop(disk: Disk, files: seq<FileMeta>, gone: set<nat>, k: TsKey)
    requires forall f :: f in files && f.number in gone ==> CopiesIn(Content(disk, f.number), k) == []
    ensures LevelCopies(disk, files, k) == LevelCopies(disk, FilterOut(files, gone), k)
  {
    if files != [] {
      var n := |files| - 1;
      LevelCopiesDrop(disk, files[..n], gone, k);
      if files[n].number !in gone {
        LevelCopiesAppend(disk, FilterOut(files[..n], gone), files[n], k);
      }
    }
  }

  lemma {:induction false} DeepCopiesSameContent(disk: Disk, disk': Disk, levels: Levels, i: nat, k: TsKey)
    requires forall l, f :: 0 <= l < |levels| && f in levels[l] ==> Content(disk, f.number) == Content(disk', f.number)
    ensures DeepCopies(disk, levels, i, k) == DeepCopies(disk', levels, i, k)
    decreases |levels| - i
  {
    if i < |levels| {
      DeepCopiesSameContent(disk, disk', levels, i + 1, k);
      LevelCopiesSameContent(disk, disk', levels[i], k);
    }
  }

  lemma {:induction false} DeepCopiesSameLevels(disk: Disk, levels: Levels, levels': Levels, i: nat, k: TsKey)
    requires |levels| == |levels'|
    requires forall l :: i <= l < |levels| ==> levels[l] == levels'[l]
    ensures DeepCopies(disk, levels, i, k) == DeepCopies(disk, levels', i, k)
    decreases |levels| - i
  {
    if i < |levels| {
      DeepCopiesSameLevels(disk, levels, levels', i + 1, k);
    }
  }

  // Copies in levels below `to` only: the shallow end of DeepCopies.
  function ShallowCopies(disk: Disk, levels: Levels, to: nat, k: TsKey): seq<Entry>
    requires to <= |levels|
  {
    if to == 0 then [] else LevelCopies(disk, levels[to - 1], k) + ShallowCopies(disk, levels, to - 1, k)
  }

  lemma {:induction false} DeepShallow(disk: Disk, levels: Levels, i: nat, k: TsKey)
    requires i <= |levels|
    ensures DeepCopies(disk, levels, 0, k) == DeepCopies(disk, levels, i, k) + ShallowCopies(disk, levels, i, k)
  {
    if i > 0 {
      DeepShallow(disk, levels, i - 1, k);
    }
  }

  lemma {:induction false} ShallowSameLevels(disk: Disk, levels: Levels, levels': Levels, i: nat, k: TsKey)
    requires i <= |levels| == |levels'|
    requires forall l :: 0 <= l < i ==> levels[l] == levels'[l]
    ensures ShallowCopies(disk, levels, i, k) == ShallowCopies(disk, levels', i, k)
  {
    if i > 0 {
      ShallowSameLevels(disk, levels, levels', i - 1, k);
    }
  }

  // ---------------------------------------------------------------- the manifest, line by line

  datatype ManifestLine = LineAdd(level: int, meta: FileMeta) | LineDel(level: int, number: nat) | LineNext(next: nat)

  function DelLines(ds: seq<(int, nat)>): seq<ManifestLine> {
    if ds == [] then [] else DelLines(ds[..|ds| - 1]) + [LineDel(ds[|ds| - 1].0, ds[|ds| - 1].1)]
  }

  function AddLines(adds: seq<(int, FileMeta)>): seq<ManifestLine> {
    if adds == [] then [] else AddLines(adds[..|adds| - 1]) + [LineAdd(adds[|adds| - 1].0, adds[|adds| - 1].1)]
  }

  // What LogAndApply appends for one edit.
  function EditLines(e: Edit, next: nat): seq<ManifestLine> {
    DelLines(e.deleted) + AddLines(e.added) + [LineNext(next)]
  }

  // All of a level's files as additions.
  function Additions(level: int, files: seq<FileMeta>): (r: seq<(int, FileMeta)>)
    ensures |r| == |files|
    ensures forall i :: 0 <= i < |r| ==> r[i] == (level, files[i])
  {
    if files == [] then [] else Additions(level, files[..|files| - 1]) + [(level, files[|files| - 1])]
  }

  // The additions WriteSnapshotManifest collects from a version.
  function SnapshotAdds(levels: Levels): seq<(int, FileMeta)> {
    if levels == [] then [] else
      SnapshotAdds(levels[..|levels| - 1]) + Additions(|levels| - 1, levels[|levels| - 1])
  }

  // What WriteSnapshotManifest writes.
  function SnapshotLines(levels: Levels, next: nat): seq<ManifestLine> {
    AddLines(SnapshotAdds(levels)) + [LineNext(next)]
  }

  function ReadLine(v: VersionState, line: ManifestLine): (r: VersionState)
    requires |v.levels| == MaxLevel
    ensures |r.levels| == MaxLevel
  {
    match line
    case LineNext(n) => if n > v.nextFile then v.(nextFile := n) else v
    case LineAdd(level, meta) => ApplyEdit(v, Edit([(level, meta)], []))
    case LineDel(level, number) => ApplyEdit(v, Edit([], [(level, number)]))
  }

  function ReadLines(v: VersionState, lines: seq<ManifestLine>): (r: VersionState)
    requires |v.levels| == MaxLevel
    ensures |r.levels| == MaxLevel
  {
    if lines == [] then v else ReadLine(ReadLines(v, lines[..|lines| - 1]), lines[|lines| - 1])
  }

  // RecoverFromManifest over well-formed lines.
  function Recover(lines: seq<ManifestLine>): (r: VersionState)
    ensures |r.levels| == MaxLevel
  {
    ReadLines(VersionState(EmptyLevels(), 1, []), lines).(obsolete := [])
  }

  // ---------------------------------------------------------------- facts about edits

  // The additions meant for one level.
  function AddedAt(adds: seq<(int, FileMeta)>, level: int): seq<FileMeta> {
    if adds == [] then [] else
      var rest := AddedAt(adds[..|adds| - 1], level);
      if adds[|adds| - 1].0 == level then rest + [adds[|adds| - 1].1] else rest
  }

  lemma {:induction false} AddsAppend(levels: Levels, adds: seq<(int, FileMeta)>)
    requires |levels| == MaxLevel
    ensures forall l :: 0 <= l < MaxLevel ==> ApplyAdds(levels, adds)[l] == levels[l] + AddedAt(adds, l)
  {
    if adds != [] {
      AddsAppend(levels, adds[..|adds| - 1]);
    }
  }

  lemma {:induction false} AddedAtConcat(a: seq<(int, FileMeta)>, b: seq<(int, FileMeta)>, level: int)
    ensures AddedAt(a + b, level) == AddedAt(a, level) + AddedAt(b, level)
  {
    if b == [] {
      assert a + b == a;
    } else {
      AddedAtConcat(a, b[..|b| - 1], level);
      assert (a + b)[..|a + b| - 1] == a + b[..|b| - 1];
    }
  }

  lemma {:induction false} AdditionsAt(level: int, files: seq<FileMeta>, l: int)
    ensures AddedAt(Additions(level, files), l) == if l == level then files else []
  {
    if files != [] {
      var n := |files| - 1;
      AdditionsAt(level, files[..n], l);
      assert Additions(level, files)[..n] == Additions(level, files[..n]);
      assert files == files[..n] + [files[n]];
    }
  }

  lemma {:induction false} ApplyEditLevels(v: VersionState, e: Edit)
    requires |v.levels| == MaxLevel
    ensures forall l :: 0 <= l < MaxLevel ==>
              ApplyEdit(v, e).levels[l] == SortByNumber(FilterOut(v.levels[l], DeletedAt(e.deleted, l))
                                                        + AddedAt(e.added, l))
  {
    DeletesFilter(v, e.deleted);
    AddsAppend(ApplyDeletes(v, e.deleted).levels, e.added);
  }

  lemma {:induction false} ApplyEditSameLevels(v: VersionState, w: VersionState, e: Edit)
    requires |v.levels| == MaxLevel && v.levels == w.levels
    ensures ApplyEdit(v, e).levels == ApplyEdit(w, e).levels
  {
    ApplyEditLevels(v, e);
    ApplyEditLevels(w, e);
  }

  // Every deleted file that was there becomes obsolete, once.
  lemma {:induction false} DeletesObsolete(v: VersionState, ds: seq<(int, nat)>)
    requires |v.levels| == MaxLevel
    requires forall i :: 0 <= i < |ds| ==> InRange(ds[i].0) && HasNumber(v.levels[ds[i].0], ds[i].1)
    requires forall i, j :: 0 <= i < j < |ds| ==> ds[i].1 != ds[j].1
    ensures |ApplyDeletes(v, ds).obsolete| == |v.obsolete| + |ds|
    ensures forall i :: 0 <= i < |v.obsolete| ==> ApplyDeletes(v, ds).obsolete[i] == v.obsolete[i]
    ensures forall i :: 0 <= i < |ds| ==> ApplyDeletes(v, ds).obsolete[|v.obsolete| + i] == ds[i].1
  {
    hide FilterOut;
    if ds != [] {
      var n := |ds| - 1;
      var d := ds[n];
      DeletesObsolete(v, ds[..n]);
      DeletesFilter(v, ds[..n]);
      FilterOutMembers(v.levels[d.0], DeletedAt(ds[..n], d.0));
      var f :| f in v.levels[d.0] && f.number == d.1;
      assert f in FilterOut(v.levels[d.0], DeletedAt(ds[..n], d.0));
    }
  }

  // ---------------------------------------------------------------- recovery

  ghost predicate LevelsSorted(levels: Levels) {
    forall l :: 0 <= l < |levels| ==> NonDescending(levels[l])
  }

  lemma {:induction false} InsertMembers(files: seq<FileMeta>, f: FileMeta)
    ensures forall g :: g in InsertByNumber(files, f) <==> g in files || g == f
  {
    if files != [] && files[|files| - 1].number > f.number {
      var n := |files| - 1;
      InsertMembers(files[..n], f);
      assert files == files[..n] + [files[n]];
    }
  }

  lemma {:induction false} InsertNonDescending(files: seq<FileMeta>, f: FileMeta)
    requires NonDescending(files)
    ensures NonDescending(InsertByNumber(files, f))
  {
    if files != [] && files[|files| - 1].number > f.number {
      var n := |files| - 1;
      InsertNonDescending(files[..n], f);
      InsertMembers(files[..n], f);
      var r := InsertByNumber(files[..n], f);
      forall i | 0 <= i < |r| ensures r[i].number <= files[n].number {
        assert r[i] in files[..n] || r[i] == f;
      }
    }
  }

  lemma {:induction false} SortNonDescending(files: seq<FileMeta>)
    ensures NonDescending(SortByNumber(files))
    ensures forall g :: g in SortByNumber(files) <==> g in files
  {
    if files != [] {
      var n := |files| - 1;
      SortNonDescending(files[..n]);
      InsertNonDescending(SortByNumber(files[..n]), files[n]);
      InsertMembers(SortByNumber(files[..n]), files[n]);
      assert files == files[..n] + [files[n]];
    }
  }

  // A file with a number of its own leaves a level in strict order.
  lemma {:induction false} InsertAscending(files: seq<FileMeta>, f: FileMeta)
    requires Ascending(files) && forall g :: g in files ==> g.number != f.number
    ensures Ascending(InsertByNumber(files, f))
  {
    if files != [] && files[|files| - 1].number > f.number {
      var n := |files| - 1;
      InsertAscending(files[..n], f);
      InsertMembers(files[..n], f);
      var r := InsertByNumber(files[..n], f);
      forall i | 0 <= i < |r| ensures r[i].number < files[n].number {
        assert r[i] in files[..n] || r[i] == f;
      }
    } else {
      assert files != [] ==> files[|files| - 1] in files;
    }
  }

  lemma {:induction false} HasMember(files: seq<FileMeta>)
    requires files != []
    ensures exists f :: f in files
  {
    assert files[0] in files;
  }

  // The files of an ascending level determine it.
  lemma {:induction false} AscendingSame(a: seq<FileMeta>, b: seq<FileMeta>)
    requires Ascending(a) && Ascending(b) && forall f :: f in a <==> f in b
    ensures a == b
  {
    if a == [] {
      if b != [] {
        HasMember(b);
        assert false;
      }
    } else {
      var n := |a| - 1;
      assert a[n] in b;
      var m := |b| - 1;
      assert b[m] in a;
      assert a[n] == b[m];
      forall f | f in a[..n] ensures f in b[..m] {
        assert f in b && f.number < a[n].number;
      }
      forall f | f in b[..m] ensures f in a[..n] {
        assert f in a && f.number < b[m].number;
      }
      AscendingSame(a[..n], b[..m]);
      assert a == a[..n] + [a[n]] && b == b[..m] + [b[m]];
    }
  }

  lemma {:induction false} ReadLinesConcat(v: VersionState, a: seq<ManifestLine>, b: seq<ManifestLine>)
    requires |v.levels| == MaxLevel
    ensures ReadLines(v, a + b) == ReadLines(ReadLines(v, a), b)
  {
    if b == [] {
      assert a + b == a;
    } else {
      ReadLinesConcat(v, a, b[..|b| - 1]);
      assert (a + b)[..|a + b| - 1] == a + b[..|b| - 1];
    }
  }

  lemma {:induction false} SortLevelsIdentity(levels: Levels)
    requires LevelsSorted(levels)
    ensures SortLevels(levels) == levels
  {
    forall l | 0 <= l < |levels| ensures SortByNumber(levels[l]) == levels[l] {
      SortIsIdentity(levels[l]);
    }
  }

  lemma {:induction false} ReadDelLines(v: VersionState, ds: seq<(int, nat)>)
    requires |v.levels| == MaxLevel && LevelsSorted(v.levels)
    ensures ReadLines(v, DelLines(ds)).levels == ApplyDeletes(v, ds).levels
    ensures LevelsSorted(ApplyDeletes(v, ds).levels)
    ensures ReadLines(v, DelLines(ds)).nextFile == v.nextFile
  {
    if ds != [] {
      var n := |ds| - 1;
      ReadDelLines(v, ds[..n]);
      var w := ReadLines(v, DelLines(ds[..n]));
      var x := ApplyDeletes(v, ds[..n]);
      assert ApplyDeletes(w, [ds[n]]) == ApplyDelete(w, ds[n]) by {
        SingletonPrefix(ds[n]);
      }
      assert ApplyDelete(w, ds[n]).levels == ApplyDelete(x, ds[n]).levels;
      if InRange(ds[n].0) {
        FilterOutSorted(x.levels[ds[n].0], {ds[n].1});
      }
      SortLevelsIdentity(ApplyDelete(w, ds[n]).levels);
    }
  }

  lemma {:induction false} FilterOutSorted(files: seq<FileMeta>, gone: set<nat>)
    requires NonDescending(files)
    ensures NonDescending(FilterOut(files, gone))
  {
    if files != [] {
      var n := |files| - 1;
      FilterOutSorted(files[..n], gone);
      FilterOutContents(files[..n], gone);
      var r := FilterOut(files[..n], gone);
      forall i | 0 <= i < |r| ensures r[i].number <= files[n].number {
        assert r[i] in files[..n];
      }
    }
  }

  // One add line sorts the file into its level.
  lemma {:induction false} ReadAddLine(w: VersionState, a: (int, FileMeta))
    requires |w.levels| == MaxLevel && LevelsSorted(w.levels)
    ensures var r := ReadLine(w, LineAdd(a.0, a.1));
            && (forall l :: 0 <= l < MaxLevel ==> r.levels[l] == if l == a.0 then InsertByNumber(w.levels[l], a.1)
              else w.levels[l])
            && LevelsSorted(r.levels)
            && r.nextFile == if a.1.number >= w.nextFile then a.1.number + 1 else w.nextFile
  {
    SingletonPrefix(a);
    assert ApplyAdds(w.levels, [a]) == if InRange(a.0) then w.levels[a.0 := w.levels[a.0] + [a.1]] else w.levels;
    forall l | 0 <= l < MaxLevel
      ensures SortByNumber(ApplyAdds(w.levels, [a])[l]) == if l == a.0 then InsertByNumber(w.levels[l], a.1)
              else w.levels[l]
    {
      SortIsIdentity(w.levels[l]);
      if l == a.0 {
        assert (w.levels[l] + [a.1])[..|w.levels[l]|] == w.levels[l];
        InsertNonDescending(w.levels[l], a.1);
      }
    }
    forall l | 0 <= l < MaxLevel ensures NonDescending(ReadLine(w, LineAdd(a.0, a.1)).levels[l]) {
      if l == a.0 { InsertNonDescending(w.levels[l], a.1); }
    }
  }

  // bound: any number above the old next file number and every file added.
  lemma {:induction false} ReadAddLines(v: VersionState, adds: seq<(int, FileMeta)>, bound: nat)
    requires |v.levels| == MaxLevel && LevelsSorted(v.levels)
    ensures ReadLines(v, AddLines(adds)).levels == SortLevels(ApplyAdds(v.levels, adds))
    ensures LevelsSorted(ReadLines(v, AddLines(adds)).levels)
    ensures v.nextFile <= ReadLines(v, AddLines(adds)).nextFile
    ensures forall a :: a in adds ==> a.1.number < ReadLines(v, AddLines(adds)).nextFile
    ensures v.nextFile <= bound && (forall a :: a in adds ==> a.1.number < bound)
            ==> ReadLines(v, AddLines(adds)).nextFile <= bound
  {
    if adds == [] {
      SortLevelsIdentity(v.levels);
    } else {
      var n := |adds| - 1;
      ReadAddLines(v, adds[..n], bound);
      var w := ReadLines(v, AddLines(adds[..n]));
      ReadAddLine(w, adds[n]);
      assert adds == adds[..n] + [adds[n]];
      forall l | 0 <= l < MaxLevel
        ensures ReadLines(v, AddLines(adds)).levels[l] == SortByNumber(ApplyAdds(v.levels, adds)[l])
      {
        var before := ApplyAdds(v.levels, adds[..n])[l];
        if l == adds[n].0 {
          assert (before + [adds[n].1])[..|before|] == before;
        }
      }
    }
  }

  // Reading back the lines of one edit does to the levels what applying the edit does.
  lemma {:induction false} ReadEditLines(v: VersionState, e: Edit, next: nat, bound: nat)
    requires |v.levels| == MaxLevel && LevelsSorted(v.levels)
    ensures ReadLines(v, EditLines(e, next)).levels == ApplyEdit(v, e).levels
    ensures LevelsSorted(ApplyEdit(v, e).levels)
    ensures v.nextFile <= ReadLines(v, EditLines(e, next)).nextFile
    ensures forall a :: a in e.added ==> a.1.number < ReadLines(v, EditLines(e, next)).nextFile
    ensures v.nextFile <= bound && next <= bound && (forall a :: a in e.added ==> a.1.number < bound)
            ==> ReadLines(v, EditLines(e, next)).nextFile <= bound
  {
    ReadLinesConcat(v, DelLines(e.deleted) + AddLines(e.added), [LineNext(next)]);
    ReadLinesConcat(v, DelLines(e.deleted), AddLines(e.added));
    ReadDelLines(v, e.deleted);
    var w := ReadLines(v, DelLines(e.deleted));
    ReadAddLines(w, e.added, bound);
    var x := ReadLines(w, AddLines(e.added));
    SingletonPrefix(LineNext(next));
    assert ReadLines(x, [LineNext(next)]) == ReadLine(x, LineNext(next));
  }

  lemma {:induction false} NothingAdded(l: int)
    ensures AddedAt([], l) == []
  {
  }

  lemma {:induction false} SnapshotAddsAt(levels: Levels, l: nat)
    ensures AddedAt(SnapshotAdds(levels), l) == if l < |levels| then levels[l] else []
  {
    hide AddedAt, Additions;
    if levels == [] {
      NothingAdded(l);
    } else {
      var n := |levels| - 1;
      SnapshotAddsAt(levels[..n], l);
      AddedAtConcat(SnapshotAdds(levels[..n]), Additions(n, levels[n]), l);
      AdditionsAt(n, levels[n], l);
    }
  }

  lemma {:induction false} SnapshotAddsMembers(levels: Levels)
    ensures forall a :: a in SnapshotAdds(levels) ==> exists i :: 0 <= i < |levels| && a.1 in levels[i]
  {
    if levels != [] {
      var n := |levels| - 1;
      SnapshotAddsMembers(levels[..n]);
      assert forall a :: a in Additions(n, levels[n]) ==> a.1 in levels[n];
    }
  }

  lemma {:induction false} EmptyLevelsSorted()
    ensures LevelsSorted(EmptyLevels())
  {
  }

  lemma {:induction false} ReadSnapshotAdds(levels: Levels, bound: nat) returns (w: VersionState)
    requires |levels| == MaxLevel && LevelsSorted(levels)
    ensures w == ReadLines(VersionState(EmptyLevels(), 1, []), AddLines(SnapshotAdds(levels)))
    ensures w.levels == levels
    ensures 1 <= bound && (forall l, f :: 0 <= l < MaxLevel && f in levels[l] ==> f.number < bound)
            ==> w.nextFile <= bound
    ensures forall l, f :: 0 <= l < MaxLevel && f in levels[l] ==> f.number < w.nextFile
  {
    hide ReadLines, AddLines, SnapshotAdds, ApplyAdds, AddedAt, SortByNumber, NonDescending;
    var v := VersionState(EmptyLevels(), 1, []);
    var adds := SnapshotAdds(levels);
    EmptyLevelsSorted();
    w := ReadLines(v, AddLines(adds));
    ReadAddLines(v, adds, bound);
    AddsAppend(v.levels, adds);
    forall l | 0 <= l < MaxLevel ensures w.levels[l] == levels[l] {
      SnapshotAddsAt(levels, l);
      SortIsIdentity(levels[l]);
      assert ApplyAdds(v.levels, adds)[l] == levels[l];
    }
    SnapshotAddsMembers(levels);
    forall l, f | 0 <= l < MaxLevel && f in levels[l] ensures f.number < w.nextFile {
      SnapshotAddsAt(levels, l);
      AddedAtMember(adds, l, f);
    }
  }

  lemma {:induction false} AddedAtMember(adds: seq<(int, FileMeta)>, level: int, f: FileMeta)
    requires f in AddedAt(adds, level)
    ensures (level, f) in adds
  {
    var n := |adds| - 1;
    if !(adds[n].0 == level && adds[n].1 == f) {
      AddedAtMember(adds[..n], level, f);
    }
  }

  // Recovering a snapshot manifest yields the levels it was taken of.
  lemma {:induction false} RecoverSnapshot(levels: Levels, next: nat)
    requires |levels| == MaxLevel && LevelsSorted(levels)
    ensures Recover(SnapshotLines(levels, next)).levels == levels
    ensures next <= Recover(SnapshotLines(levels, next)).nextFile
    ensures forall l, f :: 0 <= l < MaxLevel && f in levels[l] ==>
                             f.number < Recover(SnapshotLines(levels, next)).nextFile
    ensures 1 <= next && (forall l, f :: 0 <= l < MaxLevel && f in levels[l] ==> f.number < next)
            ==> Recover(SnapshotLines(levels, next)).nextFile == next
  {
    var v := VersionState(EmptyLevels(), 1, []);
    var w := ReadSnapshotAdds(levels, next);
    ReadLinesConcat(v, AddLines(SnapshotAdds(levels)), [LineNext(next)]);
    SingletonPrefix(LineNext(next));
    assert ReadLines(w, [LineNext(next)]) == ReadLine(w, LineNext(next));
  }
}
