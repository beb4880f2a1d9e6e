// Reads over the real objects: skip-list memtables, and table readers over file bytes behind the shared block cache. A
// read view of objects stands for a state of the step system when every table holds the list that the state says, and
// a lookup in the objects is then the lookup of the step system.
module Assembly {
  import opened Types
  import opened Version
  import opened RankedMerge
  import opened Lsm
  import opened LsmInvariant
  import opened LsmHistory
  import opened LsmReads
  import opened LsmRuns
  import opened LsmRange
  import Engine
  import MemTable
  import Table
  import BlockCache
  import TableFormat

  // File contents by name and block sizes by name and offset, as the cache is told.
  type Files = map<Bytes, Bytes>
  type Sizes = map<(Bytes, nat), nat>

  datatype ReaderRef = ReaderRef(meta: FileMeta, reader: Table.SSTableReader)

  datatype ReadView = ReadView(mem: MemTable.MemTable, imm: MemTable.MemTable?, levels: seq<seq<ReaderRef>>,
                               ttl: TtlMap)

  // The reader has opened a finished table of run, and may use the cache.
  ghost predicate Holds(ref: ReaderRef, run: seq<Record>, blockSize: int, cache: BlockCache.LruCache?, files: Files,
                        sizes: Sizes)
    reads ref.reader, ref.reader.bloom, cache
  {
    && ref.reader.Reads(run, blockSize) && Sorted(run)
    && ref.reader.cache == cache && ref.reader.CacheOk(files, sizes)
  }

  // The references of a view are the files of the version, in their order.
  ghost predicate Aligned(levels: seq<seq<ReaderRef>>, view: View) {
    && |levels| == |view|
    && (forall l :: 0 <= l < |levels| ==> |levels[l]| == |view[l]|)
    && (forall l, i :: 0 <= l < |levels| && 0 <= i < |levels[l]| ==> levels[l][i].meta == view[l][i])
  }

  // Each of them holds what the disk holds under its number.
  ghost predicate ReadersStand(levels: seq<seq<ReaderRef>>, view: View, disk: Disk, blockSize: int,
                               cache: BlockCache.LruCache?, files: Files, sizes: Sizes)
    reads (set l, ref | l in levels && ref in l :: ref.reader),
          (set l, ref | l in levels && ref in l :: ref.reader.bloom), cache
  {
    && Aligned(levels, view)
    && (forall l, i :: 0 <= l < |levels| && 0 <= i < |levels[l]| ==>
          levels[l] in levels && levels[l][i] in levels[l]
          && Holds(levels[l][i], Content(disk, view[l][i].number), blockSize, cache, files, sizes))
  }

  // GetFromSSTables over the readers: level by level, newest file first, skipping files whose bounds exclude the key.
  method GetFromTables(levels: seq<seq<ReaderRef>>, key: TsKey, ghost view: View, ghost disk: Disk,
                       ghost blockSize: int,
                       cache: BlockCache.LruCache?, ghost files: Files, ghost sizes: Sizes)
    returns (entry: Option<Entry>)
    requires ReadersStand(levels, view, disk, blockSize, cache, files, sizes) && Aligned(levels, view)
    modifies cache
    ensures ReadersStand(levels, view, disk, blockSize, cache, files, sizes)
    ensures entry == GetFromLevels(disk, view, 0, key)
  {
    hide Find, Less, Content, ReadersStand;
    for level := 0 to |levels|
      invariant ReadersStand(levels, view, disk, blockSize, cache, files, sizes)
      invariant GetFromLevels(disk, view, 0, key) == GetFromLevels(disk, view, level, key)
    {
      var refs := levels[level];
      assert view[level][..|refs|] == view[level];
      for i := |refs| downto 0
        invariant ReadersStand(levels, view, disk, blockSize, cache, files, sizes)
        invariant GetFromLevel(disk, view[level], key) == GetFromLevel(disk, view[level][..i], key)
      {
        assert view[level][..i + 1][..i] == view[level][..i];
        if !(Less(key, refs[i].meta.smallest) || Less(refs[i].meta.largest, key)) {
          entry := LookUp(levels, level, i, key, view, disk, blockSize, cache, files, sizes);
          if entry.Some? {
            return;
          }
        }
      }
      assert view[level][..0] == [];
    }
    entry := None;
  }

  // One reader's lookup; the cache it fills still agrees with every other reader's file.
  method LookUp(levels: seq<seq<ReaderRef>>, l: nat, i: nat, key: TsKey, ghost view: View, ghost disk: Disk,
                ghost blockSize: int,
                cache: BlockCache.LruCache?, ghost files: Files, ghost sizes: Sizes)
    returns (entry: Option<Entry>)
    requires ReadersStand(levels, view, disk, blockSize, cache, files, sizes) && Aligned(levels, view)
    requires l < |levels| && i < |levels[l]|
    modifies cache
    ensures ReadersStand(levels, view, disk, blockSize, cache, files, sizes)
    ensures entry == Find(Content(disk, view[l][i].number), key)
  {
    hide Find, Content, Table.Writable, Table.TableFile, Table.Blocks, Table.EncodedKeys, Table.FilterSize,
         Table.Agrees, Sorted;
    var reader := levels[l][i].reader;
    assert Holds(levels[l][i], Content(disk, view[l][i].number), blockSize, cache, files, sizes);
    var read;
    entry, read := reader.GetEntry(key, Content(disk, view[l][i].number), blockSize, files, sizes);
    forall m, j | 0 <= m < |levels| && 0 <= j < |levels[m]|
      ensures Holds(levels[m][j], Content(disk, view[m][j].number), blockSize, cache, files, sizes)
    {
      assert old(Holds(levels[m][j], Content(disk, view[m][j].number), blockSize, cache, files, sizes));
    }
  }

  // The tables in memory hold what the state says.
  ghost predicate MemoryStands(view: ReadView, s: State)
    reads view.mem, view.mem.table, view.mem.table.head, view.mem.table.nodes
    reads if view.imm == null then {} else {view.imm, view.imm.table, view.imm.table.head}
    reads if view.imm == null then [] else view.imm.table.nodes
  {
    && view.mem.Valid() && view.mem.Contents() == s.mem && view.ttl == s.ttl
    && (view.imm == null <==> s.imm == None)
    && (view.imm != null ==> view.imm.Valid() && view.imm.Contents() == s.imm.value)
  }

  // The active table, then the sealed one.
  method GetFromMemory(view: ReadView, key: TsKey, ghost s: State) returns (entry: Option<Entry>)
    requires MemoryStands(view, s)
    ensures entry == if Find(s.mem, key).Some? then Find(s.mem, key)
                     else if s.imm.Some? then Find(s.imm.value, key) else None
  {
    hide Find;
    entry := view.mem.GetEntry(key.measurement, key.timestamp);
    if entry == None && view.imm != null {
      entry := view.imm.GetEntry(key.measurement, key.timestamp);
    }
  }

  // TsdbEngine::Get, down to list pointers and file bytes: the step system's lookup in the state that the objects stand
  // for, and so the lookup in the map of all writes.
  method Get(view: ReadView, key: TsKey, ghost s: State, ghost h: History, ghost blockSize: int,
             cache: BlockCache.LruCache?, ghost files: Files, ghost sizes: Sizes)
    returns (value: Option<Bytes>)
    requires |s.version.levels| == MaxLevel && MemoryStands(view, s)
    requires ReadersStand(view.levels, ViewOf(s), s.disk, blockSize, cache, files, sizes)
    modifies cache
    ensures ReadersStand(view.levels, ViewOf(s), s.disk, blockSize, cache, files, sizes)
    ensures value == Lsm.Get(s, key)
    ensures Reachable(s, h) && Trusted(h, key) && InDomain(key) && (s.flush.NoFlush? || !HiddenInFlight(s, key))
            ==> value == MapGet(h.writes, s.ttl, key)
  {
    hide Reachable, Find, GetFromLevels, Expired, ViewOf, MapGet, InDomain, Trusted, HiddenInFlight, Less, Holds,
         Content,
         MemTable.MemTable.Valid, MemTable.MemTable.Contents;
    if Reachable(s, h) {
      StoreRefinesMap(s, h, key);
    }
    if Expired(view.ttl, key) {
      return None;
    }
    var entry := GetFromMemory(view, key, s);
    if entry == None {
      entry := GetFromTables(view.levels, key, ViewOf(s), s.disk, blockSize, cache, files, sizes);
    }
    return if entry.Some? then Visible(entry.value) else None;
  }

  // ---------------------------------------------------------------- range queries

  // One reader's records in range.
  method Scan(levels: seq<seq<ReaderRef>>, l: nat, i: nat, lo: TsKey, hi: TsKey, ghost view: View, ghost disk: Disk,
              ghost blockSize: int, cache: BlockCache.LruCache?, ghost files: Files, ghost sizes: Sizes)
    returns (out: seq<Record>)
    requires ReadersStand(levels, view, disk, blockSize, cache, files, sizes) && Aligned(levels, view)
    requires l < |levels| && i < |levels[l]|
    modifies cache
    ensures ReadersStand(levels, view, disk, blockSize, cache, files, sizes)
    ensures out == Slice(Content(disk, view[l][i].number), lo, hi)
  {
    hide Slice, Content, Table.Writable, Table.TableFile, Table.Blocks, Table.EncodedKeys, Table.FilterSize,
         Table.Agrees, Sorted;
    var reader := levels[l][i].reader;
    assert Holds(levels[l][i], Content(disk, view[l][i].number), blockSize, cache, files, sizes);
    out := reader.RangeScanEntries(lo, hi, Content(disk, view[l][i].number), blockSize, files, sizes);
    forall m, j | 0 <= m < |levels| && 0 <= j < |levels[m]|
      ensures Holds(levels[m][j], Content(disk, view[m][j].number), blockSize, cache, files, sizes)
    {
      assert old(Holds(levels[m][j], Content(disk, view[m][j].number), blockSize, cache, files, sizes));
    }
  }

  // The readers of one level, newest first, with ranks from base up.
  method AddLevel(all: seq<Ranked>, levels: seq<seq<ReaderRef>>, l: nat, base: nat, lo: TsKey, hi: TsKey,
                  ghost sources: seq<Source>, ghost view: View, ghost disk: Disk, ghost blockSize: int,
                  cache: BlockCache.LruCache?, ghost files: Files, ghost sizes: Sizes)
    returns (more: seq<Ranked>)
    requires ReadersStand(levels, view, disk, blockSize, cache, files, sizes) && Aligned(levels, view) && l < |levels|
    requires all == RankSources(sources, lo, hi)
    modifies cache
    ensures ReadersStand(levels, view, disk, blockSize, cache, files, sizes)
    ensures more == RankSources(sources + LevelSources(disk, view[l], base), lo, hi)
  {
    hide Slice, RankSources, Content, ReadersStand;
    more := all;
    ghost var done, metas := sources, view[l];
    assert metas[..|metas|] == metas;
    for i := |levels[l]| downto 0
      invariant ReadersStand(levels, view, disk, blockSize, cache, files, sizes)
      invariant more == RankSources(done, lo, hi)
      invariant done + LevelSources(disk, metas[..i], base + (|metas| - i)) == sources + LevelSources(disk, metas, base)
    {
      var out := Scan(levels, l, i, lo, hi, view, disk, blockSize, cache, files, sizes);
      var rank := base + (|levels[l]| - 1 - i);
      ghost var source := Source(Content(disk, metas[i].number), rank);
      more := Engine.AddRecords(more, out, rank, done, source.run, lo, hi);
      assert metas[..i + 1][..i] == metas[..i];
      Engine.Regroup(done, source, LevelSources(disk, metas[..i], base + (|metas| - i)));
      done := done + [source];
    }
    assert done + [] == done;
  }

  // Every reader of the view, level by level and newest first.
  method AddLevels(all: seq<Ranked>, levels: seq<seq<ReaderRef>>, lo: TsKey, hi: TsKey, ghost sources: seq<Source>,
                   ghost view: View, ghost disk: Disk, ghost blockSize: int, cache: BlockCache.LruCache?,
                     ghost files: Files,
                   ghost sizes: Sizes)
    returns (more: seq<Ranked>)
    requires ReadersStand(levels, view, disk, blockSize, cache, files, sizes) && Aligned(levels, view)
    requires all == RankSources(sources, lo, hi)
    modifies cache
    ensures ReadersStand(levels, view, disk, blockSize, cache, files, sizes)
    ensures more == RankSources(sources + DeepSources(disk, view, 0), lo, hi)
  {
    hide LevelSources, RankSources, ReadersStand;
    more := all;
    ghost var done := sources;
    for level := 0 to |levels|
      invariant ReadersStand(levels, view, disk, blockSize, cache, files, sizes)
      invariant more == RankSources(done, lo, hi)
      invariant done + DeepSources(disk, view, level) == sources + DeepSources(disk, view, 0)
    {
      var base := 2 + level * RanksPerLevel;
      more := AddLevel(more, levels, level, base, lo, hi, done, view, disk, blockSize, cache, files, sizes);
      ghost var x, rest := LevelSources(disk, view[level], base), DeepSources(disk, view, level + 1);
      assert done + (x + rest) == done + x + rest;
      done := done + x;
    }
    assert done + [] == done;
  }

  // The two tables in memory.
  method AddMemory(view: ReadView, measurement: Bytes, start: int64, end: int64, ghost s: State)
    returns (all: seq<Ranked>, ghost sources: seq<Source>)
    requires MemoryStands(view, s) && start <= end
    ensures sources == [Source(s.mem, 0)] + (if s.imm.Some? then [Source(s.imm.value, 1)] else [])
    ensures all == RankSources(sources, TsKey(measurement, start), TsKey(measurement, end))
  {
    hide Slice, RankSources;
    ghost var lo, hi := TsKey(measurement, start), TsKey(measurement, end);
    Engine.NoSources(lo, hi);
    var records := view.mem.RangeQueryEntries(measurement, start, end);
    all := Engine.AddRecords([], records, 0, [], s.mem, lo, hi);
    sources := [] + [Source(s.mem, 0)];
    if view.imm != null {
      records := view.imm.RangeQueryEntries(measurement, start, end);
      all := Engine.AddRecords(all, records, 1, sources, s.imm.value, lo, hi);
      sources := sources + [Source(s.imm.value, 1)];
    }
  }

  // TsdbEngine::RangeQuery, down to list pointers and file bytes.
  method RangeQuery(view: ReadView, measurement: Bytes, start: int64, end: int64, ghost s: State, ghost blockSize: int,
                    cache: BlockCache.LruCache?, ghost files: Files, ghost sizes: Sizes)
    returns (out: seq<Record>)
    requires |s.version.levels| == MaxLevel && MemoryStands(view, s)
    requires ReadersStand(view.levels, ViewOf(s), s.disk, blockSize, cache, files, sizes)
    modifies cache
    ensures ReadersStand(view.levels, ViewOf(s), s.disk, blockSize, cache, files, sizes)
    ensures out == LsmRange.RangeQuery(s, measurement, start, end)
  {
    hide ViewOf, RankSources, DeepSources, Slice, RankAll, SortRanked, Firsts, Reported, Holds, Content,
         MemTable.MemTable.Valid, MemTable.MemTable.Contents;
    if end < start {
      return [];
    }
    var lo, hi := TsKey(measurement, start), TsKey(measurement, end);
    var all;
    ghost var sources;
    all, sources := AddMemory(view, measurement, start, end, s);
    all := AddLevels(all, view.levels, lo, hi, sources, ViewOf(s), s.disk, blockSize, cache, files, sizes);
    assert sources + DeepSources(s.disk, ViewOf(s), 0) == SourcesOf(s);
    var merged := TakeFirsts(SortRanked(all));
    out := Engine.Report(merged, view.ttl);
  }

  // ---------------------------------------------------------------- flush and compaction input

  // The flush thread's work on a table: iterate, build the file, open it. The reader answers for the table's records
  // from TsKey{} up, and its end keys become the bounds of the file.
  method FlushTable(table: MemTable.MemTable, blockSize: int, name: Bytes, ghost number: nat, ghost size: nat)
    returns (reader: Table.SSTableReader, ok: bool)
    requires table.Valid() && Table.Writable(FromZeroKey(table.Contents()), blockSize)
    ensures ok && fresh(reader) && reader.name == name && reader.Reads(FromZeroKey(table.Contents()), blockSize)
    ensures Sorted(table.Contents()) ==> Sorted(FromZeroKey(table.Contents()))
    ensures MetaOf(number, size, FromZeroKey(table.Contents())) == FileMeta(number, size, reader.minKey, reader.maxKey)
  {
    hide Table.Writable, Table.TableFile, Table.Blocks, Table.EncodedKeys, Table.FilterSize, FromZeroKey, Sorted, Less;
    FromZeroKeyMembers(table.Contents());
    var records := table.IterateEntries();
    var file := Table.Build(records, blockSize);
    reader, ok := Table.OpenBuilt(name, file, records, blockSize);
  }

  // What the compaction reader leaves out is what the merge would not keep.
  lemma {:induction false} UnreadIsNotKept(run: seq<Record>, ttl: TtlMap, age: int)
    ensures RankFile(Slice(run, TsKey([], MinTs), LastReadKey), ttl, age) == RankFile(run, ttl, age)
  {
    hide Less, Expired;
    if run != [] {
      var n := |run| - 1;
      UnreadIsNotKept(run[..n], ttl, age);
      LowestKeyIsLeast(run[n].key);
    }
  }

  lemma {:induction false} LowestKeyIsLeast(k: TsKey)
    ensures AtMost(TsKey([], MinTs), k)
  {
  }

  // MakeSSTReader: open an input file of a compaction and scan it up to the last key read. What the merge keeps of the
  // file is what it keeps of the scan.
  method ReadInput(name: Bytes, file: Bytes, ghost records: seq<Record>, ghost blockSize: int)
    returns (out: seq<Record>)
    requires Table.Writable(records, blockSize) && Sorted(records)
             && TableFormat.NonEmpty(Table.Blocks(records, blockSize))
    requires file == Table.TableFile(records, blockSize)
    ensures out == Slice(records, TsKey([], MinTs), LastReadKey)
    ensures forall ttl, age :: RankFile(out, ttl, age) == RankFile(records, ttl, age)
  {
    hide Table.Writable, Table.TableFile, Table.Blocks, Table.EncodedKeys, Table.FilterSize, Slice, RankFile,
         Table.BlockSizes;
    var reader, ok := Table.OpenBuilt(name, file, records, blockSize);
    Table.NamedSizes(name, records, blockSize);
    out := reader.RangeScanEntries(TsKey([], MinTs), LastReadKey, records, blockSize, map[name := file],
                                   Table.BlockSizes(name, TableFormat.IndexOf(Table.Blocks(records, blockSize))));
    forall ttl, age ensures RankFile(out, ttl, age) == RankFile(records, ttl, age) {
      UnreadIsNotKept(records, ttl, age);
    }
  }
}
