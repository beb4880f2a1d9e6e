// Writing a table and reading it back. Models SSTableBuilder and SSTableReader of src/sstable.cpp.
module Table {
  import opened Types
  import opened Codec
  import opened TableFormat
  import opened TableLayout
  import opened Text
  import Cache = BlockCache
  import Crc32
  import Bloom

  const BitsPerKey := 10          // BloomFilter's default, and the probes that follow from it
  const Probes := 7

  // How the builder cuts records into blocks: finished blocks and the block being filled.
  function Split(records: seq<Record>, blockSize: int): (s: (seq<seq<Record>>, seq<Record>)) {
    if records == [] then ([], []) else
      var (blocks, pending) := Split(records[..|records| - 1], blockSize);
      var block := pending + [records[|records| - 1]];
      if |BlockBytes(block)| >= blockSize then (blocks + [block], []) else (blocks, block)
  }

  function Blocks(records: seq<Record>, blockSize: int): seq<seq<Record>> {
    var (blocks, pending) := Split(records, blockSize);
    if pending == [] then blocks else blocks + [pending]
  }

  function EncodedKeys(records: seq<Record>): (k: seq<Bytes>)
    ensures |k| == |records|
  {
    if records == [] then [] else EncodedKeys(records[..|records| - 1]) + [EncodeKey(records[|records| - 1].key)]
  }

  lemma {:induction false} EncodedKeysMember(records: seq<Record>, r: Record)
    requires r in records
    ensures EncodeKey(r.key) in EncodedKeys(records)
  {
    hide EncodeKey;
    var n := |records| - 1;
    if records[n] != r {
      assert records == records[..n] + [records[n]];
      EncodedKeysMember(records[..n], r);
    }
  }

  // Cutting into blocks keeps every record, in order, and makes no empty block.
  lemma {:induction false} SplitKeepsRecords(records: seq<Record>, blockSize: int)
    ensures var (blocks, pending) := Split(records, blockSize);
            NonEmpty(blocks) && Flatten(blocks) + pending == records
  {
    hide BlockBytes;
    if records != [] {
      var init, last := records[..|records| - 1], records[|records| - 1];
      SplitKeepsRecords(init, blockSize);
      var (blocks, pending) := Split(init, blockSize);
      FlattenAppend(blocks, pending + [last]);
      assert Flatten(blocks) + (pending + [last]) == init + [last] == records;
      assert Flatten(blocks) + (pending + [last]) + [] == records;
    }
  }

  lemma {:induction false} BlocksKeepRecords(records: seq<Record>, blockSize: int)
    ensures NonEmpty(Blocks(records, blockSize)) && Flatten(Blocks(records, blockSize)) == records
  {
    hide Split;
    SplitKeepsRecords(records, blockSize);
    var (blocks, pending) := Split(records, blockSize);
    FlattenAppend(blocks, pending);
    assert Flatten(blocks) + [] == Flatten(blocks);
  }

  // A block that stops at the entry with which its bytes reach the block size.
  ghost predicate StopsAt(block: seq<Record>, blockSize: int) {
    && block != [] && |BlockBytes(block)| >= blockSize
    && (|block| > 1 ==> |BlockBytes(block[..|block| - 1])| < blockSize)
  }

  lemma {:induction false} SplitStops(records: seq<Record>, blockSize: int)
    ensures var (blocks, pending) := Split(records, blockSize);
            && (forall i :: 0 <= i < |blocks| ==> StopsAt(blocks[i], blockSize))
            && (pending != [] ==> |BlockBytes(pending)| < blockSize)
  {
    hide BlockBytes;
    if records != [] {
      var init, last := records[..|records| - 1], records[|records| - 1];
      SplitStops(init, blockSize);
      var (blocks, pending) := Split(init, blockSize);
      assert (pending + [last])[..|pending + [last]| - 1] == pending;
    }
  }

  // Every block but the last reaches the block size, and none does so before its last entry.
  lemma {:induction false} BlocksReachSize(records: seq<Record>, blockSize: int, i: nat)
    requires i < |Blocks(records, blockSize)|
    ensures var blocks := Blocks(records, blockSize);
            && blocks[i] != []
            && (|blocks[i]| > 1 ==> |BlockBytes(blocks[i][..|blocks[i]| - 1])| < blockSize)
            && (i < |blocks| - 1 ==> |BlockBytes(blocks[i])| >= blockSize)
  {
    hide BlockBytes, Split;
    SplitStops(records, blockSize);
    var (blocks, pending) := Split(records, blockSize);
    if i == |blocks| && |pending| > 1 {
      ShorterBlock(pending);
    }
  }

  lemma {:induction false} ShorterBlock(block: seq<Record>)
    requires block != []
    ensures |BlockBytes(block[..|block| - 1])| < |BlockBytes(block)|
  {
    hide BlockBytes, EntryBytes;
    var n := |block| - 1;
    assert block == block[..n] + [block[n]];
    BlockBytesAppend(block[..n], block[n]);
  }

  // The stored Bloom filter of a table.
  function BloomBytes(records: seq<Record>): Bytes {
    var size := FilterSize(|records|);
    Bloom.Stored(Bloom.Filled(EncodedKeys(records), size, Probes), Probes, |records|)
  }

  // The size of a filter's array after so many keys.
  function FilterSize(keys: nat): (n: nat)
    ensures n > 0
  {
    if keys == 0 then 1024 else Bloom.Grown(FilterSize(keys - 1), Bloom.NeededBytes(keys, BitsPerKey))
  }

  lemma {:induction false} GrownDoubles(k: nat, needed: nat) returns (j: nat)
    requires needed > 0
    ensures k <= j && Bloom.Grown(1024 * Pow2(k), needed) == 1024 * Pow2(j) && 1024 * Pow2(j) >= needed
    ensures j > k ==> 512 * Pow2(j) < needed
    decreases needed - 1024 * Pow2(k)
  {
    j := k;
    if 1024 * Pow2(k) < needed {
      assert Pow2(k + 1) == 2 * Pow2(k);
      j := GrownDoubles(k + 1, needed);
    }
  }

  // A filter has ten bits a key, in the fewest doublings of 1024 bytes that give them.
  lemma {:induction false} FilterSizeIs(keys: nat) returns (k: nat)
    ensures FilterSize(keys) == 1024 * Pow2(k) && 8 * FilterSize(keys) >= 10 * keys
    ensures k > 0 ==> 8 * (512 * Pow2(k)) < 10 * keys
  {
    hide Bloom.Grown;
    k := 0;
    if keys > 0 {
      k := FilterSizeIs(keys - 1);
      k := GrownDoubles(k, Bloom.NeededBytes(keys, BitsPerKey));
    }
  }

  // Everything that is written stays within the machine widths of the format.
  ghost predicate Writable(records: seq<Record>, blockSize: int) {
    && (forall n :: 0 <= n <= |records| ==> Bloom.Addressable(FilterSize(n)))
    && Fits(Blocks(records, blockSize), BloomBytes(records))
  }

  // The finished file.
  ghost function TableFile(records: seq<Record>, blockSize: int): Bytes
    requires NonEmpty(Blocks(records, blockSize))
  {
    var blocks := Blocks(records, blockSize);
    FileBytes(Data(blocks), IndexOf(blocks), BloomBytes(records))
  }

  // ---------------------------------------------------------------- the builder

  class SSTableBuilder {
    const blockSize: int
    const bloom: Bloom.BloomFilter
    var file: Bytes
    var fileOffset: nat
    var blockBuf: Bytes
    var lastBlockKey: TsKey
    var blockOffsets: seq<nat>
    var blockSizes: seq<nat>
    var blockLastKeys: seq<TsKey>
    var numEntries: nat
    ghost var added: seq<Record>

    // The block vectors describe these blocks.
    ghost predicate Describes(blocks: seq<seq<Record>>)
      reads this
    {
      && NonEmpty(blocks)
      && |blockOffsets| == |blockSizes| == |blockLastKeys| == |blocks|
      && forall i :: 0 <= i < |blocks| ==>
           var e := IndexOf(blocks)[i];
           blockLastKeys[i] == e.lastKey && blockOffsets[i] == e.offset && blockSizes[i] == e.size % Two32
    }

    ghost predicate Holds(blocks: seq<seq<Record>>, pending: seq<Record>)
      reads this
    {
      && fileOffset == |file| && file == Data(blocks)
      && blockBuf == BlockBytes(pending)
      && (pending != [] ==> lastBlockKey == LastKey(pending))
      && Describes(blocks)
    }

    ghost predicate Valid()
      reads this, bloom
    {
      && Holds(Split(added, blockSize).0, Split(added, blockSize).1)
      && numEntries == |added|
      && bloom.Valid() && bloom.keys == EncodedKeys(added) && |bloom.bits| == FilterSize(|added|)
      && bloom.bitsPerKey == BitsPerKey && bloom.probes == Probes
    }

    constructor (blockSize: int)
      ensures Valid() && added == [] && this.blockSize == blockSize && fresh(bloom)
    {
      this.blockSize := blockSize;
      bloom := new Bloom.BloomFilter(BitsPerKey, Probes);
      file, fileOffset, blockBuf, lastBlockKey := [], 0, [], ZeroKey;
      blockOffsets, blockSizes, blockLastKeys, numEntries := [], [], [], 0;
      added := [];
    }

    method Add(key: TsKey, entry: Entry)
      requires Valid() && Bloom.Addressable(FilterSize(|added| + 1))
      modifies this, bloom
      ensures Valid() && added == old(added) + [Record(key, entry)]
    {
      hide Data, BlockBytes, EncodeKey, Bloom.Filled, Bloom.Grown, Bloom.NeededBytes, IndexOf;
      ghost var r := Record(key, entry);
      ghost var (blocks, pending) := Split(added, blockSize);
      assert (added + [r])[..|added|] == added;
      var keyBuf := EncodeKey(key);
      AppendEntry(keyBuf, key, entry);
      EntryAppended(pending, r);
      bloom.Add(keyBuf);
      lastBlockKey := key;
      numEntries := numEntries + 1;
      added := added + [r];
      assert Holds(blocks, pending + [r]);
      if |blockBuf| >= blockSize {
        FlushBlock(blocks, pending + [r]);
      }
    }

    method AppendEntry(keyBuf: Bytes, key: TsKey, entry: Entry)
      requires keyBuf == EncodeKey(key)
      modifies `blockBuf
      ensures blockBuf == old(blockBuf) + EntryBytes(Record(key, entry))
    {
      hide EncodeKey, Varint;
      var n := EncodeVarint(|keyBuf| % Two32);
      var m := EncodeVarint(|Stored(entry)| % Two32);
      blockBuf := blockBuf + n + keyBuf + [TypeByte(entry)] + m + Stored(entry);
    }

    // The block being filled goes to the file, with its checksum.
    method FlushBlock(ghost blocks: seq<seq<Record>>, ghost pending: seq<Record>)
      requires Holds(blocks, pending)
      modifies this
      ensures pending == [] ==> Holds(blocks, [])
      ensures pending != [] ==> Holds(blocks + [pending], [])
      ensures added == old(added) && numEntries == old(numEntries)
    {
      hide Data, BlockBytes, EncodeKey, IndexOf, Fixed32, Crc32.Crc, Crc32.Checksum;
      BlockBytesEmpty(pending);
      if blockBuf == [] {
        return;
      }
      DataAppend(blocks, pending);
      blockOffsets := blockOffsets + [fileOffset];
      var crc := Crc32.Compute(blockBuf, 0);
      Crc32.NumberFits(crc);
      var record := Fixed32(crc as int) + blockBuf;
      assert record == BlockRecord(blockBuf) by { ChecksumOf(blockBuf); }
      file := file + record;
      fileOffset := fileOffset + |record|;
      blockSizes := blockSizes + [|record| % Two32];
      blockLastKeys := blockLastKeys + [lastBlockKey];
      blockBuf := [];
      BlockBytesEmpty([]);
    }

    // Index, filter and footer follow the last block.
    method Finish()
      requires Valid() && Writable(added, blockSize)
      modifies this
      ensures added == old(added) && NonEmpty(Blocks(added, blockSize)) && file == TableFile(added, blockSize)
    {
      hide Data, BlockBytes, EncodeKey, IndexOf, Split, Varint, IndexBytes, Fits, BloomBytes, Bloom.Filled, FileBytes,
           Footer, Bloom.Stored, FilterSize;
      ghost var (blocks, pending) := Split(added, blockSize);
      ghost var all := Blocks(added, blockSize);
      FlushBlock(blocks, pending);
      assert Holds(all, []);
      var indexOffset := fileOffset;
      var indexBuf := BuildIndex(all);
      file := file + indexBuf;
      fileOffset := fileOffset + |indexBuf|;
      var bloomOffset := fileOffset;
      var bloomData := bloom.Encode();
      BloomBytesAre(added, bloom.bits);
      file := file + bloomData;
      fileOffset := fileOffset + |bloomData|;
      file := file + Footer(indexOffset, bloomOffset);
      FileIs(all, indexBuf, bloomData);
    }

    method BuildIndex(ghost blocks: seq<seq<Record>>) returns (indexBuf: Bytes)
      requires Describes(blocks) && Fits(blocks, BloomBytes(added))
      ensures indexBuf == Varint(|blocks| % Two32) + IndexBytes(IndexOf(blocks))
    {
      hide Data, BlockBytes, EncodeKey, IndexOf, Varint, IndexEntryBytes, IndexBytes, Fits, BloomBytes;
      indexBuf := EncodeVarint(|blockOffsets| % Two32);
      ghost var head := indexBuf;
      ghost var index := IndexOf(blocks);
      NoIndexBytes(head);
      for i := 0 to |blockOffsets|
        invariant indexBuf == head + IndexBytes(index[..i])
      {
        SizeFits(blocks, BloomBytes(added), i);
        var e := IndexEntry(blockLastKeys[i], blockOffsets[i], blockSizes[i]);
        assert e == index[i] && index[..i + 1] == index[..i] + [e];
        IndexBytesAppend(index[..i], e);
        Regroup(head, IndexBytes(index[..i]), IndexEntryBytes(e));
        indexBuf := indexBuf + IndexEntryBytes(e);
      }
      assert index[..|blockOffsets|] == index;
    }
  }

  lemma {:induction false} NoIndexBytes(head: Bytes)
    ensures head + IndexBytes([]) == head
  {
  }

  lemma {:induction false} EntryAppended(pending: seq<Record>, r: Record)
    ensures BlockBytes(pending + [r]) == BlockBytes(pending) + EntryBytes(r)
    ensures LastKey(pending + [r]) == r.key
  {
    BlockBytesAppend(pending, r);
  }

  lemma {:induction false} BlockBytesEmpty(records: seq<Record>)
    ensures BlockBytes(records) == [] <==> records == []
  {
  }

  lemma {:induction false} ChecksumOf(data: Bytes)
    ensures Crc32.Checksum(data) == Crc32.Crc(data, 0) as int
  {
  }

  lemma {:induction false} DataAppend(blocks: seq<seq<Record>>, b: seq<Record>)
    requires NonEmpty(blocks) && b != []
    ensures NonEmpty(blocks + [b])
    ensures Data(blocks + [b]) == Data(blocks) + BlockRecord(BlockBytes(b))
    ensures IndexOf(blocks + [b]) == IndexOf(blocks) + [IndexEntry(LastKey(b), |Data(blocks)|, 4 + |BlockBytes(b)|)]
  {
    hide BlockBytes;
    assert (blocks + [b])[..|blocks|] == blocks;
  }

  lemma {:induction false} SizeFits(blocks: seq<seq<Record>>, bloom: Bytes, i: nat)
    requires Fits(blocks, bloom) && i < |blocks|
    ensures IndexOf(blocks)[i].size % Two32 == IndexOf(blocks)[i].size
  {
    hide BlockBytes, IndexOf, Data, FileBytes, AllStorable;
    IndexAt(blocks, i);
  }

  lemma {:induction false} BloomBytesAre(records: seq<Record>, bits: seq<bv8>)
    requires bits == Bloom.Filled(EncodedKeys(records), FilterSize(|records|), Probes)
    ensures Bloom.Stored(bits, Probes, |records|) == BloomBytes(records)
  {
  }

  lemma {:induction false} FileIs(blocks: seq<seq<Record>>, indexBuf: Bytes, bloom: Bytes)
    requires NonEmpty(blocks) && indexBuf == Varint(|blocks| % Two32) + IndexBytes(IndexOf(blocks))
    ensures FileBytes(Data(blocks), IndexOf(blocks), bloom)
            == Data(blocks) + indexBuf + bloom + Footer(|Data(blocks)|, |Data(blocks)| + |indexBuf|)
  {
    hide Data, IndexOf, IndexBytes, Varint, Footer;
  }

  // ---------------------------------------------------------------- the cache beside the files

  // What is cached is what the files hold: every entry is the block of some file at some offset. The files do not
  // change, and sizes is the length that the file's index gives for the block there.
  ghost predicate Agrees(contents: seq<Cache.Cached>, disk: map<Bytes, Bytes>, sizes: map<(Bytes, nat), nat>) {
    forall e :: e in contents ==> FromDisk(e, disk, sizes)
  }

  ghost predicate FromDisk(e: Cache.Cached, disk: map<Bytes, Bytes>, sizes: map<(Bytes, nat), nat>) {
    exists f: Bytes, o: nat :: e.key == CacheKey(f, o) && f in disk && (f, o) in sizes
      && e.value == BlockAt(disk[f], o, sizes[(f, o)])
  }

  lemma {:induction false} CachedIsBlock(e: Cache.Cached, disk: map<Bytes, Bytes>, sizes: map<(Bytes, nat), nat>,
                                         f: Bytes, o: nat)
    requires FromDisk(e, disk, sizes) && e.key == CacheKey(f, o)
    ensures f in disk && (f, o) in sizes && e.value == BlockAt(disk[f], o, sizes[(f, o)])
  {
    hide CacheKey, BlockAt;
    var g: Bytes, p: nat :| e.key == CacheKey(g, p) && g in disk && (g, p) in sizes
      && e.value == BlockAt(disk[g], p, sizes[(g, p)]);
    CacheKeyIsInjective(f, o, g, p);
  }

  lemma {:induction false} AgreesAfterGet(s: seq<Cache.Cached>, e: Cache.Cached, disk: map<Bytes, Bytes>,
                                          sizes: map<(Bytes, nat), nat>)
    requires Agrees(s, disk, sizes) && FromDisk(e, disk, sizes)
    ensures Agrees([e] + Cache.Without(s, e.key), disk, sizes)
  {
    hide FromDisk, Cache.Without;
    Cache.WithoutMembers(s, e.key);
  }

  lemma {:induction false} AgreesAfterPut(s: seq<Cache.Cached>, e: Cache.Cached, capacity: nat, disk: map<Bytes,
                                          Bytes>, sizes: map<(Bytes, nat), nat>)
    requires Agrees(s, disk, sizes) && FromDisk(e, disk, sizes)
    ensures Agrees(Cache.Pruned([e] + Cache.Without(s, e.key), capacity), disk, sizes)
  {
    hide FromDisk, Cache.Without, Cache.Pruned;
    AgreesAfterGet(s, e, disk, sizes);
    var all := [e] + Cache.Without(s, e.key);
    Cache.PrunedIsLongestFit(all, capacity);
    assert forall x :: x in Cache.Pruned(all, capacity) ==> x in all;
  }

  // ---------------------------------------------------------------- the reader

  class SSTableReader {
    const name: Bytes
    const file: Bytes
    var index: seq<IndexEntry>
    var bloom: Bloom.BloomFilter
    var minKey: TsKey
    var maxKey: TsKey
    var cache: Cache.LruCache?

    // The reader has opened the finished table of these records.
    ghost predicate Reads(records: seq<Record>, blockSize: int)
      reads this, bloom
    {
      && Writable(records, blockSize) && file == TableFile(records, blockSize)
      && index == IndexOf(Blocks(records, blockSize))
      && bloom.bits == Bloom.Filled(EncodedKeys(records), FilterSize(|records|), Probes) && bloom.probes == Probes
      && minKey == MinKey(records) && maxKey == MaxKey(records)
    }

    // The cache, if there is one, holds blocks of the files, this one among them.
    ghost predicate CacheOk(disk: map<Bytes, Bytes>, sizes: map<(Bytes, nat), nat>)
      reads this, cache
    {
      && name in disk && disk[name] == file
      && (forall e :: e in index ==> (name, e.offset) in sizes && sizes[(name, e.offset)] == e.size)
      && (cache != null ==> cache.Valid() && Agrees(cache.Contents(), disk, sizes))
    }

    constructor (name: Bytes, file: Bytes)
      ensures this.name == name && this.file == file && index == [] && cache == null && fresh(bloom)
    {
      this.name, this.file := name, file;
      index, minKey, maxKey, cache := [], ZeroKey, ZeroKey, null;
      bloom := new Bloom.BloomFilter(BitsPerKey, Probes);
    }

    method SetBlockCache(cache: Cache.LruCache?)
      modifies `cache
      ensures this.cache == cache
    {
      this.cache := cache;
    }

    method Open() returns (ok: bool)
      requires Openable(file)
      modifies this
      ensures ok == TableFormat.Open(file).Some? && cache == old(cache)
      ensures ok ==>
                var t := TableFormat.Open(file).value;
                && index == t.index && minKey == t.min && maxKey == t.max
                && fresh(bloom) && Bloom.Filter(bloom.bits, bloom.probes, bloom.numKeys) == t.bloom
    {
      hide ReadIndex, DecodeVarint, BlockAt, FirstKeyIn, Bloom.Load, FooterField, FromLittle, BloomReadable;
      if !FooterOk(file) {
        return false;
      }
      var indexOffset, bloomOffset := FooterField(file, 0), FooterField(file, 1);
      var indexData := file[indexOffset..bloomOffset];
      FilterReadable(file[bloomOffset..|file| - FooterSize]);
      bloom := new Bloom.BloomFilter.Decode(file[bloomOffset..|file| - FooterSize]);
      DecodeVarintInside(indexData, 0);
      var count, pos := ReadVarint32(indexData, 0);
      ok, index := ReadIndexEntries(indexData[pos..], if count == VarintError then 0 else count);
      if !ok {
        return;
      }
      minKey, maxKey := ZeroKey, ZeroKey;
      if index != [] {
        maxKey := index[|index| - 1].lastKey;
        minKey := FirstKeyIn(BlockAt(file, index[0].offset, index[0].size));
      }
    }

    static method ReadIndexEntries(data: Bytes, count: nat) returns (ok: bool, index: seq<IndexEntry>)
      ensures ok == ReadIndex(data, count).Some? && (ok ==> index == ReadIndex(data, count).value)
    {
      hide ReadIndexEntry;
      var rest := data;
      index := [];
      for i := 0 to count
        invariant ReadIndex(data, count).Some? <==> ReadIndex(rest, count - i).Some?
        invariant ReadIndex(rest, count - i).Some? ==>
                    ReadIndex(data, count).value == index + ReadIndex(rest, count - i).value
      {
        var e := ReadIndexEntry(rest);
        if e.None? {
          return false, index;
        }
        index := index + [e.value.0];
        rest := rest[e.value.1..];
      }
      ok := true;
    }

    // Through the cache or not, the block of the file.
    method ReadBlock(offset: nat, size: nat, ghost disk: map<Bytes, Bytes>, ghost sizes: map<(Bytes, nat), nat>)
      returns (block: Bytes)
      requires CacheOk(disk, sizes) && (name, offset) in sizes && sizes[(name, offset)] == size
      modifies cache
      ensures CacheOk(disk, sizes)
      ensures block == BlockAt(file, offset, size)
    {
      hide Crc32.Checksum, FromLittle, CacheKey, Cache.Lookup, Cache.Pruned, Cache.Without,
           Cache.LruCache.Valid, Cache.LruCache.Contents;
      if size < 4 {
        return [];
      }
      var cacheKey := CacheKey(name, offset);
      if cache != null {
        ghost var before := cache.Contents();
        var found, cached := cache.Get(cacheKey);
        if found {
          Cache.LookupMisses(before, cacheKey);
          CachedIsBlock(Cache.Cached(cacheKey, cached), disk, sizes, name, offset);
          AgreesAfterGet(before, Cache.Cached(cacheKey, cached), disk, sizes);
          return cached;
        }
      }
      if offset + size > |file| {
        return [];
      }
      var raw := file[offset..offset + size];
      var storedCrc := FromLittle(raw[..4]);
      block := raw[4..];
      var crc := Crc32.Compute(block, 0);
      ChecksumOf(block);
      if crc as int != storedCrc {
        return [];
      }
      if cache != null {
        BlockFromDisk(cacheKey, block, disk, sizes, name, offset);
        AgreesAfterPut(cache.Contents(), Cache.Cached(cacheKey, block), cache.capacity, disk, sizes);
        cache.Put(cacheKey, block);
      }
    }

    static method GetFromBlock(block: Bytes, key: TsKey) returns (entry: Option<Entry>)
      ensures entry == LookIn(block, key)
    {
      hide ReadEntry, Compare;
      var rest := block;
      while rest != []
        invariant LookIn(rest, key) == LookIn(block, key)
        decreases |rest|
      {
        var r := ReadEntry(rest);
        if r.None? {
          return None;
        }
        var (record, n) := r.value;
        rest := rest[n..];
        var c := Compare(record.key, key);
        if c == 0 {
          return Some(record.entry);
        }
        if c > 0 {
          return None;
        }
      }
      NoEntry();
      return None;
    }

    // std::lower_bound over the index, which is ordered by last key.
    method LowerBound(key: TsKey) returns (i: nat)
      requires forall j, k :: 0 <= j < k < |index| ==> Less(index[j].lastKey, index[k].lastKey)
      ensures IsLowerBound(index, key, i)
    {
      hide Less;
      i := 0;
      var n: nat := |index|;
      while n > 0
        invariant i + n <= |index|
        invariant forall j :: 0 <= j < i ==> Less(index[j].lastKey, key)
        invariant i + n < |index| ==> !Less(index[i + n].lastKey, key)
      {
        var half := n / 2;
        if Less(index[i + half].lastKey, key) {
          forall j | i <= j < i + half ensures Less(index[j].lastKey, key) {
            LessTransitive(index[j].lastKey, index[i + half].lastKey, key);
          }
          i := i + half + 1;
          n := n - half - 1;
        } else {
          n := half;
        }
      }
    }

    // The entry of the key, exactly as the records have it.
    method GetEntry(key: TsKey, ghost records: seq<Record>, ghost blockSize: int,
                    ghost disk: map<Bytes, Bytes>, ghost sizes: map<(Bytes, nat), nat>)
      returns (entry: Option<Entry>, dataBlockRead: bool)
      requires Reads(records, blockSize) && Sorted(records) && CacheOk(disk, sizes)
      modifies cache
      ensures CacheOk(disk, sizes)
      ensures entry == Find(records, key)
      ensures dataBlockRead <==> records != [] && Bloom.Holds(bloom.bits, bloom.probes, EncodeKey(key))
                                 && !Less(MaxKey(records), key)
    {
      hide Less, IndexOf, Flatten, Find, EncodeKey, BlockAt, Data, BlockBytes, Blocks, Writable, FileBytes, Sorted,
           Bloom.Filled, Bloom.Holds, EncodedKeys, LookIn, IsLowerBound, BloomBytes;
      ghost var blocks := Blocks(records, blockSize);
      BlocksKeepRecords(records, blockSize);
      if index == [] {
        NoBlocks(blocks, key);
        return None, false;
      }
      LastOfIndex(blocks, records);
      var keyBuf := EncodeKey(key);
      FilterAddressable(records, blockSize);
      var may := bloom.MayContain(keyBuf);
      if !may {
        FilterTellsAbsent(records, key);
        return None, false;
      }
      IndexIsSorted(blocks);
      var i := LowerBound(key);
      FindInBlock(blocks, key, i);
      BoundIsInside(index, key, i);
      BoundIsLast(index, key, i);
      if i == |index| {
        return None, false;
      }
      dataBlockRead := true;
      BlockReads(records, blockSize, i);
      var block := ReadBlock(index[i].offset, index[i].size, disk, sizes);
      entry := GetFromBlock(block, key);
      LookInIsFind(blocks[i], key);
    }

    // The records of the table from begin to end.
    method RangeScanEntries(begin: TsKey, end: TsKey, ghost records: seq<Record>, ghost blockSize: int,
                            ghost disk: map<Bytes, Bytes>, ghost sizes: map<(Bytes, nat), nat>)
      returns (out: seq<Record>)
      requires Reads(records, blockSize) && Sorted(records) && CacheOk(disk, sizes)
      modifies cache
      ensures CacheOk(disk, sizes)
      ensures out == Slice(records, begin, end)
    {
      hide Compare, Less, IndexOf, Flatten, EncodeKey, BlockAt, Data, BlockBytes, Blocks, Writable, FileBytes, Sorted,
           Bloom.Filled, EncodedKeys, ScanBlock, Slice, Beyond, BloomBytes;
      ghost var blocks := Blocks(records, blockSize);
      BlocksKeepRecords(records, blockSize);
      out := [];
      NothingFlattened(blocks, begin, end);
      for i := 0 to |index|
        invariant out == Slice(Flatten(blocks[..i]), begin, end)
        invariant CacheOk(disk, sizes)
      {
        SliceNextBlock(blocks, i, begin, end);
        IndexAt(blocks, i);
        CompareTells(index[i].lastKey, begin);
        if Compare(index[i].lastKey, begin) < 0 {
          BlockBelow(blocks, i, begin, end);
        } else {
          BlockReads(records, blockSize, i);
          SortedBlock(blocks, i);
          var block := ReadBlock(index[i].offset, index[i].size, disk, sizes);
          ScanBlockIsSlice(blocks[i], begin, end);
          var stop;
          out, stop := ScanInto(out, block, begin, end);
          if stop {
            BlocksBeyond(blocks, i, begin, end);
            return;
          }
        }
      }
      assert blocks[..|index|] == blocks;
    }

    // The walk over one block; stop: a key past the end was met.
    static method ScanInto(soFar: seq<Record>, block: Bytes, begin: TsKey, end: TsKey)
      returns (out: seq<Record>, stop: bool)
      ensures out == soFar + ScanBlock(block, begin, end).0 && stop == ScanBlock(block, begin, end).1
    {
      hide ReadEntry, Compare;
      out := soFar;
      var rest := block;
      while rest != []
        invariant soFar + ScanBlock(block, begin, end).0 == out + ScanBlock(rest, begin, end).0
        invariant ScanBlock(block, begin, end).1 == ScanBlock(rest, begin, end).1
        decreases |rest|
      {
        var r := ReadEntry(rest);
        if r.None? {
          return out, false;
        }
        var (record, n) := r.value;
        rest := rest[n..];
        if Compare(record.key, begin) >= 0 {
          if Compare(record.key, end) > 0 {
            return out, true;
          }
          out := out + [record];
        }
      }
      NoEntry();
      stop := false;
    }
  }

  lemma {:induction false} FilterReadable(data: Bytes)
    requires BloomReadable(data)
    ensures Bloom.Loadable(data)
  {
  }

  lemma {:induction false} BlockFromDisk(key: Bytes, block: Bytes, disk: map<Bytes, Bytes>, sizes: map<(Bytes, nat),
                                         nat>, f: Bytes, o: nat)
    requires key == CacheKey(f, o) && f in disk && (f, o) in sizes && block == BlockAt(disk[f], o, sizes[(f, o)])
    ensures FromDisk(Cache.Cached(key, block), disk, sizes)
  {
  }

  lemma {:induction false} NoBlocks(blocks: seq<seq<Record>>, key: TsKey)
    requires NonEmpty(blocks) && IndexOf(blocks) == []
    ensures Find(Flatten(blocks), key) == None && Flatten(blocks) == []
  {
  }

  lemma {:induction false} BoundIsLast(index: seq<IndexEntry>, key: TsKey, i: nat)
    requires index != [] && IsLowerBound(index, key, i)
    requires forall j, k :: 0 <= j < k < |index| ==> Less(index[j].lastKey, index[k].lastKey)
    ensures i == |index| <==> Less(index[|index| - 1].lastKey, key)
  {
    hide Less;
    var last := |index| - 1;
    if i < last && Less(index[last].lastKey, key) {
      LessTransitive(index[i].lastKey, index[last].lastKey, key);
    }
  }

  lemma {:induction false} LastOfIndex(blocks: seq<seq<Record>>, records: seq<Record>)
    requires NonEmpty(blocks) && Flatten(blocks) == records && blocks != []
    ensures records != [] && IndexOf(blocks)[|blocks| - 1].lastKey == MaxKey(records)
  {
    hide IndexOf, Flatten, MaxKey;
    FlattenEnds(blocks);
    IndexAt(blocks, |blocks| - 1);
  }

  lemma {:induction false} NothingFlattened(blocks: seq<seq<Record>>, lo: TsKey, hi: TsKey)
    ensures Slice(Flatten(blocks[..0]), lo, hi) == []
  {
  }

  lemma {:induction false} FilterAddressable(records: seq<Record>, blockSize: int)
    requires Writable(records, blockSize)
    ensures 8 * |Bloom.Filled(EncodedKeys(records), FilterSize(|records|), Probes)| < Two32
  {
    hide Fits, FilterSize, Bloom.Filled, EncodedKeys;
  }

  // A key that the filter denies is not in the table.
  lemma {:induction false} FilterTellsAbsent(records: seq<Record>, key: TsKey)
    requires !Bloom.Holds(Bloom.Filled(EncodedKeys(records), FilterSize(|records|), Probes), Probes, EncodeKey(key))
    ensures Find(records, key) == None
  {
    hide Bloom.Holds, Bloom.Filled, FilterSize, EncodeKey, EncodedKeys;
    CopiesInMembers(records, key);
    forall r | r in records ensures r.key != key {
      EncodedKeysMember(records, r);
      Bloom.FilledHolds(EncodedKeys(records), FilterSize(|records|), Probes, EncodeKey(r.key));
    }
  }

  lemma {:induction false} IndexIsSorted(blocks: seq<seq<Record>>)
    requires NonEmpty(blocks) && Sorted(Flatten(blocks))
    ensures forall j, k :: 0 <= j < k < |blocks| ==> Less(IndexOf(blocks)[j].lastKey, IndexOf(blocks)[k].lastKey)
  {
    hide Less, IndexOf, Data, BlockBytes;
    forall j, k | 0 <= j < k < |blocks| ensures Less(IndexOf(blocks)[j].lastKey, IndexOf(blocks)[k].lastKey) {
      IndexAt(blocks, j);
      IndexAt(blocks, k);
      LastKeysAscend(blocks, j, k);
    }
  }

  lemma {:induction false} LastKeysAscend(blocks: seq<seq<Record>>, j: nat, k: nat)
    requires NonEmpty(blocks) && Sorted(Flatten(blocks)) && j < k < |blocks|
    ensures Less(LastKey(blocks[j]), LastKey(blocks[k]))
  {
    hide Less;
    var after := FlattenSplit(blocks, k);
    var before := Flatten(blocks[..k]);
    var earlier := FlattenSplit(blocks[..k], j);
    assert blocks[..k][j] == blocks[j];
    SortedParts(before + blocks[k], after);
    SortedParts(before, blocks[k]);
    var x, y := blocks[j][|blocks[j]| - 1], blocks[k][|blocks[k]| - 1];
    assert x in blocks[j] && y in blocks[k] && x in before;
  }

  lemma {:induction false} BoundIsInside(index: seq<IndexEntry>, key: TsKey, i: nat)
    requires IsLowerBound(index, key, i)
    ensures i <= |index|
  {
  }

  // Reading block i of an open table gives the bytes of its records.
  lemma {:induction false} BlockReads(records: seq<Record>, blockSize: int, i: nat)
    requires Writable(records, blockSize)
    requires i < |Blocks(records, blockSize)|
    ensures NonEmpty(Blocks(records, blockSize))
    ensures var blocks := Blocks(records, blockSize);
            && BlockAt(TableFile(records, blockSize), IndexOf(blocks)[i].offset, IndexOf(blocks)[i].size)
              == BlockBytes(blocks[i])
            && AllStorable(blocks[i])
  {
    hide IndexOf, Data, BlockBytes, BlockAt, Blocks, AllStorable, FileBytes;
    var blocks := Blocks(records, blockSize);
    var file := TableFile(records, blockSize);
    FileParts(Data(blocks), IndexOf(blocks), BloomBytes(records));
    BlockAtIs(blocks, file[|Data(blocks)|..], i);
    assert Data(blocks) + file[|Data(blocks)|..] == file;
  }

  lemma {:induction false} SortedBlock(blocks: seq<seq<Record>>, i: nat)
    requires Sorted(Flatten(blocks)) && i < |blocks|
    ensures Sorted(blocks[i])
  {
    var after := FlattenSplit(blocks, i);
    SortedParts(Flatten(blocks[..i]) + blocks[i], after);
    SortedParts(Flatten(blocks[..i]), blocks[i]);
  }

  // ---------------------------------------------------------------- building, then opening

  // Any records and any block size: the builder writes the table file.
  method Build(records: seq<Record>, blockSize: int) returns (file: Bytes)
    requires Writable(records, blockSize)
    ensures NonEmpty(Blocks(records, blockSize)) && file == TableFile(records, blockSize)
  {
    hide Fits, FilterSize, Split, EncodedKeys, Blocks, BloomBytes, BlockBytes, Data, IndexOf, FileBytes, EncodeKey,
         Bloom.Filled;
    var builder := new SSTableBuilder(blockSize);
    for i := 0 to |records|
      invariant fresh(builder) && fresh(builder.bloom) && builder.blockSize == blockSize
      invariant builder.Valid() && builder.added == records[..i]
    {
      assert records[..i + 1] == records[..i] + [Record(records[i].key, records[i].entry)];
      builder.Add(records[i].key, records[i].entry);
    }
    assert records[..|records|] == records;
    builder.Finish();
    file := builder.file;
  }

  // Opening that file succeeds; the reader's ends are the ends of the records, and it answers for exactly them.
  method OpenBuilt(name: Bytes, file: Bytes, ghost records: seq<Record>, ghost blockSize: int)
    returns (reader: SSTableReader, ok: bool)
    requires Writable(records, blockSize) && NonEmpty(Blocks(records, blockSize))
             && file == TableFile(records, blockSize)
    ensures ok && fresh(reader) && fresh(reader.bloom) && reader.name == name && reader.cache == null
    ensures reader.Reads(records, blockSize)
  {
    hide Fits, FilterSize, Blocks, FileBytes, Data, IndexOf, EncodedKeys, Bloom.Filled, Open, FooterOk, FooterField,
         BloomReadable, Openable, Bloom.Load, Bloom.Stored, FromLittle;
    BlocksKeepRecords(records, blockSize);
    FilterStored(records, blockSize);
    OpenReadsBack(Blocks(records, blockSize), BloomBytes(records));
    reader := new SSTableReader(name, file);
    ok := reader.Open();
  }

  // Blocks lie one after the other, so an offset names one block.
  lemma {:induction false} OffsetsAscend(blocks: seq<seq<Record>>, i: nat, j: nat)
    requires NonEmpty(blocks) && i < j < |blocks|
    ensures IndexOf(blocks)[i].offset < IndexOf(blocks)[j].offset
  {
    hide Data, IndexOf, BlockBytes;
    IndexAt(blocks, i);
    IndexAt(blocks, j);
    DataUpTo(blocks[..j], i);
    assert blocks[..j][..i] == blocks[..i];
    assert blocks[..j][i] == blocks[i];
  }

  // The sizes of a table's blocks, by file name and offset.
  ghost function BlockSizes(name: Bytes, index: seq<IndexEntry>): map<(Bytes, nat), nat> {
    if index == [] then map[] else
      var e := index[|index| - 1];
      BlockSizes(name, index[..|index| - 1])[(name, e.offset) := e.size]
  }

  lemma {:induction false} BlockSizesAre(name: Bytes, index: seq<IndexEntry>)
    requires forall i, j :: 0 <= i < j < |index| ==> index[i].offset < index[j].offset
    ensures var sizes := BlockSizes(name, index);
            forall e :: e in index ==> (name, e.offset) in sizes && sizes[(name, e.offset)] == e.size
  {
    if index != [] {
      var n := |index| - 1;
      BlockSizesAre(name, index[..n]);
      forall e | e in index && e != index[n] ensures e in index[..n] && e.offset != index[n].offset {
        var i :| 0 <= i < |index| && index[i] == e;
        assert index[..n][i] == e;
      }
    }
  }

  lemma {:induction false} NamedSizes(name: Bytes, records: seq<Record>, blockSize: int)
    ensures NonEmpty(Blocks(records, blockSize))
    ensures var index := IndexOf(Blocks(records, blockSize));
            var sizes := BlockSizes(name, index);
            forall e :: e in index ==> (name, e.offset) in sizes && sizes[(name, e.offset)] == e.size
  {
    hide Blocks, IndexOf, BlockSizes;
    BlocksKeepRecords(records, blockSize);
    var index := IndexOf(Blocks(records, blockSize));
    forall i, j | 0 <= i < j < |index| ensures index[i].offset < index[j].offset {
      OffsetsAscend(Blocks(records, blockSize), i, j);
    }
    BlockSizesAre(name, index);
  }

  // Building a table, opening it behind an empty cache or none, and reading: an entry is found exactly when it was
  // added, a scan gives exactly the records in range, and the ends are the ends of the records.
  method BuildThenRead(records: seq<Record>, blockSize: int, name: Bytes, cache: Cache.LruCache?, key: TsKey,
                       begin: TsKey, end: TsKey)
    returns (min: TsKey, max: TsKey, entry: Option<Entry>, out: seq<Record>)
    requires Sorted(records) && Writable(records, blockSize)
    requires cache != null ==> cache.Valid() && cache.Contents() == []
    modifies cache
    ensures min == MinKey(records) && max == MaxKey(records)
    ensures entry == Find(records, key) && out == Slice(records, begin, end)
  {
    hide Fits, FilterSize, Blocks, FileBytes, Data, IndexOf, EncodedKeys, Bloom.Filled, BlockAt, Find, Slice,
         BlockSizes;
    var file := Build(records, blockSize);
    var reader, ok := OpenBuilt(name, file, records, blockSize);
    reader.SetBlockCache(cache);
    NamedSizes(name, records, blockSize);
    ghost var disk, sizes := map[name := file], BlockSizes(name, IndexOf(Blocks(records, blockSize)));
    min, max := reader.minKey, reader.maxKey;
    var found;
    entry, found := reader.GetEntry(key, records, blockSize, disk, sizes);
    out := reader.RangeScanEntries(begin, end, records, blockSize, disk, sizes);
  }

  lemma {:induction false} FilterStored(records: seq<Record>, blockSize: int)
    requires Writable(records, blockSize)
    ensures BloomReadable(BloomBytes(records))
    ensures Bloom.Load(BloomBytes(records))
            == Bloom.Filter(Bloom.Filled(EncodedKeys(records), FilterSize(|records|), Probes), Probes,
                            |records| % Two32)
  {
    hide Fits, FilterSize, Bloom.Filled, Bloom.Stored, Bloom.Load, FromLittle, EncodedKeys;
    Bloom.LoadUndoesStored(Bloom.Filled(EncodedKeys(records), FilterSize(|records|), Probes), Probes, |records|);
  }
}
