// The bytes of a table: keys, entries, blocks, index, footer. Models the layout of src/sstable.cpp.
module TableFormat {
  import opened Types
  import opened Codec
  import Crc32
  import Bloom

  const Magic := 0x3230_494E_494D_5F53
  const FooterSize := 24

  // ---------------------------------------------------------------- keys

  function EncodeKey(k: TsKey): (b: Bytes)
    ensures b != []
  {
    Varint(|k.measurement| % Two32) + k.measurement + Fixed64(Unsigned(k.timestamp))
  }

  function DecodeKey(s: Bytes): Option<TsKey> {
    var (length, pos) := DecodeVarint(s, 0);
    if length == VarintError || pos + length + 8 > |s| then None
    else if pos + length + 8 != |s| then None
    else
      Powers();
      Some(TsKey(s[pos..pos + length], Signed(FromLittle(s[pos + length..]))))
  }

  // A measurement whose length is a 32-bit number other than the varint error mark.
  predicate KeyFits(k: TsKey) {
    |k.measurement| < VarintError
  }

  lemma {:induction false} KeyLengthReads(k: TsKey)
    ensures var length := |k.measurement| % Two32;
            DecodeVarint(EncodeKey(k), 0) == (length, |Varint(length)|)
  {
    hide Varint, DecodeVarint, Fixed64;
    var length := |k.measurement| % Two32;
    var after := k.measurement + Fixed64(Unsigned(k.timestamp));
    VarintRoundTrip([], length, after);
    assert [] + Varint(length) + after == EncodeKey(k);
  }

  lemma {:induction false} KeyRest(k: TsKey)
    ensures var b, n := EncodeKey(k), |Varint(|k.measurement| % Two32)|;
            && |b| == n + |k.measurement| + 8
            && b[n..] == k.measurement + Fixed64(Unsigned(k.timestamp))
  {
    hide Varint, Fixed64;
  }

  // A key is read back exactly when its measurement length fits.
  lemma {:induction false} DecodeUndoesEncodeKey(k: TsKey)
    ensures DecodeKey(EncodeKey(k)) == Some(k) <==> KeyFits(k)
  {
    hide Varint, DecodeVarint, Fixed64, FromLittle, EncodeKey;
    KeyLengthReads(k);
    KeyRest(k);
    var b, length := EncodeKey(k), |k.measurement| % Two32;
    var n := |Varint(length)|;
    var u := Unsigned(k.timestamp);
    Fixed64RoundTrip(u);
    if KeyFits(k) {
      assert b[n..n + length] == b[n..][..length] == k.measurement;
      assert b[n + length..] == b[n..][length..] == Fixed64(u);
    } else {
      LongLength(|k.measurement|);
    }
  }

  lemma {:induction false} LongLength(n: nat)
    requires n >= VarintError
    ensures n % Two32 == VarintError || n % Two32 < n
  {
  }

  // ---------------------------------------------------------------- entries

  function TypeByte(e: Entry): byte {
    if e.Value? then 1 else 2
  }

  function Stored(e: Entry): Bytes {
    if e.Value? then e.value else []
  }

  function EntryBytes(r: Record): (b: Bytes)
    ensures b != []
  {
    var key := EncodeKey(r.key);
    Varint(|key| % Two32) + key + [TypeByte(r.entry)] + Varint(|Stored(r.entry)| % Two32) + Stored(r.entry)
  }

  // Lengths within 32 bits: what the format can hold.
  predicate Storable(r: Record) {
    KeyFits(r.key) && |EncodeKey(r.key)| < VarintError && |Stored(r.entry)| < VarintError
  }

  ghost predicate AllStorable(records: seq<Record>) {
    forall r :: r in records ==> Storable(r)
  }

  // The entry at the start of the remaining bytes of a block, and its length; None ends the walk.
  function ReadEntry(s: Bytes): (r: Option<(Record, nat)>)
    ensures r.Some? ==> 0 < r.value.1 <= |s|
  {
    DecodeVarintInside(s, 0);
    var (keyLength, p) := DecodeVarint(s, 0);
    if keyLength == VarintError || p + keyLength > |s| then None else
      var q := p + keyLength;
      match DecodeKey(s[p..q])
      case None => None
      case Some(key) =>
        if q >= |s| || (s[q] != 1 && s[q] != 2) then None else
          DecodeVarintInside(s, q + 1);
          var (length, v) := DecodeVarint(s, q + 1);
          if length == VarintError || v + length > |s| then None
          else Some((Record(key, if s[q] == 1 then Value(s[v..v + length]) else Deletion), v + length))
  }

  lemma {:induction false} ReadsEntry(r: Record, more: Bytes)
    requires Storable(r)
    ensures ReadEntry(EntryBytes(r) + more) == Some((r, |EntryBytes(r)|))
  {
    hide Varint, DecodeVarint, EncodeKey, DecodeKey;
    var key, value := EncodeKey(r.key), Stored(r.entry);
    var n, m := Varint(|key|), Varint(|value|);
    var s := EntryBytes(r) + more;
    var head := n + key + [TypeByte(r.entry)];
    assert |key| % Two32 == |key| && |value| % Two32 == |value|;
    VarintRoundTrip([], |key|, s[|n|..]);
    assert [] + n + s[|n|..] == s;
    VarintRoundTrip(head, |value|, value + more);
    assert head + m + (value + more) == s;
    assert s[|n|..|n| + |key|] == key;
    DecodeUndoesEncodeKey(r.key);
    assert s[|n| + |key|] == TypeByte(r.entry);
    assert s[|head| + |m|..|head| + |m| + |value|] == value;
  }

  // ---------------------------------------------------------------- blocks

  function BlockBytes(records: seq<Record>): Bytes {
    if records == [] then [] else EntryBytes(records[0]) + BlockBytes(records[1..])
  }

  lemma {:induction false} BlockBytesAppend(records: seq<Record>, r: Record)
    ensures BlockBytes(records + [r]) == BlockBytes(records) + EntryBytes(r)
  {
    hide EntryBytes;
    if records == [] {
      assert [r][1..] == [];
    } else {
      BlockBytesAppend(records[1..], r);
      assert (records + [r])[1..] == records[1..] + [r];
      assert EntryBytes(records[0]) + (BlockBytes(records[1..]) + EntryBytes(r))
          == EntryBytes(records[0]) + BlockBytes(records[1..]) + EntryBytes(r);
    }
  }

  // A block as it stands in the file.
  function BlockRecord(body: Bytes): (b: Bytes)
    ensures |b| == 4 + |body|
  {
    Fixed32(Crc32.Checksum(body)) + body
  }

  // What ReadBlock returns without a cache: nothing unless the checksum is right.
  function BlockAt(file: Bytes, offset: nat, size: nat): Bytes {
    if size < 4 || offset + size > |file| then [] else
      var raw := file[offset..offset + size];
      if Crc32.Checksum(raw[4..]) != FromLittle(raw[..4]) then [] else raw[4..]
  }

  lemma {:induction false} ReadsBlock(before: Bytes, body: Bytes, after: Bytes)
    ensures BlockAt(before + BlockRecord(body) + after, |before|, 4 + |body|) == body
  {
    hide FromLittle, Fixed32, Crc32.Checksum;
    var raw := BlockRecord(body);
    assert (before + raw + after)[|before|..|before| + |raw|] == raw;
    assert raw[..4] == Fixed32(Crc32.Checksum(body)) && raw[4..] == body;
    Fixed32RoundTrip(Crc32.Checksum(body));
  }

  // A block in which any bytes of a window of at most four consecutive body bytes were changed reads as nothing.
  lemma {:induction false} DamagedBlockIsRejected(before: Bytes, a: Bytes, u: Bytes, v: Bytes, b: Bytes, after: Bytes)
    requires |u| == |v| <= 4 && u != v
    ensures var damaged := Fixed32(Crc32.Checksum(a + u + b)) + (a + v + b);
            BlockAt(before + damaged + after, |before|, |damaged|) == []
  {
    hide FromLittle, Fixed32, Crc32.Checksum;
    var sum := Crc32.Checksum(a + u + b);
    var damaged := Fixed32(sum) + (a + v + b);
    assert (before + damaged + after)[|before|..|before| + |damaged|] == damaged;
    assert damaged[..4] == Fixed32(sum) && damaged[4..] == a + v + b;
    Fixed32RoundTrip(sum);
    Crc32.ShortBurstChangesChecksum(a, u, v, b);
  }

  // GetFromBlock: walk the entries up to the key.
  function LookIn(s: Bytes, key: TsKey): Option<Entry>
    decreases |s|
  {
    match ReadEntry(s)
    case None => None
    case Some((r, n)) =>
      var c := Compare(r.key, key);
      if c == 0 then Some(r.entry) else if c > 0 then None else LookIn(s[n..], key)
  }

  // The walk of RangeScanEntries over one block: the entries in range, and whether a key past the end was seen.
  function ScanBlock(s: Bytes, begin: TsKey, end: TsKey): (seq<Record>, bool)
    decreases |s|
  {
    match ReadEntry(s)
    case None => ([], false)
    case Some((r, n)) =>
      if Compare(r.key, begin) < 0 then ScanBlock(s[n..], begin, end)
      else if Compare(r.key, end) > 0 then ([], true)
      else
        var (rest, stop) := ScanBlock(s[n..], begin, end);
        ([r] + rest, stop)
  }

  lemma {:induction false} NoEntry()
    ensures ReadEntry([]) == None
  {
  }

  lemma {:induction false} FindFirst(records: seq<Record>, key: TsKey)
    requires records != []
    ensures CopiesIn(records, key) == (if records[0].key == key then [records[0].entry] else [])
            + CopiesIn(records[1..], key)
  {
    CopiesInConcat([records[0]], records[1..], key);
    assert records == [records[0]] + records[1..];
    assert [records[0]][..0] == [];
  }

  lemma {:induction false} NoCopyAfter(records: seq<Record>, key: TsKey)
    requires Sorted(records) && records != [] && (records[0].key == key || Less(key, records[0].key))
    ensures CopiesIn(records[1..], key) == []
  {
    hide Less;
    var rest := records[1..];
    CopiesInMembers(rest, key);
    forall q | q in rest ensures q.key != key {
      var i :| 0 <= i < |rest| && rest[i] == q;
      assert Less(records[0].key, records[i + 1].key);
      NotBelow(records[0].key, q.key, key);
    }
  }

  // Looking a key up in the bytes of a sorted block finds what the records hold.
  lemma {:induction false} LookInIsFind(records: seq<Record>, key: TsKey)
    requires Sorted(records) && AllStorable(records)
    ensures LookIn(BlockBytes(records), key) == Find(records, key)
  {
    hide ReadEntry, EntryBytes, Compare, CopiesIn, Storable, Less;
    if records == [] {
      NoEntry();
      CopiesInMembers([], key);
    } else {
      var r, rest := records[0], records[1..];
      ReadsEntry(r, BlockBytes(rest));
      assert BlockBytes(records)[|EntryBytes(r)|..] == BlockBytes(rest);
      FindFirst(records, key);
      CompareTells(r.key, key);
      if r.key == key || Less(key, r.key) {
        NoCopyAfter(records, key);
      } else {
        LookInIsFind(rest, key);
      }
    }
  }

  lemma {:induction false} CompareTells(a: TsKey, b: TsKey)
    ensures Compare(a, b) == 0 <==> a == b
    ensures Compare(a, b) > 0 <==> Less(b, a)
    ensures Compare(a, b) < 0 <==> Less(a, b)
  {
    CompareBytesLaws(a.measurement, b.measurement);
  }

  lemma {:induction false} NotBelow(a: TsKey, b: TsKey, k: TsKey)
    requires Less(a, b) && (a == k || Less(k, a))
    ensures b != k
  {
    KeyOrder();
  }

  // ---------------------------------------------------------------- slices, from the front

  lemma {:induction false} SliceConcat(a: seq<Record>, b: seq<Record>, lo: TsKey, hi: TsKey)
    ensures Slice(a + b, lo, hi) == Slice(a, lo, hi) + Slice(b, lo, hi)
  {
    if b == [] {
      assert a + b == a;
    } else {
      SliceConcat(a, b[..|b| - 1], lo, hi);
      assert (a + b)[..|a + b| - 1] == a + b[..|b| - 1];
    }
  }

  lemma {:induction false} SliceFirst(records: seq<Record>, lo: TsKey, hi: TsKey)
    requires records != []
    ensures Slice(records, lo, hi)
            == (if InSlice(records[0].key, lo, hi) then [records[0]] else []) + Slice(records[1..], lo, hi)
  {
    hide InSlice;
    SliceConcat([records[0]], records[1..], lo, hi);
    assert records == [records[0]] + records[1..];
    assert [records[0]][..0] == [];
  }

  lemma {:induction false} SliceNone(records: seq<Record>, lo: TsKey, hi: TsKey)
    requires forall r :: r in records ==> !InSlice(r.key, lo, hi)
    ensures Slice(records, lo, hi) == []
  {
    if records != [] {
      SliceNone(records[..|records| - 1], lo, hi);
      assert records[|records| - 1] in records;
    }
  }

  ghost predicate Beyond(records: seq<Record>, end: TsKey) {
    exists r :: r in records && Less(end, r.key)
  }

  // Scanning the bytes of a sorted block gives its slice; the scan stops only at a key past the end.
  lemma {:induction false} ScanBlockIsSlice(records: seq<Record>, begin: TsKey, end: TsKey)
    requires Sorted(records) && AllStorable(records)
    ensures ScanBlock(BlockBytes(records), begin, end).0 == Slice(records, begin, end)
    ensures ScanBlock(BlockBytes(records), begin, end).1 ==> Beyond(records, end)
  {
    hide ReadEntry, EntryBytes, Compare, Storable;
    if records == [] {
      NoEntry();
    } else {
      var r, rest := records[0], records[1..];
      ReadsEntry(r, BlockBytes(rest));
      assert BlockBytes(records)[|EntryBytes(r)|..] == BlockBytes(rest);
      SliceFirst(records, begin, end);
      CompareTells(r.key, begin);
      CompareTells(r.key, end);
      ScanBlockIsSlice(rest, begin, end);
      assert records == [r] + rest;
      if !Less(r.key, begin) && Less(end, r.key) {
        forall q | q in rest ensures !InSlice(q.key, begin, end) {
          var i :| 0 <= i < |rest| && rest[i] == q;
          assert Less(records[0].key, records[i + 1].key);
          LessTransitive(end, r.key, q.key);
        }
        SliceNone(rest, begin, end);
      }
    }
  }

  // ---------------------------------------------------------------- the index

  datatype IndexEntry = IndexEntry(lastKey: TsKey, offset: nat, size: nat)

  function IndexEntryBytes(e: IndexEntry): (b: Bytes) {
    var key := EncodeKey(e.lastKey);
    Varint(|key| % Two32) + key + Fixed64(e.offset % Two64) + Fixed64(e.size % Two64)
  }

  function IndexBytes(index: seq<IndexEntry>): Bytes {
    if index == [] then [] else IndexEntryBytes(index[0]) + IndexBytes(index[1..])
  }

  lemma {:induction false} IndexBytesAppend(index: seq<IndexEntry>, e: IndexEntry)
    ensures IndexBytes(index + [e]) == IndexBytes(index) + IndexEntryBytes(e)
  {
    hide IndexEntryBytes;
    if index == [] {
      assert [e][1..] == [];
    } else {
      IndexBytesAppend(index[1..], e);
      assert (index + [e])[1..] == index[1..] + [e];
      assert IndexEntryBytes(index[0]) + (IndexBytes(index[1..]) + IndexEntryBytes(e))
          == IndexEntryBytes(index[0]) + IndexBytes(index[1..]) + IndexEntryBytes(e);
    }
  }

  // One index entry of Open and its length; the size field is cut to 32 bits.
  function ReadIndexEntry(s: Bytes): (r: Option<(IndexEntry, nat)>)
    ensures r.Some? ==> r.value.1 <= |s|
  {
    DecodeVarintInside(s, 0);
    var (length, p) := DecodeVarint(s, 0);
    if length == VarintError || p + length + 16 > |s| then None else
      var q := p + length;
      match DecodeKey(s[p..q])
      case None => None
      case Some(key) =>
        Some((IndexEntry(key, FromLittle(s[q..q + 8]), FromLittle(s[q + 8..q + 16]) % Two32), q + 16))
  }

  function ReadIndex(s: Bytes, n: nat): Option<seq<IndexEntry>> {
    if n == 0 then Some([]) else
      var (e, length) :- ReadIndexEntry(s);
      var rest :- ReadIndex(s[length..], n - 1);
      Some([e] + rest)
  }

  predicate IndexEntryFits(e: IndexEntry) {
    KeyFits(e.lastKey) && |EncodeKey(e.lastKey)| < VarintError && e.offset < Two64 && e.size < Two32
  }

  lemma {:induction false} ReadsIndexEntry(e: IndexEntry, more: Bytes)
    requires IndexEntryFits(e)
    ensures ReadIndexEntry(IndexEntryBytes(e) + more) == Some((e, |IndexEntryBytes(e)|))
  {
    hide Varint, DecodeVarint, EncodeKey, DecodeKey, FromLittle, Fixed64;
    var key := EncodeKey(e.lastKey);
    var n := Varint(|key|);
    var s := IndexEntryBytes(e) + more;
    assert |key| % Two32 == |key| && e.offset % Two64 == e.offset && e.size % Two64 == e.size;
    VarintRoundTrip([], |key|, s[|n|..]);
    assert [] + n + s[|n|..] == s;
    var q := |n| + |key|;
    assert s[|n|..q] == key;
    assert s[q..q + 8] == Fixed64(e.offset) && s[q + 8..q + 16] == Fixed64(e.size);
    DecodeUndoesEncodeKey(e.lastKey);
    Fixed64RoundTrip(e.offset);
    Fixed64RoundTrip(e.size);
  }

  lemma {:induction false} ReadsIndex(index: seq<IndexEntry>, more: Bytes)
    requires forall e :: e in index ==> IndexEntryFits(e)
    ensures ReadIndex(IndexBytes(index) + more, |index|) == Some(index)
  {
    hide IndexEntryBytes, ReadIndexEntry, IndexEntryFits;
    if index != [] {
      var e, rest := index[0], index[1..];
      var s := IndexBytes(rest) + more;
      assert IndexBytes(index) + more == IndexEntryBytes(e) + s;
      ReadsIndexEntry(e, s);
      assert (IndexEntryBytes(e) + s)[|IndexEntryBytes(e)|..] == s;
      ReadsIndex(rest, more);
      assert index == [e] + rest;
    }
  }

  // ---------------------------------------------------------------- the file

  function Flatten(blocks: seq<seq<Record>>): seq<Record> {
    if blocks == [] then [] else Flatten(blocks[..|blocks| - 1]) + blocks[|blocks| - 1]
  }

  ghost predicate NonEmpty(blocks: seq<seq<Record>>) {
    forall i :: 0 <= i < |blocks| ==> blocks[i] != []
  }

  function Data(blocks: seq<seq<Record>>): Bytes {
    if blocks == [] then [] else
      Data(blocks[..|blocks| - 1]) + BlockRecord(BlockBytes(blocks[|blocks| - 1]))
  }

  function LastKey(records: seq<Record>): TsKey
    requires records != []
  {
    records[|records| - 1].key
  }

  // One entry per block: its last key, where it starts and how long it is.
  function IndexOf(blocks: seq<seq<Record>>): (index: seq<IndexEntry>)
    requires NonEmpty(blocks)
    ensures |index| == |blocks|
  {
    if blocks == [] then [] else
      var init, last := blocks[..|blocks| - 1], blocks[|blocks| - 1];
      IndexOf(init) + [IndexEntry(LastKey(last), |Data(init)|, 4 + |BlockBytes(last)|)]
  }

  function Footer(indexOffset: nat, bloomOffset: nat): (f: Bytes)
    ensures |f| == FooterSize
  {
    Fixed64(indexOffset % Two64) + Fixed64(bloomOffset % Two64) + Fixed64(Magic)
  }

  function FileBytes(data: Bytes, index: seq<IndexEntry>, bloom: Bytes): Bytes {
    var indexBytes := Varint(|index| % Two32) + IndexBytes(index);
    data + indexBytes + bloom + Footer(|data|, |data| + |indexBytes|)
  }

  datatype Table = Table(index: seq<IndexEntry>, bloom: Bloom.Filter, min: TsKey, max: TsKey)

  // The first key of the first block.
  function FirstKeyIn(block: Bytes): TsKey {
    DecodeVarintInside(block, 0);
    var (length, p) := DecodeVarint(block, 0);
    if length != VarintError && p + length <= |block| && DecodeKey(block[p..p + length]).Some?
    then DecodeKey(block[p..p + length]).value else ZeroKey
  }

  // A stored Bloom filter whose length field does not wrap the source's 32-bit sum.
  predicate BloomReadable(bloom: Bytes) {
    Bloom.Loadable(bloom)
  }

  function FooterField(file: Bytes, i: nat): nat
    requires |file| >= FooterSize && i < 3
  {
    FromLittle(file[|file| - FooterSize + 8 * i..|file| - FooterSize + 8 * i + 8])
  }

  predicate FooterOk(file: Bytes) {
    && |file| >= FooterSize && FooterField(file, 2) == Magic
    && FooterField(file, 0) <= FooterField(file, 1) <= |file| - FooterSize
  }

  predicate Openable(file: Bytes) {
    FooterOk(file) ==> BloomReadable(file[FooterField(file, 1)..|file| - FooterSize])
  }

  // SSTableReader::Open; None for a corrupt file.
  function Open(file: Bytes): Option<Table>
    requires Openable(file)
  {
    if !FooterOk(file) then None else
      var indexData := file[FooterField(file, 0)..FooterField(file, 1)];
      var bloom := Bloom.Load(file[FooterField(file, 1)..|file| - FooterSize]);
      DecodeVarintInside(indexData, 0);
      var (count, pos) := DecodeVarint(indexData, 0);
      var index :- ReadIndex(indexData[pos..], if count == VarintError then 0 else count);
      if index == [] then Some(Table(index, bloom, ZeroKey, ZeroKey))
      else Some(Table(index, bloom, FirstKeyIn(BlockAt(file, index[0].offset, index[0].size)),
                      index[|index| - 1].lastKey))
  }
}
