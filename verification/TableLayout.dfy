// A finished table read back: Open, block addresses, and what the sparse index says about the records.
module TableLayout {
  import opened Types
  import opened Codec
  import opened TableFormat
  import Crc32
  import Bloom

  // The machine widths of the format hold for every part of the table.
  ghost predicate Fits(blocks: seq<seq<Record>>, bloom: Bytes) {
    && NonEmpty(blocks) && |blocks| < VarintError
    && (forall i :: 0 <= i < |blocks| ==> AllStorable(blocks[i]) && 4 + |BlockBytes(blocks[i])| < Two32)
    && |FileBytes(Data(blocks), IndexOf(blocks), bloom)| < Two64
  }

  // ---------------------------------------------------------------- block addresses

  lemma {:induction false} IndexAt(blocks: seq<seq<Record>>, i: nat)
    requires NonEmpty(blocks) && i < |blocks|
    ensures NonEmpty(blocks[..i])
    ensures IndexOf(blocks)[i] == IndexEntry(LastKey(blocks[i]), |Data(blocks[..i])|, 4 + |BlockBytes(blocks[i])|)
  {
    hide BlockBytes, Data;
    var init := blocks[..|blocks| - 1];
    if i < |init| {
      IndexAt(init, i);
      assert init[..i] == blocks[..i];
    }
  }

  lemma {:induction false} DataUpTo(blocks: seq<seq<Record>>, i: nat)
    requires i < |blocks|
    ensures Data(blocks[..i]) + BlockRecord(BlockBytes(blocks[i])) <= Data(blocks)
  {
    hide BlockBytes;
    var init := blocks[..|blocks| - 1];
    if i < |init| {
      DataUpTo(init, i);
      assert init[..i] == blocks[..i];
    }
  }

  // Reading at the address in the index gives the bytes of the block.
  lemma {:induction false} BlockAtIs(blocks: seq<seq<Record>>, after: Bytes, i: nat)
    requires NonEmpty(blocks) && i < |blocks|
    ensures var e := IndexOf(blocks)[i];
            BlockAt(Data(blocks) + after, e.offset, e.size) == BlockBytes(blocks[i])
  {
    hide BlockBytes, BlockAt, IndexOf, Data;
    IndexAt(blocks, i);
    DataUpTo(blocks, i);
    var before, body := Data(blocks[..i]), BlockBytes(blocks[i]);
    var n := |before| + 4 + |body|;
    var rest := Data(blocks)[n..] + after;
    assert Data(blocks) + after == before + BlockRecord(body) + rest;
    ReadsBlock(before, body, rest);
  }

  // ---------------------------------------------------------------- opening

  lemma {:induction false} LastKeyFits(records: seq<Record>)
    requires records != [] && AllStorable(records)
    ensures KeyFits(LastKey(records)) && |EncodeKey(LastKey(records))| < VarintError
  {
    assert records[|records| - 1] in records;
    assert Storable(records[|records| - 1]);
  }

  lemma {:induction false} IndexFits(blocks: seq<seq<Record>>, bloom: Bytes)
    requires Fits(blocks, bloom)
    ensures forall e :: e in IndexOf(blocks) ==> IndexEntryFits(e)
  {
    hide BlockBytes, EncodeKey, IndexBytes;
    forall e | e in IndexOf(blocks) ensures IndexEntryFits(e) {
      var i :| 0 <= i < |blocks| && IndexOf(blocks)[i] == e;
      IndexAt(blocks, i);
      LastKeyFits(blocks[i]);
      DataUpTo(blocks, i);
    }
  }

  lemma {:induction false} FooterReads(body: Bytes, indexOffset: nat, bloomOffset: nat)
    requires indexOffset <= bloomOffset <= |body| < Two64
    ensures var file := body + Footer(indexOffset, bloomOffset);
            && FooterOk(file) && FooterField(file, 0) == indexOffset && FooterField(file, 1) == bloomOffset
  {
    hide FromLittle, Fixed64;
    var file := body + Footer(indexOffset, bloomOffset);
    Fixed64RoundTrip(indexOffset);
    Fixed64RoundTrip(bloomOffset);
    Fixed64RoundTrip(Magic);
    assert |file| - FooterSize == |body|;
    assert file[|body|..|body| + 8] == Fixed64(indexOffset);
    assert file[|body| + 8..|body| + 16] == Fixed64(bloomOffset);
    assert file[|body| + 16..|body| + 24] == Fixed64(Magic);
  }

  lemma {:induction false} FileParts(data: Bytes, index: seq<IndexEntry>, bloom: Bytes)
    requires |FileBytes(data, index, bloom)| < Two64
    ensures var file := FileBytes(data, index, bloom);
            var indexBytes := Varint(|index| % Two32) + IndexBytes(index);
            && FooterOk(file) && FooterField(file, 0) == |data| && FooterField(file, 1) == |data| + |indexBytes|
            && file[|data|..|data| + |indexBytes|] == indexBytes
            && file[|data| + |indexBytes|..|file| - FooterSize] == bloom
            && data <= file
  {
    hide Footer, FooterOk, FooterField, IndexBytes, Varint;
    var indexBytes := Varint(|index| % Two32) + IndexBytes(index);
    FooterReads(data + indexBytes + bloom, |data|, |data| + |indexBytes|);
  }

  lemma {:induction false} FirstKeyReads(records: seq<Record>)
    requires records != [] && Storable(records[0])
    ensures FirstKeyIn(BlockBytes(records)) == records[0].key
  {
    hide Varint, DecodeVarint, EncodeKey, DecodeKey;
    var r := records[0];
    var key := EncodeKey(r.key);
    var n := Varint(|key|);
    var s := BlockBytes(records);
    assert |key| % Two32 == |key|;
    VarintRoundTrip([], |key|, s[|n|..]);
    assert [] + n + s[|n|..] == s;
    assert s[|n|..|n| + |key|] == key;
    DecodeUndoesEncodeKey(r.key);
  }

  // Opening a finished table gives its index, its filter and the ends of its records.
  lemma {:induction false} OpenReadsBack(blocks: seq<seq<Record>>, bloom: Bytes)
    requires Fits(blocks, bloom) && BloomReadable(bloom)
    ensures var file := FileBytes(Data(blocks), IndexOf(blocks), bloom);
            && Openable(file)
            && Open(file) == Some(Table(IndexOf(blocks), Bloom.Load(bloom), MinKey(Flatten(blocks)),
                                        MaxKey(Flatten(blocks))))
  {
    hide FileBytes, Varint, DecodeVarint, IndexBytes, ReadIndex, BlockAt, FirstKeyIn, Bloom.Load, FooterOk, FooterField,
         BlockBytes, IndexOf, Data, BloomReadable, EncodeKey;
    var index := IndexOf(blocks);
    var file := FileBytes(Data(blocks), index, bloom);
    FileParts(Data(blocks), index, bloom);
    var n := Varint(|index|);
    assert |index| % Two32 == |index|;
    VarintRoundTrip([], |index|, IndexBytes(index));
    assert [] + n + IndexBytes(index) == n + IndexBytes(index);
    IndexFits(blocks, bloom);
    ReadsIndex(index, []);
    assert IndexBytes(index) + [] == IndexBytes(index);
    assert (n + IndexBytes(index))[|n|..] == IndexBytes(index);
    FlattenEnds(blocks);
    if blocks != [] {
      BlockAtIs(blocks, file[|Data(blocks)|..], 0);
      assert Data(blocks) + file[|Data(blocks)|..] == file;
      assert blocks[0][0] in blocks[0];
      FirstKeyReads(blocks[0]);
      IndexAt(blocks, |blocks| - 1);
    }
  }

  lemma {:induction false} FlattenEnds(blocks: seq<seq<Record>>)
    requires NonEmpty(blocks)
    ensures blocks == [] ==> Flatten(blocks) == []
    ensures blocks != [] ==>
              && Flatten(blocks) != [] && MinKey(Flatten(blocks)) == blocks[0][0].key
              && MaxKey(Flatten(blocks)) == LastKey(blocks[|blocks| - 1])
  {
    if |blocks| > 1 {
      FlattenEnds(blocks[..|blocks| - 1]);
    } else if |blocks| == 1 {
      assert blocks[..0] == [];
      assert Flatten(blocks) == [] + blocks[0] == blocks[0];
    }
  }

  // ---------------------------------------------------------------- the sparse index

  lemma {:induction false} FlattenAppend(blocks: seq<seq<Record>>, b: seq<Record>)
    ensures Flatten(blocks + [b]) == Flatten(blocks) + b
  {
    assert (blocks + [b])[..|blocks|] == blocks;
  }

  // The records split at block i.
  lemma {:induction false} FlattenSplit(blocks: seq<seq<Record>>, i: nat) returns (after: seq<Record>)
    requires i < |blocks|
    ensures Flatten(blocks) == Flatten(blocks[..i]) + blocks[i] + after
  {
    if i == |blocks| - 1 {
      after := [];
    } else {
      var init, last := blocks[..|blocks| - 1], blocks[|blocks| - 1];
      var middle := FlattenSplit(init, i);
      assert init[..i] == blocks[..i];
      after := middle + last;
      assert Flatten(blocks[..i]) + blocks[i] + middle + last == Flatten(blocks[..i]) + blocks[i] + after;
    }
  }

  lemma {:induction false} SortedParts(a: seq<Record>, b: seq<Record>)
    requires Sorted(a + b)
    ensures Sorted(a) && Sorted(b)
    ensures forall x, y :: x in a && y in b ==> Less(x.key, y.key)
  {
    hide Less;
    var s := a + b;
    assert forall i :: 0 <= i < |a| ==> s[i] == a[i];
    assert forall i :: 0 <= i < |b| ==> s[|a| + i] == b[i];
    forall x, y | x in a && y in b ensures Less(x.key, y.key) {
      var i :| 0 <= i < |a| && a[i] == x;
      var j :| 0 <= j < |b| && b[j] == y;
      assert Less(s[i].key, s[|a| + j].key);
    }
  }

  // The first block whose last key is not below the key: std::lower_bound over the index.
  ghost predicate IsLowerBound(index: seq<IndexEntry>, key: TsKey, i: nat) {
    && i <= |index|
    && (forall j :: 0 <= j < i ==> Less(index[j].lastKey, key))
    && (i < |index| ==> !Less(index[i].lastKey, key))
  }

  // Every record up to a block whose last key is below the key is below it.
  lemma {:induction false} AllBelow(blocks: seq<seq<Record>>, i: nat, key: TsKey)
    requires NonEmpty(blocks) && Sorted(Flatten(blocks)) && i <= |blocks|
    requires i > 0 ==> Less(LastKey(blocks[i - 1]), key)
    ensures forall r :: r in Flatten(blocks[..i]) ==> Less(r.key, key)
  {
    hide Less;
    if i > 0 {
      var b := blocks[i - 1];
      var after := FlattenSplit(blocks, i - 1);
      var before := Flatten(blocks[..i - 1]);
      assert blocks[..i] == blocks[..i - 1] + [b];
      FlattenAppend(blocks[..i - 1], b);
      SortedParts(before + b, after);
      SortedParts(before, b);
      forall r | r in before + b ensures Less(r.key, key) {
        assert b[|b| - 1] in b;
        if r in before {
          LessTransitive(r.key, LastKey(b), key);
        } else {
          var j :| 0 <= j < |b| && b[j] == r;
          if j < |b| - 1 {
            assert Less(b[j].key, b[|b| - 1].key);
            LessTransitive(r.key, LastKey(b), key);
          }
        }
      }
    }
  }

  // Between records below a key and records after one that is not, only the middle can hold it.
  lemma {:induction false} OnlyMiddle(before: seq<Record>, b: seq<Record>, after: seq<Record>, key: TsKey)
    requires Sorted(before + b + after) && b != [] && !Less(LastKey(b), key)
    requires forall r :: r in before ==> Less(r.key, key)
    ensures Sorted(b) && CopiesIn(before + b + after, key) == CopiesIn(b, key)
  {
    hide Less, CopiesIn;
    NoneBelow(before, key);
    SortedParts(before + b, after);
    SortedParts(before, b);
    assert b[|b| - 1] in before + b;
    NoneAbove(b[|b| - 1], after, key);
    CopiesInConcat(before + b, after, key);
    CopiesInConcat(before, b, key);
  }

  // A key can only be in the block that the index names.
  lemma {:induction false} FindInBlock(blocks: seq<seq<Record>>, key: TsKey, i: nat)
    requires NonEmpty(blocks) && Sorted(Flatten(blocks)) && IsLowerBound(IndexOf(blocks), key, i)
    ensures i == |blocks| ==> Find(Flatten(blocks), key) == None
    ensures i < |blocks| ==> Find(Flatten(blocks), key) == Find(blocks[i], key) && Sorted(blocks[i])
  {
    hide Less, IndexOf, CopiesIn, Sorted, Flatten;
    if i > 0 {
      IndexAt(blocks, i - 1);
    }
    AllBelow(blocks, i, key);
    if i == |blocks| {
      assert blocks[..i] == blocks;
      NoneBelow(Flatten(blocks), key);
    } else {
      IndexAt(blocks, i);
      var after := FlattenSplit(blocks, i);
      OnlyMiddle(Flatten(blocks[..i]), blocks[i], after, key);
    }
  }

  lemma {:induction false} NotLessThenLess(a: TsKey, key: TsKey, b: TsKey)
    requires !Less(a, key) && Less(a, b)
    ensures Less(key, b)
  {
    LessTotal(a, key);
    if Less(key, a) {
      LessTransitive(key, a, b);
    }
  }

  lemma {:induction false} NoneBelow(records: seq<Record>, key: TsKey)
    requires forall r :: r in records ==> Less(r.key, key)
    ensures CopiesIn(records, key) == []
  {
    CopiesInMembers(records, key);
    LessTotal(key, key);
  }

  lemma {:induction false} NoneAbove(last: Record, after: seq<Record>, key: TsKey)
    requires !Less(last.key, key) && forall r :: r in after ==> Less(last.key, r.key)
    ensures CopiesIn(after, key) == []
  {
    hide Less;
    forall r | r in after ensures Less(key, r.key) {
      NotLessThenLess(last.key, key, r.key);
    }
    CopiesInMembers(after, key);
    LessTotal(key, key);
  }

  // ---------------------------------------------------------------- range scans

  // A block below the range adds nothing to the slice.
  lemma {:induction false} BlockBelow(blocks: seq<seq<Record>>, i: nat, lo: TsKey, hi: TsKey)
    requires NonEmpty(blocks) && Sorted(Flatten(blocks)) && i < |blocks| && Less(LastKey(blocks[i]), lo)
    ensures Slice(blocks[i], lo, hi) == []
  {
    hide Less;
    AllBelow(blocks, i + 1, lo);
    assert blocks[..i + 1] == blocks[..i] + [blocks[i]];
    FlattenAppend(blocks[..i], blocks[i]);
    assert forall r :: r in blocks[i] ==> r in Flatten(blocks[..i]) + blocks[i];
    SliceNone(blocks[i], lo, hi);
  }

  // Once a key past the end was seen, the later blocks add nothing.
  lemma {:induction false} BlocksBeyond(blocks: seq<seq<Record>>, i: nat, lo: TsKey, hi: TsKey)
    requires Sorted(Flatten(blocks)) && i < |blocks| && Beyond(blocks[i], hi)
    ensures Slice(Flatten(blocks), lo, hi) == Slice(Flatten(blocks[..i + 1]), lo, hi)
  {
    hide Less;
    var b := blocks[i];
    var after := FlattenSplit(blocks, i);
    assert blocks[..i + 1] == blocks[..i] + [b];
    FlattenAppend(blocks[..i], b);
    var upTo := Flatten(blocks[..i]) + b;
    SortedParts(upTo, after);
    var past :| past in b && Less(hi, past.key);
    assert past in upTo;
    forall r | r in after ensures !InSlice(r.key, lo, hi) {
      LessTransitive(hi, past.key, r.key);
    }
    SliceNone(after, lo, hi);
    SliceConcat(upTo, after, lo, hi);
  }

  lemma {:induction false} SliceNextBlock(blocks: seq<seq<Record>>, i: nat, lo: TsKey, hi: TsKey)
    requires i < |blocks|
    ensures Slice(Flatten(blocks[..i + 1]), lo, hi) == Slice(Flatten(blocks[..i]), lo, hi) + Slice(blocks[i], lo, hi)
  {
    assert blocks[..i + 1] == blocks[..i] + [blocks[i]];
    FlattenAppend(blocks[..i], blocks[i]);
    SliceConcat(Flatten(blocks[..i]), blocks[i], lo, hi);
  }
}
