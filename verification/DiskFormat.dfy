// What stands on disk, byte by byte: log frames, table files, manifest lines. The other modules prove that what is
// written reads back; here the positions and values themselves are fixed, so that files of one build open in another.
module DiskFormat {
  import opened Types
  import opened Codec
  import Bloom
  import Crc32
  import Manifest
  import Table
  import TableFormat
  import Text
  import Version
  import Wal

  // The bytes of s from at on are the n low bytes of v, lowest first.
  ghost predicate HasNumber(s: Bytes, at: nat, n: nat, v: nat) {
    at + n <= |s| && forall i :: 0 <= i < n ==> s[at + i] == v / Pow256(i) % 256
  }

  lemma {:induction false} LittleIs(before: Bytes, v: nat, n: nat, after: Bytes)
    ensures HasNumber(before + Little(v, n) + after, |before|, n, v)
  {
    hide Little;
    var s := before + Little(v, n) + after;
    forall i | 0 <= i < n ensures s[|before| + i] == v / Pow256(i) % 256 {
      assert s[|before| + i] == Little(v, n)[i];
      LittleAt(v, n, i);
    }
  }

  // A timestamp in two's complement.
  function Complement(t: int64): nat {
    if t < 0 then t + 0x1_0000_0000_0000_0000 else t
  }

  // ---------------------------------------------------------------- the log

  // A frame: checksum over kind and data, their length, kind, data.
  lemma {:induction false} FrameBytes(kind: byte, data: Bytes)
    requires |data| <= 0x8000
    ensures var f := Wal.Frame(kind, data);
            && |f| == 9 + |data| && HasNumber(f, 0, 4, Crc32.Checksum(f[8..])) && HasNumber(f, 4, 4, 1 + |data|)
            && f[8] == kind && f[9..] == data
  {
    hide HasNumber, Little, Crc32.Checksum;
    var f := Wal.Frame(kind, data);
    var crc, length := Crc32.Checksum([kind] + data), (1 + |data|) % Two32;
    assert f == [] + Little(crc, 4) + (Little(length, 4) + [kind] + data);
    LittleIs([], crc, 4, Little(length, 4) + [kind] + data);
    assert f == Little(crc, 4) + Little(length, 4) + ([kind] + data);
    LittleIs(Little(crc, 4), length, 4, [kind] + data);
    assert f[8..] == [kind] + data;
  }

  // A logical record: 1 for a put and 2 for a delete, the length of the measurement, the timestamp, both strings.
  lemma {:induction false} PayloadBytes(r: Record)
    requires |r.key.measurement| < 0x1_0000_0000
    ensures var p, m := Wal.Payload(r), r.key.measurement;
            && p[0] == (if r.entry.Value? then 1 else 2)
            && HasNumber(p, 1, 4, |m|) && HasNumber(p, 5, 8, Complement(r.key.timestamp))
            && p[13..] == m + (if r.entry.Value? then r.entry.value else [])
  {
    hide HasNumber, Little;
    var p, m, t := Wal.Payload(r), r.key.measurement, Complement(r.key.timestamp);
    var kind := [Wal.TypeOf(r.entry)];
    var rest := m + Wal.ValueOf(r.entry);
    assert p == kind + Little(|m|, 4) + (Little(t, 8) + rest);
    LittleIs(kind, |m|, 4, Little(t, 8) + rest);
    assert p == kind + Little(|m|, 4) + Little(t, 8) + rest;
    LittleIs(kind + Little(|m|, 4), t, 8, rest);
  }

  // The j-th part of 32 KiB of a record, and the kind of its frame: 1 whole, 2 first, 3 middle, 4 last.
  function Part(p: Bytes, j: nat): Bytes
    requires 0x8000 * j <= |p|
  {
    if |p| - 0x8000 * j <= 0x8000 then p[0x8000 * j..] else p[0x8000 * j..0x8000 * (j + 1)]
  }

  function KindOf(p: Bytes, j: nat): byte {
    if |p| <= 0x8000 then 1 else if j == 0 then 2 else if |p| - 0x8000 * j <= 0x8000 then 4 else 3
  }

  lemma {:induction false} Behind(front: Bytes, u: Bytes, at: nat, n: nat)
    requires at + n <= |u|
    ensures (front + u)[|front| + at..|front| + at + n] == u[at..at + n]
  {
  }

  lemma {:induction false} NextPart(p: Bytes, j: nat)
    requires j > 0 && 0x8000 * j < |p|
    ensures |p| > 0x8000 && 0x8000 * (j - 1) < |p[0x8000..]| && Part(p[0x8000..], j - 1) == Part(p, j)
  {
  }

  lemma {:induction false} TailAt(p: Bytes, j: nat)
    requires 0x8000 * j < |p|
    ensures var t, at, part := Wal.Tail(p), 0x8009 * j, Part(p, j);
            && at + 9 + |part| <= |t|
            && t[at..at + 9 + |part|] == Wal.Frame(if |p| - 0x8000 * j <= 0x8000 then 4 else 3, part)
            && (|p| - 0x8000 * j <= 0x8000 ==> |t| == at + 9 + |part|)
    decreases j
  {
    hide Wal.Frame, Part;
    if j == 0 {
      FirstPart(p);
    } else {
      var rest := p[0x8000..];
      NextPart(p, j);
      TailAt(rest, j - 1);
      Behind(Wal.Frame(3, p[..0x8000]), Wal.Tail(rest), 0x8009 * (j - 1), 9 + |Part(p, j)|);
    }
  }

  lemma {:induction false} FirstPart(p: Bytes)
    ensures Part(p, 0) == if |p| <= 0x8000 then p else p[..0x8000]
  {
  }

  // The frames of a record follow each other, 32 KiB of it in each but the last.
  lemma {:induction false} FragmentAt(p: Bytes, j: nat)
    requires 0x8000 * j < |p|
    ensures var b, at, part := Wal.Encode(p), 0x8009 * j, Part(p, j);
            && at + 9 + |part| <= |b| && b[at..at + 9 + |part|] == Wal.Frame(KindOf(p, j), part)
            && (|p| - 0x8000 * j <= 0x8000 ==> |b| == at + 9 + |part|)
  {
    hide Wal.Frame, Wal.Tail, Part;
    if j == 0 {
      FirstPart(p);
    } else {
      var rest := p[0x8000..];
      NextPart(p, j);
      TailAt(rest, j - 1);
      Behind(Wal.Frame(2, p[..0x8000]), Wal.Tail(rest), 0x8009 * (j - 1), 9 + |Part(p, j)|);
    }
  }

  // ---------------------------------------------------------------- tables

  lemma {:induction false} OneByteVarint(v: nat)
    requires v < 128
    ensures Varint(v) == [v]
  {
  }

  // An encoded key whose length is one byte.
  lemma {:induction false} KeyBytes(k: TsKey)
    requires |k.measurement| < 128
    ensures var b, n := TableFormat.EncodeKey(k), |k.measurement|;
            |b| == 9 + n && b[0] == n && b[1..1 + n] == k.measurement && HasNumber(b, 1 + n, 8, Complement(k.timestamp))
  {
    hide HasNumber, Little, Varint;
    var b, n, t := TableFormat.EncodeKey(k), |k.measurement|, Complement(k.timestamp);
    OneByteVarint(n);
    assert b == [n] + k.measurement + Little(t, 8) + [];
    LittleIs([n] + k.measurement, t, 8, []);
  }

  // A table entry whose three lengths are one byte each: key length, key, 1 for a value and 2 for a tombstone, value
  // length, value.
  lemma {:induction false} EntryLayout(r: Record)
    requires |r.key.measurement| <= 118 && (r.entry.Value? ==> |r.entry.value| < 128)
    ensures var b, n := TableFormat.EntryBytes(r), |r.key.measurement|;
            var value := if r.entry.Value? then r.entry.value else [];
            && |b| == 12 + n + |value| && b[0] == 9 + n && b[1..10 + n] == TableFormat.EncodeKey(r.key)
            && b[10 + n] == (if r.entry.Value? then 1 else 2) && b[11 + n] == |value| && b[12 + n..] == value
  {
    hide Varint, TableFormat.EncodeKey, HasNumber;
    var value := TableFormat.Stored(r.entry);
    KeyBytes(r.key);
    OneByteVarint(9 + |r.key.measurement|);
    OneByteVarint(|value|);
  }

  // A block: its checksum, then its entries.
  lemma {:induction false} BlockLayout(body: Bytes)
    ensures var b := TableFormat.BlockRecord(body);
            |b| == 4 + |body| && HasNumber(b, 0, 4, Crc32.Checksum(body)) && b[4..] == body
  {
    hide HasNumber, Little, Crc32.Checksum;
    assert TableFormat.BlockRecord(body) == [] + Little(Crc32.Checksum(body), 4) + body;
    LittleIs([], Crc32.Checksum(body), 4, body);
  }

  // An index entry whose key length is one byte: key length, last key, offset, size.
  lemma {:induction false} IndexEntryLayout(e: TableFormat.IndexEntry)
    requires |e.lastKey.measurement| <= 118 && e.offset < Two64 && e.size < Two64
    ensures var b, n := TableFormat.IndexEntryBytes(e), |e.lastKey.measurement|;
            && |b| == 26 + n && b[0] == 9 + n && b[1..10 + n] == TableFormat.EncodeKey(e.lastKey)
            && HasNumber(b, 10 + n, 8, e.offset) && HasNumber(b, 18 + n, 8, e.size)
  {
    hide Varint, Little, TableFormat.EncodeKey, HasNumber;
    var b, key := TableFormat.IndexEntryBytes(e), TableFormat.EncodeKey(e.lastKey);
    KeyBytes(e.lastKey);
    OneByteVarint(|key|);
    assert b == [|key|] + key + Little(e.offset, 8) + Little(e.size, 8);
    LittleIs([|key|] + key, e.offset, 8, Little(e.size, 8));
    assert b == [|key|] + key + Little(e.offset, 8) + Little(e.size, 8) + [];
    LittleIs([|key|] + key + Little(e.offset, 8), e.size, 8, []);
  }

  // The file ends with where the index starts, where the filter starts, and "S_MINI02".
  lemma {:induction false} FileLayout(data: Bytes, index: seq<TableFormat.IndexEntry>, bloom: Bytes)
    requires |TableFormat.FileBytes(data, index, bloom)| < Two64 && |index| < 128
    ensures var file := TableFormat.FileBytes(data, index, bloom);
            var end := |file| - 24;
            && end >= |data| + |bloom| && file[..|data|] == data && file[|data|] == |index|
            && file[|data| + 1..end - |bloom|] == TableFormat.IndexBytes(index) && file[end - |bloom|..end] == bloom
            && HasNumber(file, end, 8, |data|) && HasNumber(file, end + 8, 8, end - |bloom|)
            && file[end + 16..] == [0x53, 0x5F, 0x4D, 0x49, 0x4E, 0x49, 0x30, 0x32]
  {
    hide HasNumber, Little, Varint, TableFormat.IndexBytes;
    var file := TableFormat.FileBytes(data, index, bloom);
    var count, entries := [|index|], TableFormat.IndexBytes(index);
    OneByteVarint(|index|);
    var front := data + (count + entries) + bloom;
    var at := |data| + |count + entries|;
    var a, b, c := Little(|data|, 8), Little(at, 8), Little(TableFormat.Magic, 8);
    assert file == front + (a + b + c);
    assert file == front + a + (b + c);
    LittleIs(front, |data|, 8, b + c);
    assert file == (front + a) + b + c;
    LittleIs(front + a, at, 8, c);
    MagicBytes();
    assert file[|front| + 16..] == c;
  }

  lemma {:induction false} LowByteFirst(v: nat, low: byte, high: nat, n: nat)
    requires v == low + 256 * high
    ensures Little(v, n + 1) == [low] + Little(high, n)
  {
  }

  lemma {:induction false} MagicBytes()
    ensures Little(TableFormat.Magic, 8) == [0x53, 0x5F, 0x4D, 0x49, 0x4E, 0x49, 0x30, 0x32]
  {
    hide Little;
    LowByteFirst(0x3230_494E_494D_5F53, 0x53, 0x32_3049_4E49_4D5F, 7);
    LowByteFirst(0x32_3049_4E49_4D5F, 0x5F, 0x3230_494E_494D, 6);
    LowByteFirst(0x3230_494E_494D, 0x4D, 0x32_3049_4E49, 5);
    LowByteFirst(0x32_3049_4E49, 0x49, 0x3230_494E, 4);
    LowByteFirst(0x3230_494E, 0x4E, 0x32_3049, 3);
    LowByteFirst(0x32_3049, 0x49, 0x3230, 2);
    LowByteFirst(0x3230, 0x30, 0x32, 1);
    LowByteFirst(0x32, 0x32, 0, 0);
    assert Little(0, 0) == [];
  }

  // A file without a whole footer, with another magic number, or with offsets out of order does not open.
  lemma {:induction false} BadFooterIsRejected(file: Bytes)
    requires TableFormat.Openable(file)
    ensures |file| < 24 ==> TableFormat.Open(file) == None
    ensures |file| >= 24 ==>
              var end := |file| - 24;
              var index, filter := FromLittle(file[end..end + 8]), FromLittle(file[end + 8..end + 16]);
              file[end + 16..] != [0x53, 0x5F, 0x4D, 0x49, 0x4E, 0x49, 0x30, 0x32] || index > filter || filter > end
              ==> TableFormat.Open(file) == None
  {
    hide FromLittle, TableFormat.ReadIndex, TableFormat.FirstKeyIn, Bloom.Load, DecodeVarint, Little;
    if |file| >= 24 {
      var end := |file| - 24;
      MagicBytes();
      FooterNumber(file[end + 16..]);
      assert file[end + 16..end + 24] == file[end + 16..];
    }
  }

  lemma {:induction false} FooterNumber(b: Bytes)
    requires |b| == 8
    ensures FromLittle(b) == TableFormat.Magic ==> b == Little(TableFormat.Magic, 8)
  {
    hide FromLittle, Little;
    LittleOfNumber(b);
  }

  // Bytes are determined by the number they hold.
  lemma {:induction false} LittleOfNumber(b: Bytes)
    ensures Little(FromLittle(b), |b|) == b
  {
    hide Little;
    if b == [] {
      NothingLittle();
    } else {
      LittleOfNumber(b[1..]);
      LowByteFirst(FromLittle(b), b[0], FromLittle(b[1..]), |b| - 1);
    }
  }

  lemma {:induction false} NothingLittle()
    ensures Little(0, 0) == []
  {
  }

  // ---------------------------------------------------------------- filters

  lemma {:induction false} Bit0(b: bv8)
    ensures b & 0x01 != 0 <==> (b as int) % 2 == 1
  {
  }

  lemma {:induction false} Bit1(b: bv8)
    ensures b & 0x02 != 0 <==> (b as int) / 2 % 2 == 1
  {
  }

  lemma {:induction false} Bit2(b: bv8)
    ensures b & 0x04 != 0 <==> (b as int) / 4 % 2 == 1
  {
  }

  lemma {:induction false} Bit3(b: bv8)
    ensures b & 0x08 != 0 <==> (b as int) / 8 % 2 == 1
  {
  }

  lemma {:induction false} Bit4(b: bv8)
    ensures b & 0x10 != 0 <==> (b as int) / 16 % 2 == 1
  {
  }

  lemma {:induction false} Bit5(b: bv8)
    ensures b & 0x20 != 0 <==> (b as int) / 32 % 2 == 1
  {
  }

  lemma {:induction false} Bit6(b: bv8)
    ensures b & 0x40 != 0 <==> (b as int) / 64 % 2 == 1
  {
  }

  lemma {:induction false} Bit7(b: bv8)
    ensures b & 0x80 != 0 <==> (b as int) / 128 % 2 == 1
  {
  }

  lemma {:induction false} BitOfByte(b: bv8, k: nat)
    requires k < 8
    ensures b & Bloom.Mask(k) != 0 <==> (b as int) / Pow2(k) % 2 == 1
  {
    assert Pow2(2) == 4;
    assert Pow2(4) == 16;
    assert Pow2(6) == 64;
    match k {
      case 0 => Bit0(b);
      case 1 => Bit1(b);
      case 2 => Bit2(b);
      case 3 => Bit3(b);
      case 4 => Bit4(b);
      case 5 => Bit5(b);
      case 6 => Bit6(b);
      case _ => Bit7(b);
    }
  }

  lemma {:induction false} ByteOfBits(bits: seq<bv8>, i: nat)
    requires i < |bits|
    ensures Bloom.ToBytes(bits)[i] == bits[i] as int
  {
    if i > 0 {
      ByteOfBits(bits[1..], i - 1);
    }
  }

  // A filter: probes, length and number of keys, then bit n as the one that counts 2^(n % 8) in byte n / 8.
  lemma {:induction false} FilterLayout(bits: seq<bv8>, probes: nat, keys: nat, n: nat)
    requires probes <= 30 && |bits| < Two32 && keys < Two32 && n < 8 * |bits|
    ensures var b := Bloom.Stored(bits, probes, keys);
            && |b| == 12 + |bits|
            && HasNumber(b, 0, 4, probes) && HasNumber(b, 4, 4, |bits|) && HasNumber(b, 8, 4, keys)
            && (Bloom.IsSet(bits, n) <==> b[12 + n / 8] / Pow2(n % 8) % 2 == 1)
  {
    hide HasNumber, Little, Bloom.ToBytes, Pow2, Bloom.Mask;
    var b, rest := Bloom.Stored(bits, probes, keys), Bloom.ToBytes(bits);
    var x, y, z := Little(probes, 4), Little(|bits|, 4), Little(keys, 4);
    assert b == [] + x + (y + z + rest);
    LittleIs([], probes, 4, y + z + rest);
    assert b == x + y + (z + rest);
    LittleIs(x, |bits|, 4, z + rest);
    assert b == (x + y) + z + rest;
    LittleIs(x + y, keys, 4, rest);
    ByteOfBits(bits, n / 8);
    assert b[12 + n / 8] == rest[n / 8];
    BitOfByte(bits[n / 8], n % 8);
  }

  // A table's filter has seven probes and counts every record.
  lemma {:induction false} TableFilter(records: seq<Record>)
    requires |Table.BloomBytes(records)| < Two32 && |records| < Two32
    ensures var b := Table.BloomBytes(records);
            HasNumber(b, 0, 4, 7) && HasNumber(b, 4, 4, Table.FilterSize(|records|)) && HasNumber(b, 8, 4, |records|)
  {
    hide HasNumber, Bloom.Stored, Bloom.Filled, Bloom.IsSet;
    var size := Table.FilterSize(|records|);
    var bits := Bloom.Filled(Table.EncodedKeys(records), size, 7);
    StoredLength(bits, 7, |records|);
    FilterLayout(bits, 7, |records|, 0);
  }

  lemma {:induction false} StoredLength(bits: seq<bv8>, probes: nat, keys: nat)
    requires probes <= 30
    ensures |Bloom.Stored(bits, probes, keys)| == 12 + |bits|
  {
  }

  // ---------------------------------------------------------------- the manifest

  function Pow10(n: nat): (p: nat)
    ensures p > 0
  {
    if n == 0 then 1 else 10 * Pow10(n - 1)
  }

  lemma {:induction false} LastDigit(n: nat)
    ensures Text.Decimal(n) == (if n < 10 then [] else Text.Decimal(n / 10)) + [48 + n % 10]
  {
  }

  // Decimal digits after as many zeros as the width asks for.
  function Padded(n: nat, width: nat): (p: Bytes)
    ensures |p| >= width
  {
    var d := Text.Decimal(n);
    (if |d| < width then seq(width - |d|, _ => 48) else []) + d
  }

  lemma {:induction false} PaddedTail(n: nat, width: nat)
    requires width > 0 && |Text.Decimal(n)| <= width
    ensures n >= 10 ==> Padded(n, width) == Padded(n / 10, width - 1) + [48 + n % 10]
    ensures n < 10 ==> Padded(n, width) == seq(width - 1, _ => 48) + [48 + n]
  {
    hide Text.Decimal;
    LastDigit(n);
  }

  lemma {:induction false} DigitCount(n: nat, width: nat)
    requires width > 0 && n < Pow10(width)
    ensures |Text.Decimal(n)| <= width
  {
    hide Text.Decimal;
    LastDigit(n);
    if n >= 10 {
      assert Pow10(1) == 10 * Pow10(0);
      DigitCount(n / 10, width - 1);
    }
  }

  // Digit i of a padded number.
  lemma {:induction false} PaddedAt(n: nat, width: nat, i: nat)
    requires width > 0 && n < Pow10(width) && i < width
    ensures |Padded(n, width)| == width && Padded(n, width)[i] == 48 + n / Pow10(width - 1 - i) % 10
  {
    hide Padded, Text.Decimal;
    DigitCount(n, width);
    PaddedTail(n, width);
    assert Pow10(1) == 10 * Pow10(0);
    if i < width - 1 {
      DivideTwice(n, 10, Pow10(width - 2 - i));
      if n >= 10 {
        PaddedAt(n / 10, width - 1, i);
      } else {
        NothingLeft(n, Pow10(width - 1 - i));
      }
    } else if n >= 10 {
      PaddedAt(n / 10, width - 1, 0);
    }
  }

  lemma {:induction false} NothingLeft(n: nat, p: nat)
    requires n < p
    ensures n / p % 10 == 0
  {
  }

  // A file name is its number with six digits at least, and ".sst".
  lemma {:induction false} SixDigits(n: nat, i: nat)
    requires n < 1_000_000 && i < 6
    ensures var f := Manifest.FileName(n);
            |f| == 10 && f[i] == 48 + n / Pow10(5 - i) % 10 && f[6..] == [46, 115, 115, 116]
  {
    hide Text.Decimal;
    assert Pow10(2) == 100;
    assert Pow10(4) == 10_000;
    assert Pow10(6) == 1_000_000;
    PaddedAt(n, 6, i);
    assert Manifest.FileName(n) == Padded(n, 6) + [46, 115, 115, 116];
  }

  // "next_file 12"
  lemma {:induction false} NextLine()
    ensures Manifest.Print(Version.LineNext(12)) == [110, 101, 120, 116, 95, 102, 105, 108, 101, 32, 49, 50]
  {
  }

  // "del 0 3"
  lemma {:induction false} DelLine()
    ensures Manifest.Print(Version.LineDel(0, 3)) == [100, 101, 108, 32, 48, 32, 51]
  {
  }

  lemma {:induction false} SomeNumbers()
    ensures Text.SignedDecimal(1) == [49] && Text.Decimal(7) == [55] && Text.Decimal(42) == [52, 50]
    ensures Text.SignedDecimal(-5) == [45, 53] && Text.SignedDecimal(12) == [49, 50]
    ensures Manifest.FileName(7) == [48, 48, 48, 48, 48, 55, 46, 115, 115, 116]
  {
    hide Text.Decimal;
    LastDigit(1);
    LastDigit(7);
    LastDigit(42);
    LastDigit(4);
    LastDigit(5);
    LastDigit(12);
  }

  lemma {:induction false} AddFields(m: Version.FileMeta)
    requires m == Version.FileMeta(7, 42, TsKey([99, 112, 117], -5), TsKey([99, 112, 117], 12))
    ensures Manifest.Field(Text.SignedDecimal(1)) == [32, 49] && Manifest.Field(Text.Decimal(m.number)) == [32, 55]
    ensures Manifest.Field(Manifest.FileName(m.number)) == [32, 48, 48, 48, 48, 48, 55, 46, 115, 115, 116]
    ensures Manifest.Field(Text.Decimal(m.size)) == [32, 52, 50]
    ensures Manifest.PrintKey(m.smallest) == [32, 99, 112, 117, 32, 45, 53]
    ensures Manifest.PrintKey(m.largest) == [32, 99, 112, 117, 32, 49, 50]
  {
    hide Text.Decimal, Text.SignedDecimal, Manifest.FileName;
    SomeNumbers();
  }

  // "add 1 7 000007.sst 42 cpu -5 cpu 12"
  lemma {:induction false} AddLine()
    ensures var cpu: Bytes := [99, 112, 117];
            Manifest.Print(Version.LineAdd(1, Version.FileMeta(7, 42, TsKey(cpu, -5), TsKey(cpu, 12))))
            == [97, 100, 100] + [32, 49] + [32, 55] + [32, 48, 48, 48, 48, 48, 55, 46, 115, 115, 116] + [32, 52, 50]
               + [32, 99, 112, 117, 32, 45, 53] + [32, 99, 112, 117, 32, 49, 50]
  {
    hide Text.Decimal, Text.SignedDecimal, Manifest.FileName, Manifest.Field, Manifest.PrintKey;
    AddFields(Version.FileMeta(7, 42, TsKey([99, 112, 117], -5), TsKey([99, 112, 117], 12)));
  }
}
