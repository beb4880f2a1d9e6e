// The Bloom filter stored in every table. Models src/bloomfilter.cpp.
module Bloom {
  import opened Types
  import opened Codec
  import Crc32

  const MinBits := 1024 * 8

  // ---------------------------------------------------------------- hashing

  const Seed1: bv32 := 2166136261
  const Seed2: bv32 := 0x1234_5678

  function ByPrime(h: bv32): bv32 {
    h * 16777619
  }

  function Mix1(h: bv32, c: byte): bv32 {
    ByPrime(Crc32.Xor(h, Crc32.ToBv(c)))
  }

  function Mix2(h: bv32, c: byte): bv32 {
    h ^ (Crc32.ToBv(c) + 0x9e37_79b9 + (h << 6) + (h >> 2))
  }

  function Fold1(key: Bytes): bv32 {
    if key == [] then Seed1 else Mix1(Fold1(key[..|key| - 1]), key[|key| - 1])
  }

  function Fold2(key: Bytes): bv32 {
    if key == [] then Seed2 else Mix2(Fold2(key[..|key| - 1]), key[|key| - 1])
  }

  function Hash1(key: Bytes): uint32 {
    Crc32.NumberFits(Fold1(key));
    Fold1(key) as int
  }

  function Hash2(key: Bytes): uint32 {
    Crc32.NumberFits(Odd(Fold2(key)));
    Odd(Fold2(key)) as int
  }

  function Odd(h: bv32): bv32 {
    h | 1
  }

  // The i-th probe, in 32-bit arithmetic.
  function Probe(key: Bytes, i: nat, bitCount: nat): (pos: nat)
    requires bitCount > 0
    ensures pos < bitCount
  {
    (Hash1(key) + i * Hash2(key)) % Two32 % bitCount
  }

  // ---------------------------------------------------------------- the bit array

  function Mask(k: nat): bv8 {
    match k
    case 0 => 0x01 case 1 => 0x02 case 2 => 0x04 case 3 => 0x08
    case 4 => 0x10 case 5 => 0x20 case 6 => 0x40 case _ => 0x80
  }

  predicate IsSet(bits: seq<bv8>, pos: nat)
    requires pos < 8 * |bits|
  {
    bits[pos / 8] & Mask(pos % 8) != 0
  }

  function Set(bits: seq<bv8>, pos: nat): (r: seq<bv8>)
    requires pos < 8 * |bits|
    ensures |r| == |bits|
  {
    bits[pos / 8 := bits[pos / 8] | Mask(pos % 8)]
  }

  // The filter answers yes: every probe finds its bit set.
  predicate Holds(bits: seq<bv8>, probes: int, key: Bytes) {
    bits != [] && forall i :: 0 <= i < probes ==> IsSet(bits, Probe(key, i, 8 * |bits|))
  }

  lemma {:induction false} OrKeeps(b: bv8, m: bv8, n: bv8)
    ensures b & m != 0 ==> (b | n) & m != 0
    ensures m != 0 ==> (b | m) & m != 0
  {
  }

  lemma {:induction false} SetKeeps(bits: seq<bv8>, pos: nat, other: nat)
    requires pos < 8 * |bits| && other < 8 * |bits|
    ensures IsSet(Set(bits, pos), pos)
    ensures IsSet(bits, other) ==> IsSet(Set(bits, pos), other)
  {
    OrKeeps(bits[pos / 8], Mask(other % 8), Mask(pos % 8));
    OrKeeps(bits[pos / 8], Mask(pos % 8), 0);
    MaskIsOneBit(pos % 8);
  }

  lemma {:induction false} MaskIsOneBit(k: nat)
    ensures Mask(k) != 0
  {
  }

  // ---------------------------------------------------------------- growth

  function NeededBytes(keyCount: nat, bitsPerKey: nat): nat {
    var bits := if keyCount * bitsPerKey > MinBits then keyCount * bitsPerKey else MinBits;
    (bits + 7) / 8
  }

  // The size after doubling until it is large enough.
  function Grown(size: nat, needed: nat): (r: nat)
    requires size > 0
    ensures r >= needed && r >= size
    decreases needed - size
  {
    if size >= needed then size else Grown(2 * size, needed)
  }

  // The bit count the code computes, as a 32-bit number, is the true one.
  predicate Addressable(size: nat) {
    0 < 8 * size < Two32
  }

  // ---------------------------------------------------------------- the stored form

  function ToBytes(bits: seq<bv8>): (b: Bytes)
    ensures |b| == |bits|
  {
    if bits == [] then [] else
      ByteBound(bits[0]);
      [bits[0] as int] + ToBytes(bits[1..])
  }

  function FromBytes(b: Bytes): (bits: seq<bv8>)
    ensures |bits| == |b|
  {
    if b == [] then [] else [b[0] as bv8] + FromBytes(b[1..])
  }

  lemma {:induction false} ByteBound(v: bv8)
    ensures 0 <= v as int < 256
  {
  }

  lemma {:induction false} ByteRoundTrip(v: bv8)
    ensures (v as int) as bv8 == v
  {
  }

  lemma {:induction false} BitsRoundTrip(bits: seq<bv8>)
    ensures FromBytes(ToBytes(bits)) == bits
  {
    if bits != [] {
      ByteRoundTrip(bits[0]);
      BitsRoundTrip(bits[1..]);
      assert ToBytes(bits)[1..] == ToBytes(bits[1..]);
    }
  }

  function FromInt32(v: int): uint32
    requires -0x8000_0000 <= v < 0x8000_0000
  {
    if v < 0 then v + Two32 else v
  }

  // num_probes, length and number of keys as 32-bit fields, then the bits.
  function Stored(bits: seq<bv8>, probes: int, keys: nat): Bytes
    requires -0x8000_0000 <= probes < 0x8000_0000
  {
    Fixed32(FromInt32(probes)) + Fixed32(|bits| % Two32) + Fixed32(keys % Two32) + ToBytes(bits)
  }

  function NoBits(n: nat): (bits: seq<bv8>)
    ensures |bits| == n
  {
    seq(n, _ => 0)
  }

  datatype Filter = Filter(bits: seq<bv8>, probes: int, keys: nat)

  function DefaultFilter(): Filter {
    Filter(NoBits(1024), 7, 0)
  }

  // Decoding reads no byte past the end: 12 + length is computed in 32 bits, and wraps for the greatest lengths.
  predicate Loadable(data: Bytes) {
    8 <= |data| < 12 ==> FromLittle(data[4..8]) < Two32 - 12
  }

  // A form without the key count has an eight-byte header; missing bits read as zero.
  function Load(data: Bytes): Filter
    requires Loadable(data)
  {
    if |data| < 8 then DefaultFilter() else
      var probes := ToInt32(Field(data, 0));
      var length := Field(data, 4);
      if |data| >= (12 + length) % Two32 then
        var bits := if |data| >= 12 + length then FromBytes(data[12..12 + length]) else NoBits(length);
        Filter(bits, probes, Field(data, 8))
      else
        Filter(if |data| >= 8 + length then FromBytes(data[8..8 + length]) else NoBits(length), probes, 0)
  }

  function Field(data: Bytes, at: nat): (v: uint32)
    requires at + 4 <= |data|
    ensures v == FromLittle(data[at..at + 4])
  {
    Powers();
    FromLittle(data[at..at + 4])
  }

  // What was stored is what is loaded; the key count modulo 2^32.
  lemma {:induction false} LoadUndoesStored(bits: seq<bv8>, probes: int, keys: nat)
    requires -0x8000_0000 <= probes < 0x8000_0000 && |bits| < Two32 - 12
    ensures var data := Stored(bits, probes, keys);
            && Loadable(data)
            && Load(data) == Filter(bits, probes, keys % Two32)
  {
    hide FromLittle, Fixed32, ToBytes, FromBytes;
    var data := Stored(bits, probes, keys);
    assert data[0..4] == Fixed32(FromInt32(probes));
    assert data[4..8] == Fixed32(|bits|);
    assert data[8..12] == Fixed32(keys % Two32);
    assert data[12..] == ToBytes(bits);
    assert data[12..12 + |bits|] == data[12..];
    Fixed32RoundTrip(FromInt32(probes));
    Fixed32RoundTrip(|bits|);
    Fixed32RoundTrip(keys % Two32);
    BitsRoundTrip(bits);
  }

  // ---------------------------------------------------------------- which bits are set

  // The first n probes of a key.
  function WithProbes(bits: seq<bv8>, key: Bytes, n: nat): (r: seq<bv8>)
    requires bits != []
    ensures |r| == |bits|
  {
    if n == 0 then bits else Set(WithProbes(bits, key, n - 1), Probe(key, n - 1, 8 * |bits|))
  }

  function Filled(keys: seq<Bytes>, size: nat, probes: nat): (r: seq<bv8>)
    requires size > 0
    ensures |r| == size
  {
    if keys == [] then NoBits(size)
    else WithProbes(Filled(keys[..|keys| - 1], size, probes), keys[|keys| - 1], probes)
  }

  lemma {:induction false} WithProbesSets(bits: seq<bv8>, key: Bytes, n: nat, pos: nat)
    requires bits != [] && pos < 8 * |bits|
    ensures IsSet(WithProbes(bits, key, n), pos)
            <==> IsSet(bits, pos) || exists i :: 0 <= i < n && Probe(key, i, 8 * |bits|) == pos
  {
    hide IsSet, Set, Probe;
    if n > 0 {
      var before, p := WithProbes(bits, key, n - 1), Probe(key, n - 1, 8 * |bits|);
      WithProbesSets(bits, key, n - 1, pos);
      SetKeeps(before, p, pos);
      if pos != p {
        SetOnly(before, p, pos);
      }
    }
  }

  lemma {:induction false} OrOnly(b: bv8, m: bv8, n: bv8)
    requires m & n == 0
    ensures (b | n) & m == b & m
  {
    assert (b | n) & m == (b & m) | (m & n);
  }

  lemma {:induction false} MasksDiffer(j: nat, k: nat)
    requires j < 8 && k < 8 && j != k
    ensures Mask(j) & Mask(k) == 0
  {
  }

  lemma {:induction false} SetOnly(bits: seq<bv8>, pos: nat, other: nat)
    requires pos < 8 * |bits| && other < 8 * |bits| && pos != other
    ensures IsSet(Set(bits, pos), other) == IsSet(bits, other)
  {
    if pos / 8 == other / 8 {
      assert pos % 8 != other % 8;
      MasksDiffer(other % 8, pos % 8);
      OrOnly(bits[pos / 8], Mask(other % 8), Mask(pos % 8));
    }
  }

  lemma {:induction false} NothingSet(size: nat, pos: nat)
    requires pos < 8 * size
    ensures !IsSet(NoBits(size), pos)
  {
    NothingAnd(Mask(pos % 8));
  }

  lemma {:induction false} NothingAnd(m: bv8)
    ensures 0 & m == 0
  {
  }

  predicate Probed(keys: seq<Bytes>, probes: nat, bitCount: nat, pos: nat)
    requires bitCount > 0
  {
    exists k, i :: 0 <= k < |keys| && 0 <= i < probes && Probe(keys[k], i, bitCount) == pos
  }

  // The bits of a filter are exactly the probes of its keys.
  lemma {:induction false} FilledExactly(keys: seq<Bytes>, size: nat, probes: nat, pos: nat)
    requires pos < 8 * size
    ensures IsSet(Filled(keys, size, probes), pos) <==> Probed(keys, probes, 8 * size, pos)
  {
    hide IsSet, Probe, WithProbes;
    if keys == [] {
      NothingSet(size, pos);
    } else {
      var init, last := keys[..|keys| - 1], keys[|keys| - 1];
      FilledExactly(init, size, probes, pos);
      WithProbesSets(Filled(init, size, probes), last, probes, pos);
      ProbedSplit(init, last, probes, 8 * size, pos);
      assert init + [last] == keys;
    }
  }

  lemma {:induction false} ProbedSplit(keys: seq<Bytes>, key: Bytes, probes: nat, bitCount: nat, pos: nat)
    requires bitCount > 0
    ensures Probed(keys + [key], probes, bitCount, pos)
            <==> Probed(keys, probes, bitCount, pos) || exists i :: 0 <= i < probes && Probe(key, i, bitCount) == pos
  {
    hide Probe;
    var all := keys + [key];
    assert all[|keys|] == key;
    assert forall k :: 0 <= k < |keys| ==> all[k] == keys[k];
  }

  // No false negatives: the filter of any keys answers yes for each of them.
  lemma {:induction false} FilledHolds(keys: seq<Bytes>, size: nat, probes: nat, key: Bytes)
    requires size > 0 && key in keys
    ensures Holds(Filled(keys, size, probes), probes, key)
  {
    hide IsSet, Probe, Filled;
    var k :| 0 <= k < |keys| && keys[k] == key;
    forall i | 0 <= i < probes ensures IsSet(Filled(keys, size, probes), Probe(key, i, 8 * size)) {
      FilledExactly(keys, size, probes, Probe(key, i, 8 * size));
      assert Probe(keys[k], i, 8 * size) == Probe(key, i, 8 * size);
    }
  }

  lemma {:induction false} MaskAlreadySet(b: bv8, k: nat)
    requires b & Mask(k) != 0
    ensures b | Mask(k) == b
  {
    match k { case 0 => case 1 => case 2 => case 3 => case 4 => case 5 => case 6 => case _ => }
  }

  // Adding a key that the filter already holds changes nothing.
  lemma {:induction false} AddingAgain(bits: seq<bv8>, probes: nat, key: Bytes, n: nat)
    requires Holds(bits, probes, key) && n <= probes
    ensures WithProbes(bits, key, n) == bits
  {
    hide Probe;
    if n > 0 {
      AddingAgain(bits, probes, key, n - 1);
      var p := Probe(key, n - 1, 8 * |bits|);
      assert IsSet(bits, p);
      MaskAlreadySet(bits[p / 8], p % 8);
    }
  }

  // ---------------------------------------------------------------- the filter object

  class BloomFilter {
    var bits: seq<bv8>
    var keys: seq<Bytes>
    var bitsPerKey: nat
    var probes: int
    var numKeys: nat

    // A filter that was built, not decoded.
    ghost predicate Valid()
      reads this
    {
      && numKeys == |keys| && Addressable(|bits|) && 1 <= probes <= 30
      && bits == Filled(keys, |bits|, probes)
    }

    // The ceiling of bits_per_key * ln 2, between 1 and 30, is given as probes.
    constructor (bitsPerKey: nat, probes: int)
      requires 1 <= probes <= 30
      ensures Valid() && keys == [] && this.probes == probes && this.bitsPerKey == bitsPerKey && |bits| == 1024
    {
      bits, keys, numKeys := NoBits(1024), [], 0;
      this.bitsPerKey, this.probes := bitsPerKey, probes;
    }

    method Add(key: Bytes)
      requires Valid() && Addressable(Grown(|bits|, NeededBytes(numKeys + 1, bitsPerKey)))
      modifies this
      ensures Valid() && keys == old(keys) + [key] && probes == old(probes) && bitsPerKey == old(bitsPerKey)
      ensures |bits| == Grown(old(|bits|), NeededBytes(|keys|, bitsPerKey))
    {
      hide WithProbes, Probe;
      assert (keys + [key])[..|keys|] == keys;
      keys := keys + [key];
      numKeys := numKeys + 1;
      var grown := EnsureCapacity(numKeys);
      if grown {
        FilledHolds(keys, |bits|, probes, key);
        AddingAgain(bits, probes, key, probes);
      }
      AddHashOnly(key);
    }

    // Doubles the array until it is large enough, and then adds every key anew.
    method EnsureCapacity(keyCount: nat) returns (grown: bool)
      requires 0 < |bits| && Addressable(Grown(|bits|, NeededBytes(keyCount, bitsPerKey))) && probes >= 0
      modifies `bits
      ensures grown <==> NeededBytes(keyCount, bitsPerKey) > old(|bits|)
      ensures |bits| == Grown(old(|bits|), NeededBytes(keyCount, bitsPerKey))
      ensures bits == if grown then Filled(keys, |bits|, probes) else old(bits)
    {
      hide WithProbes, Probe;
      var neededBits := if keyCount * bitsPerKey > MinBits then keyCount * bitsPerKey else MinBits;
      var neededBytes := (neededBits + 7) / 8;
      if neededBytes <= |bits| {
        return false;
      }
      var newSize := |bits|;
      while newSize < neededBytes
        invariant newSize > 0 && Grown(newSize, neededBytes) == Grown(old(|bits|), neededBytes)
        decreases neededBytes - newSize
      {
        newSize := newSize * 2;
      }
      bits := NoBits(newSize);
      for k := 0 to |keys|
        invariant |bits| == newSize && bits == Filled(keys[..k], newSize, probes)
      {
        AddHashOnly(keys[k]);
        assert keys[..k + 1][..k] == keys[..k];
      }
      assert keys[..|keys|] == keys;
      grown := true;
    }

    method AddHashOnly(key: Bytes)
      requires Addressable(|bits|) && probes >= 0
      modifies `bits
      ensures bits == WithProbes(old(bits), key, probes)
    {
      hide Set;
      var h1 := ComputeHash1(key);
      var h2 := ComputeHash2(key);
      var bitCount := 8 * |bits|;
      for i := 0 to probes
        invariant |bits| == old(|bits|) && bits == WithProbes(old(bits), key, i)
      {
        var pos := (h1 + i * h2) % Two32 % bitCount;
        bits := Set(bits, pos);
      }
    }

    method MayContain(key: Bytes) returns (answer: bool)
      requires 8 * |bits| < Two32
      ensures answer == Holds(bits, probes, key)
    {
      hide IsSet;
      if bits == [] {
        return false;
      }
      var h1 := ComputeHash1(key);
      var h2 := ComputeHash2(key);
      var bitCount := 8 * |bits|;
      var i: nat := 0;
      while i < probes
        invariant forall k :: 0 <= k < i ==> IsSet(bits, Probe(key, k, bitCount))
      {
        var pos := (h1 + i * h2) % Two32 % bitCount;
        assert pos == Probe(key, i, bitCount);
        if !IsSet(bits, pos) {
          return false;
        }
        i := i + 1;
      }
      return true;
    }

    method Encode() returns (data: Bytes)
      requires -0x8000_0000 <= probes < 0x8000_0000
      ensures data == Stored(bits, probes, numKeys)
    {
      data := Stored(bits, probes, numKeys);
    }

    // Decode: the filter object of a stored form, which does not know its keys.
    constructor Decode(data: Bytes)
      requires Loadable(data)
      ensures Filter(bits, probes, numKeys) == Load(data) && keys == []
    {
      var f := Load(data);
      bits, probes, numKeys := f.bits, f.probes, f.keys;
      keys, bitsPerKey := [], 10;
    }

    static method ComputeHash1(key: Bytes) returns (hash: uint32)
      ensures hash == Hash1(key)
    {
      hide Mix1, Crc32.ToBv;
      var h := Seed1;
      for i := 0 to |key|
        invariant h == Fold1(key[..i])
      {
        h := Mix1(h, key[i]);
        assert key[..i + 1][..i] == key[..i];
      }
      assert key[..|key|] == key;
      Crc32.NumberFits(h);
      hash := h as int;
    }

    static method ComputeHash2(key: Bytes) returns (hash: uint32)
      ensures hash == Hash2(key)
    {
      hide Mix2, Odd, Crc32.ToBv;
      var h := Seed2;
      for i := 0 to |key|
        invariant h == Fold2(key[..i])
      {
        h := Mix2(h, key[i]);
        assert key[..i + 1][..i] == key[..i];
      }
      assert key[..|key|] == key;
      Crc32.NumberFits(Odd(h));
      hash := Odd(h) as int;
    }
  }

  // A filter built from any keys, stored and loaded, still answers yes for each of them, and answers every other key
  // as it did before.
  lemma {:induction false} StoredFilterHasNoFalseNegative(keys: seq<Bytes>, size: nat, probes: nat, key: Bytes)
    requires Addressable(size) && 1 <= probes <= 30
    ensures var bits := Filled(keys, size, probes);
            var data := Stored(bits, probes, |keys|);
            && Loadable(data)
            && Load(data).bits == bits && Load(data).probes == probes
            && (key in keys ==> Holds(Load(data).bits, Load(data).probes, key))
  {
    hide Stored, Load, Filled, Holds;
    LoadUndoesStored(Filled(keys, size, probes), probes, |keys|);
    if key in keys {
      FilledHolds(keys, size, probes, key);
    }
  }

  // ---------------------------------------------------------------- when the filter answers no

  // The i-th probe of the key is no probe of these keys.
  ghost predicate Elsewhere(keys: seq<Bytes>, size: nat, probes: nat, key: Bytes, i: nat)
    requires size > 0
  {
    forall k, j :: 0 <= k < |keys| && 0 <= j < probes ==> Probe(key, i, 8 * size) != Probe(keys[k], j, 8 * size)
  }

  // The filter of some keys answers no exactly when some probe of the key is no probe of any of them.
  lemma {:induction false} AnswersNoExactlyWhen(keys: seq<Bytes>, size: nat, probes: nat, key: Bytes)
    requires size > 0
    ensures !Holds(Filled(keys, size, probes), probes, key)
            <==> exists i :: 0 <= i < probes && Elsewhere(keys, size, probes, key, i)
  {
    hide IsSet, Filled, Elsewhere;
    var bits := Filled(keys, size, probes);
    forall i | 0 <= i < probes
      ensures !IsSet(bits, Probe(key, i, 8 * size)) <==> Elsewhere(keys, size, probes, key, i)
    {
      UnsetExactlyWhen(keys, size, probes, key, i);
    }
  }

  lemma {:induction false} UnsetExactlyWhen(keys: seq<Bytes>, size: nat, probes: nat, key: Bytes, i: nat)
    requires size > 0
    ensures !IsSet(Filled(keys, size, probes), Probe(key, i, 8 * size)) <==> Elsewhere(keys, size, probes, key, i)
  {
    hide IsSet, Probe, Filled;
    FilledExactly(keys, size, probes, Probe(key, i, 8 * size));
  }

  // In an array whose size is a power of two the probes start at the first hash and go on in steps of the second.
  lemma {:induction false} ProbesStep(key: Bytes, i: nat, size: nat, m: nat)
    requires 8 * size * m == 0x1_0000_0000
    ensures Probe(key, 0, 8 * size) == Hash1(key) % (8 * size)
    ensures Probe(key, i + 1, 8 * size) == (Probe(key, i, 8 * size) + Hash2(key)) % (8 * size)
  {
    hide Hash1, Hash2;
    var d := 8 * size;
    var x, h := Hash1(key) + i * Hash2(key), Hash2(key);
    assert Hash1(key) + (i + 1) * h == x + h;
    RemainderTwice(x, d, m);
    RemainderTwice(x + h, d, m);
    AddRemainders(x, h, d);
  }

  // ---------------------------------------------------------------- the two hashes

  // The product of the two factors is 1 modulo 2^32.
  function Undo(h: bv32): bv32 {
    h * 0x359C_449B
  }

  lemma {:induction false} ProductIsUndone(x: bv32)
    ensures Undo(x * 16777619) == x
  {
  }

  lemma {:induction false} PrimeIsInvertible(x: bv32)
    ensures Undo(ByPrime(x)) == x
  {
    hide Undo;
    ProductIsUndone(x);
  }

  lemma {:induction false} XorCancels(h: bv32, x: bv32, y: bv32)
    ensures Crc32.Xor(x, h) == Crc32.Xor(y, h) ==> x == y
    ensures Crc32.Xor(h, x) == Crc32.Xor(h, y) ==> x == y
  {
  }

  lemma {:induction false} Mix1Separates(g: bv32, h: bv32, c: byte, d: byte)
    requires Mix1(g, c) == Mix1(h, d)
    ensures Crc32.Xor(g, Crc32.ToBv(c)) == Crc32.Xor(h, Crc32.ToBv(d))
  {
    hide Crc32.ToBv, Crc32.Xor, ByPrime, Undo;
    PrimeIsInvertible(Crc32.Xor(g, Crc32.ToBv(c)));
    PrimeIsInvertible(Crc32.Xor(h, Crc32.ToBv(d)));
  }

  lemma {:induction false} SameRest(a: Bytes, b: Bytes, rest: Bytes)
    requires Fold1(a + rest) == Fold1(b + rest)
    ensures Fold1(a) == Fold1(b)
  {
    hide Mix1, Crc32.ToBv, Crc32.Xor;
    if rest == [] {
      assert a + rest == a && b + rest == b;
    } else {
      var n := |rest| - 1;
      assert (a + rest)[..|a + rest| - 1] == a + rest[..n] && (b + rest)[..|b + rest| - 1] == b + rest[..n];
      Mix1Separates(Fold1(a + rest[..n]), Fold1(b + rest[..n]), rest[n], rest[n]);
      XorCancels(Crc32.ToBv(rest[n]), Fold1(a + rest[..n]), Fold1(b + rest[..n]));
      SameRest(a, b, rest[..n]);
    }
  }

  // Two keys that differ in one byte have different first hashes.
  lemma {:induction false} OneByteChangesHash(before: Bytes, c: byte, d: byte, rest: Bytes)
    requires c != d
    ensures Hash1(before + [c] + rest) != Hash1(before + [d] + rest)
  {
    hide Mix1, Crc32.ToBv, Crc32.Xor;
    var x, y := before + [c], before + [d];
    if Hash1(x + rest) == Hash1(y + rest) {
      Crc32.SameNumber(Fold1(x + rest), Fold1(y + rest));
      SameRest(x, y, rest);
      assert x[..|before|] == before && y[..|before|] == before;
      Mix1Separates(Fold1(before), Fold1(before), c, d);
      XorCancels(Fold1(before), Crc32.ToBv(c), Crc32.ToBv(d));
      Crc32.BytesAgree(c, d);
    }
  }

  // The first hash is FNV-1a: its published values for no byte and for the byte 'a'. And the second for the same.
  lemma {:induction false} HashValues()
    ensures Hash1([]) == 0x811C_9DC5 && Hash1([97]) == 0xE40C_292C
    ensures Hash2([]) == 0x1234_5679 && Hash2([97]) == 0x3DEE_7BC1
  {
    LetterA();
    assert [97 as byte][..0] == [];
  }

  lemma {:induction false} LetterA()
    ensures Crc32.ToBv(97) == 97
  {
    assert Crc32.Bits(12, 5) == 12;
  }
}
