// The delta-of-delta timestamp codec. Models src/compression.cpp:53-231. Machine words are numbers modulo 2^64;
// setting a bit above all others is addition of a power of two, and shifting right is division.
module DeltaOfDelta {
  import opened Types
  import opened Codec

  // ---------------------------------------------------------------- bits

  // The n low bits of v, lowest first: the order of bits inside a byte.
  function LowBits(v: nat, n: nat): (b: seq<bool>)
    ensures |b| == n
  {
    if n == 0 then [] else [v % 2 == 1] + LowBits(v / 2, n - 1)
  }

  // All the bits of a byte string, in the order in which they are written and read.
  function Unpack(data: Bytes): (b: seq<bool>)
    ensures |b| == 8 * |data|
  {
    if data == [] then [] else LowBits(data[0], 8) + Unpack(data[1..])
  }

  // The n low bits of v, highest first: the order of bits inside a number.
  function HighFirst(v: nat, n: nat): (b: seq<bool>)
    ensures |b| == n
  {
    if n == 0 then [] else HighFirst(v / 2, n - 1) + [v % 2 == 1]
  }

  function FromHighFirst(b: seq<bool>): (v: nat)
    ensures v < Pow2(|b|)
  {
    if b == [] then 0 else
      2 * FromHighFirst(b[..|b| - 1]) + if b[|b| - 1] then 1 else 0
  }

  function Zeros(n: nat): seq<bool> {
    seq(n, _ => false)
  }

  lemma {:induction false} HighFirstRoundTrip(v: nat, n: nat)
    requires v < Pow2(n)
    ensures FromHighFirst(HighFirst(v, n)) == v
  {
    if n > 0 {
      HighFirstRoundTrip(v / 2, n - 1);
      assert HighFirst(v, n)[..n - 1] == HighFirst(v / 2, n - 1);
    }
  }

  // Setting bit n of a block of n bits appends it.
  lemma {:induction false} LowBitsAppend(v: nat, n: nat, bit: bool)
    requires v < Pow2(n)
    ensures LowBits(v + if bit then Pow2(n) else 0, n + 1) == LowBits(v, n) + [bit]
  {
    if n > 0 {
      LowBitsAppend(v / 2, n - 1, bit);
      var w := v + if bit then Pow2(n) else 0;
      assert w % 2 == v % 2 && w / 2 == v / 2 + if bit then Pow2(n - 1) else 0;
      assert LowBits(w, n + 1) == [w % 2 == 1] + LowBits(w / 2, n);
    }
  }

  lemma {:induction false} LowBitsPadded(v: nat, n: nat, m: nat)
    requires v < Pow2(n) && n <= m
    ensures LowBits(v, m) == LowBits(v, n) + Zeros(m - n)
  {
    if n > 0 {
      LowBitsPadded(v / 2, n - 1, m - 1);
    } else if m > 0 {
      LowBitsPadded(0, 0, m - 1);
    }
  }

  lemma {:induction false} UnpackAppend(data: Bytes, b: byte)
    ensures Unpack(data + [b]) == Unpack(data) + LowBits(b, 8)
  {
    hide LowBits;
    if data == [] {
      assert [b][1..] == [];
    } else {
      UnpackAppend(data[1..], b);
      assert (data + [b])[1..] == data[1..] + [b];
    }
  }

  lemma {:induction false} LowBitsAgree(v: nat, w: nat, n: nat)
    requires v < Pow2(n) && w < Pow2(n) && LowBits(v, n) == LowBits(w, n)
    ensures v == w
  {
    if n > 0 {
      var a, b := LowBits(v, n), LowBits(w, n);
      assert a[0] == b[0] && a[1..] == LowBits(v / 2, n - 1) && b[1..] == LowBits(w / 2, n - 1);
      LowBitsAgree(v / 2, w / 2, n - 1);
    }
  }

  lemma {:induction false} UnpackAgree(a: Bytes, b: Bytes)
    requires Unpack(a) == Unpack(b)
    ensures a == b
  {
    if a != [] {
      assert |b| == |a|;
      var x, y := Unpack(a), Unpack(b);
      assert x[..8] == LowBits(a[0], 8) && y[..8] == LowBits(b[0], 8);
      assert x[8..] == Unpack(a[1..]) && y[8..] == Unpack(b[1..]);
      EightBits();
      LowBitsAgree(a[0], b[0], 8);
      UnpackAgree(a[1..], b[1..]);
    }
  }

  lemma {:induction false} EightBits()
    ensures Pow2(6) == 64 && Pow2(8) == 256 && Pow2(13) == 8192
  {
    assert Pow2(2) == 4;
    assert Pow2(4) == 16;
    assert Pow2(6) == 64;
    assert Pow2(8) == 256;
    assert Pow2(10) == 1024;
    assert Pow2(12) == 4096;
  }

  lemma {:induction false} Pow2Adds(m: nat, n: nat)
    ensures Pow2(m + n) == Pow2(m) * Pow2(n)
  {
    if m > 0 {
      Pow2Adds(m - 1, n);
      assert 2 * (Pow2(m - 1) * Pow2(n)) == 2 * Pow2(m - 1) * Pow2(n);
    }
  }

  lemma {:induction false} SixtyFourBits()
    ensures Pow2(64) == Two64
  {
    hide Pow2;
    EightBits();
    Pow2Adds(8, 8);
    Pow2Adds(16, 16);
    Pow2Adds(32, 32);
  }

  // ---------------------------------------------------------------- the code of one delta of deltas

  function Magnitude(d: int): nat {
    if d < 0 then -d else d
  }

  // 0 | 10 sign 6 bits | 110 sign 13 bits | 111 sign 64 bits.
  function Code(d: int): seq<bool> {
    if d == 0 then [false]
    else if Magnitude(d) <= 63 then [true, false, d < 0] + HighFirst(Magnitude(d), 6)
    else if Magnitude(d) <= 8191 then [true, true, false, d < 0] + HighFirst(Magnitude(d), 13)
    else [true, true, true, d < 0] + HighFirst(Magnitude(d), 64)
  }

  // Bit i of a number written high bit first.
  lemma {:induction false} HighFirstAt(v: nat, n: nat, i: nat)
    requires i < n
    ensures HighFirst(v, n)[i] <==> v / Pow2(n - 1 - i) % 2 == 1
  {
    if i < n - 1 {
      HighFirstAt(v / 2, n - 1, i);
      DivideTwice(v, 2, Pow2(n - 2 - i));
      assert Pow2(n - 1 - i) == 2 * Pow2(n - 2 - i);
    }
  }

  lemma {:induction false} LowBitsAt(v: nat, n: nat, i: nat)
    requires i < n
    ensures LowBits(v, n)[i] <==> v / Pow2(i) % 2 == 1
  {
    if i > 0 {
      LowBitsAt(v / 2, n - 1, i - 1);
      DivideTwice(v, 2, Pow2(i - 1));
    }
  }

  // Bit 8i + j of the stream is the one that counts 2^j in byte i.
  lemma {:induction false} StreamBit(data: Bytes, i: nat, j: nat)
    requires i < |data| && j < 8
    ensures Unpack(data)[8 * i + j] <==> data[i] / Pow2(j) % 2 == 1
  {
    hide LowBits;
    if i == 0 {
      LowBitsAt(data[0], 8, j);
    } else {
      StreamBit(data[1..], i - 1, j);
      assert Unpack(data)[8 * i + j] == Unpack(data[1..])[8 * (i - 1) + j];
    }
  }

  // The bits of the four codes: 1, 9, 17 or 68 of them.
  lemma {:induction false} CodeBits(d: int)
    ensures |Code(d)| == if d == 0 then 1 else if -63 <= d <= 63 then 9 else if -8191 <= d <= 8191 then 17 else 68
    ensures d == 0 ==> Code(d)[0] == false
    ensures d != 0 && -63 <= d <= 63 ==> Code(d)[..3] == [true, false, d < 0]
    ensures (d < -63 || 63 < d) && -8191 <= d <= 8191 ==> Code(d)[..4] == [true, true, false, d < 0]
    ensures d < -8191 || 8191 < d ==> Code(d)[..4] == [true, true, true, d < 0]
    ensures forall i :: 4 <= i < |Code(d)| ==> (Code(d)[i] <==> Magnitude(d) / Pow2(|Code(d)| - 1 - i) % 2 == 1)
    ensures d != 0 && -63 <= d <= 63 ==> (Code(d)[3] <==> Magnitude(d) / Pow2(5) % 2 == 1)
  {
    hide HighFirst, Pow2;
    var n := if -63 <= d <= 63 then 6 else if -8191 <= d <= 8191 then 13 else 64;
    forall i | 0 <= i < n ensures HighFirst(Magnitude(d), n)[i] <==> Magnitude(d) / Pow2(n - 1 - i) % 2 == 1 {
      HighFirstAt(Magnitude(d), n, i);
    }
    if d != 0 {
      var k := |Code(d)| - n;
      forall i | 4 <= i < |Code(d)| ensures Code(d)[i] <==> Magnitude(d) / Pow2(|Code(d)| - 1 - i) % 2 == 1 {
        assert Code(d)[i] == HighFirst(Magnitude(d), n)[i - k];
      }
    }
  }

  // Reading past the end of the data gives zero bits.
  function First(s: seq<bool>): bool {
    s != [] && s[0]
  }

  function Rest(s: seq<bool>): seq<bool> {
    if s == [] then [] else s[1..]
  }

  function Take(s: seq<bool>, n: nat): (b: seq<bool>)
    ensures |b| == n
  {
    if n <= |s| then s[..n] else s + Zeros(n - |s|)
  }

  function Drop(s: seq<bool>, n: nat): seq<bool> {
    if n <= |s| then s[n..] else []
  }

  // A sign bit and n bits of magnitude, as the decoder computes them in 64-bit words.
  function ReadSigned(s: seq<bool>, n: nat): (int, seq<bool>)
    requires n <= 64
  {
    SixtyFourBits();
    Pow2Grows(n, 64);
    var v: int := Signed(FromHighFirst(Take(Rest(s), n)));
    (if First(s) then -v else v, Drop(Rest(s), n))
  }

  lemma {:induction false} Pow2Grows(m: nat, n: nat)
    requires m <= n
    ensures Pow2(m) <= Pow2(n)
  {
    if m < n {
      Pow2Grows(m, n - 1);
    }
  }

  function ReadCode(s: seq<bool>): (int, seq<bool>) {
    if !First(s) then (0, Rest(s)) else
      var s1 := Rest(s);
      if !First(s1) then ReadSigned(Rest(s1), 6) else
        var s2 := Rest(s1);
        if !First(s2) then ReadSigned(Rest(s2), 13) else ReadSigned(Rest(s2), 64)
  }

  lemma {:induction false} ReadsSigned(d: int, n: nat, after: seq<bool>)
    requires n <= 64 && Magnitude(d) < Pow2(n) && Magnitude(d) <= MaxTs
    ensures ReadSigned([d < 0] + HighFirst(Magnitude(d), n) + after, n) == (d, after)
  {
    var s := [d < 0] + HighFirst(Magnitude(d), n) + after;
    assert Rest(s) == HighFirst(Magnitude(d), n) + after;
    assert Take(Rest(s), n) == HighFirst(Magnitude(d), n);
    assert Drop(Rest(s), n) == after;
    HighFirstRoundTrip(Magnitude(d), n);
  }

  lemma {:induction false} CodeIs(d: int)
    ensures d == 0 ==> Code(d) == [false]
    ensures 0 < Magnitude(d) <= 63 ==> Code(d) == [true, false] + ([d < 0] + HighFirst(Magnitude(d), 6))
    ensures 63 < Magnitude(d) <= 8191 ==> Code(d) == [true, true, false] + ([d < 0] + HighFirst(Magnitude(d), 13))
    ensures 8191 < Magnitude(d) ==> Code(d) == [true, true, true] + ([d < 0] + HighFirst(Magnitude(d), 64))
  {
    hide HighFirst;
  }

  // The prefix code can be read back from the front of any bit stream.
  lemma {:induction false} ReadsCode(d: int, after: seq<bool>)
    requires Magnitude(d) <= MaxTs
    ensures ReadCode(Code(d) + after) == (d, after)
  {
    hide ReadSigned, ReadCode, HighFirst, First, Rest, Pow2, Code;
    CodeIs(d);
    EightBits();
    SixtyFourBits();
    if d == 0 {
      ReadsPrefix(after);
    } else if Magnitude(d) <= 63 {
      var body := [d < 0] + HighFirst(Magnitude(d), 6);
      ReadsSigned(d, 6, after);
      ReadsPrefix(body + after);
      assert Code(d) + after == [true, false] + (body + after);
    } else if Magnitude(d) <= 8191 {
      var body := [d < 0] + HighFirst(Magnitude(d), 13);
      ReadsSigned(d, 13, after);
      ReadsPrefix(body + after);
      assert Code(d) + after == [true, true, false] + (body + after);
    } else {
      var body := [d < 0] + HighFirst(Magnitude(d), 64);
      ReadsSigned(d, 64, after);
      ReadsPrefix(body + after);
      assert Code(d) + after == [true, true, true] + (body + after);
    }
  }

  lemma {:induction false} ReadsPrefix(s: seq<bool>)
    ensures ReadCode([false] + s) == (0, s)
    ensures ReadCode([true, false] + s) == ReadSigned(s, 6)
    ensures ReadCode([true, true, false] + s) == ReadSigned(s, 13)
    ensures ReadCode([true, true, true] + s) == ReadSigned(s, 64)
  {
    hide ReadSigned, First, Rest;
    Peel(false, s);
    Peel(true, s);
    Peel(true, [false] + s);
    Peel(true, [true] + s);
    Peel(true, [true] + ([false] + s));
    Peel(true, [true] + ([true] + s));
    assert [true, false] + s == [true] + ([false] + s);
    assert [true, true, false] + s == [true] + ([true] + ([false] + s));
    assert [true, true, true] + s == [true] + ([true] + ([true] + s));
  }

  lemma {:induction false} Peel(b: bool, s: seq<bool>)
    ensures First([b] + s) == b && Rest([b] + s) == s
  {
  }

  // ---------------------------------------------------------------- what is encoded

  // last_delta_ after the i-th timestamp, modulo 2^64.
  function Delta(ts: seq<int64>, i: nat): (d: nat)
    requires i < |ts|
    ensures d < Two64
  {
    if i == 0 then 0 else (Unsigned(ts[i]) - Unsigned(ts[i - 1])) % Two64
  }

  // The difference of two successive deltas, both taken as signed.
  function Dod(ts: seq<int64>, i: nat): int
    requires 0 < i < |ts|
  {
    Signed(Delta(ts, i)) - Signed(Delta(ts, i - 1))
  }

  // Signed arithmetic stays in range: the difference and its negation both fit 64 bits.
  ghost predicate Representable(ts: seq<int64>) {
    forall i :: 0 < i < |ts| ==> Magnitude(Dod(ts, i)) <= MaxTs
  }

  // The bits written after the first timestamp, for timestamps from to |ts| - 1.
  function BitsFrom(ts: seq<int64>, from: nat): seq<bool>
    requires 0 < from
    decreases |ts| - from
  {
    if from >= |ts| then [] else Code(Dod(ts, from)) + BitsFrom(ts, from + 1)
  }

  lemma {:induction false} BitsFromAppend(ts: seq<int64>, t: int64, from: nat)
    requires 0 < from <= |ts|
    ensures BitsFrom(ts + [t], from) == BitsFrom(ts, from) + Code(Dod(ts + [t], |ts|))
    decreases |ts| - from
  {
    hide Code, Dod;
    if from < |ts| {
      BitsFromAppend(ts, t, from + 1);
      DodOfPrefix(ts, t, from);
      assert Code(Dod(ts, from)) + (BitsFrom(ts, from + 1) + Code(Dod(ts + [t], |ts|)))
          == Code(Dod(ts, from)) + BitsFrom(ts, from + 1) + Code(Dod(ts + [t], |ts|));
    } else {
      assert BitsFrom(ts + [t], from + 1) == [];
    }
  }

  lemma {:induction false} DodOfPrefix(ts: seq<int64>, t: int64, i: nat)
    requires 0 < i < |ts|
    ensures Dod(ts + [t], i) == Dod(ts, i)
  {
  }

  lemma {:induction false} NextDod(ts: seq<int64>, t: int64)
    requires ts != []
    ensures var delta := (Unsigned(t) - Unsigned(ts[|ts| - 1])) % Two64;
            && Delta(ts + [t], |ts|) == delta
            && Dod(ts + [t], |ts|) == Signed(delta) as int - Signed(Delta(ts, |ts| - 1)) as int
  {
    assert Delta(ts + [t], |ts| - 1) == Delta(ts, |ts| - 1);
  }

  lemma {:induction false} DeltaFits(a: int64, b: int64)
    requires -0x8000_0000_0000_0000 <= b - a < 0x8000_0000_0000_0000
    ensures Signed((Unsigned(b) - Unsigned(a)) % Two64) == b - a
  {
    var d: int := (b as int) - (a as int);
    var w: int := Unsigned(b) - Unsigned(a);
    assert w == d || w == d + Two64 || w == d - Two64;
    assert w % Two64 == if d < 0 then d + Two64 else d;
  }

  // What is coded is the second difference of the timestamps, wherever their differences fit 64 bits.
  lemma {:induction false} SecondDifference(ts: seq<int64>, i: nat)
    requires 0 < i < |ts| && -0x8000_0000_0000_0000 <= ts[i] - ts[i - 1] < 0x8000_0000_0000_0000
    ensures i == 1 ==> Dod(ts, i) == (ts[1] as int) - (ts[0] as int)
    ensures i > 1 && -0x8000_0000_0000_0000 <= ts[i - 1] - ts[i - 2] < 0x8000_0000_0000_0000
            ==> Dod(ts, i) == (ts[i] as int) - 2 * (ts[i - 1] as int) + (ts[i - 2] as int)
  {
    hide Signed, Unsigned;
    DeltaFits(ts[i - 1], ts[i]);
    if i == 1 {
      DeltaFits(0, 0);
    } else if -0x8000_0000_0000_0000 <= ts[i - 1] - ts[i - 2] < 0x8000_0000_0000_0000 {
      DeltaFits(ts[i - 2], ts[i - 1]);
    }
  }

  function Header(ts: seq<int64>): Bytes {
    Varint(|ts|) + if ts == [] then [] else Varint(Unsigned(ts[0]))
  }

  // The compressed form: count and first timestamp as varints, then the code bits, padded with zeros to whole bytes.
  ghost predicate Encodes(data: Bytes, ts: seq<int64>) {
    && Header(ts) <= data
    && var body := Unpack(data[|Header(ts)|..]);
       var bits := BitsFrom(ts, 1);
       |bits| <= |body| < |bits| + 8 && body == bits + Zeros(|body| - |bits|)
  }

  // The compressed form of a sequence is unique.
  lemma {:induction false} EncodingIsUnique(a: Bytes, b: Bytes, ts: seq<int64>)
    requires Encodes(a, ts) && Encodes(b, ts)
    ensures a == b
  {
    hide Unpack, BitsFrom, Header;
    var h := |Header(ts)|;
    assert |Unpack(a[h..])| == |Unpack(b[h..])|;
    UnpackAgree(a[h..], b[h..]);
    assert a == Header(ts) + a[h..] && b == Header(ts) + b[h..];
  }

  // ---------------------------------------------------------------- the encoder

  function ShiftRight(v: nat, n: nat): nat {
    if n == 0 then v else ShiftRight(v, n - 1) / 2
  }

  lemma {:induction false} HighFirstPrefix(v: nat, n: nat, i: nat)
    requires i < n
    ensures HighFirst(ShiftRight(v, i), n - i)
         == HighFirst(ShiftRight(v, i + 1), n - i - 1) + [ShiftRight(v, i) % 2 == 1]
  {
  }

  class Encoder {
    var buf: Bytes
    var lastTs: nat
    var lastDelta: nat
    var block: nat
    var pendingBits: nat
    var count: nat
    ghost var added: seq<int64>        // the timestamps since the last Finish
    ghost var head: nat                // the length of the first timestamp's varint

    ghost predicate BlockOk()
      reads this
    {
      pendingBits < 8 && block < Pow2(pendingBits) && head <= |buf|
    }

    // The bits written so far, whole bytes and pending ones.
    ghost function Written(): seq<bool>
      requires head <= |buf|
      reads this
    {
      Unpack(buf[head..]) + LowBits(block, pendingBits)
    }

    ghost predicate Valid()
      reads this
    {
      && BlockOk() && count == |added|
      && (added == [] ==> buf == [] && pendingBits == 0 && lastTs == 0 && lastDelta == 0 && head == 0)
      && (added != [] ==>
            && lastTs == Unsigned(added[|added| - 1]) && lastDelta == Delta(added, |added| - 1)
            && buf[..head] == Varint(Unsigned(added[0])) && Written() == BitsFrom(added, 1))
    }

    constructor ()
      ensures Valid() && added == []
    {
      buf, lastTs, lastDelta, block, pendingBits, count := [], 0, 0, 0, 0, 0;
      added, head := [], 0;
    }

    method WriteBit(bit: bool)
      requires BlockOk()
      modifies `buf, `block, `pendingBits
      ensures BlockOk() && buf[..head] == old(buf[..head])
      ensures Written() == old(Written()) + [bit]
    {
      hide LowBits, Unpack;
      LowBitsAppend(block, pendingBits, bit);
      ghost var before := Unpack(buf[head..]) + LowBits(block, pendingBits);
      block := block + if bit then Pow2(pendingBits) else 0;
      pendingBits := pendingBits + 1;
      assert Unpack(buf[head..]) + LowBits(block, pendingBits) == before + [bit];
      if pendingBits == 8 {
        EightBits();
        UnpackAppend(buf[head..], block);
        assert (buf + [block])[head..] == buf[head..] + [block];
        buf := buf + [block];
        block, pendingBits := 0, 0;
        NoBits(0);
      }
    }

    method WriteBits(n: nat, value: nat)
      requires BlockOk()
      modifies `buf, `block, `pendingBits
      ensures BlockOk() && buf[..head] == old(buf[..head])
      ensures Written() == old(Written()) + HighFirst(value, n)
    {
      hide LowBits, Unpack, HighFirst;
      var i := n;
      NoBits(ShiftRight(value, n));
      while i > 0
        invariant 0 <= i <= n
        invariant BlockOk() && buf[..head] == old(buf[..head])
        invariant Written() == old(Written()) + HighFirst(ShiftRight(value, i), n - i)
      {
        i := i - 1;
        HighFirstPrefix(value, n, i);
        WriteBit(ShiftRight(value, i) % 2 == 1);
      }
    }

    method WriteSigned(prefix: seq<bool>, d: int, n: nat)
      requires BlockOk()
      modifies `buf, `block, `pendingBits
      ensures BlockOk() && buf[..head] == old(buf[..head])
      ensures Written() == old(Written()) + (prefix + ([d < 0] + HighFirst(Magnitude(d), n)))
    {
      hide LowBits, Unpack, HighFirst;
      for i := 0 to |prefix|
        invariant BlockOk() && buf[..head] == old(buf[..head])
        invariant Written() == old(Written()) + prefix[..i]
      {
        WriteBit(prefix[i]);
        assert prefix[..i + 1] == prefix[..i] + [prefix[i]];
      }
      assert prefix[..|prefix|] == prefix;
      WriteBit(d < 0);
      WriteBits(n, if d < 0 then -d else d);
    }

    method Add(ts: int64)
      requires Valid() && count < 0x7FFF_FFFF && Representable(added + [ts])
      modifies this
      ensures Valid() && added == old(added) + [ts]
    {
      hide LowBits, Unpack, HighFirst, BitsFrom, Code, Dod, Delta, Unsigned, Signed;
      ghost var all := added + [ts];
      if count == 0 {
        buf := EncodeVarint(Unsigned(ts));
        count := 1;
        lastTs := Unsigned(ts);
        added, head := all, |buf|;
        NothingWritten(all, buf);
        NoBits(block);
        NoDelta(all);
        return;
      }
      var delta := (Unsigned(ts) - lastTs) % Two64;
      var dod := Signed(delta) as int - Signed(lastDelta) as int;
      NextDod(added, ts);
      if dod == 0 {
        WriteBit(false);
      } else if -63 <= dod <= 63 {
        WriteSigned([true, false], dod, 6);
      } else if -8191 <= dod <= 8191 {
        WriteSigned([true, true, false], dod, 13);
      } else {
        WriteSigned([true, true, true], dod, 64);
      }
      CodeIs(dod);
      BitsFromAppend(added, ts, 1);
      lastTs := Unsigned(ts);
      lastDelta := delta;
      count := count + 1;
      added := all;
    }

    method Finish() returns (result: Bytes)
      requires Valid()
      modifies this
      ensures Encodes(result, old(added))
      ensures Valid() && added == []
    {
      hide LowBits, Unpack, BitsFrom;
      ghost var body := buf[head..];
      if pendingBits > 0 {
        BlockFits(pendingBits);
        LowBitsPadded(block, pendingBits, 8);
        UnpackAppend(body, block);
        assert (buf + [block])[head..] == body + [block];
        assert (buf + [block])[..head] == buf[..head];
        buf := buf + [block];
      } else {
        NoBits(block);
      }
      result := EncodeVarint(count);
      result := result + buf;
      FinishedIs(added, head, buf, result, if pendingBits > 0 then 8 - pendingBits else 0);
      buf, lastTs, lastDelta, block, pendingBits, count := [], 0, 0, 0, 0, 0;
      added, head := [], 0;
    }
  }

  lemma {:induction false} NoBits(v: nat)
    ensures LowBits(v, 0) == [] && HighFirst(v, 0) == []
  {
  }

  lemma {:induction false} NothingWritten(ts: seq<int64>, buf: Bytes)
    requires |ts| == 1
    ensures BitsFrom(ts, 1) == [] && Unpack(buf[|buf|..]) == []
  {
  }

  lemma {:induction false} NoDelta(ts: seq<int64>)
    requires |ts| == 1
    ensures Delta(ts, 0) == 0
  {
  }

  lemma {:induction false} BlockFits(n: nat)
    requires n < 8
    ensures Pow2(n) < 256
  {
    EightBits();
    Pow2Grows(n, 7);
    assert Pow2(8) == 2 * Pow2(7);
  }

  lemma {:induction false} FinishedIs(ts: seq<int64>, head: nat, buf: Bytes, result: Bytes, pad: nat)
    requires head <= |buf| && result == Varint(|ts|) + buf && pad < 8
    requires ts == [] ==> buf == [] && head == 0
    requires ts != [] ==> buf[..head] == Varint(Unsigned(ts[0]))
    requires ts != [] ==> Unpack(buf[head..]) == BitsFrom(ts, 1) + Zeros(pad)
    ensures Encodes(result, ts)
  {
    hide Unpack, BitsFrom, Varint;
    assert buf == buf[..head] + buf[head..];
    assert result == Header(ts) + buf[head..];
    assert result[|Header(ts)|..] == buf[head..];
    if ts == [] {
      NothingLeft();
    }
  }

  lemma {:induction false} NothingLeft()
    ensures BitsFrom([], 1) == [] && Unpack([]) == []
  {
  }

  // ---------------------------------------------------------------- the decoder

  lemma {:induction false} TakeNext(s: seq<bool>, n: nat)
    ensures Take(s, n + 1) == Take(s, n) + [First(Drop(s, n))]
    ensures Drop(s, n + 1) == Rest(Drop(s, n))
  {
  }

  lemma {:induction false} LoadByte(data: Bytes, pos: nat)
    requires pos < |data|
    ensures Unpack(data[pos..]) == LowBits(data[pos], 8) + Unpack(data[pos + 1..])
  {
    hide LowBits;
    assert data[pos..][1..] == data[pos + 1..];
  }

  lemma {:induction false} FirstLowBit(v: nat, n: nat)
    requires n > 0
    ensures LowBits(v, n) == [v % 2 == 1] + LowBits(v / 2, n - 1)
  {
  }

  class Decoder {
    var data: Bytes
    var pos: nat
    var pendingBits: nat
    var block: nat
    var lastTs: nat
    var lastDelta: nat
    var count: nat
    var totalCount: int

    ghost predicate Valid()
      reads this
    {
      pos <= |data| && lastTs < Two64 && lastDelta < Two64
    }

    // The bits still to be read.
    ghost function Stream(): seq<bool>
      requires pos <= |data|
      reads this
    {
      LowBits(block, pendingBits) + Unpack(data[pos..])
    }

    constructor (compressed: Bytes)
      ensures Valid() && data == compressed && count == 0 && lastTs == 0 && lastDelta == 0
      ensures (totalCount, pos) == (ToInt32(DecodeVarint64(compressed, 0).0), DecodeVarint64(compressed, 0).1)
    {
      data, pendingBits, block, lastTs, lastDelta, count := compressed, 0, 0, 0, 0, 0;
      VarintStaysInside(compressed, 0, 0, 1, 0, 10, Two64, 0);
      var total, after := ReadVarint64(compressed, 0);
      pos := after;
      totalCount := ToInt32(total);
    }

    method ReadBit() returns (bit: bool)
      requires pos <= |data|
      modifies `pos, `pendingBits, `block
      ensures pos <= |data|
      ensures bit == First(old(Stream())) && Stream() == Rest(old(Stream()))
    {
      hide LowBits, Unpack;
      if pendingBits == 0 {
        NoBits(block);
        if pos >= |data| {
          NothingLeft();
          assert data[pos..] == [];
          return false;
        }
        LoadByte(data, pos);
        block := data[pos];
        pos := pos + 1;
        pendingBits := 8;
      }
      FirstLowBit(block, pendingBits);
      bit := block % 2 == 1;
      block := block / 2;
      pendingBits := pendingBits - 1;
      assert old(Stream()) == [bit] + Stream();
    }

    method ReadBits(n: nat) returns (value: nat)
      requires pos <= |data|
      modifies `pos, `pendingBits, `block
      ensures pos <= |data|
      ensures value == FromHighFirst(Take(old(Stream()), n)) && Stream() == Drop(old(Stream()), n)
    {
      hide LowBits, Unpack, First, Rest, Take, Drop;
      ghost var s := Stream();
      value := 0;
      TakeNone(s);
      for i := 0 to n
        invariant pos <= |data|
        invariant Stream() == Drop(s, i)
        invariant value == FromHighFirst(Take(s, i))
      {
        TakeNext(s, i);
        var bit := ReadBit();
        value := 2 * value + if bit then 1 else 0;
        assert Take(s, i + 1)[..i] == Take(s, i);
      }
    }

    method ReadSignedBits(n: nat) returns (dod: int)
      requires pos <= |data| && n <= 64
      modifies `pos, `pendingBits, `block
      ensures pos <= |data|
      ensures (dod, Stream()) == ReadSigned(old(Stream()), n)
    {
      hide LowBits, Unpack, First, Rest, Take, Drop, FromHighFirst, Pow2;
      var sign := ReadBit();
      var value := ReadBits(n);
      SixtyFourBits();
      Pow2Grows(n, 64);
      var v: int := Signed(value);
      dod := if sign then -v else v;
    }

    method ReadDod() returns (dod: int)
      requires pos <= |data|
      modifies `pos, `pendingBits, `block
      ensures pos <= |data|
      ensures (dod, Stream()) == ReadCode(old(Stream()))
    {
      hide LowBits, Unpack, First, Rest, ReadSigned;
      var b1 := ReadBit();
      if !b1 {
        return 0;
      }
      var b2 := ReadBit();
      if !b2 {
        dod := ReadSignedBits(6);
      } else {
        var b3 := ReadBit();
        if !b3 {
          dod := ReadSignedBits(13);
        } else {
          dod := ReadSignedBits(64);
        }
      }
    }

    // The next timestamp: from the varint first, then from the code of the next delta of deltas.
    method Next() returns (more: bool, ts: int64)
      requires Valid()
      modifies this
      ensures Valid() && data == old(data) && totalCount == old(totalCount)
      ensures more <==> old(count) < totalCount
      ensures !more ==> unchanged(this)
      ensures more ==> count == old(count) + 1 && ts == Signed(lastTs)
      ensures more && old(count) == 0 ==>
                && (lastTs, pos) == (DecodeVarint64(data, old(pos)).0 % Two64, DecodeVarint64(data, old(pos)).1)
                && lastDelta == old(lastDelta) && Stream() == Unpack(data[pos..])
      ensures more && old(count) > 0 ==>
                && Stream() == ReadCode(old(Stream())).1
                && lastDelta == (old(lastDelta) + ReadCode(old(Stream())).0) % Two64
                && lastTs == (old(lastTs) + lastDelta) % Two64
    {
      hide LowBits, Unpack, ReadCode;
      if count >= totalCount {
        return false, 0;
      }
      if count == 0 {
        VarintStaysInside(data, pos, 0, 1, 0, 10, Two64, 0);
        var first, after := ReadVarint64(data, pos);
        lastTs, pos := first % Two64, after;
        pendingBits, block := 0, 0;
        NoBits(0);
      } else {
        var dod := ReadDod();
        lastDelta := (lastDelta + dod) % Two64;
        lastTs := (lastTs + lastDelta) % Two64;
      }
      count := count + 1;
      more, ts := true, Signed(lastTs);
    }
  }

  lemma {:induction false} TakeNone(s: seq<bool>)
    ensures Take(s, 0) == [] && Drop(s, 0) == s && FromHighFirst([]) == 0
  {
  }

  // ---------------------------------------------------------------- round trip

  // One step of the decoder over the bits of a representable sequence gives back its next delta and timestamp.
  lemma {:induction false} StepDecodes(ts: seq<int64>, i: nat, stream: seq<bool>)
    requires 0 < i < |ts| && Representable(ts) && BitsFrom(ts, i) <= stream
    ensures var (dod, rest) := ReadCode(stream);
            && (Delta(ts, i - 1) + dod) % Two64 == Delta(ts, i)
            && (Unsigned(ts[i - 1]) + Delta(ts, i)) % Two64 == Unsigned(ts[i])
            && BitsFrom(ts, i + 1) <= rest
  {
    hide Code, ReadCode, Delta, Unsigned, Signed;
    var code, bits := Code(Dod(ts, i)), BitsFrom(ts, i + 1);
    var after := stream[|BitsFrom(ts, i)|..];
    assert stream == code + (bits + after);
    ReadsCode(Dod(ts, i), bits + after);
    DeltaAdds(Delta(ts, i - 1), Delta(ts, i));
    TimestampAdds(ts, i);
  }

  lemma {:induction false} DeltaAdds(d: nat, e: nat)
    requires d < Two64 && e < Two64
    ensures (d + (Signed(e) as int - Signed(d) as int)) % Two64 == e
  {
  }

  lemma {:induction false} TimestampAdds(ts: seq<int64>, i: nat)
    requires 0 < i < |ts|
    ensures (Unsigned(ts[i - 1]) + Delta(ts, i)) % Two64 == Unsigned(ts[i])
  {
  }

  lemma {:induction false} HeaderDecodes(data: Bytes, ts: seq<int64>)
    requires Encodes(data, ts) && |ts| < Two64
    ensures DecodeVarint64(data, 0) == (|ts|, |Varint(|ts|)|)
    ensures ts != [] ==> DecodeVarint64(data, |Varint(|ts|)|) == (Unsigned(ts[0]), |Header(ts)|)
  {
    hide Unpack, BitsFrom, Varint, DecodeVarint64;
    var n := Varint(|ts|);
    assert data == Header(ts) + data[|Header(ts)|..];
    if ts == [] {
      Varint64RoundTrip([], 0, data[|n|..]);
      assert [] + n + data[|n|..] == data;
    } else {
      var u := Varint(Unsigned(ts[0]));
      Varint64RoundTrip([], |ts|, u + data[|Header(ts)|..]);
      assert [] + n + (u + data[|Header(ts)|..]) == data;
      Varint64RoundTrip(n, Unsigned(ts[0]), data[|Header(ts)|..]);
    }
  }

  // Decoding an encoding gives exactly the sequence, then false.
  method Decode(data: Bytes, ghost source: seq<int64>) returns (ts: seq<int64>, again: bool)
    requires Encodes(data, source) && Representable(source) && |source| <= 0x7FFF_FFFF
    ensures ts == source && !again
  {
    hide Unpack, BitsFrom, ReadCode, DecodeVarint64, Header, Signed, Unsigned, LowBits, Delta, Dod;
    HeaderDecodes(data, source);
    var decoder := new Decoder(data);
    CountFits(|source|);
    ts := [];
    var more, t := decoder.Next();
    if more {
      FirstDecodes(data, source);
    }
    while more
      invariant fresh(decoder) && decoder.Valid() && decoder.totalCount == |source| && decoder.data == data
      invariant more ==> decoder.count == |ts| + 1 <= |source| && t == source[|ts|]
                         && decoder.lastTs == Unsigned(t) && decoder.lastDelta == Delta(source, |ts|)
                         && BitsFrom(source, |ts| + 1) <= decoder.Stream()
      invariant !more ==> ts == source && decoder.count == |source|
      invariant ts <= source
      decreases |source| - |ts|, more
    {
      ts := ts + [t];
      if |ts| < |source| {
        StepDecodes(source, |ts|, decoder.Stream());
        SignedOfUnsigned(source[|ts|]);
      }
      more, t := decoder.Next();
    }
    again, t := decoder.Next();
  }

  lemma {:induction false} CountFits(n: nat)
    requires n <= 0x7FFF_FFFF
    ensures ToInt32(n) == n
  {
  }

  lemma {:induction false} SignedOfUnsigned(t: int64)
    ensures Signed(Unsigned(t)) == t && Unsigned(t) % Two64 == Unsigned(t)
  {
  }

  lemma {:induction false} FirstDecodes(data: Bytes, ts: seq<int64>)
    requires Encodes(data, ts) && ts != []
    ensures BitsFrom(ts, 1) <= Unpack(data[|Header(ts)|..])
    ensures Delta(ts, 0) == 0 && Unsigned(ts[0]) % Two64 == Unsigned(ts[0]) && Signed(Unsigned(ts[0])) == ts[0]
  {
    hide Unpack, BitsFrom, Header;
  }

  // Encoding and decoding any representable sequence gives it back.
  method RoundTrip(ts: seq<int64>) returns (data: Bytes, decoded: seq<int64>, again: bool)
    requires Representable(ts) && |ts| <= 0x7FFF_FFFF
    ensures Encodes(data, ts) && decoded == ts && !again
  {
    hide Encodes, Representable;
    var encoder := new Encoder();
    for i := 0 to |ts|
      invariant fresh(encoder) && encoder.Valid() && encoder.added == ts[..i]
    {
      RepresentablePrefix(ts, i + 1);
      assert ts[..i + 1] == ts[..i] + [ts[i]];
      encoder.Add(ts[i]);
    }
    assert ts[..|ts|] == ts;
    data := encoder.Finish();
    decoded, again := Decode(data, ts);
  }

  lemma {:induction false} RepresentablePrefix(ts: seq<int64>, n: nat)
    requires Representable(ts) && n <= |ts|
    ensures Representable(ts[..n])
  {
    assert forall i :: 0 < i < n ==> Dod(ts[..n], i) == Dod(ts, i);
  }

  // ---------------------------------------------------------------- size

  lemma {:induction false} BitsFromSize(ts: seq<int64>, from: nat)
    requires 0 < from <= |ts|
    ensures |BitsFrom(ts, from)| <= 68 * (|ts| - from)
    decreases |ts| - from
  {
    hide HighFirst, Dod;
    if from < |ts| {
      BitsFromSize(ts, from + 1);
    }
  }

  // At most ten bytes each for the count and the first timestamp, and 68 bits for every other timestamp.
  lemma {:induction false} EncodingSize(data: Bytes, ts: seq<int64>)
    requires Encodes(data, ts) && 0 < |ts| < Two64
    ensures |data| <= 20 + (68 * (|ts| - 1) + 7) / 8
  {
    hide Unpack, BitsFrom, Varint;
    Pow128Limits();
    VarintSize(|ts|, 10);
    VarintSize(Unsigned(ts[0]), 10);
    BitsFromSize(ts, 1);
    var body := data[|Header(ts)|..];
    assert |Unpack(body)| == 8 * |body|;
  }

  ghost predicate EvenlySpaced(ts: seq<int64>, step: int) {
    forall i :: 0 < i < |ts| ==> ts[i] as int - ts[i - 1] as int == step
  }

  // Evenly spaced timestamps cost one bit each after the second.
  lemma {:induction false} EvenSpacingIsOneBit(ts: seq<int64>, step: int, from: nat)
    requires EvenlySpaced(ts, step) && 2 <= from <= |ts|
    ensures |BitsFrom(ts, from)| == |ts| - from
    decreases |ts| - from
  {
    if from < |ts| {
      EvenSpacingIsOneBit(ts, step, from + 1);
      SameDelta(ts, step, from);
    }
  }

  lemma {:induction false} SameDelta(ts: seq<int64>, step: int, i: nat)
    requires EvenlySpaced(ts, step) && 2 <= i < |ts|
    ensures Dod(ts, i) == 0
  {
    assert ts[i] as int - ts[i - 1] as int == step;
    assert ts[i - 1] as int - ts[i - 2] as int == step;
    DeltaOfStep(ts[i - 1], ts[i], step);
    DeltaOfStep(ts[i - 2], ts[i - 1], step);
  }

  lemma {:induction false} DeltaOfStep(a: int64, b: int64, step: int)
    requires b as int - a as int == step
    ensures (Unsigned(b) - Unsigned(a)) % Two64 == step % Two64
  {
  }

  // Ascending timestamps that span less than 2^63 are always representable.
  lemma {:induction false} ShortSpanIsRepresentable(ts: seq<int64>)
    requires forall i, j :: 0 <= i < j < |ts| ==> 0 <= ts[j] as int - ts[i] as int <= MaxTs
    ensures Representable(ts)
  {
    forall i | 0 < i < |ts| ensures Magnitude(Dod(ts, i)) <= MaxTs {
      SmallDelta(ts[i - 1], ts[i]);
      if i > 1 {
        SmallDelta(ts[i - 2], ts[i - 1]);
      }
    }
  }

  lemma {:induction false} SmallDelta(a: int64, b: int64)
    requires 0 <= b as int - a as int <= MaxTs
    ensures (Unsigned(b) - Unsigned(a)) % Two64 == b as int - a as int
  {
    DeltaOfStep(a, b, b as int - a as int);
  }

  // Ascending order alone is not enough: from the least timestamp to 0 the delta of delta is -2^63, which fits 64 bits,
  // but its negation (src/compression.cpp:96) does not.
  lemma {:induction false} AscendingCanOverflow()
    ensures !Representable([MinTs, 0])
  {
    var ts: seq<int64> := [MinTs, 0];
    assert Dod(ts, 1) == MinTs;
  }
}
