// Fixed-width little-endian integers (src/wal.cpp:351-381, src/sstable.cpp:19-49) and the varints of
// src/compression.cpp:8-51. Shifts and masks are written as division and remainder by powers of two.
module Codec {
  import opened Types

  const Two32 := 0x1_0000_0000
  const Two64 := 0x1_0000_0000_0000_0000
  const VarintError := 0xFFFF_FFFF

  // static_cast<uint64_t> and static_cast<int64_t>.
  function Unsigned(v: int64): (u: nat)
    ensures u < Two64 && Signed(u) == v
  {
    if v < 0 then v + Two64 else v
  }

  function Signed(u: nat): int64
    requires u < Two64
  {
    if u <= MaxTs then u else u - Two64
  }

  lemma {:induction false} Regroup(a: Bytes, b: Bytes, c: Bytes)
    ensures (a + b) + c == a + (b + c)
  {
  }

  // static_cast<int32_t>.
  function ToInt32(v: nat): int {
    var low := v % Two32;
    if low < 0x8000_0000 then low else low - Two32
  }

  // ---------------------------------------------------------------- fixed width

  function Pow256(n: nat): (p: nat)
    ensures p > 0
  {
    if n == 0 then 1 else 256 * Pow256(n - 1)
  }

  // The n low bytes of v, lowest first.
  function Little(v: nat, n: nat): (b: Bytes)
    ensures |b| == n
  {
    if n == 0 then [] else [v % 256] + Little(v / 256, n - 1)
  }

  function FromLittle(b: Bytes): (v: nat)
    ensures v < Pow256(|b|)
  {
    if b == [] then 0 else b[0] + 256 * FromLittle(b[1..])
  }

  function Fixed32(v: nat): (b: Bytes)
    ensures |b| == 4
  {
    Little(v, 4)
  }

  function Fixed64(v: nat): (b: Bytes)
    ensures |b| == 8
  {
    Little(v, 8)
  }

  lemma {:induction false} Powers()
    ensures Pow256(1) == 0x100 && Pow256(2) == 0x1_0000 && Pow256(3) == 0x100_0000
    ensures Pow256(4) == Two32 && Pow256(8) == Two64
  {
    assert Pow256(1) == 256 * Pow256(0);
    assert Pow256(2) == 256 * Pow256(1);
    assert Pow256(3) == 256 * Pow256(2);
    assert Pow256(4) == 256 * Pow256(3);
    assert Pow256(5) == 256 * Pow256(4);
    assert Pow256(6) == 256 * Pow256(5);
    assert Pow256(7) == 256 * Pow256(6);
  }

  lemma {:induction false} LittleRoundTrip(v: nat, n: nat)
    requires v < Pow256(n)
    ensures FromLittle(Little(v, n)) == v
  {
    if n > 0 {
      LittleRoundTrip(v / 256, n - 1);
      assert Little(v, n)[1..] == Little(v / 256, n - 1);
    }
  }

  lemma {:induction false} TimesPositive(d: nat, k: int)
    ensures k >= 1 ==> d * k >= d
    ensures k <= -1 ==> d * k + d <= 0
  {
    if k >= 1 {
      assert d * k == d * (k - 1) + d;
    } else if k <= -1 {
      assert d * k == d * (k + 1) - d;
    }
  }

  lemma {:induction false} SameQuotient(d: nat, q: int, r: nat, p: int, s: nat)
    requires r < d && s < d && d * q + r == d * p + s
    ensures q == p
  {
    assert d * (q - p) == d * q - d * p;
    TimesPositive(d, q - p);
  }

  lemma {:induction false} Remainders(a: nat, b: nat, low: nat, r: nat)
    requires low < b && r < a
    ensures a * low + r < a * b
  {
    assert a * b == a * low + a * (b - low);
    TimesPositive(a, b - low);
  }

  lemma {:induction false} Times(a: nat, b: nat, q: nat, low: nat)
    ensures a * (b * q + low) == (a * b) * q + a * low
  {
  }

  lemma {:induction false} Combined(v: nat, a: nat, b: nat, x: nat, r: nat, q: nat, low: nat)
    requires v == a * x + r && x == b * q + low && r < a && low < b
    ensures v == (a * b) * q + (a * low + r) && a * low + r < a * b
  {
    Times(a, b, q, low);
    Remainders(a, b, low, r);
  }

  lemma {:induction false} DivideTwice(v: nat, a: nat, b: nat)
    requires a > 0 && b > 0
    ensures a * b > 0 && v / a / b == v / (a * b)
  {
    TimesPositive(a, b);
    Combined(v, a, b, v / a, v % a, v / a / b, v / a % b);
    SameQuotient(a * b, v / a / b, a * (v / a % b) + v % a, v / (a * b), v % (a * b));
  }

  lemma {:induction false} RemainderIs(x: nat, d: nat, q: int, r: nat)
    requires r < d && x == d * q + r
    ensures x % d == r
  {
    SameQuotient(d, q, r, x / d, x % d);
  }

  // A remainder by a multiple of d leaves the remainder by d alone.
  lemma {:induction false} RemainderTwice(x: nat, d: nat, m: nat)
    requires d > 0 && m > 0
    ensures d * m > 0 && x % (d * m) % d == x % d
  {
    TimesPositive(d, m);
    var q, r := x / (d * m), x % (d * m);
    Times(d, m, q, r / d);
    assert d * (m * q + r / d) + r % d == x;
    RemainderIs(x, d, m * q + r / d, r % d);
  }

  lemma {:induction false} AddRemainders(x: nat, y: nat, d: nat)
    requires d > 0
    ensures (x % d + y) % d == (x + y) % d
  {
    var s := x % d + y;
    assert d * (x / d) + d * (s / d) == d * (x / d + s / d);
    RemainderIs(x + y, d, x / d + s / d, s % d);
  }

  // Byte i counts 256^i.
  lemma {:induction false} LittleAt(v: nat, n: nat, i: nat)
    requires i < n
    ensures Little(v, n)[i] == v / Pow256(i) % 256
  {
    if i > 0 {
      LittleAt(v / 256, n - 1, i - 1);
      DivideTwice(v, 256, Pow256(i - 1));
    }
  }

  lemma {:induction false} Fixed32RoundTrip(v: uint32)
    ensures FromLittle(Fixed32(v)) == v
  {
    Powers();
    LittleRoundTrip(v, 4);
  }

  lemma {:induction false} Fixed64RoundTrip(v: nat)
    requires v < Two64
    ensures FromLittle(Fixed64(v)) == v
  {
    Powers();
    LittleRoundTrip(v, 8);
  }

  // ---------------------------------------------------------------- varints

  function Pow128(n: nat): (p: nat)
    ensures p > 0
  {
    if n == 0 then 1 else 128 * Pow128(n - 1)
  }

  // Seven bits a byte, lowest first; the high bit says that more follow.
  function Varint(v: nat): (b: Bytes)
    ensures |b| >= 1
  {
    if v < 128 then [v] else [v % 128 + 128] + Varint(v / 128)
  }

  // The value after one more byte, which counts scale.
  function AddDigit(soFar: nat, b: byte, scale: nat, width: nat): nat
    requires width > 0
  {
    soFar + b % 128 * scale % width
  }

  // The decoder's loop after n bytes, the next one counting scale: at most limit bytes, arithmetic modulo width.
  function ReadVarint(s: Bytes, pos: nat, n: nat, scale: nat, soFar: nat, limit: nat, width: nat, error: nat)
    : (nat, nat)
    requires n < limit && width > 0
    decreases limit - n
  {
    if pos >= |s| then (error, pos) else
      var v := AddDigit(soFar, s[pos], scale, width);
      if s[pos] < 128 then (v, pos + 1)
      else if n + 1 >= limit then (error, pos + 1)
      else ReadVarint(s, pos + 1, n + 1, 128 * scale, v, limit, width, error)
  }

  function DecodeVarint(s: Bytes, pos: nat): (nat, nat) {
    ReadVarint(s, pos, 0, 1, 0, 5, Two32, VarintError)
  }

  function DecodeVarint64(s: Bytes, pos: nat): (nat, nat) {
    ReadVarint(s, pos, 0, 1, 0, 10, Two64, 0)
  }

  lemma {:induction false} Digits(v: nat, p: nat)
    ensures v * p == v % 128 * p + v / 128 * (128 * p)
    ensures v % 128 * p <= v * p
    ensures v >= 128 ==> v * p >= 128 * p
  {
    var low, high := v % 128, v / 128;
    assert v == low + 128 * high;
    assert v * p == low * p + 128 * high * p;
    assert high * (128 * p) == 128 * high * p;
    assert 0 <= high * p;
    if v >= 128 {
      assert (v - 128) * p >= 0;
    }
  }

  lemma {:induction false} SmallRemainder(x: nat, m: nat)
    requires x < m
    ensures x % m == x
  {
  }

  lemma {:induction false} NextLimit(scale: nat, more: nat)
    ensures scale * Pow128(more + 1) == 128 * scale * Pow128(more)
    ensures more == 0 ==> scale * Pow128(more + 1) == 128 * scale
  {
    var p := Pow128(more);
    assert Pow128(more + 1) == 128 * p;
    assert scale * (128 * p) == 128 * scale * p;
  }

  lemma {:induction false} AddDigitIs(soFar: nat, b: byte, digit: nat, scale: nat, width: nat)
    requires digit == b % 128 && digit * scale < width
    ensures AddDigit(soFar, b, scale, width) == soFar + digit * scale
  {
    SmallRemainder(digit * scale, width);
  }

  lemma {:induction false} DigitFits(v: nat, scale: nat, soFar: nat, width: nat, more: nat)
    requires soFar + v * scale < width <= scale * Pow128(more + 1)
    ensures v < 128 ==> AddDigit(soFar, v, scale, width) == soFar + v * scale
    ensures v >= 128 ==>
              var next := AddDigit(soFar, v % 128 + 128, scale, width);
              more > 0 && next + v / 128 * (128 * scale) == soFar + v * scale && width <= 128 * scale * Pow128(more)
  {
    hide Pow128, AddDigit;
    Digits(v, scale);
    NextLimit(scale, more);
    if v < 128 {
      AddDigitIs(soFar, v, v, scale, width);
    } else {
      AddDigitIs(soFar, v % 128 + 128, v % 128, scale, width);
    }
  }

  // Reading what was written: the value, and the position just after it.
  lemma {:induction false} VarintReads(s: Bytes, pos: nat, v: nat, n: nat, scale: nat, soFar: nat, limit: nat,
                                       width: nat, error: nat)
    requires n < limit && width > 0
    requires pos + |Varint(v)| <= |s| && s[pos..pos + |Varint(v)|] == Varint(v)
    requires soFar + v * scale < width <= scale * Pow128(limit - n)
    ensures ReadVarint(s, pos, n, scale, soFar, limit, width, error) == (soFar + v * scale, pos + |Varint(v)|)
    decreases v
  {
    hide Pow128, AddDigit;
    var b := s[pos..pos + |Varint(v)|];
    assert b[0] == s[pos];
    DigitFits(v, scale, soFar, width, limit - n - 1);
    if v >= 128 {
      assert s[pos + 1..pos + 1 + |Varint(v / 128)|] == b[1..];
      VarintReads(s, pos + 1, v / 128, n + 1, 128 * scale, AddDigit(soFar, v % 128 + 128, scale, width), limit, width,
                  error);
    }
  }

  lemma {:induction false} VarintStaysInside(s: Bytes, pos: nat, n: nat, scale: nat, soFar: nat, limit: nat,
                                             width: nat, error: nat)
    requires n < limit && width > 0 && pos <= |s|
    ensures pos <= ReadVarint(s, pos, n, scale, soFar, limit, width, error).1 <= |s|
    decreases limit - n
  {
    hide AddDigit;
    if pos < |s| && n + 1 < limit {
      VarintStaysInside(s, pos + 1, n + 1, 128 * scale, AddDigit(soFar, s[pos], scale, width), limit, width, error);
    }
  }

  lemma {:induction false} DecodeVarintInside(s: Bytes, pos: nat)
    requires pos <= |s|
    ensures pos <= DecodeVarint(s, pos).1 <= |s|
  {
    VarintStaysInside(s, pos, 0, 1, 0, 5, Two32, VarintError);
  }

  lemma {:induction false} Pow128Limits()
    ensures Pow128(5) == 0x8_0000_0000 && Pow128(10) == 0x40_0000_0000_0000_0000
  {
    assert Pow128(1) == 128 * Pow128(0);
    assert Pow128(2) == 128 * Pow128(1);
    assert Pow128(3) == 128 * Pow128(2);
    assert Pow128(4) == 128 * Pow128(3);
    assert Pow128(5) == 128 * Pow128(4);
    assert Pow128(6) == 128 * Pow128(5);
    assert Pow128(7) == 128 * Pow128(6);
    assert Pow128(8) == 128 * Pow128(7);
    assert Pow128(9) == 128 * Pow128(8);
  }

  lemma {:induction false} VarintRoundTrip(before: Bytes, v: uint32, after: Bytes)
    ensures DecodeVarint(before + Varint(v) + after, |before|) == (v, |before| + |Varint(v)|)
  {
    Pow128Limits();
    var s := before + Varint(v) + after;
    assert s[|before|..|before| + |Varint(v)|] == Varint(v);
    VarintReads(s, |before|, v, 0, 1, 0, 5, Two32, VarintError);
  }

  lemma {:induction false} Varint64RoundTrip(before: Bytes, v: nat, after: Bytes)
    requires v < Two64
    ensures DecodeVarint64(before + Varint(v) + after, |before|) == (v, |before| + |Varint(v)|)
  {
    Pow128Limits();
    var s := before + Varint(v) + after;
    assert s[|before|..|before| + |Varint(v)|] == Varint(v);
    VarintReads(s, |before|, v, 0, 1, 0, 10, Two64, 0);
  }

  lemma {:induction false} VarintSize(v: nat, n: nat)
    requires n > 0 && v < Pow128(n)
    ensures |Varint(v)| <= n
  {
    if v >= 128 {
      assert Pow128(n) == 128 * Pow128(n - 1);
      VarintSize(v / 128, n - 1);
    }
  }

  // Byte i of a varint holds the seven bits that count 128^i, and 128 more when another byte follows; one follows while
  // something is left.
  lemma {:induction false} VarintAt(v: nat, i: nat)
    requires i < |Varint(v)|
    ensures Varint(v)[i] == v / Pow128(i) % 128 + if i + 1 < |Varint(v)| then 128 else 0
    ensures i + 1 < |Varint(v)| <==> v / Pow128(i + 1) > 0
  {
    if v >= 128 {
      assert Pow128(1) == 128 * Pow128(0);
      if i > 0 {
        VarintAt(v / 128, i - 1);
        DivideTwice(v, 128, Pow128(i - 1));
        DivideTwice(v, 128, Pow128(i));
      }
    }
  }

  method EncodeVarint(value: nat) returns (out: Bytes)
    ensures out == Varint(value)
  {
    var v := value;
    out := [];
    while v >= 0x80
      invariant out + Varint(v) == Varint(value)
    {
      assert Varint(v) == [v % 128 + 128] + Varint(v / 128);
      out := out + [v % 128 + 128];
      v := v / 128;
    }
    out := out + [v];
  }

  // DecodeVarint: the 32-bit reader; 0xFFFFFFFF for a varint that is cut short or runs past five bytes.
  method ReadVarint32(s: Bytes, start: nat) returns (value: nat, pos: nat)
    ensures (value, pos) == DecodeVarint(s, start)
  {
    value, pos := Read(s, start, 5, Two32, VarintError);
  }

  // DecodeVarint64: the same loop over 64 bits, answering 0 where the other answers 0xFFFFFFFF.
  method ReadVarint64(s: Bytes, start: nat) returns (value: nat, pos: nat)
    ensures (value, pos) == DecodeVarint64(s, start)
  {
    value, pos := Read(s, start, 10, Two64, 0);
  }

  method Read(s: Bytes, start: nat, limit: nat, width: nat, error: nat) returns (value: nat, pos: nat)
    requires 0 < limit && 0 < width
    ensures (value, pos) == ReadVarint(s, start, 0, 1, 0, limit, width, error)
  {
    pos := start;
    var result: nat, n: nat, scale: nat := 0, 0, 1;
    while true
      invariant n < limit
      invariant ReadVarint(s, pos, n, scale, result, limit, width, error)
             == ReadVarint(s, start, 0, 1, 0, limit, width, error)
      decreases limit - n
    {
      if pos >= |s| {
        return error, pos;
      }
      var b := s[pos];
      pos := pos + 1;
      result := AddDigit(result, b, scale, width);
      if b < 128 {
        return result, pos;
      }
      n := n + 1;
      scale := 128 * scale;
      if n >= limit {
        return error, pos;
      }
    }
  }
}
