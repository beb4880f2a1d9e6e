// Text as the manifest and the cache keys use it: decimal numbers written by operator<<, words and numbers read by
// operator>> in the classic locale.
module Text {
  import opened Types

  const Space: byte := 32
  const Newline: byte := 10
  const Minus: byte := 45
  const Plus: byte := 43
  const Zero: byte := 48

  predicate IsSpace(c: byte) {
    c == 32 || 9 <= c <= 13
  }

  predicate IsDigit(c: byte) {
    48 <= c <= 57
  }

  // ---------------------------------------------------------------- writing

  function Decimal(n: nat): (d: Bytes)
    ensures d != []
  {
    if n < 10 then [Zero + n] else Decimal(n / 10) + [Zero + n % 10]
  }

  function SignedDecimal(i: int): Bytes {
    if i < 0 then [Minus] + Decimal(-i) else Decimal(i)
  }

  // ---------------------------------------------------------------- reading

  function SkipSpaces(s: Bytes): Bytes {
    if s != [] && IsSpace(s[0]) then SkipSpaces(s[1..]) else s
  }

  function WordLength(s: Bytes): (n: nat)
    ensures n <= |s|
  {
    if s == [] || IsSpace(s[0]) then 0 else 1 + WordLength(s[1..])
  }

  function DigitCount(s: Bytes): (n: nat)
    ensures n <= |s|
    ensures forall i :: 0 <= i < n ==> IsDigit(s[i])
  {
    if s == [] || !IsDigit(s[0]) then 0 else 1 + DigitCount(s[1..])
  }

  function Number(d: Bytes): nat
    requires forall i :: 0 <= i < |d| ==> IsDigit(d[i])
  {
    if d == [] then 0 else
      var last := d[|d| - 1];
      assert IsDigit(last);
      10 * Number(d[..|d| - 1]) + (last - Zero)
  }

  // operator>>(std::string): the next word and what follows it.
  function ReadWord(s: Bytes): Option<(Bytes, Bytes)> {
    var t := SkipSpaces(s);
    var n := WordLength(t);
    if n == 0 then None else Some((t[..n], t[n..]))
  }

  // operator>>(integer): an optional sign and digits, within the range of the type.
  function ReadInteger(s: Bytes, low: int, high: int): Option<(int, Bytes)> {
    var t := SkipSpaces(s);
    var signed := t != [] && (t[0] == Minus || t[0] == Plus);
    var u := if signed then t[1..] else t;
    var n := DigitCount(u);
    var v: int := Number(u[..n]);
    var value: int := if signed && t[0] == Minus then -v else v;
    if n == 0 || value < low || value > high then None else Some((value, u[n..]))
  }

  // ---------------------------------------------------------------- reading what was written

  // A word: what operator>> can give back.
  ghost predicate IsToken(w: Bytes) {
    w != [] && forall i :: 0 <= i < |w| ==> !IsSpace(w[i])
  }

  predicate EndsWord(rest: Bytes) {
    rest == [] || IsSpace(rest[0])
  }

  lemma {:induction false} WordLengthIs(w: Bytes, rest: Bytes)
    requires EndsWord(rest) && forall i :: 0 <= i < |w| ==> !IsSpace(w[i])
    ensures WordLength(w + rest) == |w|
  {
    if w == [] {
      assert w + rest == rest;
    } else {
      assert (w + rest)[1..] == w[1..] + rest;
      WordLengthIs(w[1..], rest);
    }
  }

  lemma {:induction false} WordIsToken(s: Bytes)
    ensures forall i :: 0 <= i < WordLength(s) ==> !IsSpace(s[i])
  {
    if s != [] && !IsSpace(s[0]) {
      WordIsToken(s[1..]);
      assert forall i :: 0 < i < |s| ==> s[i] == s[1..][i - 1];
    }
  }

  lemma {:induction false} SkipOne(s: Bytes)
    requires s != [] && !IsSpace(s[0])
    ensures SkipSpaces([Space] + s) == s && SkipSpaces(s) == s
  {
    assert ([Space] + s)[1..] == s;
  }

  // Exactly the words survive being written after a space and read back.
  lemma {:induction false} ReadsWord(w: Bytes, rest: Bytes)
    requires IsToken(w) && EndsWord(rest)
    ensures ReadWord([Space] + w + rest) == Some((w, rest)) && ReadWord(w + rest) == Some((w, rest))
  {
    assert [Space] + w + rest == [Space] + (w + rest);
    assert (w + rest)[0] == w[0];
    SkipOne(w + rest);
    WordLengthIs(w, rest);
  }

  lemma {:induction false} ReadWordGivesToken(s: Bytes)
    ensures ReadWord(s).Some? ==> IsToken(ReadWord(s).value.0)
  {
    WordIsToken(SkipSpaces(s));
  }

  lemma {:induction false} DecimalDigits(n: nat)
    ensures forall i :: 0 <= i < |Decimal(n)| ==> IsDigit(Decimal(n)[i])
    ensures Number(Decimal(n)) == n
  {
    if n >= 10 {
      DecimalDigits(n / 10);
      assert Decimal(n)[..|Decimal(n)| - 1] == Decimal(n / 10);
    } else {
      assert Decimal(n)[..0] == [];
    }
  }

  lemma {:induction false} DigitCountIs(d: Bytes, rest: Bytes)
    requires EndsWord(rest) && forall i :: 0 <= i < |d| ==> IsDigit(d[i])
    ensures DigitCount(d + rest) == |d|
  {
    if d == [] {
      assert d + rest == rest;
    } else {
      assert (d + rest)[1..] == d[1..] + rest;
      DigitCountIs(d[1..], rest);
    }
  }

  // A printed number reads back if it is in the range of the type, and makes reading fail otherwise.
  lemma {:induction false} ReadsInteger(i: int, low: int, high: int, rest: Bytes)
    requires EndsWord(rest)
    ensures ReadInteger([Space] + SignedDecimal(i) + rest, low, high)
            == if low <= i <= high then Some((i, rest)) else None
  {
    hide Decimal, Number, DigitCount, SkipSpaces;
    var d := Decimal(if i < 0 then -i else i);
    DecimalDigits(if i < 0 then -i else i);
    DigitCountIs(d, rest);
    var t := SignedDecimal(i) + rest;
    assert [Space] + SignedDecimal(i) + rest == [Space] + t;
    assert t[0] == SignedDecimal(i)[0];
    SkipOne(t);
    var u := d + rest;
    assert u[..|d|] == d && u[|d|..] == rest;
    assert i < 0 ==> t[1..] == u;
    assert i >= 0 ==> t == u;
  }

  // ---------------------------------------------------------------- cache keys

  const Hash: byte := 35

  // fname + "#" + offset (src/sstable.cpp:321-323).
  function CacheKey(file: Bytes, offset: nat): Bytes {
    file + [Hash] + Decimal(offset)
  }

  // No two blocks share a cache key: the digits after the last '#' are the offset.
  lemma {:induction false} CacheKeyIsInjective(f: Bytes, m: nat, g: Bytes, n: nat)
    ensures CacheKey(f, m) == CacheKey(g, n) <==> f == g && m == n
  {
    hide Decimal;
    if CacheKey(f, m) == CacheKey(g, n) {
      DecimalDigits(m);
      DecimalDigits(n);
      var key, a, b := CacheKey(f, m), |Decimal(m)|, |Decimal(n)|;
      assert key[|key| - a..] == Decimal(m) && key[|key| - b..] == Decimal(n);
      assert key[|key| - a - 1] == Hash && key[|key| - b - 1] == Hash;
      assert a < b ==> IsDigit(key[|key| - a - 1]);
      assert b < a ==> IsDigit(key[|key| - b - 1]);
      assert key[..|key| - a - 1] == f && key[..|key| - b - 1] == g;
    }
  }
}
