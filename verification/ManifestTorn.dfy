// A manifest that ends inside a line: which of its lines recovery still reads.
module ManifestTorn {
  import opened Types
  import opened Version
  import opened Text
  import opened Manifest

  // ---------------------------------------------------------------- fields

  // What follows an integer, whatever its value.
  function AfterInteger(s: Bytes): Option<Bytes> {
    var t := SkipSpaces(s);
    var u := if t != [] && (t[0] == Minus || t[0] == Plus) then t[1..] else t;
    var n := DigitCount(u);
    if n == 0 then None else Some(u[n..])
  }

  function AfterField(number: bool, s: Bytes): Option<Bytes> {
    if number then AfterInteger(s) else
      var (_, rest) :- ReadWord(s);
      Some(rest)
  }

  // What follows fields of these kinds: numbers and words.
  function AfterFields(numbers: seq<bool>, s: Bytes): Option<Bytes> {
    if numbers == [] then Some(s) else
      var rest :- AfterField(numbers[0], s);
      AfterFields(numbers[1..], rest)
  }

  function Fields(tokens: seq<Bytes>): Bytes {
    if tokens == [] then [] else Field(tokens[0]) + Fields(tokens[1..])
  }

  // An optional minus sign and digits.
  ghost predicate IsNumeral(w: Bytes) {
    exists i: int :: w == SignedDecimal(i)
  }

  ghost predicate OfKind(number: bool, w: Bytes) {
    if number then IsNumeral(w) else IsToken(w)
  }

  lemma {:induction false} NumeralParts(w: Bytes) returns (d: Bytes)
    requires IsNumeral(w)
    ensures d != [] && forall i :: 0 <= i < |d| ==> IsDigit(d[i])
    ensures w == d || w == [Minus] + d
  {
    var i: int :| w == SignedDecimal(i);
    d := Decimal(if i < 0 then -i else i);
    DecimalDigits(if i < 0 then -i else i);
  }

  lemma {:induction false} AfterDigits(d: Bytes, signed: bool, rest: Bytes)
    requires d != [] && EndsWord(rest) && forall i :: 0 <= i < |d| ==> IsDigit(d[i])
    ensures AfterInteger(Field(if signed then [Minus] + d else d) + rest) == Some(rest)
  {
    hide DigitCount, SkipSpaces;
    var w := if signed then [Minus] + d else d;
    var t := w + rest;
    assert Field(w) + rest == [Space] + t && t[0] == w[0];
    DigitCountIs(d, rest);
    SkipOne(t);
    assert signed ==> t[1..] == d + rest;
    assert (d + rest)[|d|..] == rest;
  }

  // A field before other fields is passed over.
  lemma {:induction false} AfterWholeField(number: bool, w: Bytes, rest: Bytes)
    requires OfKind(number, w) && EndsWord(rest)
    ensures AfterField(number, Field(w) + rest) == Some(rest)
  {
    hide AfterInteger, ReadWord, IsNumeral, IsToken;
    if number {
      var d := NumeralParts(w);
      AfterDigits(d, w != d, rest);
    } else {
      ReadsWord(w, rest);
    }
  }

  lemma {:induction false} NothingToRead()
    ensures AfterField(true, []) == None && AfterField(false, []) == None
    ensures AfterField(true, [Space]) == None && AfterField(false, [Space]) == None
  {
    assert [Space][1..] == [];
  }

  // A field cut short cannot be read, or nothing is left after it.
  lemma {:induction false} AfterPartOfField(number: bool, w: Bytes, m: nat)
    requires OfKind(number, w) && m <= |w|
    ensures AfterField(number, [Space] + w[..m]) in {None, Some([])}
    ensures m == 0 ==> AfterField(number, [Space] + w[..m]) == None
  {
    hide AfterInteger, ReadWord, IsNumeral, IsToken;
    NothingToRead();
    if m == 0 {
      assert [Space] + w[..m] == [Space];
    } else if number {
      var d := NumeralParts(w);
      PartOfNumeral(d, w != d, m);
    } else {
      TokenPrefix(w, m);
      ReadsWord(w[..m], []);
      assert [Space] + w[..m] + [] == [Space] + w[..m];
    }
  }

  lemma {:induction false} TokenPrefix(w: Bytes, m: nat)
    requires IsToken(w) && 0 < m <= |w|
    ensures IsToken(w[..m])
  {
  }

  lemma {:induction false} PartOfNumeral(d: Bytes, signed: bool, m: nat)
    requires d != [] && forall i :: 0 <= i < |d| ==> IsDigit(d[i])
    requires 0 < m <= if signed then |d| + 1 else |d|
    ensures var w := if signed then [Minus] + d else d;
            AfterInteger([Space] + w[..m]) in {None, Some([])}
  {
    hide DigitCount, SkipSpaces, AfterInteger;
    var w := if signed then [Minus] + d else d;
    var part := if signed then d[..m - 1] else d[..m];
    if part == [] {
      assert w[..m] == [Minus];
      OnlyMinus();
    } else {
      AfterDigits(part, signed, []);
      assert Field(w[..m]) + [] == [Space] + w[..m];
      assert w[..m] == if signed then [Minus] + part else part;
    }
  }

  lemma {:induction false} OnlyMinus()
    ensures AfterInteger([Space] + [Minus]) == None
  {
    SkipOne([Minus]);
    assert [Minus][1..] == [];
  }

  // Fields that end before the last one begins cannot all be read.
  lemma {:induction false} ShortFieldsFail(numbers: seq<bool>, tokens: seq<Bytes>, p: Bytes)
    requires |numbers| == |tokens| > 0 && forall i :: 0 <= i < |tokens| ==> OfKind(numbers[i], tokens[i])
    requires p <= Fields(tokens) && |p| + |tokens[|tokens| - 1]| <= |Fields(tokens)|
    ensures AfterFields(numbers, p) == None
    decreases |tokens|
  {
    hide AfterField, OfKind;
    var f, more := Field(tokens[0]), Fields(tokens[1..]);
    NothingToRead();
    if |tokens| > 1 && |f| <= |p| {
      var q := p[|f|..];
      assert p == f + q && q <= more;
      assert more == Field(tokens[1]) + Fields(tokens[1..][1..]);
      AfterWholeField(numbers[0], tokens[0], q);
      ShortFieldsFail(numbers[1..], tokens[1..], q);
    } else if |tokens| > 1 {
      NoFieldsLeft(numbers[1..]);
      if p != [] {
        var m := |p| - 1;
        assert p == [Space] + tokens[0][..m];
        AfterPartOfField(numbers[0], tokens[0], m);
      }
    } else {
      assert more == [] && Fields(tokens) == f + [];
      if p != [] {
        assert p[0] == f[0] && p == [Space];
      }
    }
  }

  lemma {:induction false} NoFieldsLeft(numbers: seq<bool>)
    requires numbers != []
    ensures AfterFields(numbers, []) == None
  {
    NothingToRead();
    hide AfterField;
  }

  // ---------------------------------------------------------------- the fields of a line

  const AddKinds: seq<bool> := [true, true, false, true, false, true, false, true]
  const DelKinds: seq<bool> := [true, true]
  const NextKinds: seq<bool> := [true]

  lemma {:induction false} IntegerIsField(s: Bytes, low: int, high: int)
    ensures ReadInteger(s, low, high).Some? ==> AfterInteger(s) == Some(ReadInteger(s, low, high).value.1)
  {
    hide DigitCount, SkipSpaces, Number;
  }

  lemma {:induction false} KeyIsFields(s: Bytes, numbers: seq<bool>)
    ensures ReadKey(s).Some? ==>
              AfterFields([false, true] + numbers, s) == AfterFields(numbers, ReadKey(s).value.1)
  {
    hide ReadInteger, AfterInteger, ReadWord;
    if ReadKey(s).Some? {
      var rest := ReadWord(s).value.1;
      IntegerIsField(rest, MinTs, MaxTs);
      assert ([false, true] + numbers)[1..] == [true] + numbers && ([true] + numbers)[1..] == numbers;
      assert AfterFields([true] + numbers, rest) == AfterFields(numbers, ReadKey(s).value.1);
    }
  }

  lemma {:induction false} OneField(number: bool, numbers: seq<bool>, s: Bytes)
    requires AfterField(number, s).Some?
    ensures AfterFields([number] + numbers, s) == AfterFields(numbers, AfterField(number, s).value)
  {
    hide AfterField;
    assert ([number] + numbers)[1..] == numbers;
  }

  lemma {:induction false} AddIsFields(s: Bytes)
    ensures ReadAdd(s).Some? ==> AfterFields(AddKinds, s).Some?
  {
    hide ReadInteger, AfterInteger, ReadWord, ReadKey, AfterFields;
    if ReadAdd(s).Some? {
      var s1 := ReadInteger(s, -MaxInt32 - 1, MaxInt32).value.1;
      var s2 := ReadUnsigned(s1).value.1;
      var s3 := ReadWord(s2).value.1;
      var s4 := ReadUnsigned(s3).value.1;
      var s5 := ReadKey(s4).value.1;
      IntegerIsField(s, -MaxInt32 - 1, MaxInt32);
      IntegerIsField(s1, -MaxUint64, MaxUint64);
      IntegerIsField(s3, -MaxUint64, MaxUint64);
      var keys: seq<bool> := [false, true];
      assert AddKinds == [true] + ([true] + ([false] + ([true] + (keys + (keys + [])))));
      OneField(true, [true] + ([false] + ([true] + (keys + (keys + [])))), s);
      OneField(true, [false] + ([true] + (keys + (keys + []))), s1);
      OneField(false, [true] + (keys + (keys + [])), s2);
      OneField(true, keys + (keys + []), s3);
      KeyIsFields(s4, keys + []);
      KeyIsFields(s5, []);
      NoFields(ReadKey(s5).value.1);
    }
  }

  lemma {:induction false} NoFields(s: Bytes)
    ensures AfterFields([], s) == Some(s)
  {
  }

  lemma {:induction false} DelIsFields(s: Bytes)
    ensures ReadDel(s).Some? ==> AfterFields(DelKinds, s).Some?
  {
    hide ReadInteger, AfterInteger, AfterFields;
    if ReadDel(s).Some? {
      var s1 := ReadInteger(s, -MaxInt32 - 1, MaxInt32).value.1;
      IntegerIsField(s, -MaxInt32 - 1, MaxInt32);
      IntegerIsField(s1, -MaxUint64, MaxUint64);
      assert DelKinds == [true] + ([true] + []);
      OneField(true, [true] + [], s);
      OneField(true, [], s1);
      NoFields(ReadUnsigned(s1).value.1);
    }
  }

  lemma {:induction false} NextIsField(s: Bytes)
    ensures ReadUnsigned(s).Some? ==> AfterFields(NextKinds, s).Some?
  {
    hide ReadInteger, AfterInteger, AfterFields;
    if ReadUnsigned(s).Some? {
      IntegerIsField(s, -MaxUint64, MaxUint64);
      assert NextKinds == [true] + [];
      OneField(true, [], s);
      NoFields(ReadUnsigned(s).value.1);
    }
  }

  function Tag(line: ManifestLine): Bytes {
    match line
    case LineNext(_) => NextTag
    case LineDel(_, _) => DelTag
    case LineAdd(_, _) => AddTag
  }

  function Tokens(line: ManifestLine): (tokens: seq<Bytes>)
    ensures tokens != []
  {
    match line
    case LineNext(n) => [Decimal(n)]
    case LineDel(level, number) => [SignedDecimal(level), Decimal(number)]
    case LineAdd(level, m) =>
      [SignedDecimal(level), Decimal(m.number), FileName(m.number), Decimal(m.size),
       m.smallest.measurement, SignedDecimal(m.smallest.timestamp),
       m.largest.measurement, SignedDecimal(m.largest.timestamp)]
  }

  function Kinds(line: ManifestLine): seq<bool> {
    match line
    case LineNext(_) => NextKinds
    case LineDel(_, _) => DelKinds
    case LineAdd(_, _) => AddKinds
  }

  // The number that ends a line.
  function LastNumber(line: ManifestLine): Bytes {
    var tokens := Tokens(line);
    tokens[|tokens| - 1]
  }

  lemma {:induction false} OneMoreField(token: Bytes, tokens: seq<Bytes>)
    ensures Fields([token] + tokens) == Field(token) + Fields(tokens)
  {
    assert ([token] + tokens)[1..] == tokens;
  }

  lemma {:induction false} LineIsFields(line: ManifestLine)
    ensures Print(line) == Tag(line) + Fields(Tokens(line))
  {
    hide Decimal, SignedDecimal, FileName, Field;
    assert Fields([]) == [];
    match line
    case LineNext(n) => OneMoreField(Decimal(n), []);
    case LineDel(level, number) =>
      OneMoreField(Decimal(number), []);
      OneMoreField(SignedDecimal(level), [Decimal(number)]);
      assert Tokens(line) == [SignedDecimal(level)] + [Decimal(number)];
    case LineAdd(level, m) => AddIsTokens(level, m);
  }

  lemma {:induction false} AddIsTokens(level: int, m: FileMeta)
    ensures Print(LineAdd(level, m)) == AddTag + Fields(Tokens(LineAdd(level, m)))
  {
    hide Decimal, SignedDecimal, FileName, Field, Fields;
    var t7 := [SignedDecimal(m.largest.timestamp)];
    var t6 := [m.largest.measurement] + t7;
    var t5 := [SignedDecimal(m.smallest.timestamp)] + t6;
    var t4 := [m.smallest.measurement] + t5;
    var t3 := [Decimal(m.size)] + t4;
    var t2 := [FileName(m.number)] + t3;
    var t1 := [Decimal(m.number)] + t2;
    assert Tokens(LineAdd(level, m)) == [SignedDecimal(level)] + t1;
    OneMoreField(SignedDecimal(level), t1);
    OneMoreField(Decimal(m.number), t2);
    OneMoreField(FileName(m.number), t3);
    OneMoreField(Decimal(m.size), t4);
    OneMoreField(m.smallest.measurement, t5);
    OneMoreField(SignedDecimal(m.smallest.timestamp), t6);
    OneMoreField(m.largest.measurement, t7);
    LastField(SignedDecimal(m.largest.timestamp));
    var f6, f7 := Field(m.largest.measurement), Field(SignedDecimal(m.largest.timestamp));
    var f4, f5 := Field(m.smallest.measurement), Field(SignedDecimal(m.smallest.timestamp));
    assert f4 + (f5 + (f6 + f7)) == (f4 + f5) + (f6 + f7);
  }

  lemma {:induction false} LastField(token: Bytes)
    ensures Fields([token]) == Field(token)
  {
    assert [token][1..] == [];
  }

  lemma {:induction false} TokensAreOfKind(line: ManifestLine)
    requires Readable(line)
    ensures |Kinds(line)| == |Tokens(line)|
    ensures forall i :: 0 <= i < |Tokens(line)| ==> OfKind(Kinds(line)[i], Tokens(line)[i])
  {
    hide Decimal, SignedDecimal, FileName, IsToken;
    match line
    case LineNext(n) => NaturalIsNumeral(n);
    case LineDel(level, number) =>
      NaturalIsNumeral(number);
      assert IsNumeral(SignedDecimal(level));
    case LineAdd(level, m) =>
      NaturalIsNumeral(m.number);
      NaturalIsNumeral(m.size);
      FileNameIsToken(m.number);
      assert IsNumeral(SignedDecimal(level));
      assert IsNumeral(SignedDecimal(m.smallest.timestamp)) && IsNumeral(SignedDecimal(m.largest.timestamp));
  }

  lemma {:induction false} NaturalIsNumeral(n: nat)
    ensures IsNumeral(Decimal(n))
  {
    hide Decimal;
    assert Decimal(n) == SignedDecimal(n);
  }

  // ---------------------------------------------------------------- a line cut short

  // A line that ends before its last number says nothing: recovery passes over it or stops at it.
  lemma {:induction false} ShortLineSaysNothing(line: ManifestLine, n: nat)
    requires Readable(line) && n + |LastNumber(line)| <= |Print(line)|
    ensures !Parse(Print(line)[..n]).Line?
  {
    hide ReadAdd, ReadDel, ReadUnsigned, ReadWord, Print, Tokens, Readable, Fields, AfterFields, OfKind;
    LineIsFields(line);
    TokensAreOfKind(line);
    var tag, p := Tag(line), Print(line)[..n];
    if n < |tag| {
      assert p == tag[..n];
      ShortTagIsIgnored(tag, n);
    } else {
      var q := p[|tag|..];
      assert p == tag + q && q <= Fields(Tokens(line));
      FieldsStart(Tokens(line));
      ReadsTag(tag, q);
      ShortFieldsFail(Kinds(line), Tokens(line), q);
      AddIsFields(q);
      DelIsFields(q);
      NextIsField(q);
    }
  }

  lemma {:induction false} FieldsStart(tokens: seq<Bytes>)
    requires tokens != []
    ensures |Fields(tokens)| > 0 && Fields(tokens)[0] == Space
  {
  }

  lemma {:induction false} ShortTagIsIgnored(tag: Bytes, n: nat)
    requires tag in {AddTag, DelTag, NextTag} && n < |tag|
    ensures Parse(tag[..n]) == Ignored
  {
    hide ReadAdd, ReadDel, ReadUnsigned;
    if n == 0 {
      assert tag[..n] == [];
    } else {
      assert IsToken(tag[..n]);
      ReadsWord(tag[..n], []);
      assert tag[..n] + [] == tag[..n];
      assert tag[..n] !in {AddTag, DelTag, NextTag};
    }
  }

  // A manifest that ends inside a line, before its last number, reads as the lines before it; with the whole line and
  // no newline, as those and the line.
  lemma {:induction false} CutLineReads(before: seq<ManifestLine>, line: ManifestLine, n: nat)
    requires Printable(before) && InWidth(line) && Readable(line) && n <= |Print(line)|
    ensures var levels := RecoverText(PrintAll(before) + Print(line)[..n]).levels;
            && (n + |LastNumber(line)| <= |Print(line)| ==> levels == Recover(before).levels)
            && (n == |Print(line)| ==> levels == Recover(before + [line]).levels)
  {
    hide Print, Parse, PrintAll, InWidth, Readable, ReadLine, Printable, LastNumber, ReadText;
    var p := Print(line)[..n];
    TextRoundTrip(Fresh(), before, p);
    var v := ReadLines(Fresh(), before);
    ReadableIsOneLine(line);
    PrintsOneLine(line);
    OneLinePrefix(Print(line), n);
    ReadLastPart(v, p);
    if n + |LastNumber(line)| <= |Print(line)| {
      ShortLineSaysNothing(line, n);
    }
    if n == |Print(line)| {
      assert p == Print(line);
      LineRoundTrip(line);
      assert (before + [line])[..|before|] == before;
    }
  }

  lemma {:induction false} OneLinePrefix(s: Bytes, n: nat)
    requires OneLine(s) && n <= |s|
    ensures OneLine(s[..n])
  {
  }

  lemma {:induction false} WholeLength(s: Bytes)
    requires OneLine(s)
    ensures LineLength(s) == |s|
  {
    if s != [] {
      WholeLength(s[1..]);
    }
  }

  lemma {:induction false} ReadLastPart(v: VersionState, p: Bytes)
    requires |v.levels| == MaxLevel && OneLine(p)
    ensures Parse(p).Line? ==> ReadText(v, p).version == ReadLine(v, Parse(p).line)
    ensures !Parse(p).Line? ==> ReadText(v, p).version == v
  {
    hide Parse, ReadLine;
    WholeLength(p);
    if p == [] {
      NothingParsed();
    } else {
      assert p[..|p|] == p && AfterLine(p) == [];
    }
  }

  lemma {:induction false} NothingParsed()
    ensures Parse([]) == Ignored
  {
  }

  // A deletion that ends inside its file number, by one digit, deletes another file.
  lemma {:induction false} TornNumberIsMisread(level: int, n: nat, digit: nat)
    requires n > 0 && digit < 10 && InWidth(LineDel(level, 10 * n + digit))
    ensures var text := Print(LineDel(level, 10 * n + digit));
            Parse(text[..|text| - 1]) == Line(LineDel(level, n))
  {
    hide ReadWord, ReadDel, SignedDecimal, Decimal;
    var text := Print(LineDel(level, 10 * n + digit));
    LastDigit(n, digit);
    assert text[..|text| - 1] == Print(LineDel(level, n));
    LineRoundTrip(LineDel(level, n));
    AlwaysReadable(LineDel(level, n));
  }

  lemma {:induction false} LastDigit(n: nat, digit: nat)
    requires n > 0 && digit < 10
    ensures Decimal(10 * n + digit) == Decimal(n) + [Zero + digit]
  {
    assert (10 * n + digit) / 10 == n && (10 * n + digit) % 10 == digit;
  }
}
