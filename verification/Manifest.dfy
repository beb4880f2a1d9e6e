// The manifest as text, and the object that keeps the current version and logs its edits. Models src/version.cpp.
// Table names are NewFileName(number), so a line's name field carries no information of its own.
module Manifest {
  import opened Types
  import opened Version
  import opened Text
  import Codec

  const MaxInt32 := 0x7FFF_FFFF
  const MaxUint64 := 0xFFFF_FFFF_FFFF_FFFF

  const AddTag: Bytes := [97, 100, 100]                                  // "add"
  const DelTag: Bytes := [100, 101, 108]                                 // "del"
  const NextTag: Bytes := [110, 101, 120, 116, 95, 102, 105, 108, 101]   // "next_file"
  const Suffix: Bytes := [46, 115, 115, 116]                             // ".sst"

  // "%06llu.sst".
  function FileName(number: nat): Bytes {
    var d := Decimal(number);
    (if |d| < 6 then seq(6 - |d|, _ => Zero) else []) + d + Suffix
  }

  // One field after the tag: a space and the text.
  function Field(text: Bytes): (f: Bytes)
    ensures f == [Space] + text && EndsWord(f)
  {
    [Space] + text
  }

  function PrintKey(k: TsKey): Bytes {
    Field(k.measurement) + Field(SignedDecimal(k.timestamp))
  }

  // A manifest line without its newline.
  function Print(line: ManifestLine): Bytes {
    match line
    case LineNext(n) => NextTag + Field(Decimal(n))
    case LineDel(level, number) => DelTag + Field(SignedDecimal(level)) + Field(Decimal(number))
    case LineAdd(level, m) =>
      AddTag + (Field(SignedDecimal(level)) + (Field(Decimal(m.number)) + (Field(FileName(m.number))
      + (Field(Decimal(m.size)) + (PrintKey(m.smallest) + PrintKey(m.largest))))))
  }

  function ReadUnsigned(s: Bytes): Option<(nat, Bytes)> {
    var (v, rest) :- ReadInteger(s, -MaxUint64, MaxUint64);
    Some((v % (MaxUint64 + 1), rest))
  }

  function ReadKey(s: Bytes): Option<(TsKey, Bytes)> {
    var (measurement, rest) :- ReadWord(s);
    var (timestamp, rest) :- ReadInteger(rest, MinTs, MaxTs);
    Some((TsKey(measurement, timestamp), rest))
  }

  function ReadAdd(s: Bytes): Option<ManifestLine> {
    var (level, s) :- ReadInteger(s, -MaxInt32 - 1, MaxInt32);
    var (number, s) :- ReadUnsigned(s);
    var (name, s) :- ReadWord(s);
    var (size, s) :- ReadUnsigned(s);
    var (smallest, s) :- ReadKey(s);
    var (largest, s) :- ReadKey(s);
    Some(LineAdd(level, FileMeta(number, size, smallest, largest)))
  }

  function ReadDel(s: Bytes): Option<ManifestLine> {
    var (level, s) :- ReadInteger(s, -MaxInt32 - 1, MaxInt32);
    var (number, s) :- ReadUnsigned(s);
    Some(LineDel(level, number))
  }

  datatype Parsed = Ignored | Line(line: ManifestLine) | Corrupt

  // A line as recovery takes it: blank lines, unknown tags and unreadable numbers after next_file are passed over.
  function Parse(s: Bytes): Parsed {
    match ReadWord(s)
    case None => Ignored
    case Some((tag, rest)) =>
      if tag == NextTag then
        match ReadUnsigned(rest) { case None => Ignored case Some((n, _)) => Line(LineNext(n)) }
      else if tag == AddTag then
        match ReadAdd(rest) { case None => Corrupt case Some(line) => Line(line) }
      else if tag == DelTag then
        match ReadDel(rest) { case None => Corrupt case Some(line) => Line(line) }
      else Ignored
  }

  // ---------------------------------------------------------------- a line is read back as it was written

  // Numbers within their machine widths.
  predicate InWidth(line: ManifestLine) {
    match line
    case LineNext(n) => n <= MaxUint64
    case LineDel(level, number) => -MaxInt32 <= level <= MaxInt32 && number <= MaxUint64
    case LineAdd(level, m) => -MaxInt32 <= level <= MaxInt32 && m.number <= MaxUint64 && m.size <= MaxUint64
  }

  // Measurements that a word can carry: not empty, no white space.
  ghost predicate Readable(line: ManifestLine) {
    line.LineAdd? ==> IsToken(line.meta.smallest.measurement) && IsToken(line.meta.largest.measurement)
  }

  // operator>> into an unsigned 64-bit number takes a minus sign, and counts modulo 2^64.
  lemma {:induction false} ReadsUnsignedExactly(i: int, rest: Bytes)
    requires EndsWord(rest)
    ensures ReadUnsigned(Field(SignedDecimal(i)) + rest)
            == if -0xFFFF_FFFF_FFFF_FFFF <= i <= 0xFFFF_FFFF_FFFF_FFFF then Some((i % 0x1_0000_0000_0000_0000, rest))
               else None
  {
    hide ReadInteger, SignedDecimal;
    ReadsInteger(i, -MaxUint64, MaxUint64, rest);
  }

  lemma {:induction false} ReadsUnsigned(n: nat, rest: Bytes)
    requires n <= MaxUint64 && EndsWord(rest)
    ensures ReadUnsigned(Field(Decimal(n)) + rest) == Some((n, rest))
  {
    ReadsInteger(n, -MaxUint64, MaxUint64, rest);
  }

  lemma {:induction false} ReadsKey(k: TsKey, rest: Bytes)
    requires IsToken(k.measurement) && EndsWord(rest)
    ensures ReadKey(PrintKey(k) + rest) == Some((k, rest))
  {
    hide SignedDecimal, ReadWord, ReadInteger, IsToken;
    var t := Field(SignedDecimal(k.timestamp)) + rest;
    assert PrintKey(k) + rest == Field(k.measurement) + t;
    ReadsWord(k.measurement, t);
    ReadsInteger(k.timestamp, MinTs, MaxTs, rest);
  }

  lemma {:induction false} FileNameIsToken(n: nat)
    ensures IsToken(FileName(n))
  {
    DecimalDigits(n);
  }

  // The two bounds that end an add line.
  function ReadBounds(s: Bytes): Option<(TsKey, TsKey)> {
    var (smallest, s) :- ReadKey(s);
    var (largest, s) :- ReadKey(s);
    Some((smallest, largest))
  }

  // The numbers and the name of an add line always read back.
  lemma {:induction false} AddReadsBounds(level: int, m: FileMeta)
    requires InWidth(LineAdd(level, m))
    ensures |Print(LineAdd(level, m))| >= 3
    ensures var bounds := ReadBounds(PrintKey(m.smallest) + PrintKey(m.largest));
            ReadAdd(Print(LineAdd(level, m))[3..])
            == if bounds.None? then None else Some(LineAdd(level,
                                                           FileMeta(m.number, m.size, bounds.value.0, bounds.value.1)))
  {
    hide SignedDecimal, Decimal, ReadWord, ReadInteger, ReadUnsigned, ReadKey, IsToken, PrintKey, FileName;
    var s4 := PrintKey(m.smallest) + PrintKey(m.largest);
    var s3 := Field(Decimal(m.size)) + s4;
    var s2 := Field(FileName(m.number)) + s3;
    var s1 := Field(Decimal(m.number)) + s2;
    var s0 := Field(SignedDecimal(level)) + s1;
    assert Print(LineAdd(level, m))[3..] == s0;
    KeyEndsWord(m.smallest);
    KeyEndsWord(m.largest);
    ReadsInteger(level, -MaxInt32 - 1, MaxInt32, s1);
    ReadsUnsigned(m.number, s2);
    FileNameIsToken(m.number);
    ReadsWord(FileName(m.number), s3);
    ReadsUnsigned(m.size, s4);
  }

  lemma {:induction false} ReadsAdd(level: int, m: FileMeta)
    requires InWidth(LineAdd(level, m)) && Readable(LineAdd(level, m))
    ensures |Print(LineAdd(level, m))| >= 3
    ensures ReadAdd(Print(LineAdd(level, m))[3..]) == Some(LineAdd(level, m))
  {
    hide ReadKey, IsToken, PrintKey, ReadAdd, Print;
    AddReadsBounds(level, m);
    KeyEndsWord(m.largest);
    ReadsKey(m.smallest, PrintKey(m.largest));
    ReadsKey(m.largest, []);
    assert PrintKey(m.largest) + [] == PrintKey(m.largest);
  }

  lemma {:induction false} KeyEndsWord(k: TsKey)
    ensures PrintKey(k) != [] && EndsWord(PrintKey(k))
  {
  }

  lemma {:induction false} ReadsTag(tag: Bytes, rest: Bytes)
    requires tag in {AddTag, DelTag, NextTag} && EndsWord(rest)
    ensures ReadWord(tag + rest) == Some((tag, rest))
  {
    assert IsToken(tag);
    ReadsWord(tag, rest);
  }

  lemma {:induction false} ReadsDel(level: int, number: nat)
    requires InWidth(LineDel(level, number))
    ensures ReadDel(Print(LineDel(level, number))[3..]) == Some(LineDel(level, number))
  {
    hide SignedDecimal, Decimal, ReadInteger, ReadUnsigned;
    var s1 := Field(Decimal(number));
    assert Print(LineDel(level, number))[3..] == Field(SignedDecimal(level)) + s1;
    ReadsInteger(level, -MaxInt32 - 1, MaxInt32, s1);
    ReadsUnsigned(number, []);
    assert s1 + [] == s1;
  }

  // A line whose numbers fit comes back unchanged exactly when its measurements are words.
  lemma {:induction false} LineRoundTrip(line: ManifestLine)
    requires InWidth(line)
    ensures Parse(Print(line)) == Line(line) <==> Readable(line)
  {
    hide ReadWord, ReadAdd, ReadDel, ReadUnsigned, Readable, SignedDecimal, Decimal;
    match line
    case LineNext(n) =>
      ReadsTag(NextTag, Field(Decimal(n)));
      ReadsUnsigned(n, []);
      assert Field(Decimal(n)) + [] == Field(Decimal(n));
      AlwaysReadable(line);
    case LineDel(level, number) =>
      var rest := Print(line)[3..];
      assert Print(line) == DelTag + rest && EndsWord(rest);
      ReadsTag(DelTag, rest);
      ReadsDel(level, number);
      AlwaysReadable(line);
    case LineAdd(level, m) =>
      var rest := Print(line)[3..];
      AddStarts(level, m);
      ReadsTag(AddTag, rest);
      if Readable(line) {
        ReadsAdd(level, m);
      } else {
        ReadAddGivesTokens(rest);
      }
  }

  lemma {:induction false} AlwaysReadable(line: ManifestLine)
    requires !line.LineAdd?
    ensures Readable(line)
  {
  }

  lemma {:induction false} AddStarts(level: int, m: FileMeta)
    ensures var s := Print(LineAdd(level, m)); |s| >= 3 && s == AddTag + s[3..] && EndsWord(s[3..])
  {
    hide SignedDecimal, Decimal, PrintKey, FileName;
  }

  lemma {:induction false} ReadKeyGivesToken(s: Bytes)
    ensures ReadKey(s).Some? ==> IsToken(ReadKey(s).value.0.measurement)
  {
    ReadWordGivesToken(s);
  }

  lemma {:induction false} ReadAddGivesTokens(s: Bytes)
    ensures ReadAdd(s).Some? ==> ReadAdd(s).value.LineAdd? && Readable(ReadAdd(s).value)
  {
    hide ReadKey, ReadWord, ReadInteger, ReadUnsigned, IsToken;
    if ReadAdd(s).Some? {
      var s1 := ReadInteger(s, -MaxInt32 - 1, MaxInt32).value.1;
      var s2 := ReadUnsigned(s1).value.1;
      var s3 := ReadWord(s2).value.1;
      var s4 := ReadUnsigned(s3).value.1;
      var (_, s5) := ReadKey(s4).value;
      ReadKeyGivesToken(s4);
      ReadKeyGivesToken(s5);
    }
  }

  // ---------------------------------------------------------------- the whole file

  function PrintAll(lines: seq<ManifestLine>): Bytes {
    if lines == [] then [] else PrintAll(lines[..|lines| - 1]) + Print(lines[|lines| - 1]) + [Newline]
  }

  // std::getline: up to the newline or the end.
  function LineLength(s: Bytes): (n: nat)
    ensures n <= |s|
  {
    if s == [] || s[0] == Newline then 0 else 1 + LineLength(s[1..])
  }

  function AfterLine(s: Bytes): Bytes {
    var n := LineLength(s);
    if n < |s| then s[n + 1..] else []
  }

  // Where recovery stops: at the end of the manifest, or at a bad add or del line, with what came before applied.
  datatype Reading = Reading(version: VersionState, complete: bool)

  // The recovery loop.
  function ReadText(v: VersionState, text: Bytes): (r: Reading)
    requires |v.levels| == MaxLevel
    ensures |r.version.levels| == MaxLevel
    decreases |text|
  {
    if text == [] then Reading(v, true) else
      match Parse(text[..LineLength(text)])
      case Ignored => ReadText(v, AfterLine(text))
      case Corrupt => Reading(v, false)
      case Line(line) => ReadText(ReadLine(v, line), AfterLine(text))
  }

  // RecoverFromManifest: a bad line leaves everything before it in place, obsolete files included.
  function RecoverText(text: Bytes): (v: VersionState)
    ensures |v.levels| == MaxLevel
  {
    var r := ReadText(Fresh(), text);
    if r.complete then r.version.(obsolete := []) else r.version
  }

  function Fresh(): (v: VersionState)
    ensures |v.levels| == MaxLevel
  {
    VersionState(EmptyLevels(), 1, [])
  }

  ghost predicate Printable(lines: seq<ManifestLine>) {
    forall l :: l in lines ==> InWidth(l) && Readable(l)
  }

  lemma {:induction false} DecimalHasNoSpace(n: nat)
    ensures forall i :: 0 <= i < |Decimal(n)| ==> !IsSpace(Decimal(n)[i])
  {
    DecimalDigits(n);
  }

  ghost predicate OneLine(s: Bytes) {
    forall i :: 0 <= i < |s| ==> s[i] != Newline
  }

  lemma {:induction false} FieldIsOneLine(text: Bytes)
    requires OneLine(text) || IsToken(text)
    ensures OneLine(Field(text))
  {
  }

  lemma {:induction false} NumberIsOneLine(i: int)
    ensures OneLine(Field(SignedDecimal(i)))
    ensures i >= 0 ==> SignedDecimal(i) == Decimal(i)
  {
    DecimalHasNoSpace(if i < 0 then -i else i);
    assert OneLine(SignedDecimal(i));
    FieldIsOneLine(SignedDecimal(i));
  }

  lemma {:induction false} PrintsOneLine(line: ManifestLine)
    requires line.LineAdd? ==> OneLine(line.meta.smallest.measurement) && OneLine(line.meta.largest.measurement)
    ensures OneLine(Print(line))
  {
    hide SignedDecimal, Decimal, FileName, Field;
    match line
    case LineNext(n) => NumberIsOneLine(n);
    case LineDel(level, number) => NumberIsOneLine(level); NumberIsOneLine(number);
    case LineAdd(level, m) =>
      NumberIsOneLine(level);
      NumberIsOneLine(m.number);
      FileNameIsToken(m.number);
      FieldIsOneLine(FileName(m.number));
      NumberIsOneLine(m.size);
      FieldIsOneLine(m.smallest.measurement);
      NumberIsOneLine(m.smallest.timestamp);
      FieldIsOneLine(m.largest.measurement);
      NumberIsOneLine(m.largest.timestamp);
  }

  lemma {:induction false} ReadableIsOneLine(line: ManifestLine)
    requires Readable(line)
    ensures line.LineAdd? ==> OneLine(line.meta.smallest.measurement) && OneLine(line.meta.largest.measurement)
  {
  }

  lemma {:induction false} LineLengthIs(line: Bytes, more: Bytes)
    requires OneLine(line)
    ensures LineLength(line + [Newline] + more) == |line|
  {
    if line != [] {
      LineLengthIs(line[1..], more);
      assert (line + [Newline] + more)[1..] == line[1..] + [Newline] + more;
    }
  }

  // Reading a printed manifest does what reading its lines does.
  lemma {:induction false} TextRoundTrip(v: VersionState, lines: seq<ManifestLine>, more: Bytes)
    requires |v.levels| == MaxLevel && Printable(lines)
    ensures ReadText(v, PrintAll(lines) + more) == ReadText(ReadLines(v, lines), more)
  {
    hide Print, Parse, InWidth, Readable, ReadLine;
    if lines == [] {
      assert PrintAll(lines) + more == more;
    } else {
      var init, line := lines[..|lines| - 1], lines[|lines| - 1];
      var next := Print(line) + [Newline] + more;
      TextRoundTrip(v, init, next);
      assert PrintAll(lines) + more == PrintAll(init) + next;
      LineRoundTrip(line);
      ReadableIsOneLine(line);
      PrintsOneLine(line);
      LineLengthIs(Print(line), more);
      assert next[..|Print(line)|] == Print(line) && next[|Print(line)| + 1..] == more;
    }
  }

  lemma {:induction false} TextIsLines(lines: seq<ManifestLine>)
    requires Printable(lines)
    ensures ReadText(Fresh(), PrintAll(lines)).complete && RecoverText(PrintAll(lines)) == Recover(lines)
  {
    hide PrintAll, Printable;
    TextRoundTrip(Fresh(), lines, []);
    assert PrintAll(lines) + [] == PrintAll(lines);
  }

  // ---------------------------------------------------------------- lines that are not read back

  // The first text line of a manifest line stops recovery.
  predicate Rejected(line: ManifestLine) {
    var text := Print(line) + [Newline];
    Parse(text[..LineLength(text)]) == Corrupt
  }

  // An addition is rejected exactly when its two bounds, printed, do not read as two keys.
  lemma {:induction false} RejectedExactlyWhen(level: int, m: FileMeta)
    requires InWidth(LineAdd(level, m)) && OneLine(m.smallest.measurement) && OneLine(m.largest.measurement)
    ensures Rejected(LineAdd(level, m)) <==> ReadBounds(PrintKey(m.smallest) + PrintKey(m.largest)) == None
  {
    hide ReadWord, ReadAdd, ReadBounds, PrintKey, Print;
    var line := LineAdd(level, m);
    PrintsOneLine(line);
    LineLengthIs(Print(line), []);
    assert Print(line) + [Newline] + [] == Print(line) + [Newline];
    AddStarts(level, m);
    ReadsTag(AddTag, Print(line)[3..]);
    AddReadsBounds(level, m);
  }

  // A file whose only record has an empty measurement.
  lemma {:induction false} EmptyMeasurementIsRejected(t: int64)
    ensures ReadBounds(PrintKey(TsKey([], t)) + PrintKey(TsKey([], t))) == None
  {
    hide SignedDecimal, ReadInteger;
    var d := SignedDecimal(t);
    var second := Field([]) + Field(d);
    var all := PrintKey(TsKey([], t)) + PrintKey(TsKey([], t));
    NumberIsToken(t);
    assert all == [Space] + ([Space] + d + second);
    assert all[0] == Space && all[1..] == [Space] + d + second;
    ReadsWord(d, second);
    assert ReadWord(all) == Some((d, second));
    assert second == [Space] + ([Space] + d);
    ReadsInteger(t, MinTs, MaxTs, []);
    assert [Space] + d + [] == [Space] + d;
    SkippedSpace([Space] + d, MinTs, MaxTs);
    assert ReadKey([]) == None;
  }

  lemma {:induction false} NumberIsToken(i: int)
    ensures IsToken(SignedDecimal(i))
  {
    DecimalHasNoSpace(if i < 0 then -i else i);
  }

  lemma {:induction false} SkippedSpace(s: Bytes, low: int, high: int)
    ensures ReadInteger([Space] + s, low, high) == ReadInteger(s, low, high)
  {
    assert ([Space] + s)[1..] == s;
  }

  // A file whose only record has a measurement of two words, the second of which starts like no number: "a b".
  lemma {:induction false} TwoWordsAreRejected(w: Bytes, x: Bytes, t: int64)
    requires IsToken(w) && x != [] && !IsSpace(x[0]) && !IsDigit(x[0]) && x[0] != Minus && x[0] != Plus
    ensures var k := TsKey(w + [Space] + x, t); ReadBounds(PrintKey(k) + PrintKey(k)) == None
  {
    hide SignedDecimal;
    var k := TsKey(w + [Space] + x, t);
    var rest := x + (Field(SignedDecimal(t)) + PrintKey(k));
    var all := PrintKey(k) + PrintKey(k);
    assert all == [Space] + w + ([Space] + rest);
    ReadsWord(w, [Space] + rest);
    SkipOne(rest);
  }

  // Nothing after a rejected line is ever read.
  lemma {:induction false} RejectedLineHidesRest(before: seq<ManifestLine>, bad: ManifestLine, more: Bytes)
    requires Printable(before) && Rejected(bad)
    ensures ReadText(Fresh(), PrintAll(before + [bad]) + more) == Reading(ReadLines(Fresh(), before), false)
  {
    hide Print, Parse, Printable;
    var text, next := Print(bad) + [Newline], Print(bad) + [Newline] + more;
    assert (before + [bad])[..|before|] == before;
    assert PrintAll(before + [bad]) + more == PrintAll(before) + next;
    TextRoundTrip(Fresh(), before, next);
    FirstLineStands(text, more);
    assert next[..LineLength(next)] == text[..LineLength(text)];
  }

  lemma {:induction false} FirstLineStands(text: Bytes, more: Bytes)
    requires Newline in text
    ensures LineLength(text + more) == LineLength(text) < |text|
  {
    if text[0] != Newline {
      assert text[1..] + more == (text + more)[1..];
      assert Newline in text[1..];
      FirstLineStands(text[1..], more);
    }
  }

  ghost predicate Words(f: FileMeta) {
    IsToken(f.smallest.measurement) && IsToken(f.largest.measurement)
  }

  ghost predicate AllWords(levels: Levels) {
    forall l, f :: 0 <= l < |levels| && f in levels[l] ==> Words(f)
  }

  lemma {:induction false} ParseGivesWords(s: Bytes)
    ensures Parse(s).Line? ==> Readable(Parse(s).line)
  {
    hide ReadAdd, ReadDel, ReadUnsigned, IsToken;
    if ReadWord(s).Some? {
      var rest := ReadWord(s).value.1;
      ReadAddGivesTokens(rest);
      DelGivesDel(rest);
    }
  }

  lemma {:induction false} DelGivesDel(s: Bytes)
    ensures ReadDel(s).Some? ==> ReadDel(s).value.LineDel?
  {
    hide ReadInteger, ReadUnsigned;
  }

  lemma {:induction false} ReadLineKeepsWords(v: VersionState, line: ManifestLine)
    requires |v.levels| == MaxLevel && AllWords(v.levels) && Readable(line)
    ensures AllWords(ReadLine(v, line).levels)
  {
    hide IsToken, SortByNumber, FilterOut;
    match line
    case LineNext(n) =>
    case LineDel(level, number) =>
      ApplyEditLevels(v, Edit([], [(level, number)]));
      EditKeepsWords(v, Edit([], [(level, number)]));
    case LineAdd(level, m) =>
      assert Words(m);
      EditKeepsWords(v, Edit([(level, m)], []));
  }

  lemma {:induction false} EditKeepsWords(v: VersionState, e: Edit)
    requires |v.levels| == MaxLevel && AllWords(v.levels) && forall a :: a in e.added ==> Words(a.1)
    ensures AllWords(ApplyEdit(v, e).levels)
  {
    hide Words, SortByNumber, FilterOut, ApplyEdit;
    ApplyEditLevels(v, e);
    forall l, f | 0 <= l < MaxLevel && f in ApplyEdit(v, e).levels[l] ensures Words(f) {
      var kept, added := FilterOut(v.levels[l], DeletedAt(e.deleted, l)), AddedAt(e.added, l);
      SortNonDescending(kept + added);
      FilterOutContents(v.levels[l], DeletedAt(e.deleted, l));
      if f in added {
        AddedAtMember(e.added, l, f);
      }
    }
  }

  // Recovery never gives a file a bound that is not a word, whatever the manifest holds.
  lemma {:induction false} RecoveredBoundsAreWords(v: VersionState, text: Bytes)
    requires |v.levels| == MaxLevel && AllWords(v.levels)
    ensures AllWords(ReadText(v, text).version.levels)
    decreases |text|
  {
    hide Parse, ReadLine, AllWords, Readable;
    if text != [] {
      var line := text[..LineLength(text)];
      match Parse(line)
      case Ignored => RecoveredBoundsAreWords(v, AfterLine(text));
      case Corrupt =>
      case Line(l) =>
        ParseGivesWords(line);
        ReadLineKeepsWords(v, l);
        RecoveredBoundsAreWords(ReadLine(v, l), AfterLine(text));
    }
  }

  // ---------------------------------------------------------------- any history of edits

  datatype Op = Log(edit: Edit) | TakeNumber | MarkUsed(number: nat)

  function Step(v: VersionState, op: Op): (r: VersionState)
    requires |v.levels| == MaxLevel
    ensures |r.levels| == MaxLevel
  {
    match op
    case Log(edit) => ApplyEdit(v, edit)
    case TakeNumber => v.(nextFile := v.nextFile + 1)
    case MarkUsed(n) => if n >= v.nextFile then v.(nextFile := n + 1) else v
  }

  function Run(ops: seq<Op>): (v: VersionState)
    ensures |v.levels| == MaxLevel
  {
    if ops == [] then Fresh() else Step(Run(ops[..|ops| - 1]), ops[|ops| - 1])
  }

  // What the history leaves in the manifest.
  function Logged(ops: seq<Op>): seq<ManifestLine> {
    if ops == [] then [] else
      var init, op := ops[..|ops| - 1], ops[|ops| - 1];
      Logged(init) + if op.Log? then EditLines(op.edit, Run(init).nextFile) else []
  }

  // Recovery yields the levels that the edits built in memory, and a next file number above every file ever added.
  lemma {:induction false} RecoveryMatchesMemory(ops: seq<Op>)
    ensures var r := ReadLines(Fresh(), Logged(ops));
            && r.levels == Run(ops).levels
            && LevelsSorted(r.levels)
            && forall i, a :: 0 <= i < |ops| && ops[i].Log? && a in ops[i].edit.added ==> a.1.number < r.nextFile
  {
    hide EditLines, ApplyEdit, ReadLine, LevelsSorted;
    if ops == [] {
      FreshIsSorted();
    } else {
      var init, op := ops[..|ops| - 1], ops[|ops| - 1];
      RecoveryMatchesMemory(init);
      var w := ReadLines(Fresh(), Logged(init));
      if op.Log? {
        var lines := EditLines(op.edit, Run(init).nextFile);
        ReadLinesConcat(Fresh(), Logged(init), lines);
        ReadEditLines(w, op.edit, Run(init).nextFile, 0);
        ApplyEditSameLevels(w, Run(init), op.edit);
      } else {
        assert Logged(ops) == Logged(init);
      }
      assert forall i :: 0 <= i < |ops| ==> ops[i] == if i < |init| then init[i] else op;
    }
  }

  lemma {:induction false} FreshIsSorted()
    ensures LevelsSorted(Fresh().levels)
  {
  }

  // The same over the text of the manifest, as long as every bound in it is a word.
  lemma {:induction false} ManifestRecovers(ops: seq<Op>)
    requires Printable(Logged(ops))
    ensures var r := ReadText(Fresh(), PrintAll(Logged(ops)));
            && r.complete && r.version.levels == Run(ops).levels
            && forall i, a :: 0 <= i < |ops| && ops[i].Log? && a in ops[i].edit.added ==>
                                a.1.number < r.version.nextFile
  {
    hide PrintAll, Logged, Run, Printable;
    TextRoundTrip(Fresh(), Logged(ops), []);
    assert PrintAll(Logged(ops)) + [] == PrintAll(Logged(ops));
    RecoveryMatchesMemory(ops);
  }

  // A restart after these operations finds the levels that were in memory.
  ghost predicate RecoversAfter(ops: seq<Op>) {
    var r := ReadText(Fresh(), PrintAll(Logged(ops)));
    r.complete && r.version.levels == Run(ops).levels
  }

  // Edits as the engine makes them: levels that exist, numbers that fit.
  ghost predicate WellFormed(ops: seq<Op>) {
    && (forall l :: l in Logged(ops) ==> InWidth(l))
    && forall i, a :: 0 <= i < |ops| && ops[i].Log? && a in ops[i].edit.added ==> InRange(a.0)
  }

  // A history survives a restart at every point of it exactly when all its bounds are words.
  lemma {:induction false} ManifestRecoversExactlyWhen(ops: seq<Op>)
    requires WellFormed(ops)
    ensures (forall i :: 0 <= i <= |ops| ==> RecoversAfter(ops[..i])) <==> Printable(Logged(ops))
  {
    hide RecoversAfter, InWidth, Readable, Logged, Run;
    if Printable(Logged(ops)) {
      forall i | 0 <= i <= |ops| ensures RecoversAfter(ops[..i]) {
        LoggedPrefix(ops, i);
        PrefixIsPrintable(Logged(ops[..i]), Logged(ops));
        PrintableRecovers(ops[..i]);
      }
    } else {
      var line :| line in Logged(ops) && !Readable(line);
      var i, a := LoggedAdd(ops, line);
      if RecoversAfter(ops[..i + 1]) {
        AddIsLive(ops, i, a);
        RecoveredIsWords(ops[..i + 1], a);
        assert false;
      }
      assert !RecoversAfter(ops[..i + 1]);
    }
  }

  lemma {:induction false} PrefixIsPrintable(a: seq<ManifestLine>, b: seq<ManifestLine>)
    requires a <= b && Printable(b)
    ensures Printable(a)
  {
    hide InWidth, Readable;
    assert forall i :: 0 <= i < |a| ==> a[i] == b[i];
  }

  lemma {:induction false} FreshHasWords()
    ensures AllWords(Fresh().levels)
  {
  }

  lemma {:induction false} PrintableRecovers(ops: seq<Op>)
    requires Printable(Logged(ops))
    ensures RecoversAfter(ops)
  {
    hide Printable, PrintAll, Logged, Run, ReadText;
    ManifestRecovers(ops);
  }

  lemma {:induction false} LoggedPrefix(ops: seq<Op>, i: nat)
    requires i <= |ops|
    ensures Logged(ops[..i]) <= Logged(ops)
    decreases |ops| - i
  {
    hide EditLines, Run;
    if i < |ops| {
      LoggedPrefix(ops, i + 1);
      assert ops[..i + 1][..i] == ops[..i];
    } else {
      assert ops[..i] == ops;
    }
  }

  // An unreadable line is the addition of some edit.
  lemma {:induction false} LoggedAdd(ops: seq<Op>, line: ManifestLine) returns (i: nat, a: (int, FileMeta))
    requires line in Logged(ops) && !Readable(line)
    ensures i < |ops| && ops[i].Log? && a in ops[i].edit.added && !Words(a.1)
  {
    hide Run;
    var n := |ops| - 1;
    if line in Logged(ops[..n]) {
      i, a := LoggedAdd(ops[..n], line);
    } else {
      i := n;
      a := AddedLine(ops[n].edit, Run(ops[..n]).nextFile, line);
    }
  }

  lemma {:induction false} AddedLine(e: Edit, next: nat, line: ManifestLine) returns (a: (int, FileMeta))
    requires line in EditLines(e, next) && !Readable(line)
    ensures a in e.added && !Words(a.1)
  {
    hide IsToken;
    DelLinesMembers(e.deleted);
    a := AddLinesMember(e.added, line);
  }

  lemma {:induction false} DelLinesMembers(ds: seq<(int, nat)>)
    ensures forall line :: line in DelLines(ds) ==> line.LineDel?
  {
    if ds != [] {
      DelLinesMembers(ds[..|ds| - 1]);
    }
  }

  lemma {:induction false} AddLinesMember(adds: seq<(int, FileMeta)>, line: ManifestLine) returns (a: (int, FileMeta))
    requires line in AddLines(adds)
    ensures a in adds && line == LineAdd(a.0, a.1)
  {
    var n := |adds| - 1;
    if line in AddLines(adds[..n]) {
      a := AddLinesMember(adds[..n], line);
    } else {
      a := adds[n];
    }
  }

  // Right after its edit an added file is part of the version.
  lemma {:induction false} AddIsLive(ops: seq<Op>, i: nat, a: (int, FileMeta))
    requires i < |ops| && ops[i].Log? && a in ops[i].edit.added && InRange(a.0)
    ensures a.1 in Run(ops[..i + 1]).levels[a.0]
  {
    hide ApplyEdit, SortByNumber, FilterOut;
    assert ops[..i + 1][..i] == ops[..i];
    var v, e := Run(ops[..i]), ops[i].edit;
    ApplyEditLevels(v, e);
    MemberAddedAt(e.added, a);
    SortNonDescending(FilterOut(v.levels[a.0], DeletedAt(e.deleted, a.0)) + AddedAt(e.added, a.0));
  }

  lemma {:induction false} MemberAddedAt(adds: seq<(int, FileMeta)>, a: (int, FileMeta))
    requires a in adds
    ensures a.1 in AddedAt(adds, a.0)
  {
    var n := |adds| - 1;
    if a in adds[..n] {
      MemberAddedAt(adds[..n], a);
    }
  }

  lemma {:induction false} RecoveredIsWords(ops: seq<Op>, a: (int, FileMeta))
    requires RecoversAfter(ops) && InRange(a.0) && a.1 in Run(ops).levels[a.0]
    ensures Words(a.1)
  {
    hide Words, ReadText, PrintAll, Logged, Run;
    FreshHasWords();
    RecoveredBoundsAreWords(Fresh(), PrintAll(Logged(ops)));
  }

  // Rewriting the manifest as a snapshot after any history recovers the same levels again, exactly when all bounds of
  // the version are words.
  lemma {:induction false} SnapshotRecoversExactlyWhen(ops: seq<Op>)
    requires forall l :: l in SnapshotLines(Run(ops).levels, Run(ops).nextFile) ==> InWidth(l)
    ensures var lines := SnapshotLines(Run(ops).levels, Run(ops).nextFile);
            var r := ReadText(Fresh(), PrintAll(lines));
            && (r.complete && r.version.levels == Run(ops).levels <==> AllWords(Run(ops).levels))
            && (AllWords(Run(ops).levels) ==> r.version.nextFile >= Run(ops).nextFile)
  {
    hide PrintAll, Run, SnapshotLines, AllWords, InWidth, Readable;
    var v := Run(ops);
    var lines := SnapshotLines(v.levels, v.nextFile);
    FreshHasWords();
    RecoveredBoundsAreWords(Fresh(), PrintAll(lines));
    if AllWords(v.levels) {
      SnapshotIsReadable(v.levels, v.nextFile);
      TextRoundTrip(Fresh(), lines, []);
      assert PrintAll(lines) + [] == PrintAll(lines);
      RecoveryMatchesMemory(ops);
      RecoverSnapshot(v.levels, v.nextFile);
    }
  }

  lemma {:induction false} SnapshotIsReadable(levels: Levels, next: nat)
    requires |levels| == MaxLevel && AllWords(levels)
    ensures forall l :: l in SnapshotLines(levels, next) ==> Readable(l)
  {
    hide IsToken;
    forall line | line in SnapshotLines(levels, next) ensures Readable(line) {
      if line in AddLines(SnapshotAdds(levels)) {
        var a := AddLinesMember(SnapshotAdds(levels), line);
        SnapshotAddsMembers(levels);
        assert Words(a.1);
      }
    }
  }

  // ---------------------------------------------------------------- when a snapshot names any file at all

  // An addition or a next file number as the engine writes it, over measurements without line breaks.
  ghost predicate Plain(line: ManifestLine) {
    && InWidth(line) && !line.LineDel?
    && (line.LineAdd? ==> InRange(line.level) && OneLine(line.meta.smallest.measurement)
                          && OneLine(line.meta.largest.measurement))
  }

  lemma {:induction false} AddGivesFile(v: VersionState, level: int, m: FileMeta)
    requires |v.levels| == MaxLevel && InRange(level)
    ensures HasFile(ReadLine(v, LineAdd(level, m)).levels)
  {
    hide ApplyEdit, SortByNumber, FilterOut;
    var e := Edit([(level, m)], []);
    ApplyEditLevels(v, e);
    MemberAddedAt(e.added, (level, m));
    var files := FilterOut(v.levels[level], DeletedAt(e.deleted, level)) + AddedAt(e.added, level);
    SortNonDescending(files);
    assert m in ApplyEdit(v, e).levels[level];
  }

  // One plain line, read first, stops recovery or leaves a file in the version.
  lemma {:induction false} ReadsPlainLine(v: VersionState, line: ManifestLine, more: Bytes)
    requires |v.levels| == MaxLevel && Plain(line) && (line.LineAdd? || HasFile(v.levels))
    ensures var text := Print(line) + [Newline] + more;
            if Rejected(line) then ReadText(v, text) == Reading(v, false)
            else exists w: VersionState :: (|w.levels| == MaxLevel && HasFile(w.levels)
                                            && ReadText(v, text) == ReadText(w, more))
  {
    hide ReadAdd, ReadBounds, PrintKey, Print, HasFile, ReadLine, InWidth, ReadWord, ReadUnsigned, ReadDel, OneLine;
    var text := Print(line) + [Newline] + more;
    PrintsOneLine(line);
    LineLengthIs(Print(line), more);
    LineLengthIs(Print(line), []);
    assert Print(line) + [Newline] + [] == Print(line) + [Newline];
    assert text[..|Print(line)|] == Print(line) && text[|Print(line)| + 1..] == more;
    assert (Print(line) + [Newline])[..|Print(line)|] == Print(line);
    match line
    case LineNext(n) =>
      AlwaysReadable(line);
      LineRoundTrip(line);
      NextKeepsLevels(v, n);
      assert ReadText(v, text) == ReadText(ReadLine(v, line), more);
    case LineAdd(level, m) =>
      AddStarts(level, m);
      ReadsTag(AddTag, Print(line)[3..]);
      AddReadsBounds(level, m);
      if !Rejected(line) {
        var bounds := ReadBounds(PrintKey(m.smallest) + PrintKey(m.largest));
        var m' := FileMeta(m.number, m.size, bounds.value.0, bounds.value.1);
        AddGivesFile(v, level, m');
        assert ReadText(v, text) == ReadText(ReadLine(v, LineAdd(level, m')), more);
      }
  }

  lemma {:induction false} NextKeepsLevels(v: VersionState, n: nat)
    requires |v.levels| == MaxLevel
    ensures ReadLine(v, LineNext(n)).levels == v.levels
  {
  }

  // What recovery has found it does not lose again in a snapshot.
  lemma {:induction false} PlainLinesKeepFile(v: VersionState, lines: seq<ManifestLine>)
    requires |v.levels| == MaxLevel && HasFile(v.levels) && forall line :: line in lines ==> Plain(line)
    ensures HasFile(ReadText(v, PrintAll(lines)).version.levels)
    decreases |lines|
  {
    hide Print, HasFile, Plain, Rejected, ReadText;
    if lines == [] {
      NothingRead(v);
    } else {
      FirstLinePrinted(lines);
      ReadsPlainLine(v, lines[0], PrintAll(lines[1..]));
      if !Rejected(lines[0]) {
        var w: VersionState :| |w.levels| == MaxLevel && HasFile(w.levels)
          && ReadText(v, PrintAll(lines)) == ReadText(w, PrintAll(lines[1..]));
        PlainLinesKeepFile(w, lines[1..]);
      }
    }
  }

  lemma {:induction false} NothingRead(v: VersionState)
    requires |v.levels| == MaxLevel
    ensures ReadText(v, PrintAll([])) == Reading(v, true)
  {
  }

  lemma {:induction false} FirstLinePrinted(lines: seq<ManifestLine>)
    requires lines != []
    ensures PrintAll(lines) == Print(lines[0]) + [Newline] + PrintAll(lines[1..])
  {
    hide Print;
    assert lines == [lines[0]] + lines[1..];
    PrintAllConcat([lines[0]], lines[1..]);
    SingletonPrefix(lines[0]);
    assert PrintAll([lines[0]]) == [] + Print(lines[0]) + [Newline];
  }

  // Recovering a snapshot finds some file exactly when there is one and the line of the first is not rejected.
  lemma {:induction false} SnapshotNamesFileExactlyWhen(levels: Levels, next: nat)
    requires |levels| == MaxLevel && forall line :: line in SnapshotLines(levels, next) ==> Plain(line)
    ensures |SnapshotLines(levels, next)| > 0
    ensures HasFile(RecoverText(PrintAll(SnapshotLines(levels, next))).levels)
            <==> HasFile(levels) && !Rejected(SnapshotLines(levels, next)[0])
  {
    hide Print, HasFile, Plain, Rejected, ReadText, PrintAll;
    var lines := SnapshotLines(levels, next);
    SnapshotStarts(levels, next);
    FreshHasNone();
    FirstLinePrinted(lines);
    if HasFile(levels) {
      ReadsPlainLine(Fresh(), lines[0], PrintAll(lines[1..]));
      if !Rejected(lines[0]) {
        var w: VersionState :| |w.levels| == MaxLevel && HasFile(w.levels)
          && ReadText(Fresh(), PrintAll(lines)) == ReadText(w, PrintAll(lines[1..]));
        PlainLinesKeepFile(w, lines[1..]);
      }
    } else {
      assert lines == [LineNext(next)];
      NextIsPrintable(next);
      TextIsLines(lines);
      SingletonPrefix(lines[0]);
      NextKeepsLevels(Fresh(), next);
    }
  }

  lemma {:induction false} NextIsPrintable(next: nat)
    requires Plain(LineNext(next))
    ensures Printable([LineNext(next)])
    ensures Recover([LineNext(next)]).levels == Fresh().levels
  {
    SingletonPrefix(LineNext(next));
    assert ReadLines(Fresh(), []) == Fresh();
  }

  lemma {:induction false} FreshHasNone()
    ensures !HasFile(Fresh().levels)
  {
  }

  lemma {:induction false} SnapshotStarts(levels: Levels, next: nat)
    ensures |SnapshotLines(levels, next)| > 0
    ensures if HasFile(levels) then SnapshotLines(levels, next)[0].LineAdd?
            else SnapshotLines(levels, next) == [LineNext(next)]
  {
    hide AddLines;
    AddsOfNone(levels);
    var adds := SnapshotAdds(levels);
    AddLinesAre(adds);
    assert adds == [] ==> AddLines(adds) == [];
    assert adds != [] ==> SnapshotLines(levels, next)[0] == AddLines(adds)[0];
  }

  lemma {:induction false} AddLinesAre(adds: seq<(int, FileMeta)>)
    ensures |AddLines(adds)| == |adds|
    ensures forall i :: 0 <= i < |adds| ==> AddLines(adds)[i] == LineAdd(adds[i].0, adds[i].1)
  {
    if adds != [] {
      AddLinesAre(adds[..|adds| - 1]);
    }
  }

  lemma {:induction false} AddsOfNone(levels: Levels)
    ensures SnapshotAdds(levels) == [] <==> !HasFile(levels)
  {
    if levels != [] {
      var n := |levels| - 1;
      AddsOfNone(levels[..n]);
      assert HasFile(levels) <==> HasFile(levels[..n]) || levels[n] != [] by {
        assert forall l :: 0 <= l < n ==> levels[..n][l] == levels[l];
      }
    }
  }

  // ---------------------------------------------------------------- the version manager

  class VersionManager {
    var levels: Levels               // current_.level_files
    var nextFile: nat
    var obsolete: seq<nat>
    var manifest: Bytes              // the file that CURRENT names

    ghost predicate Valid()
      reads this
    {
      |levels| == MaxLevel
    }

    ghost function State(): VersionState
      reads this
    {
      VersionState(levels, nextFile, obsolete)
    }

    constructor ()
      ensures Valid() && State() == Fresh() && manifest == []
    {
      levels, nextFile, obsolete, manifest := EmptyLevels(), 1, [], [];
    }

    // A manager over an existing manifest, before recovery.
    constructor Over(manifest: Bytes)
      ensures Valid() && State() == Fresh() && this.manifest == manifest
    {
      levels, nextFile, obsolete := EmptyLevels(), 1, [];
      this.manifest := manifest;
    }

    // Deletions first, each file found becoming obsolete; then additions; then every level is sorted by number.
    method ApplyUnlocked(edit: Edit)
      requires Valid()
      modifies `levels, `nextFile, `obsolete
      ensures Valid() && State() == ApplyEdit(old(State()), edit)
    {
      hide SortByNumber, ApplyDeletes, InRange;
      DeleteFiles(edit.deleted);
      ghost var removed := levels;
      for i := 0 to |edit.added|
        invariant Valid() && levels == ApplyAdds(removed, edit.added[..i])
        modifies `levels
      {
        var (level, meta) := edit.added[i];
        assert edit.added[..i + 1][..i] == edit.added[..i];
        if InRange(level) {
          InRangeIs(level);
          levels := levels[level := levels[level] + [meta]];
        }
      }
      assert edit.added[..|edit.added|] == edit.added;
      ghost var unsorted := levels;
      for l := 0 to MaxLevel
        invariant Valid()
        invariant forall k :: 0 <= k < MaxLevel ==> levels[k] == if k < l then SortByNumber(unsorted[k])
                  else unsorted[k]
        modifies `levels
      {
        levels := levels[l := SortByNumber(levels[l])];
      }
      assert levels == SortLevels(unsorted);
      if edit.added != [] && edit.added[|edit.added| - 1].1.number >= nextFile {
        nextFile := edit.added[|edit.added| - 1].1.number + 1;
      }
    }

    method DeleteFiles(deleted: seq<(int, nat)>)
      requires Valid()
      modifies `levels, `obsolete
      ensures Valid() && State() == ApplyDeletes(old(State()), deleted)
    {
      hide FilterOut, HasNumber;
      for i := 0 to |deleted|
        invariant Valid() && State() == ApplyDeletes(old(State()), deleted[..i])
      {
        var (level, number) := deleted[i];
        if InRange(level) {
          var files, found := Erase(levels[level], number);
          if found {
            obsolete := obsolete + [number];
          }
          levels := levels[level := files];
        }
        assert deleted[..i + 1][..i] == deleted[..i];
      }
      assert deleted[..|deleted|] == deleted;
    }

    // The search for the deleted file and remove_if.
    static method Erase(files: seq<FileMeta>, number: nat) returns (rest: seq<FileMeta>, found: bool)
      ensures rest == FilterOut(files, {number}) && found == HasNumber(files, number)
    {
      rest, found := [], false;
      for i := 0 to |files|
        invariant rest == FilterOut(files[..i], {number}) && found == HasNumber(files[..i], number)
      {
        assert files[..i + 1] == files[..i] + [files[i]];
        if files[i].number == number {
          found := true;
        } else {
          rest := rest + [files[i]];
        }
      }
      assert files[..|files|] == files;
    }

    // The edit's lines are in the manifest before it is applied.
    method LogAndApply(edit: Edit)
      requires Valid()
      modifies this
      ensures Valid() && State() == ApplyEdit(old(State()), edit)
      ensures manifest == old(manifest) + PrintAll(EditLines(edit, old(nextFile)))
    {
      hide Print, ApplyEdit, DelLines, AddLines;
      var dels := PrintDels(edit.deleted);
      var adds := PrintAdds(edit.added);
      PrintAllConcat(DelLines(edit.deleted), AddLines(edit.added));
      PrintsMore([], DelLines(edit.deleted) + AddLines(edit.added), LineNext(nextFile));
      manifest := manifest + dels + adds + Print(LineNext(nextFile)) + [Newline];
      ApplyUnlocked(edit);
    }

    // Not ok: a bad add or del record. What came before it stays applied.
    method RecoverFromManifest() returns (ok: bool)
      requires Valid()
      modifies `levels, `nextFile, `obsolete
      ensures Valid() && ok == ReadText(Fresh(), manifest).complete && State() == RecoverText(manifest)
    {
      hide Parse, ApplyEdit, LineLength;
      levels, nextFile, obsolete := EmptyLevels(), 1, [];
      var rest := manifest;
      while rest != []
        invariant Valid()
        invariant ReadText(State(), rest) == ReadText(Fresh(), manifest)
        decreases |rest|
      {
        ghost var before := State();
        var parsed := Parse(rest[..LineLength(rest)]);
        match parsed {
          case Ignored =>
          case Corrupt => return false;
          case Line(LineNext(n)) =>
            if n > nextFile {
              nextFile := n;
            }
          case Line(LineAdd(level, meta)) => ApplyUnlocked(Edit([(level, meta)], []));
          case Line(LineDel(level, number)) => ApplyUnlocked(Edit([], [(level, number)]));
        }
        assert parsed.Line? ==> State() == ReadLine(before, parsed.line);
        rest := AfterLine(rest);
      }
      obsolete := [];
      ok := true;
    }

    // The manifest is rewritten as the additions that make up the current version.
    method WriteSnapshotManifest()
      requires Valid()
      modifies `manifest
      ensures manifest == PrintAll(SnapshotLines(levels, nextFile))
    {
      hide Print, AddLines;
      var adds: seq<(int, FileMeta)> := [];
      for l := 0 to MaxLevel
        invariant adds == SnapshotAdds(levels[..l])
      {
        ghost var shallower := adds;
        for i := 0 to |levels[l]|
          invariant adds == shallower + Additions(l, levels[l][..i])
        {
          adds := adds + [(l, levels[l][i])];
          assert levels[l][..i + 1][..i] == levels[l][..i];
        }
        assert levels[l][..|levels[l]|] == levels[l];
        assert levels[..l + 1][..l] == levels[..l];
      }
      assert levels[..MaxLevel] == levels;
      var out := PrintAdds(adds);
      PrintsMore([], AddLines(adds), LineNext(nextFile));
      assert [] + PrintAll(AddLines(adds)) == out;
      manifest := out + Print(LineNext(nextFile)) + [Newline];
    }

    static method PrintDels(deleted: seq<(int, nat)>) returns (out: Bytes)
      ensures out == PrintAll(DelLines(deleted))
    {
      hide Print;
      out := [];
      for i := 0 to |deleted|
        invariant out == PrintAll(DelLines(deleted[..i]))
      {
        var line := LineDel(deleted[i].0, deleted[i].1);
        PrintsMore([], DelLines(deleted[..i]), line);
        assert [] + PrintAll(DelLines(deleted[..i])) == out;
        out := out + Print(line) + [Newline];
        assert deleted[..i + 1][..i] == deleted[..i];
      }
      assert deleted[..|deleted|] == deleted;
    }

    static method PrintAdds(adds: seq<(int, FileMeta)>) returns (out: Bytes)
      ensures out == PrintAll(AddLines(adds))
    {
      hide Print;
      out := [];
      for i := 0 to |adds|
        invariant out == PrintAll(AddLines(adds[..i]))
      {
        var line := LineAdd(adds[i].0, adds[i].1);
        PrintsMore([], AddLines(adds[..i]), line);
        assert [] + PrintAll(AddLines(adds[..i])) == out;
        out := out + Print(line) + [Newline];
        assert adds[..i + 1][..i] == adds[..i];
      }
      assert adds[..|adds|] == adds;
    }

    method NewFileNumber() returns (number: nat)
      modifies `nextFile
      ensures number == old(nextFile) && nextFile == number + 1
    {
      number := nextFile;
      nextFile := nextFile + 1;
    }

    method NumFiles() returns (total: nat)
      requires Valid()
      ensures total > 0 <==> HasFile(levels)
    {
      total := 0;
      for l := 0 to MaxLevel
        invariant total > 0 <==> exists i :: 0 <= i < l && levels[i] != []
      {
        total := total + |levels[l]|;
      }
    }

    method MarkFileNumberUsed(number: nat)
      modifies `nextFile
      ensures nextFile == if number >= old(nextFile) then number + 1 else old(nextFile)
    {
      if number >= nextFile {
        nextFile := number + 1;
      }
    }

    method ConsumeObsoleteFiles() returns (files: seq<nat>)
      modifies `obsolete
      ensures files == old(obsolete) && obsolete == []
    {
      files := obsolete;
      obsolete := [];
    }
  }

  lemma {:induction false} PrintsMore(before: Bytes, lines: seq<ManifestLine>, line: ManifestLine)
    ensures before + PrintAll(lines + [line]) == before + PrintAll(lines) + Print(line) + [Newline]
  {
    hide Print;
    assert (lines + [line])[..|lines|] == lines;
  }

  lemma {:induction false} PrintAllConcat(a: seq<ManifestLine>, b: seq<ManifestLine>)
    ensures PrintAll(a + b) == PrintAll(a) + PrintAll(b)
  {
    hide Print;
    if b == [] {
      assert a + b == a;
    } else {
      PrintAllConcat(a, b[..|b| - 1]);
      assert (a + b)[..|a + b| - 1] == a + b[..|b| - 1];
    }
  }

  lemma {:induction false} InRangeIs(level: int)
    ensures InRange(level) <==> 0 <= level < MaxLevel
  {
  }
}
