// The write-ahead log: framing, replay, repair of a damaged tail, rotation. Models src/wal.cpp.
// A file is a byte sequence; appending and reading succeed.
module Wal {
  import opened Types
  import opened Codec
  import Crc32

  const MaxFragment := 32 * 1024
  const HeaderSize := 9                      // crc32(4) + len(4) + physical type(1)
  const Full: byte := 1
  const First: byte := 2
  const Middle: byte := 3
  const Last: byte := 4

  // ---------------------------------------------------------------- what is written

  function TypeOf(e: Entry): byte {
    if e.Value? then 1 else 2
  }

  function ValueOf(e: Entry): Bytes {
    if e.Value? then e.value else []
  }

  // The logical record: type, measurement length (truncated to 32 bits), timestamp, measurement, value.
  function Payload(r: Record): (p: Bytes)
    ensures |p| == 13 + |r.key.measurement| + |ValueOf(r.entry)|
  {
    [TypeOf(r.entry)] + Fixed32(|r.key.measurement| % Two32) + Fixed64(Unsigned(r.key.timestamp))
    + r.key.measurement + ValueOf(r.entry)
  }

  // One physical record.
  function Frame(kind: byte, data: Bytes): (f: Bytes)
    ensures |f| == HeaderSize + |data|
  {
    Fixed32(Crc32.Checksum([kind] + data)) + Fixed32((1 + |data|) % Two32) + [kind] + data
  }

  // The frames after the first of a fragmented record.
  function Tail(p: Bytes): (f: Bytes)
    ensures |f| >= HeaderSize
    decreases |p|
  {
    if |p| <= MaxFragment then Frame(Last, p)
    else Frame(Middle, p[..MaxFragment]) + Tail(p[MaxFragment..])
  }

  function Encode(p: Bytes): (f: Bytes)
    ensures |f| >= HeaderSize
  {
    if |p| <= MaxFragment then Frame(Full, p)
    else Frame(First, p[..MaxFragment]) + Tail(p[MaxFragment..])
  }

  function LogOf(records: seq<Record>): Bytes {
    if records == [] then [] else LogOf(records[..|records| - 1]) + Encode(Payload(records[|records| - 1]))
  }

  // ---------------------------------------------------------------- what is read back

  // DecodeLogicalRecord.
  function Decode(p: Bytes): Option<Record> {
    if |p| < 13 then None else
      var length := FromLittle(p[1..5]);
      Powers();
      var timestamp := Signed(FromLittle(p[5..13]));
      if 13 + length > |p| then None else
        var key := TsKey(p[13..13 + length], timestamp);
        if p[0] == 1 then Some(Record(key, Value(p[13 + length..])))
        else if p[0] == 2 then Some(Record(key, Deletion))
        else None
  }

  datatype Read = Short | Bad | Got(fragment: Bytes)

  // The physical record at the start of the remaining bytes.
  function ReadFrame(rest: Bytes): (r: Read)
    ensures r.Got? ==> 0 < |r.fragment| && 8 + |r.fragment| <= |rest|
  {
    if |rest| < HeaderSize then Short else
      var length := FromLittle(rest[4..8]);
      if 8 + length > |rest| then Bad
      else if Crc32.Checksum(rest[8..8 + length]) != FromLittle(rest[..4]) then Bad
      else if length < 1 then Bad
      else Got(rest[8..8 + length])
  }

  // What ReplayEntries learns: the records handed to the callback, valid_offset, has_tail_corruption.
  datatype Replayed = Replayed(records: seq<Record>, valid: nat, corrupt: bool)

  // The replay loop at a frame boundary: the bytes left, their offset, the fragments assembled so far (None when not
  // inside a fragmented record), valid_offset and the records emitted.
  function Scan(rest: Bytes, offset: nat, partial: Option<Bytes>, valid: nat, records: seq<Record>): Replayed
    decreases |rest|
  {
    match ReadFrame(rest)
    case Short => Replayed(records, valid, partial.Some?)
    case Bad => Replayed(records, valid, true)
    case Got(fragment) =>
      var end := offset + 8 + |fragment|;
      var after := rest[8 + |fragment|..];
      var kind, data := fragment[0], fragment[1..];
      if kind == Full && partial.None? then
        match Decode(data)
        case Some(r) => Scan(after, end, None, end, records + [r])
        case None =>
          match Decode(fragment)                       // a record of the older, unframed format
          case Some(r) => Scan(after, end, None, end, records + [r])
          case None => Replayed(records, valid, true)
      else if kind == First && partial.None? then
        Scan(after, end, Some(data), valid, records)
      else if kind == Middle && partial.Some? then
        Scan(after, end, Some(partial.value + data), valid, records)
      else if kind == Last && partial.Some? then
        match Decode(partial.value + data)
        case Some(r) => Scan(after, end, None, end, records + [r])
        case None => Replayed(records, valid, true)
      else Replayed(records, valid, true)
  }

  function Replay(file: Bytes): Replayed {
    Scan(file, 0, None, 0, [])
  }

  // The file that replay leaves behind: cut at valid_offset only when corruption was seen.
  function Repaired(file: Bytes): Bytes {
    var r := Replay(file);
    ValidIsInside(file, 0, None, 0, []);
    if r.corrupt then file[..r.valid] else file
  }

  lemma {:induction false} ValidIsInside(rest: Bytes, offset: nat, partial: Option<Bytes>, valid: nat,
                                         records: seq<Record>)
    requires valid <= offset
    ensures Scan(rest, offset, partial, valid, records).valid <= offset + |rest|
    decreases |rest|
  {
    hide ReadFrame, Decode;
    var r := ReadFrame(rest);
    if r.Got? {
      var after, end, data := rest[8 + |r.fragment|..], offset + 8 + |r.fragment|, r.fragment[1..];
      var soFar := if partial.Some? then partial.value else [];
      ValidIsInside(after, end, Some(data), valid, records);
      ValidIsInside(after, end, Some(soFar + data), valid, records);
      if Decode(data).Some? { ValidIsInside(after, end, None, end, records + [Decode(data).value]); }
      if Decode(r.fragment).Some? { ValidIsInside(after, end, None, end, records + [Decode(r.fragment).value]); }
      if Decode(soFar + data).Some? { ValidIsInside(after, end, None, end, records + [Decode(soFar + data).value]); }
    }
  }

  // ---------------------------------------------------------------- decoding undoes encoding

  // A measurement length that its 32-bit field can hold.
  predicate Loggable(r: Record) {
    |r.key.measurement| < Two32
  }

  ghost predicate AllLoggable(records: seq<Record>) {
    forall r :: r in records ==> Loggable(r)
  }

  lemma {:induction false} PayloadParts(r: Record)
    ensures var p := Payload(r);
            && p[0] == TypeOf(r.entry)
            && FromLittle(p[1..5]) == |r.key.measurement| % Two32
            && FromLittle(p[5..13]) == Unsigned(r.key.timestamp)
            && p[13..] == r.key.measurement + ValueOf(r.entry)
  {
    var p := Payload(r);
    var m, t := |r.key.measurement| % Two32, Unsigned(r.key.timestamp);
    assert p[1..5] == Fixed32(m);
    assert p[5..13] == Fixed64(t);
    Fixed32RoundTrip(m);
    Fixed64RoundTrip(t);
  }

  // A logged record is read back unchanged exactly when its measurement length fits the field.
  lemma {:induction false} DecodeUndoesPayload(r: Record)
    ensures Decode(Payload(r)) == Some(r) <==> Loggable(r)
  {
    hide FromLittle, Fixed32, Fixed64, Payload;
    var p, m := Payload(r), r.key.measurement;
    PayloadParts(r);
    var length := |m| % Two32;
    assert length <= |m|;
    assert p[13..13 + length] == p[13..][..length];
    assert p[13 + length..] == p[13..][length..];
    if Loggable(r) {
      assert (m + ValueOf(r.entry))[..length] == m;
      assert (m + ValueOf(r.entry))[length..] == ValueOf(r.entry);
    } else {
      assert |p[13..13 + length]| < |m|;
    }
  }

  lemma {:induction false} ReadsFrame(kind: byte, data: Bytes, more: Bytes)
    requires |data| <= MaxFragment
    ensures ReadFrame(Frame(kind, data) + more) == Got([kind] + data)
    ensures (Frame(kind, data) + more)[HeaderSize + |data|..] == more
  {
    hide FromLittle, Fixed32, Crc32.Checksum;
    var body := [kind] + data;
    var crc := Crc32.Checksum(body);
    var rest := Frame(kind, data) + more;
    assert rest[..4] == Fixed32(crc);
    assert rest[4..8] == Fixed32(|body|);
    assert rest[8..8 + |body|] == body;
    Fixed32RoundTrip(crc);
    Fixed32RoundTrip(|body|);
  }

  // A frame cut short is never accepted.
  lemma {:induction false} CutFrame(kind: byte, data: Bytes, n: nat)
    requires |data| <= MaxFragment && n < HeaderSize + |data|
    ensures ReadFrame(Frame(kind, data)[..n]) == if n < HeaderSize then Short else Bad
  {
    hide FromLittle, Fixed32, Crc32.Checksum;
    if n >= HeaderSize {
      var whole := Frame(kind, data);
      assert whole[4..8] == Fixed32(1 + |data|);
      assert whole[..n][4..8] == whole[4..8];
      Fixed32RoundTrip(1 + |data|);
    }
  }

  // ---------------------------------------------------------------- replay of whole and of cut records

  // One turn of the loop on a whole frame, by physical type.
  lemma {:induction false} StepFull(data: Bytes, more: Bytes, offset: nat, valid: nat, out: seq<Record>)
    requires |data| <= MaxFragment && Decode(data).Some?
    ensures var end := offset + HeaderSize + |data|;
            Scan(Frame(Full, data) + more, offset, None, valid, out)
            == Scan(more, end, None, end, out + [Decode(data).value])
  {
    hide Decode, ReadFrame, Frame;
    ReadsFrame(Full, data, more);
    assert ([Full] + data)[1..] == data;
  }

  lemma {:induction false} StepFirst(data: Bytes, more: Bytes, offset: nat, valid: nat, out: seq<Record>)
    requires |data| <= MaxFragment
    ensures Scan(Frame(First, data) + more, offset, None, valid, out)
            == Scan(more, offset + HeaderSize + |data|, Some(data), valid, out)
  {
    hide Decode, ReadFrame, Frame;
    ReadsFrame(First, data, more);
    assert ([First] + data)[1..] == data;
  }

  lemma {:induction false} StepMiddle(data: Bytes, more: Bytes, offset: nat, soFar: Bytes, valid: nat, out: seq<Record>)
    requires |data| <= MaxFragment
    ensures Scan(Frame(Middle, data) + more, offset, Some(soFar), valid, out)
            == Scan(more, offset + HeaderSize + |data|, Some(soFar + data), valid, out)
  {
    hide Decode, ReadFrame, Frame;
    ReadsFrame(Middle, data, more);
    assert ([Middle] + data)[1..] == data;
  }

  lemma {:induction false} StepLast(data: Bytes, more: Bytes, offset: nat, soFar: Bytes, valid: nat, out: seq<Record>)
    requires |data| <= MaxFragment && Decode(soFar + data).Some?
    ensures var end := offset + HeaderSize + |data|;
            Scan(Frame(Last, data) + more, offset, Some(soFar), valid, out)
            == Scan(more, end, None, end, out + [Decode(soFar + data).value])
  {
    hide Decode, ReadFrame, Frame;
    ReadsFrame(Last, data, more);
    assert ([Last] + data)[1..] == data;
  }

  lemma {:induction false} ScanTail(p: Bytes, more: Bytes, offset: nat, soFar: Bytes, valid: nat, out: seq<Record>)
    requires Decode(soFar + p).Some?
    ensures var end := offset + |Tail(p)|;
            Scan(Tail(p) + more, offset, Some(soFar), valid, out)
            == Scan(more, end, None, end, out + [Decode(soFar + p).value])
    decreases |p|
  {
    hide Decode, Scan, Frame;
    if |p| <= MaxFragment {
      StepLast(p, more, offset, soFar, valid, out);
    } else {
      var head, rest := p[..MaxFragment], p[MaxFragment..];
      StepMiddle(head, Tail(rest) + more, offset, soFar, valid, out);
      assert Tail(p) + more == Frame(Middle, head) + (Tail(rest) + more);
      assert soFar + head + rest == soFar + p by { assert head + rest == p; }
      ScanTail(rest, more, offset + HeaderSize + MaxFragment, soFar + head, valid, out);
    }
  }

  lemma {:induction false} ScanRecord(p: Bytes, more: Bytes, offset: nat, valid: nat, out: seq<Record>)
    requires Decode(p).Some?
    ensures var end := offset + |Encode(p)|;
            Scan(Encode(p) + more, offset, None, valid, out) == Scan(more, end, None, end, out + [Decode(p).value])
  {
    hide Decode, Scan, Frame, Tail;
    if |p| <= MaxFragment {
      StepFull(p, more, offset, valid, out);
    } else {
      var head, rest := p[..MaxFragment], p[MaxFragment..];
      StepFirst(head, Tail(rest) + more, offset, valid, out);
      assert Encode(p) + more == Frame(First, head) + (Tail(rest) + more);
      assert head + rest == p;
      ScanTail(rest, more, offset + HeaderSize + MaxFragment, head, valid, out);
    }
  }

  lemma {:induction false} StepCut(kind: byte, data: Bytes, n: nat, offset: nat, partial: Option<Bytes>, valid: nat,
                                   out: seq<Record>)
    requires |data| <= MaxFragment && n < HeaderSize + |data|
    ensures Scan(Frame(kind, data)[..n], offset, partial, valid, out)
            == Replayed(out, valid, partial.Some? || n >= HeaderSize)
  {
    hide Decode, ReadFrame, Frame;
    CutFrame(kind, data, n);
  }

  lemma {:induction false} TakeOfConcat(a: Bytes, b: Bytes, n: nat)
    requires n <= |a| + |b|
    ensures (a + b)[..n] == if n < |a| then a[..n] else a + b[..n - |a|]
  {
  }

  lemma {:induction false} ScanCutTail(p: Bytes, n: nat, offset: nat, soFar: Bytes, valid: nat, out: seq<Record>)
    requires n < |Tail(p)|
    ensures Scan(Tail(p)[..n], offset, Some(soFar), valid, out) == Replayed(out, valid, true)
    decreases |p|
  {
    hide Decode, Scan, Frame;
    if |p| <= MaxFragment {
      StepCut(Last, p, n, offset, Some(soFar), valid, out);
    } else {
      var head, rest := p[..MaxFragment], p[MaxFragment..];
      var f := HeaderSize + MaxFragment;
      TakeOfConcat(Frame(Middle, head), Tail(rest), n);
      if n < f {
        StepCut(Middle, head, n, offset, Some(soFar), valid, out);
      } else {
        var cut := Tail(rest)[..n - f];
        StepMiddle(head, cut, offset, soFar, valid, out);
        ScanCutTail(rest, n - f, offset + f, soFar + head, valid, out);
      }
    }
  }

  lemma {:induction false} ScanCutRecord(p: Bytes, n: nat, offset: nat, valid: nat, out: seq<Record>)
    requires n < |Encode(p)|
    ensures Scan(Encode(p)[..n], offset, None, valid, out) == Replayed(out, valid, n >= HeaderSize)
  {
    hide Decode, Scan, Frame, Tail;
    if |p| <= MaxFragment {
      StepCut(Full, p, n, offset, None, valid, out);
    } else {
      var head, rest := p[..MaxFragment], p[MaxFragment..];
      var f := HeaderSize + MaxFragment;
      TakeOfConcat(Frame(First, head), Tail(rest), n);
      if n < f {
        StepCut(First, head, n, offset, None, valid, out);
      } else {
        var cut := Tail(rest)[..n - f];
        StepFirst(head, cut, offset, valid, out);
        ScanCutTail(rest, n - f, offset + f, head, valid, out);
      }
    }
  }

  lemma {:induction false} ScanLog(records: seq<Record>, more: Bytes, offset: nat, out: seq<Record>)
    requires AllLoggable(records)
    ensures var end := offset + |LogOf(records)|;
            Scan(LogOf(records) + more, offset, None, offset, out) == Scan(more, end, None, end, out + records)
  {
    hide Decode, ReadFrame, Scan, Payload, Encode;
    if records == [] {
      assert LogOf(records) + more == more && out + records == out;
    } else {
      var n := |records| - 1;
      var p := Payload(records[n]);
      DecodeUndoesPayload(records[n]);
      ScanLog(records[..n], Encode(p) + more, offset, out);
      var middle := offset + |LogOf(records[..n])|;
      ScanRecord(p, more, middle, middle, out + records[..n]);
      assert LogOf(records) + more == LogOf(records[..n]) + (Encode(p) + more);
      assert out + records[..n] + [records[n]] == out + records;
    }
  }

  lemma {:induction false} LogLast(records: seq<Record>)
    requires records != []
    ensures var n := |records| - 1;
            LogOf(records) == LogOf(records[..n]) + Encode(Payload(records[n]))
  {
  }

  lemma {:induction false} LogConcat(a: seq<Record>, b: seq<Record>)
    ensures LogOf(a + b) == LogOf(a) + LogOf(b)
  {
    hide Encode, Payload, LogOf;
    if b == [] {
      assert a + b == a;
      NothingLogged();
    } else {
      var init, last := b[..|b| - 1], b[|b| - 1];
      LogConcat(a, init);
      assert (a + b)[..|a + b| - 1] == a + init && (a + b)[|a + b| - 1] == last;
      LogLast(a + b);
      LogLast(b);
      Regroup(LogOf(a), LogOf(init), Encode(Payload(last)));
    }
  }

  lemma {:induction false} NothingLogged()
    ensures LogOf([]) == []
  {
  }

  lemma {:induction false} LogNext(records: seq<Record>, k: nat)
    requires k < |records|
    ensures LogOf(records[..k + 1]) == LogOf(records[..k]) + Encode(Payload(records[k]))
  {
    hide Encode, Payload;
    assert records[..k + 1][..k] == records[..k];
  }

  // ---------------------------------------------------------------- any prefix of the log

  // How many records lie wholly inside the first n bytes.
  function Whole(records: seq<Record>, n: nat): (k: nat)
    ensures k <= |records|
  {
    if |LogOf(records)| <= n then |records| else Whole(records[..|records| - 1], n)
  }

  lemma {:induction false} WholeBounds(records: seq<Record>, n: nat)
    ensures var k := Whole(records, n);
            |LogOf(records[..k])| <= n && (k < |records| ==> n < |LogOf(records[..k + 1])|)
  {
    hide Encode, Payload;
    var k := Whole(records, n);
    if |LogOf(records)| <= n {
      assert records[..|records|] == records;
    } else {
      var init := records[..|records| - 1];
      WholeBounds(init, n);
      assert init[..k] == records[..k];
      if k < |init| {
        assert init[..k + 1] == records[..k + 1];
      } else {
        assert records[..k + 1] == records;
      }
    }
  }

  lemma {:induction false} PrefixParts(records: seq<Record>, n: nat)
    requires n <= |LogOf(records)|
    ensures var k := Whole(records, n);
            var t := n - |LogOf(records[..k])|;
            t >= 0
            && (k == |records| ==> t == 0 && LogOf(records)[..n] == LogOf(records[..k]))
            && (k < |records| ==>
                  t < |Encode(Payload(records[k]))|
                  && LogOf(records)[..n] == LogOf(records[..k]) + Encode(Payload(records[k]))[..t])
  {
    hide Encode, Payload, Whole, LogOf;
    WholeBounds(records, n);
    var k := Whole(records, n);
    if k == |records| {
      assert records[..k] == records;
    } else {
      var some := records[..k + 1];
      assert records == some + records[k + 1..];
      LogConcat(some, records[k + 1..]);
      LogNext(records, k);
      assert LogOf(records)[..n] == LogOf(some)[..n];
    }
  }

  // Replaying any prefix of a log gives exactly the records that lie wholly inside it, their total length as
  // valid_offset, and the corruption flag exactly when a whole header or more is left over.
  lemma {:induction false} ReplayOfPrefix(records: seq<Record>, n: nat)
    requires AllLoggable(records) && n <= |LogOf(records)|
    ensures var kept := records[..Whole(records, n)];
            var valid := |LogOf(kept)|;
            Replay(LogOf(records)[..n]) == Replayed(kept, valid, n - valid >= HeaderSize)
  {
    hide Encode, Payload, Decode, ReadFrame, Whole, LogOf, Scan;
    var k := Whole(records, n);
    var kept := records[..k];
    PrefixParts(records, n);
    var valid := |LogOf(kept)|;
    if k == |records| {
      assert LogOf(records)[..n] == LogOf(kept) + [];
      ScanLog(kept, [], 0, []);
      ScanNothing(valid, kept);
      assert [] + kept == kept;
    } else {
      var cut := Encode(Payload(records[k]))[..n - valid];
      ScanLog(kept, cut, 0, []);
      ScanCutRecord(Payload(records[k]), n - valid, valid, valid, kept);
      assert [] + kept == kept;
    }
  }

  // A whole log is replayed whole, and left as it is.
  lemma {:induction false} ReplayOfLog(records: seq<Record>)
    requires AllLoggable(records)
    ensures Replay(LogOf(records)) == Replayed(records, |LogOf(records)|, false)
    ensures Repaired(LogOf(records)) == LogOf(records)
  {
    hide LogOf, Scan;
    var n := |LogOf(records)|;
    ReplayOfPrefix(records, n);
    assert LogOf(records)[..n] == LogOf(records);
    assert Whole(records, n) == |records| && records[..|records|] == records;
  }

  // ---------------------------------------------------------------- repair, then append

  // The log as it stands after a crash cut it at n and replay repaired it.
  function AfterCrash(records: seq<Record>, n: nat): Bytes
    requires n <= |LogOf(records)|
  {
    Repaired(LogOf(records)[..n])
  }

  function Kept(records: seq<Record>, n: nat): seq<Record> {
    records[..Whole(records, n)]
  }

  // The bytes of the next record that the cut left behind.
  function Remainder(records: seq<Record>, n: nat): nat
    requires n <= |LogOf(records)|
  {
    WholeBounds(records, n);
    n - |LogOf(Kept(records, n))|
  }

  lemma {:induction false} AfterCrashIs(records: seq<Record>, n: nat)
    requires AllLoggable(records) && n <= |LogOf(records)|
    ensures var t := Remainder(records, n);
            && (t == 0 || t >= HeaderSize ==> AfterCrash(records, n) == LogOf(Kept(records, n)))
            && (0 < t < HeaderSize ==>
                  var k := |Kept(records, n)|;
                  && k < |records| && t < |Encode(Payload(records[k]))|
                  && AfterCrash(records, n) == LogOf(Kept(records, n)) + Encode(Payload(records[k]))[..t])
  {
    hide Encode, Payload, Whole, Scan, LogOf;
    ReplayOfPrefix(records, n);
    PrefixParts(records, n);
  }

  // After repair, records appended to the log follow the kept ones: for every cut that left no bytes of the next
  // record, or its whole header.
  lemma {:induction false} AppendsFollowKept(records: seq<Record>, n: nat, added: seq<Record>)
    requires AllLoggable(records) && AllLoggable(added) && n <= |LogOf(records)|
    requires Remainder(records, n) == 0 || Remainder(records, n) >= HeaderSize
    ensures var all := Kept(records, n) + added;
            Replay(AfterCrash(records, n) + LogOf(added)) == Replayed(all, |LogOf(all)|, false)
  {
    hide Encode, Payload, Whole, Scan, ReadFrame, LogOf;
    var all := Kept(records, n) + added;
    AfterCrashIs(records, n);
    LogConcat(Kept(records, n), added);
    ScanLog(all, [], 0, []);
    assert LogOf(all) + [] == LogOf(all);
    assert [] + all == all;
    ScanNothing(|LogOf(all)|, all);
  }

  // A crash in the middle of an append loses that record alone; the file is left clean exactly when the cut is before
  // the record or past a whole header.
  lemma {:induction false} TornAppendReplays(records: seq<Record>, r: Record, n: nat)
    requires AllLoggable(records + [r]) && n < |Encode(Payload(r))|
    ensures var file := LogOf(records) + Encode(Payload(r))[..n];
            Replay(file).records == records && (Repaired(file) == LogOf(records) <==> n == 0 || n >= HeaderSize)
  {
    hide Encode, Payload, Scan, Loggable;
    var all, size := records + [r], |LogOf(records)| + n;
    assert all[..|records|] == records && all[|records|] == r;
    LogNext(all, |records|);
    assert all[..|all|] == all;
    var file := LogOf(records) + Encode(Payload(r))[..n];
    assert LogOf(all)[..size] == file;
    WholeWithin(records, r, size);
    ReplayOfPrefix(all, size);
    assert file[..|LogOf(records)|] == LogOf(records);
  }

  lemma {:induction false} WholeWithin(records: seq<Record>, r: Record, size: nat)
    requires |LogOf(records)| <= size < |LogOf(records + [r])|
    ensures Whole(records + [r], size) == |records|
  {
    var all := records + [r];
    assert all[..|all| - 1] == records;
  }

  lemma {:induction false} ScanNothing(offset: nat, out: seq<Record>)
    ensures Scan([], offset, None, offset, out) == Replayed(out, offset, false)
  {
  }

  // ---------------------------------------------------------------- the short tail

  lemma {:induction false} FourBytes(b: Bytes)
    requires |b| == 4
    ensures FromLittle(b) == b[0] as int + 0x100 * (b[1] as int) + 0x1_0000 * (b[2] as int) + 0x100_0000 * (b[3] as int)
  {
    assert FromLittle(b[1..]) == b[1] as int + 256 * FromLittle(b[2..]) by { assert b[1..][1..] == b[2..]; }
    assert FromLittle(b[2..]) == b[2] as int + 256 * FromLittle(b[3..]) by { assert b[2..][1..] == b[3..]; }
    assert FromLittle(b[3..]) == b[3] as int + 256 * FromLittle(b[4..]) by { assert b[3..][1..] == b[4..]; }
  }

  // No payload that starts with p and gains at most extra bytes can be decoded.
  predicate Hopeless(p: Bytes, extra: nat) {
    || (|p| > 0 && p[0] != 1 && p[0] != 2)
    || (|p| >= 5 && 13 + FromLittle(p[1..5]) > |p| + extra)
  }

  lemma {:induction false} HopelessFails(p: Bytes, more: Bytes, extra: nat)
    requires Hopeless(p, extra) && |more| <= extra
    ensures Decode(p + more) == None
    ensures Hopeless(p + more, extra - |more|)
  {
    hide FromLittle;
    if |p| >= 5 {
      assert (p + more)[1..5] == p[1..5];
    }
  }

  lemma {:induction false} NeverEmits(rest: Bytes, offset: nat, soFar: Bytes, valid: nat, out: seq<Record>)
    requires Hopeless(soFar, |rest|)
    ensures Scan(rest, offset, Some(soFar), valid, out).records == out
    decreases |rest|
  {
    hide Hopeless, Decode, ReadFrame;
    var r := ReadFrame(rest);
    if r.Got? {
      var data := r.fragment[1..];
      var after := rest[8 + |r.fragment|..];
      HopelessFails(soFar, data, |rest|);
      if r.fragment[0] == Middle {
        HopelessShrinks(soFar + data, |rest| - |data|, |after|);
        NeverEmits(after, offset + 8 + |r.fragment|, soFar + data, valid, out);
      }
    }
  }

  lemma {:induction false} HopelessShrinks(p: Bytes, extra: nat, less: nat)
    requires Hopeless(p, extra) && less <= extra
    ensures Hopeless(p, less)
  {
  }

  // A frame boundary from which nothing more is recovered.
  predicate DeadEnd(rest: Bytes) {
    ReadFrame(rest).Got? ==>
      var fragment := ReadFrame(rest).fragment;
      var after := rest[8 + |fragment|..];
      || (fragment[0] != Full && fragment[0] != First)
      || (Decode(fragment) == None && (Hopeless(fragment[1..], |after|) || (|fragment| == 1 && !ReadFrame(after).Got?)))
  }

  lemma {:induction false} DeadEndStops(rest: Bytes, offset: nat, valid: nat, out: seq<Record>)
    requires DeadEnd(rest)
    ensures Scan(rest, offset, None, valid, out).records == out
  {
    hide Hopeless, Decode, ReadFrame;
    var r := ReadFrame(rest);
    if r.Got? && (r.fragment[0] == Full || r.fragment[0] == First) {
      var fragment, data := r.fragment, r.fragment[1..];
      var after := rest[8 + |fragment|..];
      var end := offset + 8 + |fragment|;
      if |fragment| == 1 {
        NothingDecodes(data);
        if !ReadFrame(after).Got? {
          NoFrameStops(after, end, data, valid, out);
        } else {
          NeverEmits(after, end, data, valid, out);
        }
      } else {
        HopelessFails(data, [], |after|);
        assert data + [] == data;
        NeverEmits(after, end, data, valid, out);
      }
    }
  }

  lemma {:induction false} NoFrameStops(rest: Bytes, offset: nat, soFar: Bytes, valid: nat, out: seq<Record>)
    requires !ReadFrame(rest).Got?
    ensures Scan(rest, offset, Some(soFar), valid, out).records == out
  {
    hide ReadFrame, Decode;
  }

  lemma {:induction false} NothingDecodes(p: Bytes)
    requires |p| < 13
    ensures Decode(p) == None
  {
  }

  // A record whose frame length fits in one byte.
  predicate Small(r: Record) {
    |Payload(r)| < 255
  }

  lemma {:induction false} LittleBytes(v: uint32)
    ensures Fixed32(v) == [v % 256, v / 0x100 % 256, v / 0x1_0000 % 256, v / 0x100_0000 % 256]
  {
    assert Little(v, 4) == [v % 256] + Little(v / 256, 3);
    assert Little(v / 0x100, 3) == [v / 0x100 % 256] + Little(v / 0x100 / 256, 2);
    assert Little(v / 0x1_0000, 2) == [v / 0x1_0000 % 256] + Little(v / 0x1_0000 / 256, 1);
    assert Little(v / 0x100_0000, 1) == [v / 0x100_0000 % 256] + Little(v / 0x100_0000 / 256, 0);
  }

  lemma {:induction false} SmallFrame(r: Record)
    requires Small(r)
    ensures var f := Encode(Payload(r));
            && |f| == HeaderSize + |Payload(r)|
            && f[4] as int == 1 + |Payload(r)| && f[5] == 0 && f[6] == 0 && f[7] == 0
            && f[8] == Full && f[9] in {1, 2}
  {
    hide Crc32.Checksum, Fixed32;
    var p := Payload(r);
    LittleBytes(1 + |p|);
    var f := Encode(p);
    assert f[4..8] == Fixed32(1 + |p|);
    assert f[4] == f[4..8][0] && f[5] == f[4..8][1] && f[6] == f[4..8][2] && f[7] == f[4..8][3];
  }

  // The first bytes of any record's first frame: its length field says at least 14.
  lemma {:induction false} FirstFrameLength(r: Record)
    ensures var f := Encode(Payload(r));
            && f[4] as int + 0x100 * (f[5] as int) >= 14
  {
    hide Crc32.Checksum, Fixed32;
    var p := Payload(r);
    var n := if |p| <= MaxFragment then 1 + |p| else 1 + MaxFragment;
    LittleBytes(n);
    var f := Encode(p);
    assert f[4..8] == Fixed32(n);
    assert f[4] == f[4..8][0] && f[5] == f[4..8][1];
  }

  // The frame that replay sees after a short tail c: it takes its header partly from c and partly from f.
  lemma {:induction false} Misread(c: Bytes, f: Bytes)
    requires |c| <= 8 && |f| >= HeaderSize
    ensures var rest := c + f;
            ReadFrame(rest).Got? ==>
              var fragment := ReadFrame(rest).fragment;
              && fragment == f[8 - |c|..][..|fragment|]
              && |fragment| == FromLittle(rest[4..8])
  {
    hide FromLittle, Crc32.Checksum;
    var rest := c + f;
    var r := ReadFrame(rest);
    if r.Got? {
      assert r.fragment == rest[8..8 + |r.fragment|];
      assert rest[8..] == f[8 - |c|..];
      assert rest[8..8 + |r.fragment|] == rest[8..][..|r.fragment|];
    }
  }

  // Tails of one to four bytes: the type byte is part of the length field.
  lemma {:induction false} DeadEndBeforeType(c: Bytes, r: Record)
    requires 1 <= |c| <= 4 && Small(r)
    ensures DeadEnd(c + Encode(Payload(r)))
  {
    hide Hopeless, Payload, ReadFrame, Encode;
    var f := Encode(Payload(r));
    SmallFrame(r);
    Misread(c, f);
    assert ReadFrame(c + f).Got? ==> ReadFrame(c + f).fragment[0] == f[8 - |c|];
  }

  lemma {:induction false} TooLong(p: Bytes)
    requires |p| >= 5 && 13 + FromLittle(p[1..5]) > |p|
    ensures Decode(p) == None
  {
  }

  // Five bytes: the type byte is a checksum byte, and the logical type would be the length 14..255.
  lemma {:induction false} DeadEndAfterFive(c: Bytes, r: Record)
    requires |c| == 5 && Small(r)
    ensures DeadEnd(c + Encode(Payload(r)))
  {
    hide Payload, Encode, FromLittle, ReadFrame, Decode;
    var f := Encode(Payload(r));
    var rest := c + f;
    SmallFrame(r);
    Misread(c, f);
    if ReadFrame(rest).Got? {
      var fragment := ReadFrame(rest).fragment;
      if |fragment| == 1 {
        NothingDecodes(fragment);
        assert rest[9..] == f[4..];
        NoFrameInside(r);
      } else {
        assert fragment[1] == f[4];
        if |fragment| < 13 {
          NothingDecodes(fragment);
        } else {
          assert fragment[1..5] == f[4..8];
          FourBytes(f[4..8]);
          TooLong(fragment);
        }
      }
    }
  }

  // Read at its own length field, a small frame announces more than it holds.
  lemma {:induction false} NoFrameInside(r: Record)
    requires Small(r)
    ensures !ReadFrame(Encode(Payload(r))[4..]).Got?
  {
    hide Payload, Encode, FromLittle, Crc32.Checksum;
    var f := Encode(Payload(r));
    SmallFrame(r);
    var rest := f[4..];
    if |rest| >= HeaderSize {
      assert rest[4..8] == f[8..12];
      FourBytes(rest[4..8]);
    }
  }

  lemma {:induction false} SliceOfSlice(f: Bytes, j: nat, n: nat, k: nat)
    requires k + 4 <= n && j + n <= |f|
    ensures f[j..][..n][k..k + 4] == f[j + k..j + k + 4]
  {
  }

  lemma {:induction false} DropThenSlice(s: Bytes)
    requires |s| >= 6
    ensures s[1..][1..5] == s[2..6]
  {
  }

  // Four bytes of a small frame that take in its length field, read as a number.
  lemma {:induction false} LengthInWindow(r: Record, k: nat)
    requires Small(r) && 1 <= k <= 4
    ensures var f := Encode(Payload(r));
            && FromLittle(f[k..k + 4]) >= f[4] as int >= 14
            && (k < 4 ==> FromLittle(f[k..k + 4]) >= 0x100 * (f[4] as int))
  {
    hide Payload, Encode, FromLittle;
    var f := Encode(Payload(r));
    SmallFrame(r);
    FourBytes(f[k..k + 4]);
    assert f[k..k + 4][4 - k] == f[4];
  }

  // Six to eight bytes: the frame has at least 14 bytes, and whichever bytes are taken for a measurement length,
  // the new record's own length field is among them.
  lemma {:induction false} DeadEndAfterLength(c: Bytes, r: Record)
    requires 6 <= |c| <= 8 && Small(r)
    requires c[4] as int + 0x100 * (c[5] as int) >= 14
    ensures DeadEnd(c + Encode(Payload(r)))
  {
    hide Payload, Encode, FromLittle, ReadFrame, Decode, Small;
    var f := Encode(Payload(r));
    var rest := c + f;
    SmallFrame(r);
    Misread(c, f);
    if ReadFrame(rest).Got? {
      var fragment := ReadFrame(rest).fragment;
      var data := fragment[1..];
      var j := 8 - |c|;
      FourBytes(rest[4..8]);
      assert rest[4] == c[4] && rest[5] == c[5];
      assert |fragment| >= 14;
      SliceOfSlice(f, j, |fragment|, 1);
      SliceOfSlice(f, j, |fragment|, 2);
      DropThenSlice(fragment);
      LengthInWindow(r, j + 1);
      LengthInWindow(r, j + 2);
      TooLong(fragment);
    }
  }

  // A tail of one to eight bytes after a complete record is not cut off, and hides the next small record.
  lemma {:induction false} ShortTailLosesNext(records: seq<Record>, n: nat, r: Record)
    requires AllLoggable(records) && n <= |LogOf(records)| && Small(r)
    requires 0 < Remainder(records, n) < HeaderSize
    ensures Replay(AfterCrash(records, n) + LogOf([r])).records == Kept(records, n)
  {
    hide Encode, Payload, Whole, Scan, ReadFrame, LogOf, DeadEnd, Small;
    var kept := Kept(records, n);
    AfterCrashIs(records, n);
    var next := records[|kept|];
    var c := Encode(Payload(next))[..Remainder(records, n)];
    var f := Encode(Payload(r));
    LogOfOne(r);
    if |c| <= 4 {
      DeadEndBeforeType(c, r);
    } else if |c| == 5 {
      DeadEndAfterFive(c, r);
    } else {
      FirstFrameLength(next);
      DeadEndAfterLength(c, r);
    }
    assert AfterCrash(records, n) + LogOf([r]) == LogOf(kept) + (c + f);
    ScanLog(kept, c + f, 0, []);
    assert [] + kept == kept;
    DeadEndStops(c + f, |LogOf(kept)|, |LogOf(kept)|, kept);
  }

  lemma {:induction false} LogOfOne(r: Record)
    ensures LogOf([r]) == Encode(Payload(r))
  {
    hide Encode, Payload;
    assert [r][..0] == [];
  }

  // Everything appended after the repair comes back, exactly when the cut did not leave a short tail.
  lemma {:induction false} RepairIsCompleteExactlyWhen(records: seq<Record>, n: nat)
    requires AllLoggable(records) && n <= |LogOf(records)|
    ensures (forall added :: AllLoggable(added) ==>
               Replay(AfterCrash(records, n) + LogOf(added)).records == Kept(records, n) + added)
            <==> Remainder(records, n) == 0 || Remainder(records, n) >= HeaderSize
  {
    hide Encode, Payload, Whole, Scan, LogOf, Small, Decode;
    if Remainder(records, n) == 0 || Remainder(records, n) >= HeaderSize {
      forall added | AllLoggable(added)
        ensures Replay(AfterCrash(records, n) + LogOf(added)).records == Kept(records, n) + added
      {
        AppendsFollowKept(records, n, added);
      }
    } else {
      var r := Record(ZeroKey, Deletion);
      SmallExists();
      ShortTailLosesNext(records, n, r);
      assert AllLoggable([r]);
      assert |Kept(records, n) + [r]| != |Kept(records, n)|;
    }
  }

  lemma {:induction false} SmallExists()
    ensures Small(Record(ZeroKey, Deletion))
  {
  }

  // ---------------------------------------------------------------- the log object

  // What is still to be written of a payload once its first bytes, up to offset, are in the file.
  function Unwritten(p: Bytes, offset: nat): Bytes
    requires offset <= |p|
  {
    if offset == 0 then Encode(p)
    else if offset == |p| then []
    else Tail(p[offset..])
  }

  class WriteAheadLog {
    var file: Bytes                // path_
    var rotated: Bytes             // path_ + ".old"
    var bytesWritten: nat

    ghost predicate Valid()
      reads this
    {
      bytesWritten == |file|
    }

    constructor (existing: Bytes)
      ensures Valid() && file == existing && rotated == []
    {
      file, rotated, bytesWritten := existing, [], |existing|;
    }

    method AppendPut(measurement: Bytes, timestamp: int64, value: Bytes)
      requires Valid()
      modifies this
      ensures Valid() && rotated == old(rotated)
      ensures file == old(file) + LogOf([Record(TsKey(measurement, timestamp), Value(value))])
    {
      LogOfOne(Record(TsKey(measurement, timestamp), Value(value)));
      AppendRecord(1, measurement, timestamp, value);
    }

    method AppendDelete(measurement: Bytes, timestamp: int64)
      requires Valid()
      modifies this
      ensures Valid() && rotated == old(rotated)
      ensures file == old(file) + LogOf([Record(TsKey(measurement, timestamp), Deletion)])
    {
      LogOfOne(Record(TsKey(measurement, timestamp), Deletion));
      AppendRecord(2, measurement, timestamp, []);
    }

    method AppendRecord(kind: byte, measurement: Bytes, timestamp: int64, value: Bytes)
      requires Valid()
      modifies this
      ensures Valid() && rotated == old(rotated)
      ensures file == old(file) + Encode([kind] + Fixed32(|measurement| % Two32) + Fixed64(Unsigned(timestamp))
                                         + measurement + value)
    {
      hide Frame, Fixed32, Fixed64, Unsigned, Unwritten, Encode;
      var payload := [kind] + Fixed32(|measurement| % Two32) + Fixed64(Unsigned(timestamp)) + measurement + value;
      var offset: nat := 0;
      var fragmented := |payload| > MaxFragment;
      UnwrittenEnds(payload);
      ghost var whole := file + Encode(payload);
      while offset < |payload|
        invariant offset <= |payload| && (!fragmented ==> offset == 0 || offset == |payload|)
        invariant Valid() && rotated == old(rotated)
        invariant file + Unwritten(payload, offset) == whole
      {
        var remaining := |payload| - offset;
        var fragmentLength := if remaining > MaxFragment then MaxFragment else remaining;
        var physicalType := Full;
        if fragmented {
          if offset == 0 {
            physicalType := First;
          } else if offset + fragmentLength == |payload| {
            physicalType := Last;
          } else {
            physicalType := Middle;
          }
        }
        ghost var before := file;
        var fragment := payload[offset..offset + fragmentLength];
        NextFragment(payload, offset);
        var ok := AppendPhysicalRecord(physicalType, fragment);
        offset := offset + fragmentLength;
        Regroup(before, Frame(physicalType, fragment), Unwritten(payload, offset));
      }
      assert file + [] == file;
    }

    method AppendPhysicalRecord(kind: byte, data: Bytes) returns (ok: bool)
      requires Valid()
      modifies this
      ensures Valid() && rotated == old(rotated)
      ensures ok <==> |data| <= MaxFragment
      ensures file == if ok then old(file) + Frame(kind, data) else old(file)
    {
      hide Fixed32, Crc32.Crc, Crc32.Checksum;
      if |data| > MaxFragment {
        return false;
      }
      var fragment := [kind] + data;
      var crc := Crc32.Compute(fragment, 0);
      Crc32.NumberFits(crc);
      ChecksumOf(fragment);
      var record := Fixed32(crc as int) + Fixed32(|fragment| % Two32) + fragment;
      assert record == Frame(kind, data);
      file := file + record;
      bytesWritten := bytesWritten + |record|;
      ok := true;
    }

    // The header checks at the top of the replay loop.
    static method ReadPhysicalRecord(data: Bytes, offset: nat) returns (ok: bool, fragment: Bytes)
      requires offset + HeaderSize <= |data|
      ensures var r := ReadFrame(data[offset..]);
              && r != Short && ok == r.Got?
              && (ok ==> fragment == r.fragment)
    {
      hide FromLittle, Crc32.Checksum;
      fragment := [];
      HeaderParts(data, offset);
      var storedCrc := FromLittle(data[offset..offset + 4]);
      var fragmentLength := FromLittle(data[offset + 4..offset + 8]);
      var recordEnd := offset + 8 + fragmentLength;
      if recordEnd > |data| {
        return false, [];
      }
      fragment := data[offset + 8..recordEnd];
      assert fragment == data[offset..][8..8 + fragmentLength];
      var crc := Crc32.Compute(fragment, 0);
      ChecksumOf(fragment);
      ok := crc as int == storedCrc && fragmentLength >= 1;
    }

    // The records handed to the callback, in order; a damaged tail is cut off.
    method ReplayEntries() returns (records: seq<Record>)
      requires Valid()
      modifies this
      ensures Valid() && rotated == old(rotated)
      ensures records == Replay(old(file)).records && file == Repaired(old(file))
    {
      hide Decode, ReadFrame;
      var data := file;
      var offset: nat, validOffset: nat := 0, 0;
      var corrupt, assembling := false, false;
      var logicalPayload: Bytes := [];
      records := [];
      assert data[0..] == data;
      while !corrupt && offset + HeaderSize <= |data|
        invariant offset <= |data|
        invariant !corrupt ==> Scan(data[offset..], offset, if assembling then Some(logicalPayload) else None,
                                    validOffset, records) == Replay(data)
        invariant corrupt ==> Replayed(records, validOffset, true) == Replay(data)
        invariant file == data && Valid() && rotated == old(rotated)
        modifies {}
        decreases |data| - offset, !corrupt
      {
        var ok, fragment := ReadPhysicalRecord(data, offset);
        if !ok {
          corrupt := true;
        } else {
          var recordEnd := offset + 8 + |fragment|;
          assert data[offset..][8 + |fragment|..] == data[recordEnd..];
          var legacy := if assembling then None else Decode(fragment);
          var physicalType, fragmentPayload := fragment[0], fragment[1..];
          if physicalType == Full && !assembling {
            var r := Decode(fragmentPayload);
            if r.Some? {
              records, validOffset := records + [r.value], recordEnd;
            } else if legacy.Some? {
              records, validOffset := records + [legacy.value], recordEnd;
            } else {
              corrupt := true;
            }
          } else if physicalType == First && !assembling {
            logicalPayload, assembling := fragmentPayload, true;
          } else if physicalType == Middle && assembling {
            logicalPayload := logicalPayload + fragmentPayload;
          } else if physicalType == Last && assembling {
            logicalPayload := logicalPayload + fragmentPayload;
            var r := Decode(logicalPayload);
            if r.Some? {
              records, validOffset := records + [r.value], recordEnd;
              logicalPayload, assembling := [], false;
            } else {
              corrupt := true;
            }
          } else {
            corrupt := true;
          }
          if !corrupt {
            offset := recordEnd;
          }
        }
      }
      if !corrupt {
        TooShort(data[offset..]);
      }
      if assembling {
        corrupt := true;
      }
      ValidIsInside(data, 0, None, 0, []);
      if corrupt {
        file := file[..validOffset];
      }
      bytesWritten := |file|;
    }

    // The old log is kept beside the new, empty one.
    method Rotate()
      requires Valid()
      modifies this
      ensures Valid() && file == [] && rotated == old(file)
    {
      rotated := file;
      file := [];
      bytesWritten := 0;
    }
  }

  lemma {:induction false} UnwrittenEnds(p: Bytes)
    requires p != []
    ensures Unwritten(p, 0) == Encode(p) && Unwritten(p, |p|) == []
  {
  }

  lemma {:induction false} NextFragment(p: Bytes, offset: nat)
    requires offset < |p| && (|p| <= MaxFragment ==> offset == 0)
    ensures var n := if |p| - offset > MaxFragment then MaxFragment else |p| - offset;
            var kind := if |p| <= MaxFragment then Full else if offset == 0 then First
                        else if offset + n == |p| then Last else Middle;
            Unwritten(p, offset) == Frame(kind, p[offset..offset + n]) + Unwritten(p, offset + n)
  {
    hide Frame;
    if offset == 0 {
      assert p[0..] == p;
    } else {
      assert p[offset..][..|p| - offset] == p[offset..];
    }
    if |p| - offset > MaxFragment {
      assert p[offset..][MaxFragment..] == p[offset + MaxFragment..];
      assert p[offset..][..MaxFragment] == p[offset..offset + MaxFragment];
    } else {
      assert p[offset..offset + (|p| - offset)] == p[offset..];
    }
  }

  lemma {:induction false} HeaderParts(data: Bytes, offset: nat)
    requires offset + HeaderSize <= |data|
    ensures data[offset..][..4] == data[offset..offset + 4]
    ensures data[offset..][4..8] == data[offset + 4..offset + 8]
  {
  }

  lemma {:induction false} TooShort(rest: Bytes)
    requires |rest| < HeaderSize
    ensures ReadFrame(rest) == Short
  {
  }

  lemma {:induction false} ChecksumOf(data: Bytes)
    ensures Crc32.Checksum(data) == Crc32.Crc(data, 0) as int
  {
  }

  // ---------------------------------------------------------------- damage inside the log

  // A frame whose body a + u + b was changed to a + v + b, inside four bytes, and whatever follows it.
  function Damaged(a: Bytes, u: Bytes, v: Bytes, b: Bytes, more: Bytes): Bytes {
    Fixed32(Crc32.Checksum(a + u + b)) + Fixed32(|a + u + b| % Two32) + (a + v + b) + more
  }

  lemma {:induction false} DamagedFrameIsBad(a: Bytes, u: Bytes, v: Bytes, b: Bytes, more: Bytes)
    requires |u| == |v| <= 4 && u != v && |a + u + b| < Two32
    ensures ReadFrame(Damaged(a, u, v, b, more)) == Bad
  {
    hide FromLittle, Fixed32, Crc32.Checksum;
    var sum, body := Crc32.Checksum(a + u + b), a + v + b;
    var rest := Damaged(a, u, v, b, more);
    assert rest[..4] == Fixed32(sum) && rest[4..8] == Fixed32(|body|) && rest[8..8 + |body|] == body;
    Fixed32RoundTrip(sum);
    Fixed32RoundTrip(|body|);
    Crc32.ShortBurstChangesChecksum(a, u, v, b);
  }

  // Replay ends in front of these bytes, inside a fragmented record or outside one.
  ghost predicate Stops(bad: Bytes, inside: bool) {
    forall offset: nat, partial: Option<Bytes>, valid: nat, out: seq<Record> :: partial.Some? == inside ==>
      Scan(bad, offset, partial, valid, out) == Replayed(out, valid, true)
  }

  lemma {:induction false} BadStops(bad: Bytes, inside: bool)
    requires ReadFrame(bad) == Bad
    ensures Stops(bad, inside)
  {
  }

  // The frames of a record in front of frame j.
  function TailBefore(p: Bytes, j: nat): Bytes
    requires MaxFragment * j < |p|
    decreases j
  {
    if j == 0 then [] else Frame(Middle, p[..MaxFragment]) + TailBefore(p[MaxFragment..], j - 1)
  }

  function FramesBefore(p: Bytes, j: nat): Bytes
    requires MaxFragment * j < |p|
  {
    if j == 0 then [] else Frame(First, p[..MaxFragment]) + TailBefore(p[MaxFragment..], j - 1)
  }

  lemma {:induction false} TailBeforeIsPrefix(p: Bytes, j: nat)
    requires MaxFragment * j < |p|
    ensures TailBefore(p, j) <= Tail(p) && |TailBefore(p, j)| == 32777 * j
    decreases j
  {
    hide Frame;
    if j > 0 {
      TailBeforeIsPrefix(p[MaxFragment..], j - 1);
    }
  }

  lemma {:induction false} FramesBeforeIsPrefix(p: Bytes, j: nat)
    requires MaxFragment * j < |p|
    ensures FramesBefore(p, j) <= Encode(p) && |FramesBefore(p, j)| == 32777 * j
  {
    hide Frame, Tail, TailBefore;
    if j > 0 {
      TailBeforeIsPrefix(p[MaxFragment..], j - 1);
    }
  }

  lemma {:induction false} ScanBadTail(p: Bytes, j: nat, bad: Bytes, offset: nat, soFar: Bytes, valid: nat,
                                       out: seq<Record>)
    requires MaxFragment * j < |p| && Stops(bad, true)
    ensures Scan(TailBefore(p, j) + bad, offset, Some(soFar), valid, out) == Replayed(out, valid, true)
    decreases j
  {
    hide Scan, Frame, ReadFrame;
    if j == 0 {
      assert [] + bad == bad;
    } else {
      var head, rest := p[..MaxFragment], p[MaxFragment..];
      ScanBadTail(rest, j - 1, bad, offset + HeaderSize + MaxFragment, soFar + head, valid, out);
      StepMiddle(head, TailBefore(rest, j - 1) + bad, offset, soFar, valid, out);
      Regroup(Frame(Middle, head), TailBefore(rest, j - 1), bad);
    }
  }

  lemma {:induction false} ScanBadRecord(p: Bytes, j: nat, bad: Bytes, offset: nat, out: seq<Record>)
    requires MaxFragment * j < |p| && Stops(bad, j > 0)
    ensures Scan(FramesBefore(p, j) + bad, offset, None, offset, out) == Replayed(out, offset, true)
  {
    hide Scan, Frame, ReadFrame, TailBefore;
    if j == 0 {
      assert [] + bad == bad;
    } else {
      var head, rest := p[..MaxFragment], p[MaxFragment..];
      ScanBadTail(rest, j - 1, bad, offset + HeaderSize + MaxFragment, head, offset, out);
      StepFirst(head, TailBefore(rest, j - 1) + bad, offset, offset, out);
      Regroup(Frame(First, head), TailBefore(rest, j - 1), bad);
    }
  }

  lemma {:induction false} StopEndsReplay(kept: seq<Record>, p: Bytes, j: nat, bad: Bytes)
    requires AllLoggable(kept) && MaxFragment * j < |p| && Stops(bad, j > 0)
    ensures var file := LogOf(kept) + (FramesBefore(p, j) + bad);
            Replay(file) == Replayed(kept, |LogOf(kept)|, true) && Repaired(file) == LogOf(kept)
  {
    hide Scan, LogOf, FramesBefore, Stops;
    ScanBadRecord(p, j, bad, |LogOf(kept)|, kept);
    var rest := FramesBefore(p, j) + bad;
    ScanLog(kept, rest, 0, []);
    assert [] + kept == kept;
    assert (LogOf(kept) + rest)[..|LogOf(kept)|] == LogOf(kept);
  }

  // Any change inside four consecutive bytes of what frame j of a record holds: replay gives exactly the records before
  // that one, whatever follows, and cuts the file behind them.
  lemma {:induction false} DamageEndsReplay(kept: seq<Record>, r: Record, j: nat, a: Bytes, u: Bytes, v: Bytes,
                                            b: Bytes, more: Bytes)
    requires AllLoggable(kept) && MaxFragment * j < |Payload(r)|
    requires |u| == |v| <= 4 && u != v && |a + u + b| < Two32
    ensures var file := LogOf(kept) + (FramesBefore(Payload(r), j) + Damaged(a, u, v, b, more));
            Replay(file) == Replayed(kept, |LogOf(kept)|, true) && Repaired(file) == LogOf(kept)
    ensures FramesBefore(Payload(r), j) <= Encode(Payload(r)) && |FramesBefore(Payload(r), j)| == 32777 * j
  {
    hide Scan, Encode, Payload, LogOf, Damaged, ReadFrame, FramesBefore, Stops, Replay, Repaired;
    DamagedFrameIsBad(a, u, v, b, more);
    BadStops(Damaged(a, u, v, b, more), j > 0);
    FramesBeforeIsPrefix(Payload(r), j);
    StopEndsReplay(kept, Payload(r), j, Damaged(a, u, v, b, more));
  }

  lemma {:induction false} OutOfPlaceStops(kind: byte, data: Bytes, more: Bytes, inside: bool)
    requires |data| <= MaxFragment && if inside then kind != 3 && kind != 4 else kind != 1 && kind != 2
    ensures Stops(Frame(kind, data) + more, inside)
  {
    hide ReadFrame, Frame, Decode;
    ReadsFrame(kind, data, more);
  }

  // A whole frame of a kind that cannot stand where it does, a middle or a last part at the start of a record, any
  // other than these inside one, or a kind that does not exist, ends replay in the same way.
  lemma {:induction false} OutOfPlaceEndsReplay(kept: seq<Record>, p: Bytes, j: nat, kind: byte, data: Bytes,
                                                more: Bytes)
    requires AllLoggable(kept) && MaxFragment * j < |p| && |data| <= MaxFragment
    requires if j == 0 then kind != 1 && kind != 2 else kind != 3 && kind != 4
    ensures var file := LogOf(kept) + (FramesBefore(p, j) + (Frame(kind, data) + more));
            Replay(file) == Replayed(kept, |LogOf(kept)|, true) && Repaired(file) == LogOf(kept)
  {
    hide Scan, LogOf, FramesBefore, Stops, Frame, Replay, Repaired;
    OutOfPlaceStops(kind, data, more, j > 0);
    StopEndsReplay(kept, p, j, Frame(kind, data) + more);
  }

  // The bytes of a logical record: all of a put's, and those that a tombstone's start with.
  ghost predicate Tells(p: Bytes, r: Record) {
    Loggable(r) && if r.entry.Value? then p == Payload(r) else Payload(r) <= p
  }

  lemma {:induction false} FixedOfBytes(b: Bytes)
    ensures Little(FromLittle(b), |b|) == b
  {
    if b != [] {
      FixedOfBytes(b[1..]);
    }
  }

  lemma {:induction false} DecodeTells(p: Bytes)
    requires Decode(p).Some?
    ensures Tells(p, Decode(p).value)
  {
    hide Little, FromLittle;
    Powers();
    var r := Decode(p).value;
    var m := r.key.measurement;
    FixedOfBytes(p[1..5]);
    FixedOfBytes(p[5..13]);
    assert p[..13] == [p[0]] + p[1..5] + p[5..13];
    assert Payload(r)[..13 + |m|] == p[..13 + |m|];
  }

  lemma {:induction false} TellsDecode(p: Bytes, r: Record)
    requires Tells(p, r)
    ensures Decode(p) == Some(r)
  {
    hide FromLittle, Fixed32, Fixed64, Payload;
    DecodeUndoesPayload(r);
    if r.entry.Deletion? {
      var q, n := Payload(r), 13 + |r.key.measurement|;
      PayloadParts(r);
      assert p[1..5] == q[1..5] && p[5..13] == q[5..13] && p[13..n] == q[13..n];
    }
  }

  // Bytes read as a logical record if and only if they are those of one that the log can hold, and then as that one.
  lemma {:induction false} DecodesExactly(p: Bytes, r: Record)
    ensures Decode(p) == Some(r) <==> Tells(p, r)
  {
    hide Decode, Tells;
    if Decode(p) == Some(r) {
      DecodeTells(p);
    }
    if Tells(p, r) {
      TellsDecode(p, r);
    }
  }

  lemma {:induction false} UnreadableStops(p: Bytes, more: Bytes)
    requires |p| <= MaxFragment && Decode(p).None? && Decode([Full] + p).None?
    ensures Stops(Frame(Full, p) + more, false)
  {
    hide ReadFrame, Frame, Decode;
    ReadsFrame(Full, p, more);
  }

  // A whole frame that holds no logical record, of the present or of the older format, ends replay in the same way.
  lemma {:induction false} UnreadableEndsReplay(kept: seq<Record>, p: Bytes, more: Bytes)
    requires AllLoggable(kept) && 0 < |p| <= MaxFragment && Decode(p).None? && Decode([Full] + p).None?
    ensures var file := LogOf(kept) + (Frame(Full, p) + more);
            Replay(file) == Replayed(kept, |LogOf(kept)|, true) && Repaired(file) == LogOf(kept)
  {
    hide Scan, LogOf, Stops, Frame, Replay, Repaired, Decode;
    UnreadableStops(p, more);
    StopEndsReplay(kept, p, 0, Frame(Full, p) + more);
    assert [] + (Frame(Full, p) + more) == Frame(Full, p) + more;
  }

  // ---------------------------------------------------------------- records of the older format

  // A record as logs had it before records were cut into fragments: no kind before the type byte.
  function OldFrame(r: Record): Bytes {
    Fixed32(Crc32.Checksum(Payload(r))) + Fixed32(|Payload(r)| % Two32) + Payload(r)
  }

  // What stands behind the first byte of an older record reads as a record of its own: the low byte of its measurement
  // length is a type, and the other three with the low byte of the timestamp give a length that fits.
  predicate LooksFramed(r: Record) {
    var m, t := |r.key.measurement|, Unsigned(r.key.timestamp);
    && m % 256 in {1, 2} && 13 + (m / 256 + t % 256 * 0x100_0000) <= 12 + m + |ValueOf(r.entry)|
  }

  lemma {:induction false} OldFrameReads(r: Record)
    requires |Payload(r)| < Two32
    ensures ReadFrame(OldFrame(r)) == Got(Payload(r))
    ensures OldFrame(r)[8 + |Payload(r)|..] == []
  {
    hide FromLittle, Fixed32, Crc32.Checksum, Payload;
    var p := Payload(r);
    var crc := Crc32.Checksum(p);
    var rest := OldFrame(r);
    assert rest[..4] == Fixed32(crc) && rest[4..8] == Fixed32(|p|) && rest[8..8 + |p|] == p;
    Fixed32RoundTrip(crc);
    Fixed32RoundTrip(|p|);
  }

  lemma {:induction false} LittleJoined(a: nat, n: nat, b: byte)
    requires a < Pow256(n)
    ensures FromLittle(Little(a, n) + [b]) == a + b * Pow256(n)
  {
    var s := Little(a, n) + [b];
    if n > 0 {
      LittleJoined(a / 256, n - 1, b);
      assert s[1..] == Little(a / 256, n - 1) + [b];
      assert (b as int) * Pow256(n) == 256 * ((b as int) * Pow256(n - 1));
    } else {
      assert s == [b] && [b][1..] == [];
    }
  }

  lemma {:induction false} ShiftedLength(r: Record)
    requires |Payload(r)| < Two32
    ensures var p, m, t := Payload(r), |r.key.measurement|, Unsigned(r.key.timestamp);
            p[1] == m % 256 && FromLittle(p[2..6]) == m / 256 + t % 256 * 0x100_0000
  {
    hide FromLittle;
    var p, m, t := Payload(r), |r.key.measurement|, Unsigned(r.key.timestamp);
    assert Fixed32(m) == [m % 256] + Little(m / 256, 3);
    assert Fixed64(t)[0] == t % 256;
    assert p[2..6] == Little(m / 256, 3) + [t % 256];
    Powers();
    LittleJoined(m / 256, 3, t % 256);
  }

  lemma {:induction false} DecodeShifted(r: Record)
    requires |Payload(r)| < Two32
    ensures Decode(Payload(r)[1..]).Some? <==> LooksFramed(r)
    ensures LooksFramed(r) && r.entry.Value? ==> Decode(Payload(r)[1..]) != Some(r)
  {
    hide FromLittle, Payload;
    ShiftedLength(r);
    var p := Payload(r);
    assert p[1..][1..5] == p[2..6];
  }

  lemma {:induction false} OldPayload(r: Record)
    ensures Payload(r)[0] == if r.entry.Value? then Full else First
    ensures Payload(r) == [Payload(r)[0]] + Payload(r)[1..]
  {
  }

  // A put of the older format is replayed exactly when what stands behind its first byte does not look like a record
  // itself. When it does, that other record is replayed in its place.
  lemma {:induction false} OldPutReplaysExactlyWhen(r: Record)
    requires r.entry.Value? && |Payload(r)| < Two32
    ensures Replay(OldFrame(r)).records == [r] <==> !LooksFramed(r)
    ensures !Replay(OldFrame(r)).corrupt && |Replay(OldFrame(r)).records| == 1
  {
    hide FromLittle, Payload, Decode, ReadFrame, OldFrame, LooksFramed;
    OldFrameReads(r);
    OldPayload(r);
    DecodeUndoesPayload(r);
    DecodeShifted(r);
    var p := Payload(r);
    var x := if LooksFramed(r) then Decode(p[1..]).value else r;
    NothingToScan(|p| + 8, [] + [x]);
    assert [] + [x] == [x];
  }

  lemma {:induction false} NothingToScan(end: nat, out: seq<Record>)
    ensures Scan([], end, None, end, out) == Replayed(out, end, false)
  {
  }

  lemma {:induction false} NothingFollows(end: nat, data: Bytes)
    ensures Scan([], end, Some(data), 0, []) == Replayed([], 0, true)
  {
  }

  // A tombstone of the older format starts with the type byte 2, which now says that a fragmented record begins: it is
  // never replayed, and the log is cut in front of it.
  lemma {:induction false} OldDeleteIsLost(r: Record)
    requires r.entry.Deletion? && |Payload(r)| < Two32
    ensures Replay(OldFrame(r)) == Replayed([], 0, true)
  {
    hide FromLittle, Payload, Decode, ReadFrame, OldFrame, LooksFramed;
    OldFrameReads(r);
    OldPayload(r);
    NothingFollows(|Payload(r)| + 8, Payload(r)[1..]);
  }
}
