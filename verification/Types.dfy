// Keys, entries and sorted runs of records: the vocabulary shared by every layer of the store.
// Models src/utils.h.
module Types {
  type byte = x: int | 0 <= x < 256
  type Bytes = seq<byte>

  const MinTs := -0x8000_0000_0000_0000
  const MaxTs := 0x7FFF_FFFF_FFFF_FFFF
  type int64 = x: int | MinTs <= x <= MaxTs
  type uint32 = x: int | 0 <= x < 0x1_0000_0000

  datatype Option<+T> = None | Some(value: T) {
    predicate IsFailure() {
      None?
    }

    function PropagateFailure<U>(): Option<U>
      requires None?
    {
      None
    }

    function Extract(): T
      requires Some?
    {
      value
    }
  }

  datatype TsKey = TsKey(measurement: Bytes, timestamp: int64)

  // A stored version of a key: EntryType::kValue with its bytes, or EntryType::kDeletion.
  datatype Entry = Value(value: Bytes) | Deletion

  datatype Record = Record(key: TsKey, entry: Entry)

  // std::string::compare: unsigned bytes from the left, then the lengths.
  function CompareBytes(a: Bytes, b: Bytes): int {
    if a == [] || b == [] then |a| - |b|
    else if a[0] != b[0] then a[0] - b[0]
    else CompareBytes(a[1..], b[1..])
  }

  // TsKeyComparator: by measurement, then by timestamp.
  function Compare(a: TsKey, b: TsKey): int {
    var c := CompareBytes(a.measurement, b.measurement);
    if c != 0 then c
    else if a.timestamp < b.timestamp then -1
    else if a.timestamp > b.timestamp then 1
    else 0
  }

  predicate Less(a: TsKey, b: TsKey) {
    Compare(a, b) < 0
  }

  predicate AtMost(a: TsKey, b: TsKey) {
    !Less(b, a)
  }

  lemma {:induction false} CompareBytesLaws(a: Bytes, b: Bytes)
    ensures CompareBytes(a, b) == -CompareBytes(b, a)
    ensures CompareBytes(a, b) == 0 <==> a == b
  {
    if a != [] && b != [] && a[0] == b[0] {
      CompareBytesLaws(a[1..], b[1..]);
      assert a == [a[0]] + a[1..] && b == [b[0]] + b[1..];
    }
  }

  // Where two measurements first differ, the smaller unsigned byte is less, and so is a proper prefix.
  lemma {:induction false} FirstDifferenceDecides(a: Bytes, b: Bytes, i: nat)
    requires i <= |a| && i <= |b| && a[..i] == b[..i] && (i == |a| || i == |b| || a[i] != b[i])
    ensures CompareBytes(a, b) < 0 <==> i < |b| && (i == |a| || a[i] < b[i])
    decreases i
  {
    if i > 0 {
      assert a[0] == a[..i][0] && b[0] == b[..i][0];
      assert a[1..][..i - 1] == a[..i][1..] && b[1..][..i - 1] == b[..i][1..];
      FirstDifferenceDecides(a[1..], b[1..], i - 1);
    }
  }

  // Keys are ordered by measurement, and under one measurement by timestamp.
  lemma {:induction false} KeyOrderInBytes(a: TsKey, b: TsKey, i: nat)
    requires var m, n := a.measurement, b.measurement;
             i <= |m| && i <= |n| && m[..i] == n[..i] && (i == |m| || i == |n| || m[i] != n[i])
    ensures var m, n := a.measurement, b.measurement;
            Less(a, b) <==> if m == n then a.timestamp < b.timestamp else i < |n| && (i == |m| || m[i] < n[i])
  {
    FirstDifferenceDecides(a.measurement, b.measurement, i);
    CompareBytesLaws(a.measurement, b.measurement);
  }

  lemma {:induction false} CompareBytesTransitive(a: Bytes, b: Bytes, c: Bytes)
    requires CompareBytes(a, b) < 0 && CompareBytes(b, c) < 0
    ensures CompareBytes(a, c) < 0
  {
    if a != [] && b != [] && c != [] && a[0] == b[0] && b[0] == c[0] {
      CompareBytesTransitive(a[1..], b[1..], c[1..]);
    }
  }

  lemma {:induction false} LessTransitive(a: TsKey, b: TsKey, c: TsKey)
    requires Less(a, b) && Less(b, c)
    ensures Less(a, c)
  {
    CompareBytesLaws(a.measurement, b.measurement);
    CompareBytesLaws(b.measurement, c.measurement);
    CompareBytesLaws(a.measurement, c.measurement);
    if CompareBytes(a.measurement, b.measurement) < 0 && CompareBytes(b.measurement, c.measurement) < 0 {
      CompareBytesTransitive(a.measurement, b.measurement, c.measurement);
    }
  }

  lemma {:induction false} LessTotal(a: TsKey, b: TsKey)
    ensures Less(a, b) || Less(b, a) || a == b
    ensures !(Less(a, b) && Less(b, a))
    ensures !Less(a, a)
  {
    CompareBytesLaws(a.measurement, b.measurement);
    CompareBytesLaws(a.measurement, a.measurement);
  }

  // TsKeyComparator is a strict total order: what std::sort, the skip list and binary search rely on.
  lemma {:induction false} KeyOrder()
    ensures forall a, b, c :: Less(a, b) && Less(b, c) ==> Less(a, c)
    ensures forall a, b :: Less(a, b) || Less(b, a) || a == b
    ensures forall a, b :: Less(a, b) ==> !Less(b, a)
    ensures forall a :: !Less(a, a)
  {
    forall a, b, c | Less(a, b) && Less(b, c) ensures Less(a, c) { LessTransitive(a, b, c); }
    forall a, b ensures (Less(a, b) || Less(b, a) || a == b) && (Less(a, b) ==> !Less(b, a)) { LessTotal(a, b); }
    forall a ensures !Less(a, a) { LessTotal(a, a); }
  }

  // A table image: records in strictly ascending key order.
  ghost predicate Sorted(run: seq<Record>) {
    forall i, j :: 0 <= i < j < |run| ==> Less(run[i].key, run[j].key)
  }

  // Every entry stored for k, oldest first. A sorted run holds at most one.
  function CopiesIn(run: seq<Record>, k: TsKey): (c: seq<Entry>) {
    if run == [] then [] else
      var rest := CopiesIn(run[..|run| - 1], k);
      if run[|run| - 1].key == k then rest + [run[|run| - 1].entry] else rest
  }

  // The last element of a sequence, as a sequence of at most one element.
  function LastOf<T>(s: seq<T>): seq<T> {
    if s == [] then [] else [s[|s| - 1]]
  }

  function Pow2(n: nat): (p: nat)
    ensures p > 0
  {
    if n == 0 then 1 else 2 * Pow2(n - 1)
  }

  // What a memtable counts for an entry besides its measurement and value: sizeof(int64_t) + 64.
  const EntryOverhead: nat := 8 + 64

  lemma {:induction false} SingletonPrefix<T>(x: T)
    ensures [x][..0] == []
  {
  }

  lemma {:induction false} CopiesInConcat(a: seq<Record>, b: seq<Record>, k: TsKey)
    ensures CopiesIn(a + b, k) == CopiesIn(a, k) + CopiesIn(b, k)
  {
    if b == [] {
      assert a + b == a;
    } else {
      CopiesInConcat(a, b[..|b| - 1], k);
      assert (a + b)[..|a + b| - 1] == a + b[..|b| - 1];
    }
  }

  lemma {:induction false} CopiesInMembers(run: seq<Record>, k: TsKey)
    ensures CopiesIn(run, k) == [] <==> forall r :: r in run ==> r.key != k
    ensures forall e :: e in CopiesIn(run, k) <==> Record(k, e) in run
  {
    if run != [] {
      var n := |run| - 1;
      CopiesInMembers(run[..n], k);
      assert run == run[..n] + [run[n]];
      assert run[n] == Record(run[n].key, run[n].entry);
      forall e ensures e in CopiesIn(run, k) <==> Record(k, e) in run {
        assert Record(k, e) in run <==> Record(k, e) in run[..n] || Record(k, e) == run[n];
      }
    }
  }

  lemma {:induction false} CopiesInSorted(run: seq<Record>, k: TsKey)
    requires Sorted(run)
    ensures |CopiesIn(run, k)| <= 1
  {
    if run != [] {
      var n := |run| - 1;
      CopiesInSorted(run[..n], k);
      if run[n].key == k {
        CopiesInMembers(run[..n], k);
        forall r | r in run[..n] ensures r.key != k {
          var i :| 0 <= i < n && run[i] == r;
          LessTotal(run[i].key, run[n].key);
        }
      }
    }
  }

  // Looking a key up in a sorted run, as MemTable::GetEntry and SSTableReader::GetEntry do.
  function Find(run: seq<Record>, k: TsKey): Option<Entry> {
    var c := CopiesIn(run, k);
    if c == [] then None else Some(c[|c| - 1])
  }

  // A memtable write: replace the entry of k, or add one in key order.
  function Upsert(run: seq<Record>, k: TsKey, e: Entry): (r: seq<Record>) {
    if run == [] then [Record(k, e)]
    else if run[0].key == k then [Record(k, e)] + run[1..]
    else if Less(k, run[0].key) then [Record(k, e)] + run
    else [run[0]] + Upsert(run[1..], k, e)
  }

  lemma {:induction false} UpsertMembers(run: seq<Record>, k: TsKey, e: Entry)
    requires Sorted(run)
    ensures Sorted(Upsert(run, k, e))
    ensures forall r :: r in Upsert(run, k, e) <==> r == Record(k, e) || (r in run && r.key != k)
  {
    KeyOrder();
    if run != [] {
      var rest := run[1..];
      assert run == [run[0]] + rest;
      UpsertMembers(rest, k, e);
      if run[0].key == k {
        assert forall r :: r in rest ==> r.key != k;
      } else if Less(k, run[0].key) {
        assert forall r :: r in run ==> r.key != k;
      } else {
        var u := Upsert(rest, k, e);
        assert forall i :: 0 <= i < |u| ==> u[i] in u;
      }
    }
  }

  lemma {:induction false} AtMostOneEqual(c: seq<Entry>, d: seq<Entry>)
    requires |c| <= 1 && |d| <= 1
    requires forall e :: e in c <==> e in d
    ensures c == d
  {
    if c != [] { assert c[0] in d; }
    if d != [] { assert d[0] in c; }
  }

  lemma {:induction false} UpsertCopies(run: seq<Record>, k: TsKey, e: Entry, q: TsKey)
    requires Sorted(run)
    ensures CopiesIn(Upsert(run, k, e), q) == if q == k then [e] else CopiesIn(run, q)
  {
    var u := Upsert(run, k, e);
    UpsertMembers(run, k, e);
    CopiesInSorted(u, q);
    CopiesInSorted(run, q);
    forall x ensures x in CopiesIn(u, q) <==> x in (if q == k then [e] else CopiesIn(run, q)) {
      CopiesInMembers(u, q);
      CopiesInMembers(run, q);
    }
    AtMostOneEqual(CopiesIn(u, q), if q == k then [e] else CopiesIn(run, q));
  }

  // ---------------------------------------------------------------- parts of a run

  const ZeroKey := TsKey([], 0)                   // TsKey{}: where memtable iteration starts
  const LastReadKey := TsKey([0xFF], MaxTs)       // where the compaction reader stops

  // MemTable::IterateEntries starts at TsKey{}: smaller keys are not seen.
  function FromZeroKey(run: seq<Record>): seq<Record> {
    if run == [] then [] else
      var rest := FromZeroKey(run[..|run| - 1]);
      if Less(run[|run| - 1].key, ZeroKey) then rest else rest + [run[|run| - 1]]
  }

  function MinKey(run: seq<Record>): TsKey {
    if run == [] then ZeroKey else run[0].key
  }

  function MaxKey(run: seq<Record>): TsKey {
    if run == [] then ZeroKey else run[|run| - 1].key
  }

  lemma {:induction false} FromZeroKeyMembers(run: seq<Record>)
    ensures forall r :: r in FromZeroKey(run) <==> r in run && !Less(r.key, ZeroKey)
    ensures Sorted(run) ==> Sorted(FromZeroKey(run))
  {
    if run != [] {
      var n := |run| - 1;
      FromZeroKeyMembers(run[..n]);
      assert run == run[..n] + [run[n]];
      var r := FromZeroKey(run[..n]);
      assert forall i :: 0 <= i < |r| ==> r[i] in r && r[i] in run[..n];
    }
  }

  lemma {:induction false} FromZeroKeyCopies(run: seq<Record>, k: TsKey)
    ensures CopiesIn(FromZeroKey(run), k) == if Less(k, ZeroKey) then [] else CopiesIn(run, k)
  {
    if run != [] {
      var n := |run| - 1;
      FromZeroKeyCopies(run[..n], k);
      CopiesInConcat(FromZeroKey(run[..n]), if Less(run[n].key, ZeroKey) then [] else [run[n]], k);
      assert CopiesIn([run[n]], k) == if run[n].key == k then [run[n].entry] else [] by {
        assert [run[n]][..0] == [];
      }
    }
  }

  predicate InSlice(k: TsKey, lo: TsKey, hi: TsKey) {
    AtMost(lo, k) && AtMost(k, hi)
  }

  // MemTable::RangeQueryEntries and SSTableReader::RangeScanEntries: the records of one table from lo to hi.
  function Slice(run: seq<Record>, lo: TsKey, hi: TsKey): seq<Record> {
    if run == [] then [] else
      var rest := Slice(run[..|run| - 1], lo, hi);
      if InSlice(run[|run| - 1].key, lo, hi) then rest + [run[|run| - 1]] else rest
  }

  lemma {:induction false} SliceMembers(run: seq<Record>, lo: TsKey, hi: TsKey)
    ensures forall r :: r in Slice(run, lo, hi) <==> r in run && InSlice(r.key, lo, hi)
  {
    if run != [] {
      var n := |run| - 1;
      SliceMembers(run[..n], lo, hi);
      assert run == run[..n] + [run[n]];
    }
  }

  // Of a sorted run the slice is one stretch, with the smaller keys before it and the greater ones after it.
  lemma {:induction false} SliceIsStretch(run: seq<Record>, lo: TsKey, hi: TsKey) returns (i: nat, j: nat)
    requires Sorted(run) && AtMost(lo, hi)
    ensures i <= j <= |run| && Slice(run, lo, hi) == run[i..j]
    ensures forall k :: 0 <= k < |run| ==> (Less(run[k].key, lo) <==> k < i) && (Less(hi, run[k].key) <==> j <= k)
  {
    hide Less;
    if run == [] {
      i, j := 0, 0;
    } else {
      var n := |run| - 1;
      i, j := SliceIsStretch(run[..n], lo, hi);
      LoBelowHi(run[n].key, lo, hi);
      forall k | 0 <= k < n ensures Less(run[n].key, lo) ==> Less(run[k].key, lo) {
        Below(run[k].key, run[n].key, lo);
      }
      forall k | 0 <= k < n ensures Less(hi, run[k].key) ==> Less(hi, run[n].key) {
        Below(hi, run[k].key, run[n].key);
      }
      if Less(run[n].key, lo) {
        assert i == n;
        i, j := |run|, |run|;
      } else if !Less(hi, run[n].key) {
        assert j == n;
        assert run[..n][i..n] + [run[n]] == run[i..|run|];
        j := |run|;
      } else {
        assert run[..n][i..j] == run[i..j];
      }
    }
  }

  lemma {:induction false} Below(a: TsKey, b: TsKey, c: TsKey)
    ensures Less(a, b) && Less(b, c) ==> Less(a, c)
  {
    if Less(a, b) && Less(b, c) {
      LessTransitive(a, b, c);
    }
  }

  lemma {:induction false} LoBelowHi(k: TsKey, lo: TsKey, hi: TsKey)
    requires AtMost(lo, hi)
    ensures !(Less(k, lo) && Less(hi, k))
  {
    Below(hi, k, lo);
  }

  lemma {:induction false} FromZeroKeyLast(run: seq<Record>)
    ensures FromZeroKey([]) == []
    ensures run != [] ==> var n := |run| - 1;
              FromZeroKey(run) == FromZeroKey(run[..n]) + if Less(run[n].key, ZeroKey) then [] else [run[n]]
  {
  }

  // What a flush sees of a sorted table is its tail.
  lemma {:induction false} FromZeroKeyIsTail(run: seq<Record>) returns (i: nat)
    requires Sorted(run)
    ensures i <= |run| && FromZeroKey(run) == run[i..]
    ensures forall k :: 0 <= k < |run| ==> (Less(run[k].key, ZeroKey) <==> k < i)
  {
    hide Less, FromZeroKey;
    FromZeroKeyLast(run);
    if run == [] {
      i := 0;
    } else {
      var n := |run| - 1;
      i := FromZeroKeyIsTail(run[..n]);
      forall k | 0 <= k < n
        ensures Less(run[k].key, ZeroKey) <==> k < i
        ensures Less(run[n].key, ZeroKey) ==> Less(run[k].key, ZeroKey)
      {
        assert run[..n][k] == run[k] && Less(run[k].key, run[n].key);
        Below(run[k].key, run[n].key, ZeroKey);
      }
      assert i < n ==> !Less(run[i].key, ZeroKey);
      if Less(run[n].key, ZeroKey) {
        i := |run|;
      } else {
        assert run[..n][i..] + [run[n]] == run[i..];
      }
    }
  }
}
