// Merging record lists of different age, newest first within a key: collect, sort by key and age,
// keep the first of every run of equal keys. Compaction::Run (src/compaction.cpp:42-61) and
// TsdbEngine::RangeQuery (src/tsdb_engine.cpp:208-232) share this step.
module RankedMerge {
  import opened Types

  // A record with the age of the place it came from: smaller is newer.
  datatype Ranked = Ranked(record: Record, age: int)

  predicate Before(a: Ranked, b: Ranked) {
    Less(a.record.key, b.record.key) || (a.record.key == b.record.key && a.age < b.age)
  }

  ghost predicate Ordered(s: seq<Ranked>) {
    forall i, j :: 0 <= i < j < |s| ==> !Before(s[j], s[i])
  }

  function InsertRanked(s: seq<Ranked>, x: Ranked): seq<Ranked> {
    if s == [] || !Before(x, s[|s| - 1]) then s + [x]
    else InsertRanked(s[..|s| - 1], x) + [s[|s| - 1]]
  }

  function SortRanked(s: seq<Ranked>): seq<Ranked> {
    if s == [] then [] else InsertRanked(SortRanked(s[..|s| - 1]), s[|s| - 1])
  }

  // The first record of every group of equal keys.
  function Firsts(s: seq<Ranked>): seq<Record> {
    if s == [] then [] else
      var n := |s| - 1;
      var rest := Firsts(s[..n]);
      if n == 0 || s[n - 1].record.key != s[n].record.key then rest + [s[n].record] else rest
  }

  function Merge(all: seq<Ranked>): seq<Record> {
    Firsts(SortRanked(all))
  }

  // ---------------------------------------------------------------- sorting

  lemma {:induction false} BeforeTransitive(a: Ranked, b: Ranked, c: Ranked)
    requires !Before(b, a) && !Before(c, b)
    ensures !Before(c, a)
  {
    LessTotal(a.record.key, b.record.key);
    LessTotal(b.record.key, c.record.key);
    LessTotal(a.record.key, c.record.key);
    if Before(c, a) {
      if Less(a.record.key, b.record.key) && Less(b.record.key, c.record.key) {
        LessTransitive(a.record.key, b.record.key, c.record.key);
      }
    }
  }

  lemma {:induction false} InsertOrdered(s: seq<Ranked>, x: Ranked)
    requires Ordered(s)
    ensures Ordered(InsertRanked(s, x))
    ensures forall y :: y in InsertRanked(s, x) <==> y in s || y == x
    ensures |InsertRanked(s, x)| == |s| + 1
  {
    if s == [] {
    } else {
      var n := |s| - 1;
      assert s == s[..n] + [s[n]];
      if !Before(x, s[n]) {
        forall i | 0 <= i < |s| ensures !Before(x, s[i]) {
          if i < n { BeforeTransitive(s[i], s[n], x); }
        }
      } else {
        InsertOrdered(s[..n], x);
        LessTotal(x.record.key, s[n].record.key);
        var r := InsertRanked(s[..n], x);
        assert forall i :: 0 <= i < |r| ==> r[i] in r;
      }
    }
  }

  lemma {:induction false} SortOrdered(s: seq<Ranked>)
    ensures Ordered(SortRanked(s))
    ensures forall y :: y in SortRanked(s) <==> y in s
    ensures |SortRanked(s)| == |s|
  {
    if s != [] {
      var n := |s| - 1;
      SortOrdered(s[..n]);
      InsertOrdered(SortRanked(s[..n]), s[n]);
      assert s == s[..n] + [s[n]];
    }
  }

  // ---------------------------------------------------------------- keeping the first of each group

  // x is among the newest of its key.
  ghost predicate Newest(all: seq<Ranked>, x: Ranked) {
    x in all && forall y :: y in all && y.record.key == x.record.key ==> x.age <= y.age
  }

  ghost predicate AgesDistinct(all: seq<Ranked>) {
    forall x, y :: x in all && y in all && x.record.key == y.record.key && x.age == y.age ==> x == y
  }

  lemma {:induction false} FirstsSorted(s: seq<Ranked>)
    requires Ordered(s)
    ensures Sorted(Firsts(s))
    ensures s != [] ==> Firsts(s) != [] && Firsts(s)[|Firsts(s)| - 1].key == s[|s| - 1].record.key
  {
    if s != [] {
      var n := |s| - 1;
      FirstsSorted(s[..n]);
      if n > 0 && s[n - 1].record.key != s[n].record.key {
        var r := Firsts(s[..n]);
        LessTotal(s[n - 1].record.key, s[n].record.key);
        assert Less(r[|r| - 1].key, s[n].record.key);
        forall i | 0 <= i < |r| ensures Less(r[i].key, s[n].record.key) {
          if i < |r| - 1 { LessTransitive(r[i].key, r[|r| - 1].key, s[n].record.key); }
        }
      }
    }
  }

  lemma {:induction false} FirstsMembers(s: seq<Ranked>, r: Record)
    requires Ordered(s)
    ensures r in Firsts(s) <==> exists i :: 0 <= i < |s| && s[i].record == r
                                  && (i == 0 || s[i - 1].record.key != r.key)
  {
    if s != [] {
      var n := |s| - 1;
      FirstsMembers(s[..n], r);
      if r in Firsts(s) {
        if r in Firsts(s[..n]) {
          var i :| 0 <= i < n && s[..n][i].record == r && (i == 0 || s[..n][i - 1].record.key != r.key);
          assert s[i].record == r && (i == 0 || s[i - 1].record.key != r.key);
        } else {
          assert s[n].record == r && (n == 0 || s[n - 1].record.key != r.key);
        }
      }
      if i :| 0 <= i < |s| && s[i].record == r && (i == 0 || s[i - 1].record.key != r.key) {
        if i < n {
          assert s[..n][i].record == r && (i == 0 || s[..n][i - 1].record.key != r.key);
        }
      }
    }
  }

  // The first position of x's group in an ordered list holds the smallest age of the group.
  lemma {:induction false} GroupStart(s: seq<Ranked>, p: nat) returns (q: nat)
    requires Ordered(s) && p < |s|
    ensures q <= p && s[q].record.key == s[p].record.key
    ensures q == 0 || s[q - 1].record.key != s[p].record.key
  {
    if p == 0 || s[p - 1].record.key != s[p].record.key {
      q := p;
    } else {
      q := GroupStart(s, p - 1);
    }
  }

  lemma {:induction false} FirstIsNewest(s: seq<Ranked>, i: nat)
    requires Ordered(s) && i < |s| && (i == 0 || s[i - 1].record.key != s[i].record.key)
    ensures Newest(s, s[i])
  {
    LessTotal(s[i].record.key, s[i].record.key);
    forall j | 0 <= j < i ensures Less(s[j].record.key, s[i].record.key) {
      LessTotal(s[i - 1].record.key, s[i].record.key);
      LessTotal(s[j].record.key, s[i - 1].record.key);
      if Less(s[j].record.key, s[i - 1].record.key) {
        LessTransitive(s[j].record.key, s[i - 1].record.key, s[i].record.key);
      }
    }
  }

  lemma {:induction false} NewestIsFirst(s: seq<Ranked>, x: Ranked)
    requires Ordered(s) && AgesDistinct(s) && Newest(s, x)
    ensures x.record in Firsts(s)
  {
    var p :| 0 <= p < |s| && s[p] == x;
    var q := GroupStart(s, p);
    assert s[q] in s;
    assert q < p ==> !Before(s[p], s[q]);
    assert s[q] == x;
    FirstsMembers(s, x.record);
  }

  // Merging keeps, for every key, exactly the record of smallest age.
  lemma {:induction false} MergeKeepsNewest(all: seq<Ranked>)
    requires AgesDistinct(all)
    ensures Sorted(Merge(all))
    ensures forall r :: r in Merge(all) <==> exists x :: Newest(all, x) && x.record == r
  {
    var s := SortRanked(all);
    SortOrdered(all);
    FirstsSorted(s);
    assert forall x :: Newest(s, x) <==> Newest(all, x);
    forall r | r in Merge(all) ensures exists x :: Newest(all, x) && x.record == r {
      FirstsMembers(s, r);
      var i :| 0 <= i < |s| && s[i].record == r && (i == 0 || s[i - 1].record.key != r.key);
      FirstIsNewest(s, i);
    }
    forall x | Newest(all, x) ensures x.record in Merge(all) {
      NewestIsFirst(s, x);
    }
  }

  // The same, read key by key.
  lemma {:induction false} MergeCopies(all: seq<Ranked>, k: TsKey)
    requires AgesDistinct(all)
    ensures (forall x :: x in all ==> x.record.key != k) ==> CopiesIn(Merge(all), k) == []
    ensures forall x :: Newest(all, x) && x.record.key == k ==> CopiesIn(Merge(all), k) == [x.record.entry]
  {
    MergeKeepsNewest(all);
    CopiesInMembers(Merge(all), k);
    CopiesInSorted(Merge(all), k);
    if x :| Newest(all, x) && x.record.key == k {
      assert x.record == Record(k, x.record.entry);
      assert x.record.entry in CopiesIn(Merge(all), k);
      forall y | Newest(all, y) && y.record.key == k ensures CopiesIn(Merge(all), k) == [y.record.entry] {
        assert y == x;
      }
    }
  }

  // ---------------------------------------------------------------- the dedup loop

  // The scan over the sorted list: from each group start, skip to the next key.
  method TakeFirsts(all: seq<Ranked>) returns (merged: seq<Record>)
    ensures merged == Firsts(all)
  {
    merged := [];
    var i := 0;
    while i < |all|
      invariant 0 <= i <= |all|
      invariant merged == Firsts(all[..i])
      invariant 0 < i < |all| ==> all[i - 1].record.key != all[i].record.key
    {
      var j := i + 1;
      assert all[..j][..i] == all[..i];
      while j < |all| && all[j].record.key == all[i].record.key
        invariant i < j <= |all|
        invariant forall p :: i <= p < j ==> all[p].record.key == all[i].record.key
        invariant Firsts(all[..j]) == merged + [all[i].record]
      {
        assert all[..j + 1][..j] == all[..j];
        j := j + 1;
      }
      merged := merged + [all[i].record];
      i := j;
    }
    assert all[..i] == all;
  }
}
