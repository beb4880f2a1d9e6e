// The memtable: a skip list with a running estimate of its size. Models src/memtable.cpp.
module MemTable {
  import opened Types
  import opened SkipList

  class MemTable {
    var table: SkipList
    var memUsage: nat

    ghost predicate Valid()
      reads this, table, table.head, table.nodes
    {
      table.Valid()
    }

    ghost function Contents(): seq<Record>
      reads this, table, table.nodes
    {
      table.Contents()
    }

    constructor ()
      ensures Valid() && Contents() == [] && memUsage == 0
      ensures fresh(table) && fresh(table.head) && table.nodes == []
    {
      table := new SkipList();
      memUsage := 0;
    }

    method Put(measurement: Bytes, timestamp: int64, value: Bytes)
      requires Valid()
      modifies this, table, table.head, table.nodes
      ensures Valid() && table == old(table) && table.head == old(table.head)
      ensures Contents() == Upsert(old(Contents()), TsKey(measurement, timestamp), Value(value))
      ensures memUsage == old(memUsage) + |measurement| + |value| + 72
      ensures forall n :: n in table.nodes && n !in old(table.nodes) ==> fresh(n)
    {
      hide Upsert;
      memUsage := memUsage + |measurement| + |value| + EntryOverhead;
      table.Insert(TsKey(measurement, timestamp), Value(value));
    }

    method Delete(measurement: Bytes, timestamp: int64)
      requires Valid()
      modifies this, table, table.head, table.nodes
      ensures Valid() && table == old(table) && table.head == old(table.head)
      ensures Contents() == Upsert(old(Contents()), TsKey(measurement, timestamp), Deletion)
      ensures memUsage == old(memUsage) + |measurement| + 72
      ensures forall n :: n in table.nodes && n !in old(table.nodes) ==> fresh(n)
    {
      hide Upsert;
      memUsage := memUsage + |measurement| + EntryOverhead;
      table.Insert(TsKey(measurement, timestamp), Deletion);
    }

    method GetEntry(measurement: Bytes, timestamp: int64) returns (entry: Option<Entry>)
      requires Valid()
      ensures entry == Find(Contents(), TsKey(measurement, timestamp))
    {
      entry := table.Get(TsKey(measurement, timestamp));
    }

    // Walk the bottom list from the least key not below begin to the last not above end.
    method Scan(begin: TsKey, end: TsKey) returns (out: seq<Record>)
      requires Valid()
      ensures out == Slice(Contents(), begin, end)
    {
      hide Less, NextAt, Slice, Leads;
      var node, prev, i, at := table.FindGreaterOrEqual(begin);
      ghost var run, q := Contents(), i;
      out := [];
      SliceBefore(run, begin, end, i);
      while node != null && !Less(end, node.key)
        invariant i <= q <= |run| && node == NodeAt(table.nodes, q)
        invariant out == Slice(run[..q], begin, end)
        decreases |run| - q
      {
        SliceTakes(run, begin, end, i, q);
        out := out + [Record(node.key, node.value)];
        node := NextOf(node, q);
        q := q + 1;
      }
      SliceAfter(run, begin, end, q);
    }

    method NextOf(n: Node, ghost q: nat) returns (next: Node?)
      requires Valid() && q < |table.nodes| && n == table.nodes[q]
      ensures next == NodeAt(table.nodes, q + 1)
    {
      assert table.Linked(q);
      assert n.next[0] == NodeAt(table.nodes, NextAt(Heights(table.nodes), q + 1, 0));
      NextAtUnique(Heights(table.nodes), q + 1, 0, q + 1);
      next := n.next[0];
    }

    method RangeQueryEntries(measurement: Bytes, start: int64, end: int64) returns (out: seq<Record>)
      requires Valid()
      ensures out == if end < start then [] else Slice(Contents(), TsKey(measurement, start), TsKey(measurement, end))
    {
      if end < start {
        return [];
      }
      out := Scan(TsKey(measurement, start), TsKey(measurement, end));
    }

    // Iteration starts at TsKey{}, so keys below it are not visited.
    method IterateEntries() returns (out: seq<Record>)
      requires Valid()
      ensures out == FromZeroKey(Contents())
    {
      hide Less, NextAt, FromZeroKey, Leads;
      var node, prev, i, at := table.FindGreaterOrEqual(ZeroKey);
      ghost var run, q := Contents(), i;
      out := [];
      ZeroBefore(run, i);
      while node != null
        invariant i <= q <= |run| && node == NodeAt(table.nodes, q)
        invariant out == FromZeroKey(run[..q])
        decreases |run| - q
      {
        ZeroTakes(run, i, q);
        out := out + [Record(node.key, node.value)];
        node := NextOf(node, q);
        q := q + 1;
      }
      assert run[..q] == run;
    }

    // Empty says no for tables that hold only keys below TsKey{}.
    method Empty() returns (empty: bool)
      requires Valid()
      ensures empty <==> FromZeroKey(Contents()) == []
    {
      var node, prev, i, at := table.FindGreaterOrEqual(ZeroKey);
      empty := node == null;
      ghost var run := Contents();
      if i < |run| {
        FromZeroKeyMembers(run);
        assert run[i] in run && run[i] in FromZeroKey(run);
      } else {
        ZeroBefore(run, i);
        assert run[..i] == run;
      }
    }
  }

  lemma {:induction false} SliceBefore(run: seq<Record>, begin: TsKey, end: TsKey, i: nat)
    requires i <= |run| && forall j :: 0 <= j < i ==> Less(run[j].key, begin)
    ensures Slice(run[..i], begin, end) == []
  {
    if i > 0 {
      SliceBefore(run, begin, end, i - 1);
      assert run[..i][..i - 1] == run[..i - 1];
    }
  }

  lemma {:induction false} SliceTakes(run: seq<Record>, begin: TsKey, end: TsKey, i: nat, q: nat)
    requires Sorted(run) && i <= q < |run| && !Less(run[i].key, begin) && !Less(end, run[q].key)
    ensures Slice(run[..q + 1], begin, end) == Slice(run[..q], begin, end) + [run[q]]
  {
    assert run[..q + 1][..q] == run[..q];
    if i < q && Less(run[q].key, begin) {
      LessTransitive(run[i].key, run[q].key, begin);
    }
  }

  lemma {:induction false} SliceAfter(run: seq<Record>, begin: TsKey, end: TsKey, q: nat)
    requires Sorted(run) && q <= |run| && (q < |run| ==> Less(end, run[q].key))
    ensures Slice(run, begin, end) == Slice(run[..q], begin, end)
  {
    if q < |run| {
      var n := |run| - 1;
      if q < n { LessTransitive(end, run[q].key, run[n].key); }
      SliceAfter(run[..n], begin, end, q);
      assert run[..n][..q] == run[..q];
    } else {
      assert run[..q] == run;
    }
  }

  lemma {:induction false} ZeroBefore(run: seq<Record>, i: nat)
    requires i <= |run| && forall j :: 0 <= j < i ==> Less(run[j].key, ZeroKey)
    ensures FromZeroKey(run[..i]) == []
  {
    if i > 0 {
      ZeroBefore(run, i - 1);
      assert run[..i][..i - 1] == run[..i - 1];
    }
  }

  lemma {:induction false} ZeroTakes(run: seq<Record>, i: nat, q: nat)
    requires Sorted(run) && i <= q < |run| && !Less(run[i].key, ZeroKey)
    ensures FromZeroKey(run[..q + 1]) == FromZeroKey(run[..q]) + [run[q]]
  {
    assert run[..q + 1][..q] == run[..q];
    if i < q && Less(run[q].key, ZeroKey) {
      LessTransitive(run[i].key, run[q].key, ZeroKey);
    }
  }
}
