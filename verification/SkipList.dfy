// The skip list under the memtable: linked nodes with twelve forward pointers each.
// Models src/skiplist.h, for the key and value types src/memtable.h instantiates it with.
module SkipList {
  import opened Types
  import opened Subsequence

  const MaxHeight: nat := 12

  class Node {
    const key: TsKey
    var value: Entry
    var next: seq<Node?>
    // How many of the pointers are in use.
    ghost const height: nat

    constructor (k: TsKey, v: Entry, ghost h: nat)
      ensures key == k && value == v && height == h
      ensures |next| == MaxHeight && forall l :: 0 <= l < MaxHeight ==> next[l] == null
    {
      key, value, height := k, v, h;
      next := seq(MaxHeight, _ => null);
    }
  }

  // ---------------------------------------------------------------- towers, by position

  ghost function Heights(nodes: seq<Node>): (r: seq<nat>)
    ensures |r| == |nodes|
  {
    seq(|nodes|, i requires 0 <= i < |nodes| => nodes[i].height)
  }

  // The first position at or after p whose tower reaches level l.
  ghost function NextAt(hs: seq<nat>, p: nat, l: nat): (q: nat)
    requires p <= |hs|
    ensures p <= q <= |hs|
    ensures q < |hs| ==> hs[q] > l
    ensures forall i :: p <= i < q ==> hs[i] <= l
    decreases |hs| - p
  {
    if p == |hs| || hs[p] > l then p else NextAt(hs, p + 1, l)
  }

  lemma {:induction false} NextAtUnique(hs: seq<nat>, p: nat, l: nat, q: nat)
    requires p <= q <= |hs| && (q < |hs| ==> hs[q] > l) && forall i :: p <= i < q ==> hs[i] <= l
    ensures NextAt(hs, p, l) == q
  {
  }

  ghost function NodeAt(nodes: seq<Node>, q: nat): Node?
    requires q <= |nodes|
  {
    if q == |nodes| then null else nodes[q]
  }

  // The node at position p, the head being at -1.
  ghost function AtOrHead(head: Node, nodes: seq<Node>, p: int): Node
    requires -1 <= p < |nodes|
  {
    if p == -1 then head else nodes[p]
  }

  // Keys strictly ascend along the bottom list.
  ghost predicate KeysAscend(nodes: seq<Node>) {
    forall i, j :: 0 <= i < j < |nodes| ==> Less(nodes[i].key, nodes[j].key)
  }

  lemma {:induction false} NodesDistinct(nodes: seq<Node>)
    requires KeysAscend(nodes)
    ensures forall i, j :: 0 <= i < j < |nodes| ==> nodes[i] != nodes[j]
  {
    forall i, j | 0 <= i < j < |nodes| ensures nodes[i] != nodes[j] {
      LessTotal(nodes[i].key, nodes[j].key);
    }
  }

  // The nodes that reach level l, in order.
  ghost function LevelNodes(nodes: seq<Node>, l: nat): seq<Node> {
    if nodes == [] then [] else
      var rest := LevelNodes(nodes[..|nodes| - 1], l);
      if nodes[|nodes| - 1].height > l then rest + [nodes[|nodes| - 1]] else rest
  }

  // ---------------------------------------------------------------- where a search stops at one level

  // Position p is the last one that reaches level l before position i.
  ghost predicate StopsAt(hs: seq<nat>, i: nat, l: nat, p: int)
    requires i <= |hs|
  {
    -1 <= p < i && (p >= 0 ==> hs[p] > l) && NextAt(hs, p + 1, l) >= i
  }

  ghost predicate PrevOk(head: Node, nodes: seq<Node>, i: nat, l: nat, prev: Node?, p: int)
    requires i <= |nodes|
  {
    StopsAt(Heights(nodes), i, l, p) && prev == AtOrHead(head, nodes, p)
  }

  class SkipList {
    var head: Node
    var maxHeight: nat
    // The bottom list.
    ghost var nodes: seq<Node>

    ghost predicate Valid()
      reads this, head, nodes
    {
      && 1 <= maxHeight <= MaxHeight
      && head !in nodes && KeysAscend(nodes)
      && (forall i :: 0 <= i < |nodes| ==> 1 <= nodes[i].height <= maxHeight)
      && Linked(-1)
      && (forall i :: 0 <= i < |nodes| ==> Linked(i))
    }

    // Every pointer of the node at position p leads to the next node that reaches its level.
    ghost predicate Linked(p: int)
      requires -1 <= p < |nodes|
      reads this, head, nodes
    {
      Leads(head, nodes, p, AtOrHead(head, nodes, p).next)
    }

    // The table image: keys with their current values, in order.
    ghost function Contents(): (r: seq<Record>)
      reads this, nodes
      ensures |r| == |nodes|
    {
      seq(|nodes|, i requires 0 <= i < |nodes| reads this, nodes => Record(nodes[i].key, nodes[i].value))
    }

    constructor ()
      ensures Valid() && Contents() == [] && fresh(head) && nodes == []
    {
      head := new Node(TsKey([], 0), Value([]), MaxHeight);
      maxHeight := 1;
      nodes := [];
    }

    method RandomHeight() returns (height: nat)
      ensures 1 <= height <= 12
    {
      height := 1;
      var coin: bool := *;
      while height < MaxHeight && coin
        invariant 1 <= height <= MaxHeight
      {
        height := height + 1;
        coin := *;
      }
    }

    // The least node not below key, and for every level in use the node the search left it at.
    method FindGreaterOrEqual(key: TsKey) returns (x: Node?, prev: seq<Node?>, ghost i: nat, ghost at: seq<int>)
      requires Valid()
      ensures i <= |nodes| && x == NodeAt(nodes, i)
      ensures forall j :: 0 <= j < i ==> Less(nodes[j].key, key)
      ensures x != null ==> !Less(x.key, key)
      ensures |prev| == MaxHeight && |at| == MaxHeight
      ensures forall l :: 0 <= l < maxHeight ==> PrevOk(head, nodes, i, l, prev[l], at[l])
    {
      KeyOrder();
      prev := seq(MaxHeight, _ => null);
      at := seq(MaxHeight, _ => -1);
      i := Split(key);
      var n := head;
      ghost var pos := -1;
      var level := maxHeight - 1;
      while true
        invariant 0 <= level < maxHeight && -1 <= pos < i && n == AtOrHead(head, nodes, pos)
        invariant pos >= 0 ==> n.height > level
        invariant |prev| == MaxHeight && |at| == MaxHeight
        invariant forall l :: level < l < maxHeight ==> PrevOk(head, nodes, i, l, prev[l], at[l])
        decreases level, |nodes| - pos
      {
        assert Linked(pos);
        var next := n.next[level];
        ghost var q := NextAt(Heights(nodes), pos + 1, level);
        assert next == NodeAt(nodes, q);
        if next != null && Less(next.key, key) {
          n, pos := next, q;
        } else {
          assert q >= i;
          prev, at := prev[level := n], at[level := pos];
          if level == 0 {
            assert q == i by { NextAtUnique(Heights(nodes), pos + 1, 0, pos + 1); }
            x := next;
            return;
          }
          level := level - 1;
        }
      }
    }

    // How many keys lie below key.
    ghost function Split(key: TsKey): (i: nat)
      requires KeysAscend(nodes)
      reads this
      ensures i <= |nodes|
      ensures forall j :: 0 <= j < i ==> Less(nodes[j].key, key)
      ensures forall j :: i <= j < |nodes| ==> !Less(nodes[j].key, key)
    {
      SplitAt(nodes, key)
    }

    // Insert or overwrite.
    method Insert(key: TsKey, value: Entry)
      requires Valid()
      modifies this, head, nodes
      ensures Valid() && head == old(head)
      ensures Contents() == Upsert(old(Contents()), key, value)
      ensures forall n :: n in nodes && n !in old(nodes) ==> fresh(n)
    {
      hide Upsert, Less;
      var x, prev, i, at := FindGreaterOrEqual(key);
      if x != null && Compare(key, x.key) == 0 {
        CompareKeysEqual(key, x.key);
        UpsertFound(Contents(), key, value, i);
        Overwrite(x, value, i);
        return;
      }
      AboveSplit(key, i);
      UpsertNew(Contents(), key, value, i);
      var height := RandomHeight();
      var n := Link(key, value, height, i, prev, at);
    }

    // What lies at or after the split and is not key lies above it.
    lemma {:induction false} AboveSplit(key: TsKey, i: nat)
      requires KeysAscend(nodes) && i <= |nodes| && (i < |nodes|
                                                     ==> !Less(nodes[i].key, key) && Compare(key, nodes[i].key) != 0)
      ensures forall j :: i <= j < |nodes| ==> Less(key, nodes[j].key)
    {
      forall j | i <= j < |nodes| ensures Less(key, nodes[j].key) {
        LessTotal(key, nodes[i].key);
        CompareKeysEqual(key, nodes[i].key);
        if i < j { LessTransitive(key, nodes[i].key, nodes[j].key); }
      }
    }

    method Overwrite(x: Node, value: Entry, ghost i: nat)
      requires Valid() && i < |nodes| && x == nodes[i]
      modifies x
      ensures Valid()
      ensures Contents() == old(Contents())[i := Record(x.key, value)]
    {
      hide Less, NextAt, Leads;
      NodesDistinct(nodes);
      x.value := value;
      forall j | -1 <= j < |nodes| ensures Linked(j) {
        assert old(Linked(j));
      }
    }

    twostate lemma ContentsInserted(i: nat, new n: Node)
      requires i <= |old(nodes)| && nodes == old(nodes)[..i] + [n] + old(nodes)[i..]
      requires forall m :: m in old(nodes) ==> m.value == old(m.value)
      ensures Contents() == old(Contents())[..i] + [Record(n.key, n.value)] + old(Contents())[i..]
    {
      assert forall j :: 0 <= j < i ==> nodes[j] == old(nodes)[j];
      assert forall j :: i < j < |nodes| ==> nodes[j] == old(nodes)[j - 1];
    }

    // The new node goes in at position i: behind prev[l] on every level it reaches.
    method Link(key: TsKey, value: Entry, height: nat, ghost i: nat, prev: seq<Node?>, ghost at: seq<int>)
      returns (n: Node)
      requires Valid() && 1 <= height <= MaxHeight && i <= |nodes|
      requires forall j :: 0 <= j < i ==> Less(nodes[j].key, key)
      requires forall j :: i <= j < |nodes| ==> Less(key, nodes[j].key)
      requires |prev| == MaxHeight && |at| == MaxHeight
      requires forall l :: 0 <= l < maxHeight ==> PrevOk(head, nodes, i, l, prev[l], at[l])
      modifies this, head, nodes
      ensures Valid() && head == old(head)
      ensures fresh(n) && nodes == old(nodes[..i]) + [n] + old(nodes[i..])
      ensures Contents() == old(Contents())[..i] + [Record(key, value)] + old(Contents())[i..]
    {
      hide Less, NextAt, NodeAt, Leads, Heights;
      n := Splice(key, value, height, i, prev, at);
      InsertedKeys(nodes, i, n);
      maxHeight := if height > maxHeight then height else maxHeight;
      nodes := nodes[..i] + [n] + nodes[i..];
      ContentsInserted(i, n);
    }

    // Allocate the node and rewire the pointers around it.
    method Splice(key: TsKey, value: Entry, height: nat, ghost i: nat, prev: seq<Node?>, ghost at: seq<int>)
      returns (n: Node)
      requires Valid() && 1 <= height <= MaxHeight && i <= |nodes|
      requires |prev| == MaxHeight && |at| == MaxHeight
      requires forall l :: 0 <= l < maxHeight ==> PrevOk(head, nodes, i, l, prev[l], at[l])
      modifies head, nodes
      ensures fresh(n) && n.key == key && n.value == value && n.height == height
      ensures forall m :: m in nodes ==> m.value == old(m.value)
      ensures forall p :: -1 <= p <= |nodes| ==>
                Leads(head, nodes[..i] + [n] + nodes[i..], p, AtOrHead(head, nodes[..i] + [n] + nodes[i..], p).next)
    {
      hide Less, NextAt, NodeAt, Leads, Redirected, Heights;
      var prevs;
      ghost var ats;
      prevs, ats := Raise(height, i, prev, at);
      n := new Node(key, value, height);
      ghost var others := (set m | m in nodes) + {head};
      NodesHaveTowers();
      label Before:
      forall k | 0 <= k < height ensures prevs[k] != null && prevs[k] in others {
        assert PrevOk(head, nodes, i, k, prevs[k], ats[k]);
      }
      Rewire(n, others, height, prevs);
      ghost var nodes' := nodes[..i] + [n] + nodes[i..];
      forall p | -1 <= p < |nodes'| ensures Leads(head, nodes', p, AtOrHead(head, nodes', p).next) {
        if p != i {
          ghost var q := if p > i then p - 1 else p;
          ghost var m := AtOrHead(head, nodes, q);
          assert m in others && m == AtOrHead(head, nodes', p);
          assert old@Before(Linked(q));
          OldNodeLeads(head, nodes, i, n, p, height, prevs, ats, old@Before(m.next));
        } else {
          forall k | 0 <= k < height ensures n.next[k] == NodeAt(nodes, NextAt(Heights(nodes), ats[k] + 1, k)) {
            assert PrevOk(head, nodes, i, k, prevs[k], ats[k]);
            assert old@Before(Linked(ats[k]));
            LeadsTo(head, nodes, ats[k], old@Before(prevs[k].next), i, k);
          }
          NewNodeLeads(head, nodes, i, n, ats, n.next);
        }
      }
    }

    // MemTable::GetEntry reads through this.
    method Get(key: TsKey) returns (found: Option<Entry>)
      requires Valid()
      ensures found == Find(Contents(), key)
    {
      var x, prev, i, at := FindGreaterOrEqual(key);
      FindAtSplit(Contents(), key, i);
      if x != null && Compare(key, x.key) == 0 {
        CompareKeysEqual(key, x.key);
        found := Some(x.value);
      } else {
        if x != null { CompareKeysEqual(key, x.key); }
        found := None;
      }
    }

    method Count() returns (count: nat)
      requires Valid()
      ensures count == |Contents()|
    {
      count := 0;
      var n := head.next[0];
      assert Linked(-1);
      NextAtUnique(Heights(nodes), 0, 0, 0);
      while n != null
        invariant count <= |nodes| && n == NodeAt(nodes, count)
        decreases |nodes| - count
      {
        assert Linked(count);
        NextAtUnique(Heights(nodes), count + 1, 0, count + 1);
        count := count + 1;
        n := n.next[0];
      }
    }

    // The node reached from the head by following the pointers of level l, steps + 1 times.
    ghost function Follow(l: nat, steps: nat): Node?
      reads this, head, nodes
    {
      if steps == 0 then if l < |head.next| then head.next[l] else null
      else
        var n := Follow(l, steps - 1);
        if n == null || n !in nodes || l >= |n.next| then null else n.next[l]
    }

    // The pointers of level l visit exactly the nodes that reach it, in order.
    lemma {:induction false} Walk(l: nat, steps: nat)
      requires Valid() && l < MaxHeight
      ensures Follow(l, steps) == if steps < |LevelNodes(nodes, l)| then LevelNodes(nodes, l)[steps] else null
    {
      hide LevelNodes, NextAt, Heights, KeysAscend;
      LevelWalk(nodes, l, steps);
      if steps == 0 {
        assert Linked(-1);
      } else {
        Walk(l, steps - 1);
        if steps - 1 < |LevelNodes(nodes, l)| {
          var p :| 0 <= p < |nodes| && nodes[p] == LevelNodes(nodes, l)[steps - 1]
                   && |LevelNodes(nodes[..p], l)| == steps - 1 && nodes[p].height > l;
          assert Linked(p);
        }
      }
    }

    // On levels not yet in use every search stops at the head.
    method Raise(height: nat, ghost i: nat, prev: seq<Node?>, ghost at: seq<int>)
      returns (prevs: seq<Node?>, ghost ats: seq<int>)
      requires Valid() && height <= MaxHeight && i <= |nodes| && |prev| == MaxHeight && |at| == MaxHeight
      requires forall l :: 0 <= l < maxHeight ==> PrevOk(head, nodes, i, l, prev[l], at[l])
      ensures |prevs| == MaxHeight && |ats| == MaxHeight
      ensures forall l :: 0 <= l < height ==> PrevOk(head, nodes, i, l, prevs[l], ats[l])
    {
      prevs, ats := prev, at;
      var l := maxHeight;
      while l < height
        invariant maxHeight <= l && (l <= height || l == maxHeight)
        invariant |prevs| == MaxHeight && |ats| == MaxHeight
        invariant forall k :: 0 <= k < l && k < MaxHeight ==> PrevOk(head, nodes, i, k, prevs[k], ats[k])
      {
        HeadStops(nodes, i, l, maxHeight);
        prevs, ats := prevs[l := head], ats[l := -1];
        l := l + 1;
      }
    }

    lemma {:induction false} NodesHaveTowers()
      requires Valid()
      ensures |head.next| == MaxHeight && forall m :: m in nodes ==> |m.next| == MaxHeight
    {
      assert Linked(-1);
      forall m | m in nodes ensures |m.next| == MaxHeight {
        var p :| 0 <= p < |nodes| && nodes[p] == m;
        assert Linked(p);
      }
    }

    // On every level the new node reaches: take over the pointer of prev, and make prev point to it.
    static method Rewire(n: Node, ghost others: set<Node>, height: nat, prevs: seq<Node?>)
      requires n !in others && height <= MaxHeight == |prevs|
      requires |n.next| == MaxHeight && forall m :: m in others ==> |m.next| == MaxHeight
      requires forall k :: 0 <= k < height ==> prevs[k] != null && prevs[k] in others
      modifies others, n
      ensures forall m :: m in others ==>
                            m.next == Redirected(old(m.next), prevs, m, n, height) && m.value == old(m.value)
      ensures |n.next| == MaxHeight && n.value == old(n.value)
      ensures forall k :: 0 <= k < height ==> n.next[k] == old(prevs[k].next[k])
      ensures forall k :: height <= k < MaxHeight ==> n.next[k] == old(n.next[k])
    {
      var l := 0;
      while l < height
        invariant 0 <= l <= height
        invariant forall m :: m in others ==>
                                m.next == Redirected(old(m.next), prevs, m, n, l) && m.value == old(m.value)
        invariant |n.next| == MaxHeight && n.value == old(n.value)
        invariant forall k :: 0 <= k < l ==> n.next[k] == old(prevs[k].next[k])
        invariant forall k :: l <= k < MaxHeight ==> n.next[k] == old(n.next[k])
      {
        var p: Node := prevs[l];
        n.next := n.next[l := p.next[l]];
        p.next := p.next[l := n];
        l := l + 1;
      }
    }
  }

  // The pointers of m once n has been linked in on the levels below l.
  ghost function Redirected(was: seq<Node?>, prevs: seq<Node?>, m: Node, n: Node, l: nat): (r: seq<Node?>)
    requires |was| == MaxHeight == |prevs|
    ensures |r| == MaxHeight && forall k :: 0 <= k < MaxHeight ==> r[k] == if k < l && prevs[k] == m then n else was[k]
  {
    seq(MaxHeight, k requires 0 <= k < MaxHeight => if k < l && prevs[k] == m then n else was[k])
  }

  // The pointers of the node at position p of a bottom list.
  ghost predicate Leads(head: Node, nodes: seq<Node>, p: int, next: seq<Node?>)
    requires -1 <= p < |nodes|
  {
    && |next| == MaxHeight
    && forall l :: 0 <= l < MaxHeight ==>
         next[l] == if p == -1 || l < AtOrHead(head, nodes, p).height
           then NodeAt(nodes, NextAt(Heights(nodes), p + 1, l)) else null
  }

  // ---------------------------------------------------------------- the list of one level

  lemma {:induction false} LevelSkips(nodes: seq<Node>, l: nat, p: nat, q: nat)
    requires p <= q <= |nodes| && forall i :: p <= i < q ==> nodes[i].height <= l
    ensures LevelNodes(nodes[..q], l) == LevelNodes(nodes[..p], l)
  {
    if p < q {
      LevelSkips(nodes, l, p, q - 1);
      assert nodes[..q][..q - 1] == nodes[..q - 1];
    }
  }

  lemma {:induction false} LevelPrefix(nodes: seq<Node>, l: nat, q: nat)
    requires q <= |nodes|
    ensures LevelNodes(nodes[..q], l) <= LevelNodes(nodes, l)
  {
    if q < |nodes| {
      var n := |nodes| - 1;
      LevelPrefix(nodes[..n], l, q);
      assert nodes[..n][..q] == nodes[..q];
    } else {
      assert nodes[..q] == nodes;
    }
  }

  // The node at position p is number |LevelNodes(nodes[..p])| of its level.
  lemma {:induction false} LevelIndex(nodes: seq<Node>, l: nat, p: nat)
    requires p < |nodes| && nodes[p].height > l
    ensures LevelNodes(nodes[..p + 1], l) == LevelNodes(nodes[..p], l) + [nodes[p]]
    ensures |LevelNodes(nodes[..p], l)| < |LevelNodes(nodes, l)|
            && LevelNodes(nodes, l)[|LevelNodes(nodes[..p], l)|] == nodes[p]
  {
    assert nodes[..p + 1][..p] == nodes[..p];
    LevelPrefix(nodes, l, p + 1);
  }

  // After position p the next node of level l is the one its list has next.
  lemma {:induction false} LevelNext(nodes: seq<Node>, l: nat, p: nat)
    requires p <= |nodes|
    ensures var j := |LevelNodes(nodes[..p], l)|;
            NodeAt(nodes, NextAt(Heights(nodes), p, l)) == if j < |LevelNodes(nodes, l)| then LevelNodes(nodes, l)[j]
              else null
  {
    var q := NextAt(Heights(nodes), p, l);
    assert forall i :: p <= i < q ==> Heights(nodes)[i] == nodes[i].height;
    LevelSkips(nodes, l, p, q);
    if q < |nodes| {
      LevelIndex(nodes, l, q);
    } else {
      assert nodes[..q] == nodes;
    }
  }

  lemma {:induction false} LevelPosition(nodes: seq<Node>, l: nat, j: nat) returns (p: nat)
    requires j < |LevelNodes(nodes, l)|
    ensures p < |nodes| && nodes[p] == LevelNodes(nodes, l)[j] && nodes[p].height > l
            && |LevelNodes(nodes[..p], l)| == j
  {
    var n := |nodes| - 1;
    if j < |LevelNodes(nodes[..n], l)| {
      p := LevelPosition(nodes[..n], l, j);
      assert nodes[..n][..p] == nodes[..p];
    } else {
      p := n;
    }
  }

  // What one step along a level does, for SkipList.Walk.
  lemma {:induction false} LevelWalk(nodes: seq<Node>, l: nat, steps: nat)
    ensures steps == 0 ==> NodeAt(nodes, NextAt(Heights(nodes), 0, l)) == if LevelNodes(nodes, l) != []
            then LevelNodes(nodes, l)[0] else null
    ensures 0 < steps <= |LevelNodes(nodes, l)| ==>
              exists p :: 0 <= p < |nodes| && nodes[p] == LevelNodes(nodes, l)[steps - 1]
                && |LevelNodes(nodes[..p], l)| == steps - 1 && nodes[p].height > l
    ensures forall p :: 0 <= p < |nodes| && |LevelNodes(nodes[..p], l)| == steps - 1 && nodes[p].height > l ==>
              NodeAt(nodes, NextAt(Heights(nodes), p + 1, l)) == if steps < |LevelNodes(nodes, l)|
                then LevelNodes(nodes, l)[steps] else null
  {
    hide NextAt, LevelNodes;
    if steps == 0 {
      LevelNext(nodes, l, 0);
      EmptyLevel(nodes, l);
    } else {
      if steps <= |LevelNodes(nodes, l)| {
        var p := LevelPosition(nodes, l, steps - 1);
      }
      forall p | 0 <= p < |nodes| && |LevelNodes(nodes[..p], l)| == steps - 1 && nodes[p].height > l
        ensures NodeAt(nodes, NextAt(Heights(nodes), p + 1, l)) == if steps < |LevelNodes(nodes, l)|
                then LevelNodes(nodes, l)[steps] else null
      {
        LevelIndex(nodes, l, p);
        LevelNext(nodes, l, p + 1);
      }
    }
  }

  lemma {:induction false} EmptyLevel(nodes: seq<Node>, l: nat)
    ensures LevelNodes(nodes[..0], l) == []
  {
  }

  // Each level is a strictly sorted sublist of the one below, and the bottom level is the whole list.
  lemma {:induction false} LevelsNest(nodes: seq<Node>, l: nat)
    requires KeysAscend(nodes)
    ensures KeysAscend(LevelNodes(nodes, l))
    ensures Subseq(LevelNodes(nodes, l + 1), LevelNodes(nodes, l))
    ensures (forall i :: 0 <= i < |nodes| ==> nodes[i].height >= 1) ==> LevelNodes(nodes, 0) == nodes
    ensures forall n :: n in LevelNodes(nodes, l) ==> n in nodes
  {
    hide Less;
    if nodes == [] {
      SubseqEmpty<Node>([]);
    } else {
      var n := |nodes| - 1;
      LevelsNest(nodes[..n], l);
      assert nodes == nodes[..n] + [nodes[n]];
      var low, high := LevelNodes(nodes[..n], l), LevelNodes(nodes[..n], l + 1);
      if nodes[n].height > l + 1 {
        SubseqAppend(high, low, [nodes[n]]);
      } else if nodes[n].height > l {
        SubseqLonger(high, low, [nodes[n]]);
      }
      assert forall i :: 0 <= i < |low| ==> low[i] in low && low[i] in nodes[..n];
    }
  }

  lemma {:induction false} FindAtSplit(run: seq<Record>, k: TsKey, i: nat)
    requires Sorted(run) && i <= |run|
    requires forall j :: 0 <= j < i ==> Less(run[j].key, k)
    requires i < |run| ==> !Less(run[i].key, k)
    ensures Find(run, k) == if i < |run| && run[i].key == k then Some(run[i].entry) else None
  {
    hide CopiesIn;
    CopiesInMembers(run, k);
    CopiesInSorted(run, k);
    if i < |run| && run[i].key == k {
      assert Record(k, run[i].entry) in run;
      assert run[i].entry in CopiesIn(run, k);
    } else {
      forall r | r in run ensures r.key != k {
        var j :| 0 <= j < |run| && run[j] == r;
        LessTotal(k, k);
        if i < j { LessTotal(run[i].key, k); if Less(k, run[i].key) { LessTransitive(k, run[i].key, run[j].key); } }
      }
    }
  }

  lemma {:induction false} HeadStops(nodes: seq<Node>, i: nat, l: nat, maxHeight: nat)
    requires i <= |nodes| && maxHeight <= l && forall j :: 0 <= j < |nodes| ==> nodes[j].height <= maxHeight
    ensures StopsAt(Heights(nodes), i, l, -1)
  {
    NextAtUnique(Heights(nodes), 0, l, |nodes|);
  }

  lemma {:induction false} InsertedKeys(nodes: seq<Node>, i: nat, n: Node)
    requires KeysAscend(nodes) && i <= |nodes|
    requires forall j :: 0 <= j < i ==> Less(nodes[j].key, n.key)
    requires forall j :: i <= j < |nodes| ==> Less(n.key, nodes[j].key)
    ensures KeysAscend(nodes[..i] + [n] + nodes[i..])
  {
    hide Less;
  }

  // Inserting a tower of height h at position i.
  lemma {:induction false} NextAtInserted(hs: seq<nat>, i: nat, h: nat, p: nat, l: nat)
    requires i <= |hs| && p <= |hs| + 1
    ensures var hs' := hs[..i] + [h] + hs[i..];
            && (p <= i ==> var q := NextAt(hs, p, l); NextAt(hs', p, l) == if q < i then q else if h > l then i
              else q + 1)
            && (p > i ==> NextAt(hs', p, l) == NextAt(hs, p - 1, l) + 1)
  {
    var hs' := hs[..i] + [h] + hs[i..];
    assert forall j :: i < j < |hs'| ==> hs'[j] == hs[j - 1];
    if p <= i {
      var q := NextAt(hs, p, l);
      NextAtUnique(hs', p, l, if q < i then q else if h > l then i else q + 1);
    } else {
      NextAtUnique(hs', p, l, NextAt(hs, p - 1, l) + 1);
    }
  }

  // The position where a level stops before i is the only one there whose next node lies at or after i.
  lemma {:induction false} StopIsUnique(hs: seq<nat>, i: nat, l: nat, at: int, p: int)
    requires i <= |hs| && StopsAt(hs, i, l, at) && -1 <= p < |hs| && (p >= 0 ==> hs[p] > l)
    ensures p == at <==> p < i && NextAt(hs, p + 1, l) >= i
  {
  }

  lemma {:induction false} HeightsInserted(ns: seq<Node>, i: nat, n: Node)
    requires i <= |ns|
    ensures Heights(ns[..i] + [n] + ns[i..]) == Heights(ns)[..i] + [n.height] + Heights(ns)[i..]
  {
  }

  lemma {:induction false} NodeAtInserted(ns: seq<Node>, i: nat, n: Node, q: nat)
    requires i <= |ns| && q <= |ns|
    ensures var nodes := ns[..i] + [n] + ns[i..];
            (q < i ==> NodeAt(nodes, q) == NodeAt(ns, q)) && NodeAt(nodes, i) == n
              && (q >= i ==> NodeAt(nodes, q + 1) == NodeAt(ns, q))
  {
  }

  // What the pointer of the node at new position p on level k must be after the insertion at i.
  lemma {:induction false} InsertedPointer(head: Node, ns: seq<Node>, i: nat, n: Node, p: int, k: nat, at: int)
    requires i <= |ns| && -1 <= p <= |ns|
    requires k < n.height ==> StopsAt(Heights(ns), i, k, at)
    ensures var nodes := ns[..i] + [n] + ns[i..];
            var q := NextAt(Heights(nodes), p + 1, k);
            && (p < i && (p == -1 || k < AtOrHead(head, ns, p).height) ==>
                  NodeAt(nodes, q) == if k < n.height && p == at then n else NodeAt(ns, NextAt(Heights(ns), p + 1, k)))
            && (p == i && k < n.height ==> NodeAt(nodes, q) == NodeAt(ns, NextAt(Heights(ns), at + 1, k)))
            && (p > i ==> NodeAt(nodes, q) == NodeAt(ns, NextAt(Heights(ns), p, k)))
  {
    hide NodeAt, NextAt, Heights, StopsAt;
    if p < i {
      if p == -1 || k < AtOrHead(head, ns, p).height {
        PointerBefore(head, ns, i, n, p, k, at);
      }
    } else if p == i {
      if k < n.height {
        PointerOfNew(ns, i, n, k, at);
      }
    } else {
      PointerAfter(ns, i, n, p, k);
    }
  }

  lemma {:induction false} PointerBefore(head: Node, ns: seq<Node>, i: nat, n: Node, p: int, k: nat, at: int)
    requires i <= |ns| && -1 <= p < i && (p == -1 || k < AtOrHead(head, ns, p).height)
    requires k < n.height ==> StopsAt(Heights(ns), i, k, at)
    ensures var nodes := ns[..i] + [n] + ns[i..];
            NodeAt(nodes, NextAt(Heights(nodes), p + 1, k))
            == if k < n.height && p == at then n else NodeAt(ns, NextAt(Heights(ns), p + 1, k))
  {
    hide NodeAt, NextAt;
    var hs := Heights(ns);
    HeightsInserted(ns, i, n);
    NextAtInserted(hs, i, n.height, p + 1, k);
    NodeAtInserted(ns, i, n, NextAt(hs, p + 1, k));
    if k < n.height {
      StopIsUnique(hs, i, k, at, p);
    }
  }

  lemma {:induction false} PointerOfNew(ns: seq<Node>, i: nat, n: Node, k: nat, at: int)
    requires i <= |ns| && k < n.height && StopsAt(Heights(ns), i, k, at)
    ensures var nodes := ns[..i] + [n] + ns[i..];
            NodeAt(nodes, NextAt(Heights(nodes), i + 1, k)) == NodeAt(ns, NextAt(Heights(ns), at + 1, k))
  {
    hide NodeAt, NextAt;
    var hs := Heights(ns);
    HeightsInserted(ns, i, n);
    NextAtUnique(hs, i, k, NextAt(hs, at + 1, k));
    NextAtInserted(hs, i, n.height, i + 1, k);
    NodeAtInserted(ns, i, n, NextAt(hs, i, k));
  }

  lemma {:induction false} PointerAfter(ns: seq<Node>, i: nat, n: Node, p: nat, k: nat)
    requires i < p <= |ns|
    ensures var nodes := ns[..i] + [n] + ns[i..];
            NodeAt(nodes, NextAt(Heights(nodes), p + 1, k)) == NodeAt(ns, NextAt(Heights(ns), p, k))
  {
    hide NodeAt, NextAt;
    var hs := Heights(ns);
    HeightsInserted(ns, i, n);
    NextAtInserted(hs, i, n.height, p + 1, k);
    NodeAtInserted(ns, i, n, NextAt(hs, p, k));
  }

  lemma {:induction false} LeadsTo(head: Node, ns: seq<Node>, p: int, next: seq<Node?>, i: nat, k: nat)
    requires i <= |ns| && k < MaxHeight && StopsAt(Heights(ns), i, k, p) && -1 <= p < |ns| && Leads(head, ns, p, next)
    ensures next[k] == NodeAt(ns, NextAt(Heights(ns), p + 1, k))
  {
  }

  // An old node leads on: redirected to n exactly on the levels where the search left it.
  lemma {:induction false} OldNodeLeads(head: Node, ns: seq<Node>, i: nat, n: Node, p: int, height: nat,
                                        prevs: seq<Node?>, ats: seq<int>, was: seq<Node?>)
    requires i <= |ns| && -1 <= p <= |ns| && p != i && head !in ns && KeysAscend(ns) && n.height == height <= MaxHeight
    requires |prevs| == |ats| == MaxHeight
    requires forall k :: 0 <= k < height ==> PrevOk(head, ns, i, k, prevs[k], ats[k])
    requires Leads(head, ns, if p > i then p - 1 else p, was)
    ensures var m := AtOrHead(head, ns, if p > i then p - 1 else p);
            Leads(head, ns[..i] + [n] + ns[i..], p, Redirected(was, prevs, m, n, height))
  {
    hide NextAt, KeysAscend;
    var q := if p > i then p - 1 else p;
    var m := AtOrHead(head, ns, q);
    NodesDistinct(ns);
    forall k | 0 <= k < MaxHeight
      ensures var nodes := ns[..i] + [n] + ns[i..];
              (if k < height && prevs[k] == m then n else was[k]) ==
              if p == -1 || k < AtOrHead(head, nodes, p).height then NodeAt(nodes, NextAt(Heights(nodes), p + 1, k))
                else null
    {
      InsertedPointer(head, ns, i, n, p, k, if k < height then ats[k] else -1);
      if k < height {
        assert PrevOk(head, ns, i, k, prevs[k], ats[k]);
        assert m == prevs[k] <==> q == ats[k];
      }
    }
  }

  // The new node leads on where its predecessors did.
  lemma {:induction false} NewNodeLeads(head: Node, ns: seq<Node>, i: nat, n: Node, ats: seq<int>, next: seq<Node?>)
    requires i <= |ns| && |next| == |ats| == MaxHeight && n.height <= MaxHeight
    requires forall k :: 0 <= k < n.height ==>
                           && StopsAt(Heights(ns), i, k, ats[k])
                           && next[k] == NodeAt(ns, NextAt(Heights(ns), ats[k] + 1, k))
    requires forall k :: n.height <= k < MaxHeight ==> next[k] == null
    ensures Leads(head, ns[..i] + [n] + ns[i..], i, next)
  {
    hide NextAt;
    forall k | 0 <= k < n.height
      ensures var nodes := ns[..i] + [n] + ns[i..]; next[k] == NodeAt(nodes, NextAt(Heights(nodes), i + 1, k))
    {
      InsertedPointer(head, ns, i, n, i, k, ats[k]);
    }
  }

  lemma {:induction false} UpsertNew(run: seq<Record>, k: TsKey, e: Entry, i: nat)
    requires i <= |run| && (forall j :: 0 <= j < i ==> Less(run[j].key, k))
             && forall j :: i <= j < |run| ==> Less(k, run[j].key)
    ensures Upsert(run, k, e) == run[..i] + [Record(k, e)] + run[i..]
  {
    if i > 0 {
      LessTotal(run[0].key, k);
      UpsertNew(run[1..], k, e, i - 1);
      assert run[..i] + [Record(k, e)] + run[i..] == [run[0]]
             + (run[1..][..i - 1] + [Record(k, e)] + run[1..][i - 1..]);
    } else if run != [] {
      LessTotal(run[0].key, k);
      assert run[..0] + [Record(k, e)] + run[0..] == [Record(k, e)] + run;
    }
  }

  ghost function SplitAt(nodes: seq<Node>, key: TsKey): (i: nat)
    requires KeysAscend(nodes)
    ensures i <= |nodes|
    ensures forall j :: 0 <= j < i ==> Less(nodes[j].key, key)
    ensures forall j :: i <= j < |nodes| ==> !Less(nodes[j].key, key)
  {
    if nodes == [] then 0 else
      var n := |nodes| - 1;
      var i := SplitAt(nodes[..n], key);
      if i == n && Less(nodes[n].key, key) then n + 1
      else (SplitStays(nodes, key, i); i)
  }

  lemma {:induction false} SplitStays(nodes: seq<Node>, key: TsKey, i: nat)
    requires KeysAscend(nodes) && nodes != [] && i < |nodes|
    requires forall j :: i <= j < |nodes| - 1 ==> !Less(nodes[j].key, key)
    requires i == |nodes| - 1 ==> !Less(nodes[|nodes| - 1].key, key)
    ensures !Less(nodes[|nodes| - 1].key, key)
  {
    var n := |nodes| - 1;
    if i < n && Less(nodes[n].key, key) {
      LessTransitive(nodes[i].key, nodes[n].key, key);
    }
  }

  lemma {:induction false} CompareKeysEqual(a: TsKey, b: TsKey)
    ensures Compare(a, b) == 0 <==> a == b
  {
    CompareBytesLaws(a.measurement, b.measurement);
  }

  lemma {:induction false} UpsertFound(run: seq<Record>, k: TsKey, e: Entry, i: nat)
    requires Sorted(run) && i < |run| && run[i].key == k
    ensures Upsert(run, k, e) == run[i := Record(k, e)]
  {
    if i > 0 {
      LessTotal(run[0].key, k);
      UpsertFound(run[1..], k, e, i - 1);
      assert run[i := Record(k, e)] == [run[0]] + run[1..][i - 1 := Record(k, e)];
    } else {
      assert run[0 := Record(k, e)] == [Record(k, e)] + run[1..];
    }
  }
}
