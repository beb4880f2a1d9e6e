// The LRU cache of table blocks. Models src/block_cache.cpp.
module BlockCache {
  import opened Types

  // A list node; the map holds a reference to it, as the source's map holds a list iterator.
  class Entry {
    const key: Bytes
    const value: Bytes
    const charge: nat

    constructor (key: Bytes, value: Bytes)
      ensures this.key == key && this.value == value && this.charge == |value|
    {
      this.key, this.value, this.charge := key, value, |value|;
    }
  }

  // What the cache holds, most recently used first.
  datatype Cached = Cached(key: Bytes, value: Bytes)

  function Charges(s: seq<Cached>): nat {
    if s == [] then 0 else Charges(s[..|s| - 1]) + |s[|s| - 1].value|
  }

  // s without the entry of a key.
  function Without(s: seq<Cached>, key: Bytes): (r: seq<Cached>)
    ensures |r| <= |s|
  {
    if s == [] then [] else if s[0].key == key then Without(s[1..], key) else [s[0]] + Without(s[1..], key)
  }

  function Lookup(s: seq<Cached>, key: Bytes): Option<Bytes> {
    if s == [] then None else if s[0].key == key then Some(s[0].value) else Lookup(s[1..], key)
  }

  // Drop least recently used entries until the rest fit.
  function Pruned(s: seq<Cached>, capacity: nat): seq<Cached> {
    if Charges(s) <= capacity then s else Pruned(s[..|s| - 1], capacity)
  }

  ghost predicate UniqueKeys(s: seq<Cached>) {
    forall i, j :: 0 <= i < j < |s| ==> s[i].key != s[j].key
  }

  // ---------------------------------------------------------------- facts about recency lists

  lemma {:induction false} ChargesConcat(a: seq<Cached>, b: seq<Cached>)
    ensures Charges(a + b) == Charges(a) + Charges(b)
  {
    if b == [] {
      assert a + b == a;
    } else {
      ChargesConcat(a, b[..|b| - 1]);
      assert (a + b)[..|a + b| - 1] == a + b[..|b| - 1];
    }
  }

  lemma {:induction false} ChargesOne(e: Cached)
    ensures Charges([e]) == |e.value|
  {
    assert [e][..0] == [];
  }

  lemma {:induction false} WithoutMembers(s: seq<Cached>, key: Bytes)
    ensures forall e :: e in Without(s, key) <==> e in s && e.key != key
    ensures UniqueKeys(s) ==> UniqueKeys(Without(s, key))
  {
    if s != [] {
      WithoutMembers(s[1..], key);
      assert s == [s[0]] + s[1..];
      var w := Without(s[1..], key);
      if UniqueKeys(s) {
        assert forall i :: 0 <= i < |w| ==> w[i] in s[1..];
      }
    }
  }

  lemma {:induction false} LookupFinds(s: seq<Cached>, e: Cached)
    requires UniqueKeys(s) && e in s
    ensures Lookup(s, e.key) == Some(e.value)
  {
    if s[0] != e {
      assert e in s[1..];
      LookupFinds(s[1..], e);
    }
  }

  lemma {:induction false} LookupMisses(s: seq<Cached>, key: Bytes)
    ensures Lookup(s, key) == None <==> forall e :: e in s ==> e.key != key
    ensures Lookup(s, key).Some? ==> Cached(key, Lookup(s, key).value) in s
  {
    if s != [] {
      LookupMisses(s[1..], key);
      assert s == [s[0]] + s[1..];
      assert s[0] == Cached(s[0].key, s[0].value);
    }
  }

  // In a list with unique keys, removing a key is removing the element that has it.
  lemma {:induction false} WithoutIsRemoval(s: seq<Cached>, i: nat)
    requires UniqueKeys(s) && i < |s|
    ensures Without(s, s[i].key) == s[..i] + s[i + 1..]
  {
    if i == 0 {
      WithoutAbsent(s[1..], s[0].key);
      assert s[..0] + s[1..] == s[1..];
    } else {
      WithoutIsRemoval(s[1..], i - 1);
      assert s[1..][i - 1] == s[i];
      assert s[1..][..i - 1] == s[1..i] && s[1..][i..] == s[i + 1..];
      assert [s[0]] + (s[1..i] + s[i + 1..]) == s[..i] + s[i + 1..];
    }
  }

  lemma {:induction false} WithoutAbsent(s: seq<Cached>, key: Bytes)
    requires forall e :: e in s ==> e.key != key
    ensures Without(s, key) == s
  {
    if s != [] {
      WithoutAbsent(s[1..], key);
      assert s == [s[0]] + s[1..];
    }
  }

  // Pruning keeps the longest prefix that fits.
  lemma {:induction false} PrunedIsLongestFit(s: seq<Cached>, capacity: nat)
    ensures var p := Pruned(s, capacity);
            && p <= s && Charges(p) <= capacity
            && (|p| < |s| ==> Charges(s[..|p| + 1]) > capacity)
  {
    if Charges(s) > capacity {
      var init := s[..|s| - 1];
      PrunedIsLongestFit(init, capacity);
      var p := Pruned(init, capacity);
      if |p| < |init| {
        assert init[..|p| + 1] == s[..|p| + 1];
      } else {
        assert s[..|p| + 1] == s;
      }
    }
  }

  // The most recently used entry survives if it fits on its own: the entry just put is never evicted.
  lemma {:induction false} PrunedKeepsNewest(s: seq<Cached>, capacity: nat)
    requires s != [] && |s[0].value| <= capacity
    ensures Pruned(s, capacity) != [] && Pruned(s, capacity)[0] == s[0]
  {
    PrunedIsLongestFit(s, capacity);
    ChargesOne(s[0]);
    assert s[..1] == [s[0]];
  }

  // ---------------------------------------------------------------- the cache object

  ghost function View(lru: seq<Entry>): (s: seq<Cached>)
    ensures |s| == |lru|
  {
    seq(|lru|, i requires 0 <= i < |lru| => Cached(lru[i].key, lru[i].value))
  }

  // The list and the map hold the same entries, with unique keys and true charges.
  ghost predicate Linked(lru: seq<Entry>, index: map<Bytes, Entry>) {
    && (forall i :: 0 <= i < |lru| ==> lru[i].key in index && index[lru[i].key] == lru[i])
    && (forall i :: 0 <= i < |lru| ==> lru[i].charge == |lru[i].value|)
    && (forall i, j :: 0 <= i < j < |lru| ==> lru[i].key != lru[j].key)
    && (forall k :: k in index ==> index[k] in lru && index[k].key == k)
  }

  lemma {:induction false} LinkedIsUnique(lru: seq<Entry>, index: map<Bytes, Entry>)
    requires Linked(lru, index)
    ensures UniqueKeys(View(lru))
    ensures forall k :: k !in index ==> forall e :: e in View(lru) ==> e.key != k
  {
  }

  lemma {:induction false} RemoveKeepsLinked(lru: seq<Entry>, index: map<Bytes, Entry>, i: nat)
    requires Linked(lru, index) && i < |lru|
    ensures Linked(lru[..i] + lru[i + 1..], index - {lru[i].key})
  {
    var rest, fewer := lru[..i] + lru[i + 1..], index - {lru[i].key};
    forall j | 0 <= j < |rest| ensures rest[j] in lru && rest[j].key != lru[i].key {
      assert rest[j] == if j < i then lru[j] else lru[j + 1];
    }
    forall k | k in fewer ensures index[k] in rest {
      StillInList(lru, index[k], i);
    }
  }

  lemma {:induction false} StillInList(lru: seq<Entry>, e: Entry, i: nat)
    requires i < |lru| && e in lru && e != lru[i]
    ensures e in lru[..i] + lru[i + 1..]
  {
    var j :| 0 <= j < |lru| && lru[j] == e;
    assert (lru[..i] + lru[i + 1..])[if j < i then j else j - 1] == e;
  }

  lemma {:induction false} RemoveView(lru: seq<Entry>, index: map<Bytes, Entry>, i: nat)
    requires Linked(lru, index) && i < |lru|
    ensures var before, rest := View(lru), View(lru[..i] + lru[i + 1..]);
            && rest == Without(before, lru[i].key) == before[..i] + before[i + 1..]
            && Charges(before) == |lru[i].value| + Charges(rest)
  {
    hide Charges, Without, Linked;
    var before := View(lru);
    LinkedIsUnique(lru, index);
    WithoutIsRemoval(before, i);
    assert View(lru[..i] + lru[i + 1..]) == before[..i] + before[i + 1..];
    ChargesConcat(before[..i], before[i + 1..]);
    ChargesConcat(before[..i], [before[i]] + before[i + 1..]);
    ChargesConcat([before[i]], before[i + 1..]);
    ChargesOne(before[i]);
    assert before[..i] + ([before[i]] + before[i + 1..]) == before;
  }

  lemma {:induction false} PushKeepsLinked(lru: seq<Entry>, index: map<Bytes, Entry>, e: Entry)
    requires Linked(lru, index) && e.key !in index && e.charge == |e.value|
    ensures Linked([e] + lru, index[e.key := e])
  {
    var all := [e] + lru;
    assert forall j :: 0 < j < |all| ==> all[j] == lru[j - 1];
    var more := index[e.key := e];
    forall k | k in more ensures more[k] in all {
      if k != e.key {
        var j :| 0 <= j < |lru| && lru[j] == index[k];
        assert all[j + 1] == index[k];
      } else {
        assert all[0] == e;
      }
    }
  }

  lemma {:induction false} PushView(lru: seq<Entry>, e: Entry)
    ensures View([e] + lru) == [Cached(e.key, e.value)] + View(lru)
    ensures Charges(View([e] + lru)) == |e.value| + Charges(View(lru))
  {
    hide Charges;
    assert View([e] + lru) == [Cached(e.key, e.value)] + View(lru);
    ChargesConcat([Cached(e.key, e.value)], View(lru));
    ChargesOne(Cached(e.key, e.value));
  }

  class LruCache {
    const capacity: nat
    var usage: nat
    var lru: seq<Entry>
    var index: map<Bytes, Entry>
    var hits: nat
    var misses: nat

    ghost function Contents(): (s: seq<Cached>)
      reads this
    {
      View(lru)
    }

    // List and map agree, and usage is the exact sum of charges.
    ghost predicate Coherent()
      reads this
    {
      Linked(lru, index) && usage == Charges(Contents())
    }

    ghost predicate Valid()
      reads this
    {
      Coherent() && usage <= capacity
    }

    constructor (capacity: nat)
      ensures Valid() && this.capacity == capacity && Contents() == [] && hits == 0 && misses == 0
    {
      this.capacity := capacity;
      usage, lru, index, hits, misses := 0, [], map[], 0, 0;
    }

    // A hit moves the entry to the front.
    method Get(key: Bytes) returns (found: bool, value: Bytes)
      requires Valid()
      modifies this
      ensures Valid()
      ensures Lookup(old(Contents()), key) == if found then Some(value) else None
      ensures Contents() == if found then [Cached(key, value)] + Without(old(Contents()), key) else old(Contents())
      ensures hits == old(hits) + (if found then 1 else 0) && misses == old(misses) + (if found then 0 else 1)
    {
      hide Charges, Without, Lookup, View, Linked;
      ghost var before := Contents();
      LinkedIsUnique(lru, index);
      if key !in index {
        misses := misses + 1;
        LookupMisses(before, key);
        return false, [];
      }
      var e := index[key];
      InList(lru, index, key);
      var i: nat :| i < |lru| && lru[i] == e;
      LookupFinds(before, Cached(key, e.value));
      RemoveKeepsLinked(lru, index, i);
      RemoveView(lru, index, i);
      PushKeepsLinked(lru[..i] + lru[i + 1..], index - {key}, e);
      PushView(lru[..i] + lru[i + 1..], e);
      assert (index - {key})[key := e] == index;
      lru := [e] + (lru[..i] + lru[i + 1..]);
      value := e.value;
      hits := hits + 1;
      found := true;
    }

    // A value larger than the cache is not stored, and leaves an older value of the key in place.
    method Put(key: Bytes, value: Bytes)
      requires Valid()
      modifies this
      ensures Valid() && hits == old(hits) && misses == old(misses)
      ensures Contents() == if capacity == 0 || |value| > capacity then old(Contents())
                            else Pruned([Cached(key, value)] + Without(old(Contents()), key), capacity)
    {
      hide Charges, Without, View, Linked, Pruned;
      if capacity == 0 || |value| > capacity {
        return;
      }
      if key in index {
        Erase(key);
      } else {
        LinkedIsUnique(lru, index);
        WithoutAbsent(Contents(), key);
      }
      var e := new Entry(key, value);
      PushKeepsLinked(lru, index, e);
      PushView(lru, e);
      lru := [e] + lru;
      index := index[key := e];
      usage := usage + e.charge;
      Prune();
    }

    // The erase branch of Put.
    method Erase(key: Bytes)
      requires Coherent() && key in index
      modifies `usage, `lru, `index
      ensures Coherent() && key !in index
      ensures Contents() == Without(old(Contents()), key)
    {
      hide Charges, Without, View, Linked;
      var e := index[key];
      InList(lru, index, key);
      var i: nat :| i < |lru| && lru[i] == e;
      RemoveKeepsLinked(lru, index, i);
      RemoveView(lru, index, i);
      usage := usage - e.charge;
      lru := lru[..i] + lru[i + 1..];
      index := index - {key};
    }

    method Prune()
      requires Coherent()
      modifies `usage, `lru, `index
      ensures Valid() && Contents() == Pruned(old(Contents()), capacity)
    {
      hide Charges, Without, View, Linked;
      while usage > capacity && lru != []
        invariant Coherent()
        invariant Pruned(Contents(), capacity) == Pruned(old(Contents()), capacity)
        decreases |lru|
      {
        var e, last := lru[|lru| - 1], |lru| - 1;
        InList(lru, index, e.key);
        RemoveKeepsLinked(lru, index, last);
        RemoveView(lru, index, last);
        assert lru[..last] + lru[last + 1..] == lru[..last];
        assert Contents()[..last] + Contents()[last + 1..] == Contents()[..last];
        usage := usage - e.charge;
        index := index - {e.key};
        lru := lru[..last];
      }
      if lru == [] {
        EmptyView();
      }
    }

    method Clear()
      modifies this
      ensures Valid() && Contents() == [] && hits == 0 && misses == 0
    {
      usage, lru, index, hits, misses := 0, [], map[], 0, 0;
    }
  }

  lemma {:induction false} EmptyView()
    ensures View([]) == [] && Charges(View([])) == 0
  {
  }

  lemma {:induction false} InList(lru: seq<Entry>, index: map<Bytes, Entry>, key: Bytes)
    requires Linked(lru, index)
    ensures key in index ==> index[key] in lru && index[key].key == key && Cached(key, index[key].value) in View(lru)
    ensures forall e :: e in lru ==> e.key in index && index[e.key] == e && e.charge == |e.value|
  {
    if key in index {
      var i :| 0 <= i < |lru| && lru[i] == index[key];
      assert View(lru)[i] == Cached(key, index[key].value);
    }
  }
}
