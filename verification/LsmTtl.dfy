// Time to live over whole runs: what was written and which rules were set since the process started decide what has
// expired, and with that what Get and RangeQuery answer.
module LsmTtl {
  import opened Types
  import opened Version
  import opened Lsm
  import opened LsmInvariant
  import opened LsmCommits
  import opened LsmHistory
  import opened LsmReads
  import opened LsmRuns
  import opened LsmRange
  import Manifest
  import Wal

  // ---------------------------------------------------------------- what a run has told the engine

  function KeySeq(ops: seq<Record>): (keys: seq<TsKey>)
    ensures |keys| == |ops| && forall i :: 0 <= i < |ops| ==> keys[i] == ops[i].key
  {
    seq(|ops|, i requires 0 <= i < |ops| => ops[i].key)
  }

  // The keys that reached the active table since the process started, those of the replayed log included.
  function Seen(states: seq<State>, actions: seq<Action>, i: nat): seq<TsKey>
    requires i <= |actions| <= |states|
  {
    if i == 0 then [] else
      var before, s := Seen(states, actions, i - 1), states[i - 1];
      match actions[i - 1]
      case DoPut(r) => before + [r.key]
      case DoApplyFromBatch(j) =>
        if j < |s.batches| && s.batches[j] != [] then before + [s.batches[j][0].key] else before
      case DoReopen => KeySeq(s.wal)
      case _ => before
  }

  // The seconds of the last SetTTL for m since then.
  function RuleSeconds(actions: seq<Action>, i: nat, m: Bytes): int
    requires i <= |actions|
  {
    if i == 0 then 0 else
      match actions[i - 1]
      case DoSetTtl(measurement, seconds) => if measurement == m then seconds else RuleSeconds(actions, i - 1, m)
      case DoReopen => 0
      case _ => RuleSeconds(actions, i - 1, m)
  }

  // A rule's latest timestamp is the greatest one seen for its measurement.
  ghost predicate LatestIs(ttl: TtlMap, seen: seq<TsKey>) {
    && (forall x :: x in seen ==> x.measurement in ttl && x.timestamp <= ttl[x.measurement].latest)
    && (forall m :: m in ttl && ttl[m].latest != -0x8000_0000_0000_0000 ==> TsKey(m, ttl[m].latest) in seen)
  }

  ghost predicate SecondsAre(ttl: TtlMap, actions: seq<Action>, i: nat)
    requires i <= |actions|
  {
    forall m :: RuleSeconds(actions, i, m) == if m in ttl then ttl[m].seconds else 0
  }

  lemma {:induction false} TouchKeepsLatest(ttl: TtlMap, seen: seq<TsKey>, k: TsKey)
    requires LatestIs(ttl, seen)
    ensures LatestIs(Touch(ttl, k), seen + [k])
    ensures forall m :: (if m in Touch(ttl, k) then Touch(ttl, k)[m].seconds else 0)
                        == if m in ttl then ttl[m].seconds else 0
  {
    var ttl' := Touch(ttl, k);
    forall m | m in ttl' && ttl'[m].latest != -0x8000_0000_0000_0000 ensures TsKey(m, ttl'[m].latest) in seen + [k] {
      assert TsKey(m, ttl'[m].latest) == k || TsKey(m, ttl'[m].latest) in seen;
    }
  }

  lemma {:induction false} SetTtlKeepsLatest(ttl: TtlMap, seen: seq<TsKey>, m: Bytes, seconds: int)
    requires LatestIs(ttl, seen)
    ensures LatestIs(SetTtl(ttl, m, seconds), seen)
  {
  }

  // After a restart the rule of every logged measurement has the greatest timestamp logged for it.
  lemma {:induction false} TouchAllLatest(ops: seq<Record>)
    ensures LatestIs(TouchAll(map[], ops), KeySeq(ops))
    ensures forall m :: m in TouchAll(map[], ops) ==> TouchAll(map[], ops)[m].seconds == 0
  {
    if ops != [] {
      var n := |ops| - 1;
      TouchAllLatest(ops[..n]);
      TouchKeepsLatest(TouchAll(map[], ops[..n]), KeySeq(ops[..n]), ops[n].key);
      assert KeySeq(ops) == KeySeq(ops[..n]) + [ops[n].key];
    }
  }

  // What each action does to the rules.
  lemma {:induction false} NextTtl(s: State, a: Action)
    requires Inv(s) && |s.version.levels| == MaxLevel && Enabled(s, a)
    ensures Next(s, a).ttl == match a
                              case DoPut(r) => Touch(s.ttl, r.key)
                              case DoApplyFromBatch(j) => Touch(s.ttl, s.batches[j][0].key)
                              case DoSetTtl(m, seconds) => SetTtl(s.ttl, m, seconds)
                              case DoReopen => TouchAll(map[], s.wal)
                              case _ => s.ttl
  {
    hide Inv, PickJob, Upsert, Touch, SetTtl, TouchAll, Cleanup, TryDelete, CommitJob, InstallFlush, ViewOf, Replay,
         Recover, LiveFiles, AllNumbers;
    match a {
      case DoCommitJob(cleanup) => CommitJobFields(s, cleanup);
      case DoCommitFlush => CommitFlushFields(s);
      case DoCleanup => CleanupFields(s);
      case DoTryDelete => TryDeleteTtl(s);
      case _ =>
    }
  }

  lemma {:induction false} StepKeepsTtl(states: seq<State>, histories: seq<History>, actions: seq<Action>, i: nat)
    requires IsRun(states, histories, actions) && i < |actions|
    requires LatestIs(states[i].ttl, Seen(states, actions, i)) && SecondsAre(states[i].ttl, actions, i)
    requires Inv(states[i])
    ensures LatestIs(states[i + 1].ttl, Seen(states, actions, i + 1)) && SecondsAre(states[i + 1].ttl, actions, i + 1)
  {
    hide Inv, Touch, SetTtl, TouchAll, LatestIs, Next, NextHistory;
    var s, a, seen := states[i], actions[i], Seen(states, actions, i);
    assert IsStep(s, histories[i], a, states[i + 1], histories[i + 1]);
    NextTtl(s, a);
    match a {
      case DoPut(r) => TouchKeepsLatest(s.ttl, seen, r.key);
      case DoApplyFromBatch(j) => TouchKeepsLatest(s.ttl, seen, s.batches[j][0].key);
      case DoSetTtl(m, seconds) =>
        SetTtlKeepsLatest(s.ttl, seen, m, seconds);
        SetTtlSets(s.ttl, m, seconds);
      case DoReopen => TouchAllLatest(s.wal);
      case _ =>
    }
  }

  lemma {:induction false} TryDeleteTtl(s: State)
    ensures TryDelete(s).ttl == s.ttl
  {
  }

  lemma {:induction false} SetTtlSets(ttl: TtlMap, m: Bytes, seconds: int)
    ensures forall x :: (if x in SetTtl(ttl, m, seconds) then SetTtl(ttl, m, seconds)[x].seconds else 0)
                        == if x == m then seconds else if x in ttl then ttl[x].seconds else 0
  {
  }

  // In every run the rules say what was set and seen since the process started.
  lemma {:induction false} RulesOfRun(states: seq<State>, histories: seq<History>, actions: seq<Action>, i: nat)
    requires IsRun(states, histories, actions) && i <= |actions|
    ensures LatestIs(states[i].ttl, Seen(states, actions, i)) && SecondsAre(states[i].ttl, actions, i)
  {
    hide Good, Inv, IsStep, LatestIs;
    if i == 0 {
      NothingSeen();
    } else {
      RulesOfRun(states, histories, actions, i - 1);
      RunIsGood(states, histories, actions, i - 1);
      GoodIsInv(states[i - 1], histories[i - 1]);
      StepKeepsTtl(states, histories, actions, i - 1);
    }
  }

  lemma {:induction false} NothingSeen()
    ensures LatestIs(map[], [])
  {
  }

  // ---------------------------------------------------------------- what has expired

  // Some key of the measurement, seen since the process started, is more than the rule's seconds ahead of k.
  ghost predicate Outlived(states: seq<State>, actions: seq<Action>, k: TsKey)
    requires |actions| <= |states|
  {
    var n := RuleSeconds(actions, |actions|, k.measurement);
    n > 0 && exists x :: x in Seen(states, actions, |actions|) && x.measurement == k.measurement
                         && k.timestamp + n * 1_000_000_000 < x.timestamp
  }

  lemma {:induction false} ExpiredExactlyWhen(states: seq<State>, histories: seq<History>, actions: seq<Action>,
                                              k: TsKey)
    requires IsRun(states, histories, actions)
    ensures Expired(states[|actions|].ttl, k) <==> Outlived(states, actions, k)
  {
    hide IsStep, Seen, RuleSeconds;
    RulesOfRun(states, histories, actions, |actions|);
    var ttl, seen := states[|actions|].ttl, Seen(states, actions, |actions|);
    var m, n := k.measurement, RuleSeconds(actions, |actions|, k.measurement);
    if Expired(ttl, k) {
      assert TsKey(m, ttl[m].latest) in seen;
    }
  }

  // ---------------------------------------------------------------- what Get answers

  // Position i holds the last write to k.
  ghost predicate LastWriteAt(writes: seq<Record>, k: TsKey, i: nat) {
    i < |writes| && writes[i].key == k && forall j :: i < j < |writes| ==> writes[j].key != k
  }

  lemma {:induction false} LastCopy(writes: seq<Record>, k: TsKey, i: nat)
    requires LastWriteAt(writes, k, i)
    ensures Answer(CopiesIn(writes, k)) == Visible(writes[i].entry)
  {
    hide CopiesIn;
    var before, after := writes[..i], writes[i + 1..];
    assert writes == before + [writes[i]] + after;
    CopiesInConcat(before + [writes[i]], after, k);
    CopiesInConcat(before, [writes[i]], k);
    CopiesOfSingleton(writes[i], k);
    CopiesInMembers(after, k);
    assert CopiesIn(after, k) == [];
    assert CopiesIn(writes, k) == CopiesIn(before, k) + [writes[i].entry];
  }

  // At the end of every run with no flush in flight, for every key of the domain that no restart and no relaxed rule
  // may have cost its last write: an expired key reads as nothing, and any other as its last write says.
  lemma {:induction false} RunReadsBack(states: seq<State>, histories: seq<History>, actions: seq<Action>, k: TsKey)
    requires IsRun(states, histories, actions)
    requires var s, h := states[|actions|], histories[|actions|];
             k !in h.lost && InDomain(k) && s.flush.NoFlush?
    ensures var s, writes := states[|actions|], histories[|actions|].writes;
            && |s.version.levels| == MaxLevel
            && (Outlived(states, actions, k) ==> Get(s, k) == None)
            && (!Outlived(states, actions, k) ==>
                  && (forall i: nat :: LastWriteAt(writes, k, i) ==>
                        Get(s, k) == match writes[i].entry { case Value(v) => Some(v) case Deletion => None })
                  && ((forall w :: w in writes ==> w.key != k) ==> Get(s, k) == None))
  {
    hide IsStep, Outlived, Get, InDomain, CopiesIn, Expired;
    var s, h := states[|actions|], histories[|actions|];
    assert Reachable(s, h);
    StoreRefinesMap(s, h, k);
    ExpiredExactlyWhen(states, histories, actions, k);
    if !Outlived(states, actions, k) {
      forall i: nat | LastWriteAt(h.writes, k, i)
        ensures Get(s, k) == match h.writes[i].entry { case Value(v) => Some(v) case Deletion => None }
      {
        LastCopy(h.writes, k, i);
      }
      CopiesInMembers(h.writes, k);
    }
  }

  // ---------------------------------------------------------------- ordinary runs

  // No restart, and no SetTTL that clears a rule or raises its seconds.
  ghost predicate Ordinary(actions: seq<Action>) {
    forall i :: 0 <= i < |actions| ==>
      && !actions[i].DoReopen?
      && (actions[i].DoSetTtl? ==> !Raises(actions, i, actions[i].measurement, actions[i].seconds))
  }

  predicate Raises(actions: seq<Action>, i: nat, m: Bytes, seconds: int)
    requires i <= |actions|
  {
    var n := RuleSeconds(actions, i, m);
    n > 0 && !(0 < seconds <= n)
  }

  lemma {:induction false} TighterRule(writes: seq<Record>, ttl: TtlMap, m: Bytes, seconds: int)
    requires m in ttl && ttl[m].seconds > 0 ==> 0 < seconds <= ttl[m].seconds
    ensures Revived(writes, ttl, SetTtl(ttl, m, seconds)) == {} && !Relaxes(ttl, m, seconds)
  {
    forall k | Expired(ttl, k) ensures Expired(SetTtl(ttl, m, seconds), k) {
      if k.measurement == m {
        assert ttl[m].seconds * 1_000_000_000 >= seconds * 1_000_000_000;
      }
    }
  }

  // In such a run every write can be trusted.
  lemma {:induction false} NothingLost(states: seq<State>, histories: seq<History>, actions: seq<Action>, i: nat)
    requires IsRun(states, histories, actions) && i <= |actions| && Ordinary(actions)
    ensures histories[i].lost == {} && histories[i].relaxed == {}
  {
    hide Revived, SetTtl, Relaxes, LatestIs, Enabled, Next, RuleSeconds;
    if i > 0 {
      NothingLost(states, histories, actions, i - 1);
      assert IsStep(states[i - 1], histories[i - 1], actions[i - 1], states[i], histories[i]);
      if actions[i - 1].DoSetTtl? {
        var m := actions[i - 1].measurement;
        RulesOfRun(states, histories, actions, i - 1);
        assert RuleSeconds(actions, i - 1, m) == if m in states[i - 1].ttl then states[i - 1].ttl[m].seconds else 0;
        assert !Raises(actions, i - 1, m, actions[i - 1].seconds);
        TighterRule(histories[i - 1].writes, states[i - 1].ttl, m, actions[i - 1].seconds);
      }
    }
  }

  // The writes of a run, in order: what Put and Write were given.
  function Given(states: seq<State>, actions: seq<Action>, i: nat): seq<Record>
    requires i <= |actions| <= |states|
  {
    if i == 0 then [] else
      var before, s := Given(states, actions, i - 1), states[i - 1];
      match actions[i - 1]
      case DoPut(r) => before + [r]
      case DoApplyFromBatch(j) => if j < |s.batches| && s.batches[j] != [] then before + [s.batches[j][0]] else before
      case _ => before
  }

  lemma {:induction false} WritesAreGiven(states: seq<State>, histories: seq<History>, actions: seq<Action>, i: nat)
    requires IsRun(states, histories, actions) && i <= |actions| && Ordinary(actions)
    ensures histories[i].writes == Given(states, actions, i)
  {
    hide Revived, SetTtl, Relaxes, Next, RuleSeconds, Raises, PickJob, Manifest.Printable, Wal.AllLoggable, HasFile;
    if i > 0 {
      WritesAreGiven(states, histories, actions, i - 1);
      assert IsStep(states[i - 1], histories[i - 1], actions[i - 1], states[i], histories[i]);
    }
  }

  // The store is a plain map. At the end of such a run with no flush in flight, a key that is outlived reads as nothing
  // and any other as the last write it was given says, whatever was flushed and compacted in between.
  lemma {:induction false} OrdinaryRunIsMap(states: seq<State>, histories: seq<History>, actions: seq<Action>, k: TsKey)
    requires IsRun(states, histories, actions) && Ordinary(actions)
    requires states[|actions|].flush.NoFlush?
    requires if k.measurement == [] then k.timestamp >= 0 else k.measurement[0] < 0xFF || k.measurement == [0xFF]
    ensures var s, given := states[|actions|], Given(states, actions, |actions|);
            && |s.version.levels| == MaxLevel
            && (Outlived(states, actions, k) ==> Get(s, k) == None)
            && (!Outlived(states, actions, k) ==>
                  && (forall i: nat :: LastWriteAt(given, k, i) ==>
                        Get(s, k) == match given[i].entry { case Value(v) => Some(v) case Deletion => None })
                  && ((forall w :: w in given ==> w.key != k) ==> Get(s, k) == None))
  {
    hide IsStep, Outlived, Get, InDomain, LastWriteAt, Ordinary;
    NothingLost(states, histories, actions, |actions|);
    WritesAreGiven(states, histories, actions, |actions|);
    DomainInBytes(k);
    RunReadsBack(states, histories, actions, k);
  }

  // ---------------------------------------------------------------- a rule cuts at exactly its seconds

  // Three puts to one measurement at the given timestamps, and then a rule.
  lemma {:induction false} ThreePutsAndRule(m: Bytes, n: int, ra: Record, rb: Record, rc: Record)
    returns (s: State, h: History)
    requires ra.key.measurement == m && rb.key.measurement == m && rc.key.measurement == m
    requires ra.key.timestamp < rb.key.timestamp < rc.key.timestamp
    ensures Reachable(s, h) && Inv(s) && s.version.levels == EmptyLevels() && s.imm.None? && s.flush.NoFlush?
    ensures forall k :: CopiesIn(s.mem, k) == if k == rc.key then [rc.entry] else if k == rb.key then [rb.entry]
                                             else if k == ra.key then [ra.entry] else []
    ensures s.ttl == map[m := TtlRule(n, rc.key.timestamp)]
  {
    hide Inv, Reachable, CopiesIn, Upsert, NextHistory;
    InitReachable(0);
    StepReachable(Init(0), NoHistory, DoPut(ra));
    var s1, h1 := Put(Init(0), ra), NextHistory(Init(0), NoHistory, DoPut(ra));
    StepReachable(s1, h1, DoPut(rb));
    var s2, h2 := Put(s1, rb), NextHistory(s1, h1, DoPut(rb));
    StepReachable(s2, h2, DoPut(rc));
    var s3, h3 := Put(s2, rc), NextHistory(s2, h2, DoPut(rc));
    StepReachable(s3, h3, DoSetTtl(m, n));
    s, h := s3.(ttl := SetTtl(s3.ttl, m, n)), NextHistory(s3, h3, DoSetTtl(m, n));
    ReachableIsGood(s, h);
    EmptySorted();
    UpsertMembers([], ra.key, ra.entry);
    UpsertMembers(s1.mem, rb.key, rb.entry);
    forall k ensures CopiesIn(s.mem, k) == if k == rc.key then [rc.entry] else if k == rb.key then [rb.entry]
                                           else if k == ra.key then [ra.entry] else [] {
      NoCopies(k);
      UpsertCopies([], ra.key, ra.entry, k);
      UpsertCopies(s1.mem, rb.key, rb.entry, k);
      UpsertCopies(s2.mem, rc.key, rc.entry, k);
    }
  }

  lemma {:induction false} GetFromMem(s: State, k: TsKey)
    requires Inv(s) && s.version.levels == EmptyLevels() && s.imm.None? && s.flush.NoFlush?
    ensures |s.version.levels| == MaxLevel
    ensures Get(s, k) == if Expired(s.ttl, k) then None else Answer(CopiesIn(s.mem, k))
  {
    hide Inv, CopiesIn, DeepCopies, Get, Expired;
    NoDeepCopies(s.disk, s.version.levels, 0, k);
    NoCopies(k);
    GetAnswersNewest(s, k);
    assert [] + ([] + CopiesIn(s.mem, k)) == CopiesIn(s.mem, k);
  }

  ghost predicate Rising(out: seq<Record>) {
    forall i, j :: 0 <= i < j < |out| ==> out[i].key.timestamp < out[j].key.timestamp
  }

  lemma {:induction false} ThreeDiffer(out: seq<Record>)
    requires Rising(out) && |out| >= 3
    ensures out[0] != out[1] && out[1] != out[2] && out[2] != out[0]
    ensures out[0] in out && out[1] in out && out[2] in out
  {
    assert out[0].key.timestamp < out[1].key.timestamp && out[1].key.timestamp < out[2].key.timestamp;
  }

  lemma {:induction false} TwoAscending(out: seq<Record>, a: Record, b: Record)
    requires Rising(out) && a.key.timestamp < b.key.timestamp && forall r :: r in out <==> r == a || r == b
    ensures out == [a, b]
  {
    assert a in out && b in out;
    if |out| >= 3 {
      ThreeDiffer(out);
      assert false;
    }
    assert out[0] in out && out[|out| - 1] in out;
  }

  // Under a rule of n seconds a value n * 10^9 behind the latest timestamp is the oldest that is still there.
  lemma {:induction false} RuleCutsExactly(m: Bytes, n: int, latest: int64, v1: Bytes, v2: Bytes, v3: Bytes)
    returns (s: State, h: History)
    requires n > 0 && -0x8000_0000_0000_0000 <= latest - n * 1_000_000_000 - 1
    ensures Reachable(s, h) && |s.version.levels| == MaxLevel
    ensures Get(s, TsKey(m, latest - n * 1_000_000_000 - 1)) == None
    ensures Get(s, TsKey(m, latest - n * 1_000_000_000)) == Some(v2) && Get(s, TsKey(m, latest)) == Some(v3)
    ensures LsmRange.RangeQuery(s, m, latest - n * 1_000_000_000 - 1, latest)
            == [Record(TsKey(m, latest - n * 1_000_000_000), Value(v2)), Record(TsKey(m, latest), Value(v3))]
  {
    hide Inv, Reachable, CopiesIn, Get, LsmRange.RangeQuery;
    var start := latest - n * 1_000_000_000 - 1;
    var ra, rb, rc := Record(TsKey(m, start), Value(v1)), Record(TsKey(m, start + 1), Value(v2)),
      Record(TsKey(m, latest), Value(v3));
    s, h := ThreePutsAndRule(m, n, ra, rb, rc);
    GetFromMem(s, ra.key);
    var out := LsmRange.RangeQuery(s, m, start, latest);
    RangeQueryAgreesWithGet(s, h, m, start, latest);
    forall r ensures r in out <==> r == rb || r == rc {
      GetFromMem(s, r.key);
    }
    TwoAscending(out, rb, rc);
    GetFromMem(s, rb.key);
    GetFromMem(s, rc.key);
  }
}
