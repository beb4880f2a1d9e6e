// Writers never wait for ever: whatever the state, the steps that the flush and the compaction thread already have
// before them lead to one in which a write goes ahead.
module LsmProgress {
  import opened Types
  import opened Version
  import opened RankedMerge
  import opened Lsm
  import opened LsmInvariant
  import opened LsmCommits
  import opened LsmHistory
  import opened LsmReads
  import opened LsmRuns

  // What the flush and the compaction thread do once they have work.
  predicate IsBackground(a: Action) {
    match a
    case DoBeginFlush => true
    case DoBuildFlush(_) => true
    case DoCommitFlush => true
    case DoMerge => true
    case DoEmit(_) => true
    case DoCommitJob(_) => true
    case _ => false
  }

  // The actions can be taken one after the other from (s, h), all by these threads, and end in (s', h').
  ghost predicate Leads(s: State, h: History, actions: seq<Action>, s': State, h': History)
    decreases |actions|
  {
    if actions == [] then s' == s && h' == h
    else |s.version.levels| == MaxLevel && IsBackground(actions[0]) && Enabled(s, actions[0])
         && Leads(Next(s, actions[0]), NextHistory(s, h, actions[0]), actions[1..], s', h')
  }

  lemma {:induction false} Steps(s: State, h: History, a: Action, rest: seq<Action>, s': State, h': History)
    requires |s.version.levels| == MaxLevel && IsBackground(a) && Enabled(s, a)
    requires Leads(Next(s, a), NextHistory(s, h, a), rest, s', h')
    ensures Leads(s, h, [a] + rest, s', h')
  {
    hide Next, NextHistory, Enabled, IsBackground;
    assert ([a] + rest)[1..] == rest;
  }

  lemma {:induction false} Stays(s: State, h: History)
    ensures Leads(s, h, [], s, h)
  {
  }

  // ---------------------------------------------------------------- every one of their steps leaves less to do

  // Whether the running job has still to be merged, and then how many steps are left of it and of the flush.
  function Unmerged(s: State): nat {
    if s.progress.Picked? then 1 else 0
  }

  function StepsLeft(s: State): nat {
    (if s.imm.Some? then 3 else if s.flush.Begun? then 2 else if s.flush.Built? then 1 else 0)
    + if s.progress.Merging? && s.progress.begin <= |s.progress.merged| then |s.progress.merged| - s.progress.begin + 1
      else 0
  }

  // No table waits to be flushed and no job runs.
  ghost predicate AllDone(s: State) {
    s.imm.None? && s.flush.NoFlush? && s.progress == Idle
  }

  // Each of these steps, whichever comes first and whatever the sizes of the files it writes, leaves less to do and
  // touches neither the active table nor what Write still has to apply.
  lemma {:induction false} StepLeavesLess(s: State, h: History, a: Action)
    requires Reachable(s, h) && |s.version.levels| == MaxLevel && Enabled(s, a) && IsBackground(a)
    ensures var s' := Next(s, a);
            && (Unmerged(s') < Unmerged(s) || (Unmerged(s') == Unmerged(s) && StepsLeft(s') < StepsLeft(s)))
            && s'.mem == s.mem && s'.batches == s.batches && s'.ttl == s.ttl
  {
    hide Inv, Reachable, Good, CommitFlush, CommitJob, Merge, RankInputs, FromZeroKey, SplitEnd, PickJob;
    ReachableIsGood(s, h);
    FlushOrSealed(s);
    match a {
      case DoCommitFlush => CommitFlushFields(s);
      case DoCommitJob(cleanup) => CommitJobFields(s, cleanup);
      case _ =>
    }
  }

  // And while there is something to do, one of them can be taken.
  lemma {:induction false} SomeStep(s: State, h: History) returns (a: Action)
    requires Reachable(s, h) && !AllDone(s)
    ensures |s.version.levels| == MaxLevel && Enabled(s, a) && IsBackground(a)
  {
    hide Inv, Reachable, Good;
    ReachableIsGood(s, h);
    FlushOrSealed(s);
    if s.progress.Merging? {
      MergingWithin(s);
    }
    a := if s.flush.Begun? then DoBuildFlush(0)
         else if s.flush.Built? then DoCommitFlush
         else if s.imm.Some? then DoBeginFlush
         else if s.progress.Picked? then DoMerge
         else if s.progress.begin < |s.progress.merged| then DoEmit(0)
         else DoCommitJob(true);
  }

  lemma {:induction false} WorkEnds(s: State, h: History) returns (actions: seq<Action>, s': State, h': History)
    requires Reachable(s, h)
    ensures Leads(s, h, actions, s', h') && AllDone(s')
    ensures s'.mem == s.mem && s'.batches == s.batches && s'.ttl == s.ttl
    decreases Unmerged(s), StepsLeft(s)
  {
    hide Reachable, Leads, Next, NextHistory, Enabled, IsBackground;
    if AllDone(s) {
      actions, s', h' := [], s, h;
      Stays(s, h);
    } else {
      var a := SomeStep(s, h);
      StepLeavesLess(s, h, a);
      StepReachable(s, h, a);
      var rest;
      rest, s', h' := WorkEnds(Next(s, a), NextHistory(s, h, a));
      Steps(s, h, a, rest, s', h');
      actions := [a] + rest;
    }
  }

  // From every reachable state some run of these steps alone leads to one in which a write goes ahead, whatever the
  // active table uses and whatever its limit is: its condition in MakeRoomForWriteLocked holds.
  lemma {:induction false} WritersAreNeverStuck(s: State, h: History, usage: nat, limit: nat)
    returns (actions: seq<Action>, s': State, h': History)
    requires Reachable(s, h)
    ensures Leads(s, h, actions, s', h') && |s'.version.levels| == MaxLevel
    ensures !(s'.progress != Idle && |s'.version.levels[0]| >= 12)
    ensures usage < limit || (s'.imm.None? && s'.flush.NoFlush?)
    ensures s'.mem == s.mem && s'.batches == s.batches && s'.ttl == s.ttl
  {
    hide Reachable, Leads, Good, Inv;
    actions, s', h' := WorkEnds(s, h);
    LeadsReachable(s, h, actions, s', h');
    ReachableIsGood(s', h');
  }

  lemma {:induction false} LeadsReachable(s: State, h: History, actions: seq<Action>, s': State, h': History)
    requires Reachable(s, h) && Leads(s, h, actions, s', h')
    ensures Reachable(s', h')
    decreases |actions|
  {
    hide Reachable, Next, NextHistory, Enabled, IsBackground;
    if actions != [] {
      StepReachable(s, h, actions[0]);
      LeadsReachable(Next(s, actions[0]), NextHistory(s, h, actions[0]), actions[1..], s', h');
    }
  }
}
