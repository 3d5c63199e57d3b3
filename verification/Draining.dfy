/** Conservation and draining over whole runs: how many operations there are, and what a
    push run has done once it has ended, with everything that goes on in between
    (desktop/src/main/sync.ts:132-186, desktop/src/main/offlineStore.ts:216-230). */
module Draining {
  import opened Wrappers
  import opened LocalStore
  import opened PendingOps
  import opened SyncProtocol
  import opened SyncSafety
  import opened PushRun
  import opened RunTasks
  import LateFailures

  // ---- conservation ----------------------------------------------------------------------

  /** How many operations a step puts into the queue: a failed request one, a payment a
      ledger entry as well. */
  function EnqueuedBy(s: System, a: Action): nat {
    if a.Offline? && a.req.meth != "GET" && Fresh(s.store, a.draws)
    then if TakesPayment(a.req) then 2 else 1
    else 0
  }

  function Enqueued(actions: seq<Action>): nat {
    if actions == [] then 0
    else
      var n := |actions| - 1;
      Enqueued(actions[..n]) + EnqueuedBy(Exec(START, actions[..n]), actions[n])
  }

  lemma StepEnqueues(s: System, a: Action)
    ensures |Step(s, a).store.ops| == |s.store.ops| + EnqueuedBy(s, a)
  {
    if a.Offline? { HandleOfflineOps(s.store, a.req, a.draws); }
  }

  /** In every run, overlapping or not, the four statuses account for exactly the
      operations that were enqueued. */
  lemma {:induction false} QueueCountsEnqueues(actions: seq<Action>)
    ensures var ops := Exec(START, actions).store.ops;
            && |ops| == Enqueued(actions)
            && Count(ops, Pending) + Count(ops, Failed) + Count(ops, Conflict) + Count(ops, Synced) == Enqueued(actions)
    decreases |actions|
  {
    if actions != [] {
      var n := |actions| - 1;
      QueueCountsEnqueues(actions[..n]);
      StepEnqueues(Exec(START, actions[..n]), actions[n]);
    }
    StatusesPartitionQueue(Exec(START, actions).store.ops);
  }

  // ---- draining --------------------------------------------------------------------------

  /** The row is synced, or run `r` has still to settle it. */
  ghost predicate OnItsWay(s: System, r: nat, i: nat) {
    && r < |s.runs| && i < |s.store.ops|
    && (s.store.ops[i].status == Synced || s.store.ops[i].id in TaskIds(s, r))
  }

  /** Whatever run `r` settles in this step was answered with a 2xx. */
  predicate CleanFor(s: System, a: Action, r: nat) {
    Settles(s, a, r) ==> OutcomeOf(s, a, r).Answer? && 200 <= OutcomeOf(s, a, r).status < 300
  }

  lemma RowKeepsId(s: System, a: Action, i: nat)
    requires Inv(s) && i < |s.store.ops|
    ensures i < |Step(s, a).store.ops| && Step(s, a).store.ops[i].id == s.store.ops[i].id
  {
    StepExtends(s, a);
    assert Core(Step(s, a).store.ops[i]) == Core(s.store.ops[i]);
  }

  lemma SettledIsSynced(s: System, a: Action, r: nat, i: nat)
    requires Settles(s, a, r) && CleanFor(s, a, r) && i < |s.store.ops| && s.store.ops[i].id == AwaitedRequest(s, r).op.id
    ensures i < |Step(s, a).store.ops| && Step(s, a).store.ops[i].status == Synced
  {
  }

  lemma StepKeepsOnItsWay(s: System, a: Action, r: nat, i: nat)
    requires Inv(s) && Serial(s) && RunsSound(s) && OnItsWay(s, r, i) && CleanFor(s, a, r) && !a.Restart?
    ensures OnItsWay(Step(s, a), r, i)
  {
    RowKeepsId(s, a, i);
    if s.store.ops[i].status == Synced {
      StepKeepsSynced(s, a, i);
    } else if !a.StartRun? {
      assert RunSound(s, r);
      TasksAfterStep(s, a, r);
      if Settles(s, a, r) {
        var was := TaskIds(s, r);
        assert was == [was[0]] + was[1..];
        if was[0] == s.store.ops[i].id { SettledIsSynced(s, a, r, i); }
      }
    }
  }

  /** Step `n` starts run `r`; afterwards the shell keeps running, and all the run gets is
      2xx answers. Any other step may come in between. */
  ghost predicate CleanFrom(states: seq<System>, actions: seq<Action>, n: nat)
    requires |states| == |actions| + 1
  {
    && n < |actions| && actions[n] == StartRun
    && forall k | n < k < |actions| :: !actions[k].Restart? && CleanFor(states[k], actions[k], |states[n].runs|)
  }

  ghost predicate Carries(states: seq<System>, k: nat, r: nat, i: nat)
    requires k + 1 < |states|
  {
    OnItsWay(states[k], r, i) ==> OnItsWay(states[k + 1], r, i)
  }

  lemma {:induction false} OnItsWayInTrace(states: seq<System>, n: nat, m: nat, r: nat, i: nat)
    requires n <= m < |states| && OnItsWay(states[n], r, i)
    requires forall k: nat | n <= k < |states| - 1 :: Carries(states, k, r, i)
    ensures OnItsWay(states[m], r, i)
    decreases m
  {
    if n < m {
      OnItsWayInTrace(states, n, m - 1, r, i);
      assert Carries(states, m - 1, r, i);
    }
  }

  lemma ReadByStart(s: System, i: nat)
    requires Inv(s) && i < |s.store.ops| && Sendable(s.store.ops[i])
    ensures OnItsWay(Step(s, StartRun), |s.runs|, i)
  {
    ToSendMembers(s.store.ops);
    assert s.store.ops[i] in ToSend(s.store.ops);
    var k :| 0 <= k < |ToSend(s.store.ops)| && ToSend(s.store.ops)[k] == s.store.ops[i];
    assert TaskIds(Step(s, StartRun), |s.runs|) == QueueIds(ToSend(s.store.ops));
    assert QueueIds(ToSend(s.store.ops))[k] == s.store.ops[i].id;
  }

  lemma CarriesAt(actions: seq<Action>, n: nat, k: nat, i: nat)
    requires Serialized(actions) && CleanFrom(States(actions), actions, n) && n < k < |actions|
    ensures Carries(States(actions), k, |States(actions)[n].runs|, i)
  {
    StatesAreTrace(actions);
    assert Next(States(actions), actions, k);
    SerializedPrefix(actions, k);
    InvHolds(actions[..k]);
    SerialHolds(actions[..k]);
    LateFailures.RunsSoundHolds(actions[..k]);
    var s, r := States(actions)[k], |States(actions)[n].runs|;
    if OnItsWay(s, r, i) { StepKeepsOnItsWay(s, actions[k], r, i); }
  }

  /** With serialized ticks: once a push run that got only 2xx answers has ended, every
      operation that was pending or failed when it started is synced, whatever was
      enqueued, resolved or pulled meanwhile, and however long ago it ended. */
  lemma {:induction false} RunDrains(actions: seq<Action>, n: nat, i: nat)
    requires Serialized(actions) && CleanFrom(States(actions), actions, n)
    requires i < |Exec(START, actions[..n]).store.ops| && Sendable(Exec(START, actions[..n]).store.ops[i])
    ensures var r, s := |Exec(START, actions[..n]).runs|, Exec(START, actions);
            && r < |s.runs| && i < |s.store.ops|
            && (TaskIds(s, r) == [] ==> s.store.ops[i].status == Synced)
  {
    var r := |States(actions)[n].runs|;
    StatesAreTrace(actions);
    assert Next(States(actions), actions, n);
    InvHolds(actions[..n]);
    ReadByStart(States(actions)[n], i);
    forall k: nat | n + 1 <= k < |States(actions)| - 1 ensures Carries(States(actions), k, r, i) {
      CarriesAt(actions, n, k, i);
    }
    OnItsWayInTrace(States(actions), n + 1, |actions|, r, i);
  }
}
