/** What each push run has still to settle, and how the steps of the protocol change that
    (desktop/src/main/sync.ts:132-186). Nothing here supposes that ticks do not overlap. */
module RunTasks {
  import opened Wrappers
  import opened LocalStore
  import opened PendingOps
  import opened SyncProtocol

  function QueueIds(queue: seq<PendingOp>): (ids: seq<string>)
    ensures |ids| == |queue|
  {
    seq(|queue|, i requires 0 <= i < |queue| => queue[i].id)
  }

  predicate Awaiting(s: System, i: nat) {
    i < |s.runs| && s.runs[i].current.Some? && s.runs[i].current.value < |s.requests|
  }

  function AwaitedRequest(s: System, i: nat): Request
    requires Awaiting(s, i)
  {
    s.requests[s.runs[i].current.value]
  }

  /** The operation a run awaits, and those it has still to send. */
  function TaskIds(s: System, i: nat): seq<string>
    requires i < |s.runs|
  {
    (if Awaiting(s, i) then [AwaitedRequest(s, i).op.id] else []) + QueueIds(s.runs[i].queue)
  }

  predicate Distinct(ids: seq<string>) {
    forall i, j | 0 <= i < j < |ids| :: ids[i] != ids[j]
  }

  ghost predicate RunSound(s: System, i: nat)
    requires i < |s.runs|
  {
    && Distinct(TaskIds(s, i))
    && (s.runs[i].current.Some? ==> s.runs[i].current.value < |s.requests|)
    && forall id | id in TaskIds(s, i) :: id in Ids(s.store.ops)
  }

  /** In every run, tasks are operations of the table, each once, and awaited requests
      exist. */
  ghost predicate RunsSound(s: System) {
    forall i: nat | i < |s.runs| :: RunSound(s, i)
  }

  /** The run settles its awaited operation in this step. */
  predicate Settles(s: System, a: Action, i: nat) {
    && Awaiting(s, i)
    && ((a == Receive(i) && AwaitedRequest(s, i).phase.Answered?) || a == Drop(i))
  }

  function OutcomeOf(s: System, a: Action, i: nat): Outcome
    requires Settles(s, a, i)
  {
    if a.Drop? then Lost else Answer(AwaitedRequest(s, i).phase.status)
  }

  predicate StaysUp(a: Action) {
    !a.StartRun? && !a.Restart?
  }

  lemma RequestsStay(s: System, a: Action)
    ensures |s.requests| <= |Step(s, a).requests|
    ensures forall r | 0 <= r < |s.requests| :: Step(s, a).requests[r].op == s.requests[r].op && Step(s, a).requests[r].key == s.requests[r].key
  {
  }

  lemma SendKeepsTasks(s: System, run: nat, restaurant: Option<int>, i: nat)
    requires i < |s.runs| && RunSound(s, i)
    ensures var s' := Step(s, Send(run, restaurant));
            && i < |s'.runs| && TaskIds(s', i) == TaskIds(s, i)
            && (s'.runs[i].current.Some? ==> s'.runs[i].current.value < |s'.requests|)
  {
    if run == i && s.runs[i].current == None && s.runs[i].queue != [] {
      assert QueueIds(s.runs[i].queue) == [s.runs[i].queue[0].id] + QueueIds(s.runs[i].queue[1..]);
    }
  }

  lemma SettleTakesHead(s: System, a: Action, i: nat)
    requires i < |s.runs| && Settles(s, a, i)
    ensures var s' := Step(s, a);
            && i < |s'.runs| && TaskIds(s', i) == TaskIds(s, i)[1..] && TaskIds(s, i)[0] == AwaitedRequest(s, i).op.id
            && s'.runs[i].current == None
  {
  }

  /** A run loses its awaited task when it settles it, and no task otherwise. */
  lemma TasksAfterStep(s: System, a: Action, i: nat)
    requires StaysUp(a) && i < |s.runs| && RunSound(s, i)
    ensures i < |Step(s, a).runs|
    ensures Settles(s, a, i) ==> TaskIds(Step(s, a), i) == TaskIds(s, i)[1..] && TaskIds(s, i)[0] == AwaitedRequest(s, i).op.id
    ensures !Settles(s, a, i) ==> TaskIds(Step(s, a), i) == TaskIds(s, i)
    ensures Step(s, a).runs[i].current.Some? ==> Step(s, a).runs[i].current.value < |Step(s, a).requests|
  {
    if a.Send? {
      SendKeepsTasks(s, a.run, a.restaurant, i);
    } else if Settles(s, a, i) {
      SettleTakesHead(s, a, i);
    } else {
      RequestsStay(s, a);
    }
  }

  lemma TasksShrink(s: System, a: Action, i: nat, id: string)
    requires StaysUp(a) && i < |s.runs| && RunSound(s, i)
    ensures i < |Step(s, a).runs|
    ensures id in TaskIds(Step(s, a), i) ==> id in TaskIds(s, i)
    ensures id in TaskIds(Step(s, a), i) && Settles(s, a, i) ==> id != AwaitedRequest(s, i).op.id
  {
    TasksAfterStep(s, a, i);
    if Settles(s, a, i) {
      var was := TaskIds(s, i);
      assert forall k | 0 <= k < |was| - 1 :: was[1..][k] == was[k + 1];
    }
  }

  lemma IdsGrow(s: System, a: Action, id: string)
    requires id in Ids(s.store.ops) && Extends(s.store.ops, Step(s, a).store.ops)
    ensures id in Ids(Step(s, a).store.ops)
  {
    var op :| op in s.store.ops && op.id == id;
    var n :| 0 <= n < |s.store.ops| && s.store.ops[n] == op;
    assert Step(s, a).store.ops[n] in Step(s, a).store.ops;
  }

  lemma {:induction false} ToSendDistinct(ops: seq<PendingOp>)
    requires UniqueIds(ops)
    ensures Distinct(QueueIds(ToSend(ops))) && forall id | id in QueueIds(ToSend(ops)) :: id in Ids(ops)
  {
    ToSendMembers(ops);
    forall k | 0 <= k < |ToSend(ops)|
      ensures QueueIds(ToSend(ops))[k] in Ids(ops)
    {
      assert ToSend(ops)[k] in ops;
    }
  }

  lemma RunStaysSound(s: System, a: Action, i: nat)
    requires StaysUp(a) && i < |s.runs| && RunSound(s, i) && Extends(s.store.ops, Step(s, a).store.ops)
    ensures i < |Step(s, a).runs| && RunSound(Step(s, a), i)
  {
    TasksAfterStep(s, a, i);
    forall id | id in TaskIds(Step(s, a), i)
      ensures id in Ids(Step(s, a).store.ops)
    {
      TasksShrink(s, a, i, id);
      IdsGrow(s, a, id);
    }
  }

  lemma StartedRunsSound(s: System)
    requires Inv(s) && RunsSound(s)
    ensures RunsSound(Step(s, StartRun))
  {
    var s' := Step(s, StartRun);
    ToSendDistinct(s.store.ops);
    forall i: nat | i < |s'.runs| ensures RunSound(s', i) {
      if i < |s.runs| {
        assert RunSound(s, i) && TaskIds(s', i) == TaskIds(s, i);
      } else {
        assert TaskIds(s', i) == QueueIds(ToSend(s.store.ops));
      }
    }
  }

  lemma StepKeepsRunsSound(s: System, a: Action)
    requires Inv(s) && RunsSound(s) && Extends(s.store.ops, Step(s, a).store.ops)
    ensures RunsSound(Step(s, a))
  {
    if a.StartRun? {
      StartedRunsSound(s);
    } else if !a.Restart? {
      var s' := Step(s, a);
      assert |s'.runs| == |s.runs|;
      forall i: nat | i < |s'.runs| ensures RunSound(s', i) {
        assert RunSound(s, i);
        RunStaysSound(s, a, i);
      }
    }
  }

  // ---- the states of a run ---------------------------------------------------------------

  function States(actions: seq<Action>): (states: seq<System>)
    ensures |states| == |actions| + 1
  {
    seq(|actions| + 1, n requires 0 <= n <= |actions| => Exec(START, actions[..n]))
  }

  ghost predicate Next(states: seq<System>, actions: seq<Action>, k: nat)
    requires k + 1 < |states| && k < |actions|
  {
    states[k + 1] == Step(states[k], actions[k])
  }

  ghost predicate Trace(states: seq<System>, actions: seq<Action>) {
    |states| == |actions| + 1 && forall k: nat | k < |actions| :: Next(states, actions, k)
  }

  lemma StatesAreTrace(actions: seq<Action>)
    ensures Trace(States(actions), actions)
    ensures States(actions)[|actions|] == Exec(START, actions)
  {
    forall k: nat | k < |actions| ensures Next(States(actions), actions, k) {
      var next := k + 1;
      assert actions[..next][..k] == actions[..k];
      assert Exec(START, actions[..next]) == Step(Exec(START, actions[..k]), actions[k]);
    }
    assert actions[..|actions|] == actions;
  }
}
