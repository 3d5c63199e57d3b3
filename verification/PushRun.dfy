/** What one whole push run does to the queue, and that it is a run of the protocol. */
module PushRun {
  import opened Wrappers
  import opened LocalStore
  import opened PendingOps
  import opened SyncProtocol
  import opened Idempotency
  import opened SyncSafety
  import opened DesktopShell

  function Count(ops: seq<PendingOp>, status: OpStatus): nat {
    if ops == [] then 0
    else Count(ops[..|ops| - 1], status) + if ops[|ops| - 1].status == status then 1 else 0
  }

  predicate HasOutcome(op: PendingOp, outcome: Outcome) {
    && (outcome == Lost ==> op.status == Failed)
    && (outcome.Answer? ==>
          op.status == if outcome.status == 409 then Conflict else if 200 <= outcome.status < 300 then Synced else Failed)
  }

  /** The queue after a run, said of each operation: one that was sent has the status
      of its own outcome, and any other is as it was. */
  ghost predicate SettledBy(before: seq<PendingOp>, after: seq<PendingOp>, sent: seq<PendingOp>, outcomes: seq<Outcome>)
    requires |sent| == |outcomes|
  {
    && |after| == |before|
    && forall i | 0 <= i < |before| ::
         && Core(after[i]) == Core(before[i])
         && (forall a | 0 <= a < |sent| && sent[a].id == before[i].id :: HasOutcome(after[i], outcomes[a]))
         && (before[i].id !in Ids(sent) ==> after[i] == before[i])
  }

  lemma {:induction false} SettleAllSettles(store: Store, sent: seq<PendingOp>, outcomes: seq<Outcome>)
    requires |sent| == |outcomes| && UniqueIds(sent)
    ensures SettledBy(store.ops, SettleAll(store, sent, outcomes).ops, sent, outcomes)
    decreases |sent|
  {
    if sent != [] {
      var n := |sent| - 1;
      SettleAllSettles(store, sent[..n], outcomes[..n]);
      var before := SettleAll(store, sent[..n], outcomes[..n]);
      var after := SettleAll(store, sent, outcomes);
      assert after.ops == Mark(before.ops, sent[n].id, StatusAfter(outcomes[n]));
      forall i | 0 <= i < |store.ops|
        ensures Core(after.ops[i]) == Core(store.ops[i])
        ensures forall a | 0 <= a < |sent| && sent[a].id == store.ops[i].id :: HasOutcome(after.ops[i], outcomes[a])
        ensures store.ops[i].id !in Ids(sent) ==> after.ops[i] == store.ops[i]
      {
        assert Core(before.ops[i]) == Core(store.ops[i]);
        forall a | 0 <= a < |sent| && sent[a].id == store.ops[i].id
          ensures HasOutcome(after.ops[i], outcomes[a])
        {
          if a < n {
            assert sent[..n][a] == sent[a] && sent[a].id != sent[n].id;
          }
        }
        if store.ops[i].id !in Ids(sent) {
          assert sent[n] in sent;
          assert forall op | op in sent[..n] :: op in sent;
        }
      }
    }
  }

  /** A run in which every answer is a 2xx leaves nothing pending or failed. */
  lemma CleanRunDrains(store: Store, outcomes: seq<Outcome>)
    requires UniqueIds(store.ops) && |outcomes| == |ToSend(store.ops)|
    requires forall o | o in outcomes :: o.Answer? && 200 <= o.status < 300
    ensures var after := SettleAll(store, ToSend(store.ops), outcomes).ops;
            && |after| == |store.ops|
            && forall i | 0 <= i < |after| ::
                 after[i].status == if Sendable(store.ops[i]) then Synced else store.ops[i].status
  {
    var sent := ToSend(store.ops);
    ToSendMembers(store.ops);
    SettleAllSettles(store, sent, outcomes);
    var after := SettleAll(store, sent, outcomes).ops;
    forall i | 0 <= i < |after|
      ensures after[i].status == if Sendable(store.ops[i]) then Synced else store.ops[i].status
    {
      assert store.ops[i] in store.ops;
      if Sendable(store.ops[i]) {
        var a :| 0 <= a < |sent| && sent[a] == store.ops[i];
        assert outcomes[a] in outcomes;
      } else if store.ops[i].id in Ids(sent) {
        var op :| op in sent && op.id == store.ops[i].id;
        SameIdSameRow(store.ops, op, store.ops[i]);
      }
    }
  }

  /** Every row of a table has one of the four statuses. */
  lemma {:induction false} StatusesPartitionQueue(ops: seq<PendingOp>)
    ensures Count(ops, Pending) + Count(ops, Failed) + Count(ops, Conflict) + Count(ops, Synced) == |ops|
  {
    if ops != [] {
      StatusesPartitionQueue(ops[..|ops| - 1]);
    }
  }

  lemma {:induction false} CountZero(ops: seq<PendingOp>, status: OpStatus)
    requires forall op | op in ops :: op.status != status
    ensures Count(ops, status) == 0
  {
    if ops != [] {
      assert forall op | op in ops[..|ops| - 1] :: op in ops;
      CountZero(ops[..|ops| - 1], status);
    }
  }

  /** So a clean run moves exactly the open operations to `synced`. */
  lemma CleanRunConserves(store: Store, outcomes: seq<Outcome>)
    requires UniqueIds(store.ops) && |outcomes| == |ToSend(store.ops)|
    requires forall o | o in outcomes :: o.Answer? && 200 <= o.status < 300
    ensures var after := SettleAll(store, ToSend(store.ops), outcomes).ops;
            && Count(after, Pending) == 0 && Count(after, Failed) == 0
            && Count(after, Conflict) == Count(store.ops, Conflict)
            && Count(after, Synced) == Count(store.ops, Synced) + Count(store.ops, Pending) + Count(store.ops, Failed)
  {
    CleanRunDrains(store, outcomes);
    var after := SettleAll(store, ToSend(store.ops), outcomes).ops;
    CountZero(after, Pending);
    CountZero(after, Failed);
    SameCount(store.ops, after, Conflict);
    StatusesPartitionQueue(store.ops);
    StatusesPartitionQueue(after);
  }

  lemma {:induction false} SameCount(a: seq<PendingOp>, b: seq<PendingOp>, status: OpStatus)
    requires |a| == |b| && forall i | 0 <= i < |a| :: a[i].status == status <==> b[i].status == status
    ensures Count(a, status) == Count(b, status)
  {
    if a != [] {
      SameCount(a[..|a| - 1], b[..|b| - 1], status);
    }
  }

  // ---- a push run is a run of the protocol ------------------------------------------

  /** The server can give this answer: a key that is recorded is answered from the
      record. */
  predicate Possible(s: System, k: Key, outcome: Outcome) {
    outcome.Answer? && Deduplicated(k) && k in s.recorded ==> s.recorded[k] == outcome.status
  }

  /** The steps of sending one operation and awaiting its outcome. */
  function OneSend(run: nat, request: nat, restaurant: Option<int>, outcome: Outcome): seq<Action> {
    match outcome
    case Lost => [Send(run, restaurant), Drop(run)]
    case Answer(status) =>
      [Send(run, restaurant), Check(request), Handle(request, status), Record(request, true), Receive(run)]
  }

  /** What sending one operation does, whatever its outcome. */
  ghost predicate SentOne(s: System, s': System, run: nat, op: PendingOp, outcome: Outcome)
    requires run < |s.runs| && s.runs[run].queue != []
  {
    && s'.store == Settle(s.store, op, outcome)
    && |s'.runs| == |s.runs| && s'.runs[run] == Run(s.runs[run].queue[1..], None)
    && (forall k: Key :: k.id != op.id ==> (k in s'.recorded <==> k in s.recorded))
    && (forall k: Key :: k.id != op.id && k in s.recorded ==> s'.recorded[k] == s.recorded[k])
  }

  lemma SendThenLose(s: System, run: nat, restaurant: Option<int>)
    requires run < |s.runs| && s.runs[run].current == None && s.runs[run].queue != []
    ensures SentOne(s, Exec(s, [Send(run, restaurant), Drop(run)]), run, s.runs[run].queue[0], Lost)
  {
    var s1 := Step(s, Send(run, restaurant));
    ExecCons(s, Send(run, restaurant), [Drop(run)]);
    ExecCons(s1, Drop(run), []);
    assert [Drop(run)] + [] == [Drop(run)];
    assert [Send(run, restaurant)] + [Drop(run)] == [Send(run, restaurant), Drop(run)];
    assert s1.runs[run] == Run(s.runs[run].queue[1..], Some(|s.requests|));
  }

  lemma SendThenReceive(s: System, run: nat, restaurant: Option<int>, status: int)
    requires run < |s.runs| && s.runs[run].current == None && s.runs[run].queue != []
    requires Possible(s, KeyFor(s.runs[run].queue[0], restaurant), Answer(status))
    ensures var s1 := Step(s, Send(run, restaurant));
            SentOne(s, Step(ServeStep(s1, |s.requests|, status), Receive(run)), run, s.runs[run].queue[0], Answer(status))
  {
    var s1 := Step(s, Send(run, restaurant));
    assert s1.runs[run] == Run(s.runs[run].queue[1..], Some(|s.requests|));
    ServedAnswer(s1, |s.requests|, status);
  }

  lemma OneSendSteps(s: System, run: nat, restaurant: Option<int>, outcome: Outcome)
    requires run < |s.runs| && s.runs[run].current == None && s.runs[run].queue != []
    requires Possible(s, KeyFor(s.runs[run].queue[0], restaurant), outcome)
    ensures SentOne(s, Exec(s, OneSend(run, |s.requests|, restaurant, outcome)), run, s.runs[run].queue[0], outcome)
  {
    match outcome
    case Lost => SendThenLose(s, run, restaurant);
    case Answer(status) =>
      var n := |s.requests|;
      var s1 := Step(s, Send(run, restaurant));
      var serve := [Check(n), Handle(n, status), Record(n, true)];
      SendThenReceive(s, run, restaurant, status);
      WholeIsARun(s1, n, status);
      ExecCons(s, Send(run, restaurant), serve + [Receive(run)]);
      ExecAppend(s1, serve, [Receive(run)]);
      ExecCons(Exec(s1, serve), Receive(run), []);
      assert [Receive(run)] + [] == [Receive(run)];
      assert [Send(run, restaurant)] + (serve + [Receive(run)]) == OneSend(run, n, restaurant, outcome);
  }

  lemma ServedAnswer(s: System, r: nat, status: int)
    requires r < |s.requests| && s.requests[r].phase == InFlight
    requires Possible(s, s.requests[r].key, Answer(status))
    ensures var s' := ServeStep(s, r, status);
            && |s'.requests| == |s.requests|
            && s'.requests[r] == s.requests[r].(phase := Answered(status))
            && s'.store == s.store && s'.runs == s.runs
            && (forall k: Key :: k != s.requests[r].key ==> (k in s'.recorded <==> k in s.recorded))
            && (forall k: Key :: k != s.requests[r].key && k in s.recorded ==> s'.recorded[k] == s.recorded[k])
  {
    var k := s.requests[r].key;
    var s1 := CheckStep(s, r);
    if Deduplicated(k) && k in s.recorded {
      assert s1 == SetPhase(s, r, Answered(status));
      assert HandleStep(s1, r, status) == s1;
    } else {
      assert s1 == SetPhase(s, r, Admitted);
      assert HandleStep(s1, r, status).requests[r].phase == Handled(status);
    }
  }

  /** The method PushSync does what some run of the protocol does: the theorems about
      all runs cover it. */
  lemma {:induction false} RestOfRun(s: System, run: nat, restaurant: Option<int>, outcomes: seq<Outcome>)
    returns (actions: seq<Action>)
    requires run < |s.runs| && s.runs[run].current == None && |outcomes| == |s.runs[run].queue|
    requires UniqueIds(s.runs[run].queue)
    requires forall a | 0 <= a < |outcomes| :: Possible(s, KeyFor(s.runs[run].queue[a], restaurant), outcomes[a])
    ensures Exec(s, actions).store == SettleAll(s.store, s.runs[run].queue, outcomes)
    decreases |outcomes|
  {
    var queue := s.runs[run].queue;
    if queue == [] {
      actions := [];
    } else {
      var first := OneSend(run, |s.requests|, restaurant, outcomes[0]);
      OneSendSteps(s, run, restaurant, outcomes[0]);
      var s' := Exec(s, first);
      assert forall a | 0 <= a < |queue| - 1 :: queue[1..][a] == queue[a + 1] && outcomes[1..][a] == outcomes[a + 1];
      forall a | 0 <= a < |outcomes[1..]|
        ensures Possible(s', KeyFor(queue[1..][a], restaurant), outcomes[1..][a])
      {
        assert Possible(s, KeyFor(queue[a + 1], restaurant), outcomes[a + 1]);
      }
      var rest := RestOfRun(s', run, restaurant, outcomes[1..]);
      actions := first + rest;
      ExecAppend(s, first, rest);
      SettleAllCons(s.store, queue, outcomes);
    }
  }

  lemma {:induction false} SettleAllCons(store: Store, ops: seq<PendingOp>, outcomes: seq<Outcome>)
    requires |ops| == |outcomes| && ops != []
    ensures SettleAll(store, ops, outcomes) == SettleAll(Settle(store, ops[0], outcomes[0]), ops[1..], outcomes[1..])
    decreases |ops|
  {
    var n := |ops| - 1;
    if n == 0 {
      assert ops[..0] == [] && ops[1..] == [];
    } else {
      SettleAllCons(store, ops[..n], outcomes[..n]);
      assert ops[..n][1..] == ops[1..][..n - 1] && outcomes[..n][1..] == outcomes[1..][..n - 1];
    }
  }

  lemma PushSyncIsARun(s: System, restaurant: Option<int>, outcomes: seq<Outcome>) returns (actions: seq<Action>)
    requires Inv(s) && |outcomes| == |ToSend(s.store.ops)|
    requires forall a | 0 <= a < |outcomes| :: Possible(s, KeyFor(ToSend(s.store.ops)[a], restaurant), outcomes[a])
    ensures Exec(s, actions).store == SettleAll(s.store, ToSend(s.store.ops), outcomes)
  {
    ToSendMembers(s.store.ops);
    var s' := Step(s, StartRun);
    var rest := RestOfRun(s', |s.runs|, restaurant, outcomes);
    actions := [StartRun] + rest;
    ExecCons(s, StartRun, rest);
  }
}
