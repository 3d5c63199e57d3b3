/** What holds of the queue in every run of the protocol, and what needs ticks that
    do not overlap. */
module SyncSafety {
  import opened Wrappers
  import opened LocalStore
  import opened PendingOps
  import opened SyncProtocol
  import opened Idempotency

  // ---- under every interleaving ------------------------------------------------------

  lemma {:induction false} ExecKeepsInv(s: System, actions: seq<Action>)
    requires Inv(s)
    ensures Inv(Exec(s, actions)) && Extends(s.store.ops, Exec(s, actions).store.ops)
    decreases |actions|
  {
    if actions != [] {
      var n := |actions| - 1;
      var before := Exec(s, actions[..n]);
      ExecKeepsInv(s, actions[..n]);
      StepKeepsInv(before, actions[n]);
      StepExtends(before, actions[n]);
    }
  }

  lemma StepExtends(s: System, a: Action)
    requires Inv(s)
    ensures Extends(s.store.ops, Step(s, a).store.ops)
  {
    match a
    case Offline(req, d, sent) => HandleOfflineOps(s.store, req, d);
    case Receive(run) =>
      if ReceiveStep(s, run) != s {
        MarkKeepsRows(s.store.ops, s.requests[Awaited(s, run).value].op.id,
                      StatusAfter(Answer(s.requests[Awaited(s, run).value].phase.status)));
      }
    case Drop(run) =>
      if DropStep(s, run) != s {
        MarkKeepsRows(s.store.ops, s.requests[Awaited(s, run).value].op.id, Failed);
      }
    case ResolveConflict(id, resolution) =>
      assert forall i | 0 <= i < |s.store.ops| :: StatusSound(s, s.store.ops[i]);
    case _ =>
  }

  /** Rows are never deleted, and nothing but their status ever changes. */
  lemma NoOperationIsLost(before: seq<Action>, after: seq<Action>)
    ensures Extends(Exec(START, before).store.ops, Exec(START, before + after).store.ops)
  {
    ExecAppend(START, before, after);
    InvHolds(before);
    ExecKeepsInv(Exec(START, before), after);
  }

  /** An operation that was never accepted, refused or discarded is sent by the next
      push run, in its place in the queue. */
  lemma UnfinishedIsSentAgain(actions: seq<Action>, op: PendingOp)
    requires var s := Exec(START, actions);
             op in s.store.ops && op.id !in s.accepted && op.id !in s.refused && op.id !in s.discarded
    ensures op in ToSend(Exec(START, actions).store.ops)
  {
    InvHolds(actions);
    assert StatusSound(Exec(START, actions), op);
    ToSendMembers(Exec(START, actions).store.ops);
  }

  /** A restart forgets the push runs, but no operation: the next run sends all that are open. */
  lemma RestartResendsUnfinished(actions: seq<Action>, op: PendingOp)
    requires var s := Exec(START, actions);
             op in s.store.ops && op.id !in s.accepted && op.id !in s.refused && op.id !in s.discarded
    ensures var s := Exec(START, actions + [Restart, StartRun]);
            |s.runs| == 1 && s.runs[0].current == None && op in s.runs[0].queue
  {
    var more := actions + [Restart, StartRun];
    assert more[..|actions| + 1] == actions + [Restart] && (actions + [Restart])[..|actions|] == actions;
    UnfinishedIsSentAgain(actions, op);
  }

  /** A status tells the truth about the past: `synced` means a 2xx or a discard of a
      conflict, `conflict` means a 409, `failed` means a lost answer or one that is neither,
      and a 2xx means that the server carried the operation out. */
  lemma StatusesAreSound(actions: seq<Action>, op: PendingOp)
    requires op in Exec(START, actions).store.ops
    ensures var s := Exec(START, actions);
            && (op.status == Synced ==> op.id in s.accepted || op.id in s.discarded)
            && (op.status == Conflict ==> op.id in s.refused)
            && (op.status == Failed ==> op.id in s.unserved)
            && (op.id in s.accepted ==> exists k | k in s.effects :: k.id == op.id)
            && op.attempts == 0
  {
    InvHolds(actions);
    assert StatusSound(Exec(START, actions), op);
  }

  /** Every resend of an operation under one tenant bears the same key, and different
      operations bear different keys. */
  lemma KeysIdentifyOperations(actions: seq<Action>, r1: Request, r2: Request)
    requires r1 in Exec(START, actions).requests && r2 in Exec(START, actions).requests
    ensures r1.key == r2.key <==> Core(r1.op) == Core(r2.op) && r1.key.restaurant == r2.key.restaurant
  {
    var s := Exec(START, actions);
    InvHolds(actions);
    if r1.op.id == r2.op.id {
      var l1 :| l1 in s.store.ops && Core(l1) == Core(r1.op);
      var l2 :| l2 in s.store.ops && Core(l2) == Core(r2.op);
      SameIdSameRow(s.store.ops, l1, l2);
    }
  }

  lemma SameIdSameRow(ops: seq<PendingOp>, a: PendingOp, b: PendingOp)
    requires UniqueIds(ops) && a in ops && b in ops && a.id == b.id
    ensures a == b
  {
    var i :| 0 <= i < |ops| && ops[i] == a;
    var j :| 0 <= j < |ops| && ops[j] == b;
    assert i == j;
  }

  // ---- with ticks that do not overlap ------------------------------------------------

  predicate Active(run: Run) {
    run.current.Some? || run.queue != []
  }

  /** No tick begins before the push run of the one before has ended. */
  ghost predicate Serialized(actions: seq<Action>) {
    forall n | 0 <= n < |actions| && actions[n].StartRun? ::
      forall run | run in Exec(START, actions[..n]).runs :: !Active(run)
  }

  /** The operation a run awaits and those it has still to send. */
  function Tasks(s: System, run: Run): seq<PendingOp> {
    (if run.current.Some? && run.current.value < |s.requests| then [s.requests[run.current.value].op] else [])
    + run.queue
  }

  /** The tasks are different operations, each pending or failed in the table. */
  ghost predicate TasksOpen(s: System, run: Run) {
    && UniqueIds(Tasks(s, run))
    && forall op, listed | op in Tasks(s, run) && listed in s.store.ops && op.id == listed.id :: Sendable(listed)
  }

  ghost predicate Serial(s: System) {
    && (forall i, j | 0 <= i < j < |s.runs| :: !(Active(s.runs[i]) && Active(s.runs[j])))
    && (forall i | 0 <= i < |s.runs| :: s.runs[i].current.Some? ==> s.runs[i].current.value < |s.requests|)
    && (forall i | 0 <= i < |s.runs| :: TasksOpen(s, s.runs[i]))
  }

  /** Steps that leave the runs' tasks and the statuses alone. */
  lemma SerialStays(s: System, s': System)
    requires Serial(s) && s'.runs == s.runs && s'.store.ops == s.store.ops
    requires |s'.requests| == |s.requests| && forall r | 0 <= r < |s.requests| :: s'.requests[r].op == s.requests[r].op
    ensures Serial(s')
  {
    forall i | 0 <= i < |s'.runs|
      ensures TasksOpen(s', s'.runs[i])
    {
      assert Tasks(s', s'.runs[i]) == Tasks(s, s.runs[i]);
      assert TasksOpen(s, s.runs[i]);
    }
  }

  lemma StartRunKeepsSerial(s: System)
    requires Inv(s) && Serial(s) && forall run | run in s.runs :: !Active(run)
    ensures Serial(Step(s, StartRun))
  {
    var s' := Step(s, StartRun);
    ToSendMembers(s.store.ops);
    forall i | 0 <= i < |s'.runs|
      ensures TasksOpen(s', s'.runs[i])
    {
      if i < |s.runs| {
        assert TasksOpen(s, s.runs[i]);
        assert Tasks(s', s'.runs[i]) == Tasks(s, s.runs[i]);
      } else {
        assert Tasks(s', s'.runs[i]) == ToSend(s.store.ops);
        forall op, listed | op in ToSend(s.store.ops) && listed in s.store.ops && op.id == listed.id
          ensures Sendable(listed)
        {
          SameIdSameRow(s.store.ops, op, listed);
        }
      }
    }
    assert forall i | 0 <= i < |s.runs| :: s.runs[i] in s.runs;
  }

  lemma SendKeepsSerial(s: System, run: nat, restaurant: Option<int>)
    requires Serial(s)
    ensures Serial(SendStep(s, run, restaurant))
  {
    var s' := SendStep(s, run, restaurant);
    if s' != s {
      forall i | 0 <= i < |s'.runs|
        ensures TasksOpen(s', s'.runs[i])
      {
        assert TasksOpen(s, s.runs[i]);
        assert Tasks(s', s'.runs[i]) == Tasks(s, s.runs[i]);
      }
    }
  }

  lemma OthersAreIdle(s: System, run: nat, i: nat)
    requires Serial(s) && run < |s.runs| && i < |s.runs| && i != run && Active(s.runs[run])
    ensures Tasks(s, s.runs[i]) == [] && !Active(s.runs[i])
  {
  }

  lemma TailIsUnique(tasks: seq<PendingOp>)
    requires UniqueIds(tasks) && tasks != []
    ensures UniqueIds(tasks[1..]) && forall op | op in tasks[1..] :: op in tasks && op.id != tasks[0].id
  {
    assert forall n | 0 <= n < |tasks| - 1 :: tasks[1..][n] == tasks[n + 1];
  }

  lemma TasksAfterSettle(s: System, run: nat, outcome: Outcome, i: nat)
    requires Serial(s) && Awaited(s, run).Some? && Awaited(s, run).value < |s.requests| && i < |s.runs|
    ensures var tasks, tasks' := Tasks(s, s.runs[i]), Tasks(SettleStep(s, run, outcome), SettleStep(s, run, outcome).runs[i]);
            && UniqueIds(tasks')
            && forall op | op in tasks' :: op in tasks && op.id != s.requests[Awaited(s, run).value].op.id
  {
    assert TasksOpen(s, s.runs[i]);
    var tasks, tasks' := Tasks(s, s.runs[i]), Tasks(SettleStep(s, run, outcome), SettleStep(s, run, outcome).runs[i]);
    if i == run {
      assert tasks[0] == s.requests[Awaited(s, run).value].op && tasks' == tasks[1..];
      TailIsUnique(tasks);
    } else {
      OthersAreIdle(s, run, i);
      assert tasks' == [];
    }
  }

  /** Ending the awaited request marks one operation, which no other task is. */
  lemma SettleKeepsSerial(s: System, run: nat, outcome: Outcome)
    requires Serial(s) && Awaited(s, run).Some?
    ensures Awaited(s, run).value < |s.requests| && Serial(SettleStep(s, run, outcome))
  {
    var s' := SettleStep(s, run, outcome);
    var id := s.requests[Awaited(s, run).value].op.id;
    forall i: nat | i < |s'.runs|
      ensures TasksOpen(s', s'.runs[i])
    {
      assert TasksOpen(s, s.runs[i]);
      TasksAfterSettle(s, run, outcome, i);
      MarkSparesOthers(s.store.ops, id, StatusAfter(outcome), Tasks(s, s.runs[i]), Tasks(s', s'.runs[i]));
    }
  }

  lemma MarkSparesOthers(ops: seq<PendingOp>, id: string, status: OpStatus, tasks: seq<PendingOp>, tasks': seq<PendingOp>)
    requires forall op, listed | op in tasks && listed in ops && op.id == listed.id :: Sendable(listed)
    requires forall op | op in tasks' :: op in tasks && op.id != id
    ensures forall op, listed | op in tasks' && listed in Mark(ops, id, status) && op.id == listed.id :: Sendable(listed)
  {
    forall op, listed | op in tasks' && listed in Mark(ops, id, status) && op.id == listed.id
      ensures Sendable(listed)
    {
      var n :| 0 <= n < |ops| && Mark(ops, id, status)[n] == listed;
      assert ops[n] in ops;
    }
  }

  lemma ResolveKeepsSerial(s: System, id: string, resolution: Resolution)
    requires Serial(s)
    ensures Serial(Step(s, ResolveConflict(id, resolution)))
  {
    var s' := Step(s, ResolveConflict(id, resolution));
    forall i | 0 <= i < |s'.runs|
      ensures TasksOpen(s', s'.runs[i])
    {
      assert TasksOpen(s, s.runs[i]);
      assert Tasks(s', s'.runs[i]) == Tasks(s, s.runs[i]);
      forall op, listed | op in Tasks(s', s'.runs[i]) && listed in s'.store.ops && op.id == listed.id
        ensures Sendable(listed)
      {
        var n :| 0 <= n < |s'.store.ops| && s'.store.ops[n] == listed;
        assert s.store.ops[n] in s.store.ops && s.store.ops[n].id == op.id;
      }
    }
  }

  lemma OfflineKeepsSerial(s: System, req: ApiRequest, d: Draws, sent: bool)
    requires Inv(s) && Serial(s)
    ensures Serial(OfflineStep(s, req, d, sent))
  {
    var s' := OfflineStep(s, req, d, sent);
    if s' != s {
      HandleOfflineOps(s.store, req, d);
      forall i | 0 <= i < |s'.runs|
        ensures TasksOpen(s', s'.runs[i])
      {
        assert TasksOpen(s, s.runs[i]);
        assert Tasks(s', s'.runs[i]) == Tasks(s, s.runs[i]);
        forall op, listed | op in Tasks(s', s'.runs[i]) && listed in s'.store.ops && op.id == listed.id
          ensures Sendable(listed)
        {
          TaskIsListed(s, s.runs[i], op);
        }
      }
    }
  }

  lemma TaskIsListed(s: System, run: Run, op: PendingOp)
    requires Inv(s) && run in s.runs && op in Tasks(s, run)
    ensures op.id in Ids(s.store.ops)
  {
    if op !in run.queue {
      assert s.requests[run.current.value] in s.requests;
    }
    assert Listed(s.store.ops, op);
  }

  lemma ReceiptKeepsSerial(s: System, run: nat)
    requires Inv(s) && Serial(s)
    ensures Serial(ReceiveStep(s, run)) && Serial(DropStep(s, run))
  {
    if ReceiveStep(s, run) != s {
      SettleKeepsSerial(s, run, Answer(s.requests[Awaited(s, run).value].phase.status));
    }
    if DropStep(s, run) != s {
      SettleKeepsSerial(s, run, Lost);
    }
  }

  lemma StepKeepsSerial(s: System, a: Action)
    requires Inv(s) && Serial(s)
    requires a.StartRun? ==> forall run | run in s.runs :: !Active(run)
    ensures Serial(Step(s, a))
  {
    match a
    case Offline(req, d, sent) => OfflineKeepsSerial(s, req, d, sent);
    case StartRun => StartRunKeepsSerial(s);
    case Send(run, restaurant) => SendKeepsSerial(s, run, restaurant);
    case Receive(run) => ReceiptKeepsSerial(s, run);
    case Drop(run) => ReceiptKeepsSerial(s, run);
    case Restart =>
    case ResolveConflict(id, resolution) => ResolveKeepsSerial(s, id, resolution);
    case _ => SerialStays(s, Step(s, a));
  }

  lemma {:induction false} SerialHolds(actions: seq<Action>)
    requires Serialized(actions)
    ensures Serial(Exec(START, actions))
    decreases |actions|
  {
    if actions != [] {
      var n := |actions| - 1;
      SerializedPrefix(actions, n);
      SerialHolds(actions[..n]);
      InvHolds(actions[..n]);
      StepKeepsSerial(Exec(START, actions[..n]), actions[n]);
    }
  }

  lemma SerializedPrefix(actions: seq<Action>, n: nat)
    requires Serialized(actions) && n <= |actions|
    ensures Serialized(actions[..n])
  {
    assert forall m | 0 <= m < n :: actions[..n][..m] == actions[..m] && actions[..n][m] == actions[m];
  }

  /** Nothing takes an operation out of `synced`. */
  lemma StepKeepsSynced(s: System, a: Action, i: nat)
    requires Inv(s) && Serial(s) && i < |s.store.ops| && s.store.ops[i].status == Synced
    ensures i < |Step(s, a).store.ops| && Step(s, a).store.ops[i].status == Synced
  {
    assert s.store.ops[i] in s.store.ops;
    match a
    case Receive(run) => AwaitedIsOpen(s, run, i);
    case Drop(run) => AwaitedIsOpen(s, run, i);
    case _ => UnsettledRowStays(s, a, i);
  }

  lemma UnsettledRowStays(s: System, a: Action, i: nat)
    requires !a.Receive? && !a.Drop? && i < |s.store.ops| && s.store.ops[i].status == Synced
    ensures i < |Step(s, a).store.ops| && Step(s, a).store.ops[i].status == Synced
  {
  }

  lemma AwaitedIsOpen(s: System, run: nat, i: nat)
    requires Serial(s) && i < |s.store.ops| && s.store.ops[i].status == Synced
    ensures Awaited(s, run).Some? && Awaited(s, run).value < |s.requests| ==>
              s.requests[Awaited(s, run).value].op.id != s.store.ops[i].id
  {
    if Awaited(s, run).Some? && Awaited(s, run).value < |s.requests| {
      assert TasksOpen(s, s.runs[run]);
      assert s.requests[Awaited(s, run).value].op in Tasks(s, s.runs[run]);
      assert s.store.ops[i] in s.store.ops;
    }
  }

  /** With serialized ticks, what has once been synced stays synced: it is never
      sent again. */
  lemma {:induction false} SyncedIsFinal(before: seq<Action>, after: seq<Action>, i: nat)
    requires Serialized(before + after)
    requires i < |Exec(START, before).store.ops| && Exec(START, before).store.ops[i].status == Synced
    ensures i < |Exec(START, before + after).store.ops|
    ensures Exec(START, before + after).store.ops[i].status == Synced
    decreases |after|
  {
    if after == [] {
      assert before + after == before;
    } else {
      var actions, n := before + after, |before + after| - 1;
      assert actions[..n] == before + after[..|after| - 1];
      SerializedPrefix(actions, n);
      SyncedIsFinal(before, after[..|after| - 1], i);
      SerialHolds(actions[..n]);
      InvHolds(actions[..n]);
      StepKeepsSynced(Exec(START, actions[..n]), actions[n], i);
    }
  }

  /** Two ticks overlap, and both runs are waiting for the same operation. */
  function OverlapRun(req: ApiRequest, d: Draws, tenant: int): seq<Action> {
    [Offline(req, d, false)] + [StartRun] + [StartRun] + [Send(0, Some(tenant))] + [Send(1, Some(tenant))]
  }

  lemma OverlapState(req: ApiRequest, d: Draws, tenant: int)
    requires req.meth in MUTATING && !TakesPayment(req) && d.opId != d.ledgerOpId
    ensures var op := RequestOp(req, d);
            var r := Request(op, KeyFor(op, Some(tenant)), InFlight);
            var s := Exec(START, OverlapRun(req, d, tenant));
            && s.store.ops == [op] && s.requests == [r, r] && s.runs == [Run([], Some(0)), Run([], Some(1))]
            && s.recorded == map[] && s.effects == []
  {
    var op := RequestOp(req, d);
    AfterOfflineState(req, d);
    OneToSend(op);
    var s1 := Step(AfterOffline(req, d), StartRun);
    var s2 := Step(s1, StartRun);
    assert s2.runs == [Run([op], None), Run([op], None)];
    assert [op][1..] == [];
    var r := Request(op, KeyFor(op, Some(tenant)), InFlight);
    var s3 := Step(s2, Send(0, Some(tenant)));
    assert s3.requests == [r] && s3.runs == [Run([], Some(0)), Run([op], None)];
    var s4 := Step(s3, Send(1, Some(tenant)));
    assert s4.requests == [r, r] && s4.runs == [Run([], Some(0)), Run([], Some(1))];
    OverlapIsExec(req, d, tenant);
  }

  lemma OverlapIsExec(req: ApiRequest, d: Draws, tenant: int)
    ensures Exec(START, OverlapRun(req, d, tenant)) ==
            Step(Step(Step(Step(AfterOffline(req, d), StartRun), StartRun), Send(0, Some(tenant))), Send(1, Some(tenant)))
  {
    var first := [Offline(req, d, false)];
    var s := AfterOffline(req, d);
    ExecOne(s, StartRun);
    ExecAppend(START, first, [StartRun]);
    ExecOne(Step(s, StartRun), StartRun);
    ExecAppend(START, first + [StartRun], [StartRun]);
    var s2 := Step(Step(s, StartRun), StartRun);
    ExecOne(s2, Send(0, Some(tenant)));
    ExecAppend(START, first + [StartRun] + [StartRun], [Send(0, Some(tenant))]);
    ExecOne(Step(s2, Send(0, Some(tenant))), Send(1, Some(tenant)));
    ExecAppend(START, first + [StartRun] + [StartRun] + [Send(0, Some(tenant))], [Send(1, Some(tenant))]);
  }

  /** Overlapping ticks break that: the second run's answer marks the operation synced, and
      then the first run's error marks it failed. */
  lemma LateFailureUndoesSynced(req: ApiRequest, d: Draws, tenant: int)
    requires req.meth in MUTATING && !TakesPayment(req) && d.opId != d.ledgerOpId
    ensures var op := RequestOp(req, d);
            var s := Step(ServeStep(Exec(START, OverlapRun(req, d, tenant)), 1, 200), Receive(1));
            && s.store.ops == [op.(status := Synced)] && op.id in s.accepted
            && Step(s, Drop(0)).store.ops == [op.(status := Failed)]
  {
    var op := RequestOp(req, d);
    OverlapState(req, d, tenant);
    var served := ServeStep(Exec(START, OverlapRun(req, d, tenant)), 1, 200);
    assert served.requests[1] == Request(op, KeyFor(op, Some(tenant)), Answered(200));
    assert served.requests[0].op == op && |served.requests| == 2;
    var s := Step(served, Receive(1));
    assert s.store.ops == [op.(status := Synced)];
    assert s.runs == [Run([], Some(0)), Run([], None)];
  }
}
