/** The shell first tries a request directly, without a key, and queues it when that fails
    (desktop/src/main/main.ts:87-164). When the two together can carry it out twice, for a
    server that handles each request in one piece and under one tenant. */
module DirectAttempts {
  import opened Wrappers
  import opened LocalStore
  import opened PendingOps
  import opened SyncProtocol
  import opened Idempotency
  import opened SyncSafety
  import opened RunTasks
  import opened LateFailures
  import opened PerOperation

  /** The direct attempt was carried out, or the server may still handle it. */
  predicate DirectOpen(s: System, id: string) {
    id in s.direct || id in s.attempts
  }

  predicate Arriving(s: System, r: nat, id: string) {
    r < |s.requests| && s.requests[r].op.id == id && s.requests[r].phase == InFlight
  }

  predicate Held(s: System, i: nat, id: string) {
    i < |s.runs| && id in TaskIds(s, i)
  }

  /** The queued copy of row `n` can be sent again: the row is not synced, or a push run
      has it. */
  ghost predicate Resendable(s: System, n: nat)
    requires n < |s.store.ops|
  {
    s.store.ops[n].status != Synced || exists i: nat :: Held(s, i, s.store.ops[n].id)
  }

  /** The queued copy was carried out, or may still be: it can be sent again, or a request
      for it is on its way. */
  ghost predicate QueueOpen(s: System, n: nat)
    requires n < |s.store.ops|
  {
    var id := s.store.ops[n].id;
    Times(s.effects, id) > 0 || Resendable(s, n) || exists r: nat :: Arriving(s, r, id)
  }

  ghost predicate CanBeDoneTwice(s: System, tenant: int, id: string) {
    exists steps :: OneTenant(s, steps, id, tenant) && Executions(ExecWhole(s, steps), id) >= 2
  }

  // ---- what is closed stays closed -------------------------------------------------------------

  lemma DirectStaysClosed(s: System, w: WholeStep, id: string)
    requires id in Ids(s.store.ops) && !DirectOpen(s, id)
    ensures !DirectOpen(Whole(s, w), id)
  {
  }

  lemma ServeSparesClosed(s: System, r: nat, status: int, n: nat)
    requires Sound(s) && n < |s.store.ops| && !QueueOpen(s, n)
    ensures var s' := ServeStep(s, r, status);
            s'.store == s.store && s'.runs == s.runs && !QueueOpen(s', n)
  {
    var s', id := ServeStep(s, r, status), s.store.ops[n].id;
    ServeShape(s, r, status);
    if s' != s {
      assert s.requests[r] in s.requests;
      assert !Arriving(s, r, id) && s.requests[r].phase == InFlight;
      assert s'.effects == s.effects || s'.effects[..|s.effects|] == s.effects;
      forall q: nat ensures !Arriving(s', q, id) {
        assert !Arriving(s, q, id);
      }
      forall i: nat ensures !Held(s', i, id) {
        assert !Held(s, i, id);
      }
    }
  }

  lemma OpenIsOther(ops: seq<PendingOp>, op: PendingOp, n: nat)
    requires UniqueIds(ops) && op in ops && Sendable(op) && n < |ops| && ops[n].status == Synced
    ensures op.id != ops[n].id
  {
    var m :| 0 <= m < |ops| && ops[m] == op;
    assert m < n || n < m;
  }

  lemma StartSparesClosed(s: System, n: nat)
    requires Sound(s) && n < |s.store.ops| && !Resendable(s, n)
    ensures !Resendable(Step(s, StartRun), n)
  {
    var s', id := Step(s, StartRun), s.store.ops[n].id;
    ToSendMembers(s.store.ops);
    forall i: nat ensures !Held(s', i, id) {
      assert !Held(s, i, id);
      if i == |s.runs| {
        assert TaskIds(s', i) == QueueIds(ToSend(s.store.ops));
        forall k | 0 <= k < |ToSend(s.store.ops)| ensures QueueIds(ToSend(s.store.ops))[k] != id {
          assert ToSend(s.store.ops)[k] in ToSend(s.store.ops);
          OpenIsOther(s.store.ops, ToSend(s.store.ops)[k], n);
        }
      }
    }
  }

  lemma RowStaysSynced(s: System, a: Action, n: nat)
    requires Sound(s) && n < |s.store.ops| && !Resendable(s, n)
    ensures n < |Step(s, a).store.ops| && Step(s, a).store.ops[n].id == s.store.ops[n].id
    ensures Step(s, a).store.ops[n].status == Synced
  {
    RowAfterStep(s, a, n);
    if (a.Receive? || a.Drop?) && Settles(s, a, a.run) {
      HeadIsTask(s, a.run);
      assert !Held(s, a.run, s.store.ops[n].id);
    }
  }

  /** An operation that cannot be sent again stays so. */
  lemma StepSparesUnsendable(s: System, a: Action, n: nat)
    requires Sound(s) && n < |s.store.ops| && !Resendable(s, n) && !(a.Check? || a.Handle? || a.Record?)
    ensures n < |Step(s, a).store.ops| && Step(s, a).store.ops[n].id == s.store.ops[n].id && !Resendable(Step(s, a), n)
  {
    var s', id := Step(s, a), s.store.ops[n].id;
    RowStaysSynced(s, a, n);
    if a.StartRun? {
      StartSparesClosed(s, n);
    } else if StaysUp(a) {
      forall i: nat ensures !Held(s', i, id) {
        assert !Held(s, i, id);
        if i < |s.runs| {
          assert RunSound(s, i);
          TasksShrink(s, a, i, id);
        }
      }
    }
  }

  /** And no further request for it comes up. */
  lemma NothingArrives(s: System, a: Action, r: nat, id: string)
    requires !(a.Check? || a.Handle? || a.Record?) && (forall i: nat :: !Held(s, i, id)) && Arriving(Step(s, a), r, id)
    ensures Arriving(s, r, id) && s.requests[r].key == Step(s, a).requests[r].key
  {
    if a.Send? && a.run < |s.runs| && s.runs[a.run].queue != [] {
      assert !Held(s, a.run, id);
      assert QueueIds(s.runs[a.run].queue)[0] in TaskIds(s, a.run);
    }
  }

  lemma WholeSparesClosed(s: System, w: WholeStep, n: nat)
    requires Sound(s) && n < |s.store.ops| && !QueueOpen(s, n)
    ensures n < |Whole(s, w).store.ops| && Whole(s, w).store.ops[n].id == s.store.ops[n].id && !QueueOpen(Whole(s, w), n)
  {
    match w
    case Serve(r, status) => ServeSparesClosed(s, r, status, n);
    case Other(a) =>
      if !(a.Check? || a.Handle? || a.Record?) {
        StepSparesUnsendable(s, a, n);
        forall r: nat ensures !Arriving(Step(s, a), r, s.store.ops[n].id) {
          if Arriving(Step(s, a), r, s.store.ops[n].id) { NothingArrives(s, a, r, s.store.ops[n].id); }
        }
      }
  }

  lemma {:induction false} ClosedRun(s: System, steps: seq<WholeStep>, n: nat)
    requires Sound(s) && n < |s.store.ops| && !QueueOpen(s, n)
    ensures var s' := ExecWhole(s, steps);
            Sound(s') && n < |s'.store.ops| && s'.store.ops[n].id == s.store.ops[n].id && !QueueOpen(s', n)
    decreases |steps|
  {
    if steps != [] {
      var m := |steps| - 1;
      ClosedRun(s, steps[..m], n);
      WholeKeepsSound(ExecWhole(s, steps[..m]), steps[m]);
      WholeSparesClosed(ExecWhole(s, steps[..m]), steps[m], n);
    }
  }

  lemma WholeKeepsRow(s: System, w: WholeStep, n: nat)
    requires Inv(s) && n < |s.store.ops|
    ensures n < |Whole(s, w).store.ops| && Core(Whole(s, w).store.ops[n]) == Core(s.store.ops[n])
  {
    if w.Other? { StepExtends(s, w.action); }
  }

  lemma {:induction false} DirectClosedRun(s: System, steps: seq<WholeStep>, n: nat)
    requires Sound(s) && n < |s.store.ops| && !DirectOpen(s, s.store.ops[n].id)
    ensures var s' := ExecWhole(s, steps);
            Sound(s') && n < |s'.store.ops| && Core(s'.store.ops[n]) == Core(s.store.ops[n]) && !DirectOpen(s', s.store.ops[n].id)
    decreases |steps|
  {
    if steps != [] {
      var m := |steps| - 1;
      var before := ExecWhole(s, steps[..m]);
      DirectClosedRun(s, steps[..m], n);
      WholeKeepsSound(before, steps[m]);
      WholeKeepsRow(before, steps[m], n);
      assert before.store.ops[n] in before.store.ops;
      DirectStaysClosed(before, steps[m], s.store.ops[n].id);
    }
  }

  // ---- what is open can be carried out ------------------------------------------------------------

  lemma ServeCarriesOut(s: System, r: nat, n: nat)
    requires Sound(s) && n < |s.store.ops| && Arriving(s, r, s.store.ops[n].id)
    ensures Times(ServeStep(s, r, 200).effects, s.store.ops[n].id) > 0
  {
    var k := s.requests[r].key;
    assert s.requests[r] in s.requests && k.id == s.store.ops[n].id;
    ServeShape(s, r, 200);
    var s' := ServeStep(s, r, 200);
    if Deduplicated(k) && k in s.recorded {
      assert k in s.effects;
      InEffects(s.effects, k);
    } else {
      assert s'.effects == s.effects + [k] && s'.effects[..|s.effects|] == s.effects;
    }
  }

  lemma {:induction false} InEffects(effects: seq<Key>, k: Key)
    requires k in effects
    ensures Times(effects, k.id) > 0
    decreases |effects|
  {
    if effects[|effects| - 1] != k {
      assert k in effects[..|effects| - 1];
      InEffects(effects[..|effects| - 1], k);
    }
  }

  lemma OneStep(w: WholeStep, rest: seq<WholeStep>, tenant: int)
    requires SentAs(w, tenant) && AllUnder(rest, tenant)
    ensures AllUnder([w] + rest, tenant)
  {
  }

  /** Run `i` has the row in its queue, or awaits it with a request on its way. */
  predicate WillSend(s: System, i: nat, id: string) {
    && Held(s, i, id)
    && (Awaiting(s, i) && AwaitedRequest(s, i).op.id == id ==> AwaitedRequest(s, i).phase == InFlight)
  }

  lemma GoOnWillSend(s: System, i: nat, tenant: int, n: nat)
    requires Sound(s) && n < |s.store.ops| && WillSend(s, i, s.store.ops[n].id)
    requires !(Awaiting(s, i) && AwaitedRequest(s, i).op.id == s.store.ops[n].id)
    ensures var s' := Whole(s, Other(GoOn(s, i, Some(tenant))));
            && Sound(s') && n < |s'.store.ops| && s'.store.ops[n].id == s.store.ops[n].id
            && WillSend(s', i, s.store.ops[n].id) && Load(s', i) < Load(s, i)
  {
    var a := GoOn(s, i, Some(tenant));
    GoOnStep(s, i, Some(tenant), s.store.ops[n].id);
    WholeKeepsSound(s, Other(a));
    assert RunSound(s, i);
  }

  lemma {:induction false} CarryTask(s: System, tenant: int, i: nat, n: nat) returns (steps: seq<WholeStep>)
    requires Sound(s) && n < |s.store.ops| && WillSend(s, i, s.store.ops[n].id)
    ensures AllUnder(steps, tenant) && Times(ExecWhole(s, steps).effects, s.store.ops[n].id) > 0
    decreases Load(s, i)
  {
    if Awaiting(s, i) && AwaitedRequest(s, i).op.id == s.store.ops[n].id {
      var r := s.runs[i].current.value;
      steps := [Serve(r, 200)] + [];
      WholeCons(s, Serve(r, 200), []);
      ServeCarriesOut(s, r, n);
    } else {
      var w := Other(GoOn(s, i, Some(tenant)));
      GoOnWillSend(s, i, tenant, n);
      var rest := CarryTask(Whole(s, w), tenant, i, n);
      steps := [w] + rest;
      WholeCons(s, w, rest);
      OneStep(w, rest, tenant);
    }
  }

  lemma StartWillSend(s: System, n: nat)
    requires Sound(s) && n < |s.store.ops| && Sendable(s.store.ops[n])
    ensures WillSend(Step(s, StartRun), |s.runs|, s.store.ops[n].id)
  {
    ToSendMembers(s.store.ops);
    assert s.store.ops[n] in ToSend(s.store.ops);
    var k :| 0 <= k < |ToSend(s.store.ops)| && ToSend(s.store.ops)[k] == s.store.ops[n];
    assert TaskIds(Step(s, StartRun), |s.runs|) == QueueIds(ToSend(s.store.ops));
    assert QueueIds(ToSend(s.store.ops))[k] == s.store.ops[n].id;
  }

  lemma CarryOpen(s: System, tenant: int, n: nat) returns (steps: seq<WholeStep>)
    requires Sound(s) && n < |s.store.ops| && Sendable(s.store.ops[n])
    ensures AllUnder(steps, tenant) && Times(ExecWhole(s, steps).effects, s.store.ops[n].id) > 0
  {
    StartWillSend(s, n);
    WholeKeepsSound(s, Other(StartRun));
    var rest := CarryTask(Whole(s, Other(StartRun)), tenant, |s.runs|, n);
    steps := [Other(StartRun)] + rest;
    WholeCons(s, Other(StartRun), rest);
    OneStep(Other(StartRun), rest, tenant);
  }

  /** A row that becomes pending or failed by one step can be sent after it. */
  lemma CarryAfter(s: System, tenant: int, a: Action, n: nat) returns (steps: seq<WholeStep>)
    requires Sound(s) && n < |s.store.ops| && (a.Drop? || a.ResolveConflict?)
    requires var s' := Step(s, a); n < |s'.store.ops| && s'.store.ops[n].id == s.store.ops[n].id && Sendable(s'.store.ops[n])
    ensures AllUnder(steps, tenant) && Times(ExecWhole(s, steps).effects, s.store.ops[n].id) > 0
  {
    WholeKeepsSound(s, Other(a));
    var rest := CarryOpen(Step(s, a), tenant, n);
    steps := [Other(a)] + rest;
    WholeCons(s, Other(a), rest);
    OneStep(Other(a), rest, tenant);
  }

  lemma CarryHeld(s: System, tenant: int, i: nat, n: nat) returns (steps: seq<WholeStep>)
    requires Sound(s) && n < |s.store.ops| && Held(s, i, s.store.ops[n].id)
    ensures AllUnder(steps, tenant) && Times(ExecWhole(s, steps).effects, s.store.ops[n].id) > 0
  {
    if WillSend(s, i, s.store.ops[n].id) {
      steps := CarryTask(s, tenant, i, n);
    } else {
      DropFails(s, i, n);
      RowAfterStep(s, Drop(i), n);
      steps := CarryAfter(s, tenant, Drop(i), n);
    }
  }

  lemma CarryOut(s: System, tenant: int, n: nat) returns (steps: seq<WholeStep>)
    requires Sound(s) && n < |s.store.ops| && QueueOpen(s, n)
    ensures AllUnder(steps, tenant) && Times(ExecWhole(s, steps).effects, s.store.ops[n].id) > 0
  {
    var id := s.store.ops[n].id;
    if Times(s.effects, id) > 0 {
      steps := [];
    } else if i: nat :| Held(s, i, id) {
      steps := CarryHeld(s, tenant, i, n);
    } else if r: nat :| Arriving(s, r, id) {
      steps := [Serve(r, 200)] + [];
      WholeCons(s, Serve(r, 200), []);
      ServeCarriesOut(s, r, n);
    } else if Sendable(s.store.ops[n]) {
      steps := CarryOpen(s, tenant, n);
    } else {
      steps := CarryAfter(s, tenant, ResolveConflict(id, Retry), n);
    }
  }

  // ---- the exact condition -----------------------------------------------------------------------

  lemma {:induction false} DirectStays(s: System, steps: seq<WholeStep>, id: string)
    requires id in s.direct
    ensures id in ExecWhole(s, steps).direct
    decreases |steps|
  {
    if steps != [] {
      DirectStays(s, steps[..|steps| - 1], id);
    }
  }

  lemma DirectThenQueue(s: System, tenant: int, n: nat)
    requires Sound(s) && n < |s.store.ops| && DirectOpen(s, s.store.ops[n].id) && QueueOpen(s, n)
    ensures CanBeDoneTwice(s, tenant, s.store.ops[n].id)
  {
    var id := s.store.ops[n].id;
    var direct := HandleDirect(id, 200);
    var s1 := Step(s, direct);
    WholeKeepsSound(s, Other(direct));
    assert id in s1.direct;
    assert QueueOpen(s1, n) by {
      if i: nat :| Held(s, i, id) { assert Held(s1, i, id); }
      if r: nat :| Arriving(s, r, id) { assert Arriving(s1, r, id); }
    }
    var rest := CarryOut(s1, tenant, n);
    DirectStays(s1, rest, id);
    WholeCons(s, Other(direct), rest);
    OneStep(Other(direct), rest, tenant);
    OneForAll(s, [Other(direct)] + rest, id, tenant);
    assert OneTenant(s, [Other(direct)] + rest, id, tenant) && Executions(ExecWhole(s, [Other(direct)] + rest), id) >= 2;
  }

  lemma {:induction false} RowStays(s: System, steps: seq<WholeStep>, n: nat)
    requires Sound(s) && n < |s.store.ops|
    ensures var s' := ExecWhole(s, steps);
            Sound(s') && n < |s'.store.ops| && Core(s'.store.ops[n]) == Core(s.store.ops[n])
    decreases |steps|
  {
    if steps != [] {
      var before := ExecWhole(s, steps[..|steps| - 1]);
      RowStays(s, steps[..|steps| - 1], n);
      WholeKeepsSound(before, steps[|steps| - 1]);
      WholeKeepsRow(before, steps[|steps| - 1], n);
    }
  }

  lemma {:induction false} OnceAfter(steps: seq<WholeStep>, more: seq<WholeStep>, tenant: int, n: nat)
    requires n < |ExecWhole(START, steps).store.ops| && ExecWhole(START, steps).store.ops[n].meth in MUTATING
    requires OneTenant(START, steps, ExecWhole(START, steps).store.ops[n].id, tenant)
    requires OneTenant(ExecWhole(START, steps), more, ExecWhole(START, steps).store.ops[n].id, tenant)
    ensures Times(ExecWhole(ExecWhole(START, steps), more).effects, ExecWhole(START, steps).store.ops[n].id) <= 1
  {
    SoundHolds(steps);
    RowStays(ExecWhole(START, steps), more, n);
    WholeAppend(START, steps, more);
    OneTenantAppend(START, steps, more, ExecWhole(START, steps).store.ops[n].id, tenant);
    QueuedAtMostOnce(steps + more, tenant, n);
  }

  /** From any point of any run whose requests for the operation resolve to one tenant: a
      request that was tried directly and queued can be carried out twice under that tenant
      if and only if its direct attempt was carried out or is still on
      its way, and its queued copy was carried out or can still be sent. */
  lemma {:induction false} DoneTwiceIff(steps: seq<WholeStep>, tenant: int, n: nat)
    requires n < |ExecWhole(START, steps).store.ops| && ExecWhole(START, steps).store.ops[n].meth in {"POST", "PATCH", "PUT", "DELETE"}
    requires OneTenant(START, steps, ExecWhole(START, steps).store.ops[n].id, tenant)
    ensures var s := ExecWhole(START, steps);
            CanBeDoneTwice(s, tenant, s.store.ops[n].id) <==> DirectOpen(s, s.store.ops[n].id) && QueueOpen(s, n)
  {
    var s := ExecWhole(START, steps);
    var id := s.store.ops[n].id;
    SoundHolds(steps);
    if DirectOpen(s, id) && QueueOpen(s, n) {
      DirectThenQueue(s, tenant, n);
    } else {
      forall more | OneTenant(s, more, id, tenant) ensures Executions(ExecWhole(s, more), id) < 2 {
        OnceAfter(steps, more, tenant, n);
        if !DirectOpen(s, id) {
          DirectClosedRun(s, more, n);
        } else {
          ClosedRun(s, more, n);
        }
      }
    }
  }

  /** So every request that is tried, fails and is queued can be carried out twice, of
      whatever kind it is. */
  lemma DirectAttemptDoubles(req: ApiRequest, d: Draws, tenant: int)
    requires req.meth in MUTATING && d.opId != d.ledgerOpId
    ensures CanBeDoneTwice(ExecWhole(START, [Other(Offline(req, d, true))]), tenant, d.opId)
  {
    var w := Other(Offline(req, d, true));
    var s := ExecWhole(START, [w]);
    WholeCons(START, w, []);
    assert [w] + [] == [w];
    HandleOfflineOps(EMPTY_STORE, req, d);
    var n := |s.store.ops| - 1;
    assert s.store.ops[n] == RequestOp(req, d) && d.opId in s.attempts;
    assert SentAs(w, tenant);
    OneForAll(START, [w], d.opId, tenant);
    DoneTwiceIff([w], tenant, n);
  }

  // ---- payments ----------------------------------------------------------------------------------

  lemma TwoToSend(a: PendingOp, b: PendingOp)
    requires Sendable(a) && Sendable(b) && a.createdAt == b.createdAt
    ensures ToSend([a, b]) == [a, b]
  {
    var ops := [a, b];
    TextLessIsTotal(a.createdAt, b.createdAt);
    SendOrderIsExact(ops);
    SendOrderIsFifo(ops);
    BothInOrder(SendOrder(ops));
  }

  lemma {:induction false} Climbs(order: seq<nat>, a: nat)
    requires a < |order| && forall i, j | 0 <= i < j < |order| :: order[i] < order[j]
    ensures a <= order[a]
    decreases a
  {
    if a > 0 { Climbs(order, a - 1); }
  }

  lemma BothInOrder(order: seq<nat>)
    requires forall i: nat :: i in order <==> i < 2
    requires forall a, b | 0 <= a < b < |order| :: order[a] < order[b]
    ensures order == [0, 1]
  {
    var zero: nat, one: nat := 0, 1;
    assert zero in order && one in order;
    Climbs(order, |order| - 1);
    assert order[|order| - 1] in order;
  }

  lemma Three(s: System, a: WholeStep, b: WholeStep, c: WholeStep)
    ensures ExecWhole(s, [a, b, c]) == Whole(Whole(Whole(s, a), b), c)
  {
    assert [a, b, c] == [a] + ([b] + ([c] + []));
    WholeCons(s, a, [b] + ([c] + []));
    WholeCons(Whole(s, a), b, [c] + []);
    WholeCons(Whole(Whole(s, a), b), c, []);
  }

  lemma Sent(s: System, i: nat, op: PendingOp, rest: seq<PendingOp>, restaurant: Option<int>)
    requires i < |s.runs| && s.runs[i] == Run([op] + rest, None)
    ensures Whole(s, Other(Send(i, restaurant))) ==
            s.(requests := s.requests + [Request(op, KeyFor(op, restaurant), InFlight)],
               runs := s.runs[i := Run(rest, Some(|s.requests|))])
  {
    assert ([op] + rest)[0] == op && ([op] + rest)[1..] == rest;
  }

  lemma Served(s: System, r: nat, op: PendingOp, k: Key)
    requires r < |s.requests| && s.requests[r] == Request(op, k, InFlight) && !(Deduplicated(k) && k in s.recorded)
    ensures Whole(s, Serve(r, 200)) ==
            s.(requests := s.requests[r := Request(op, k, Answered(200))], effects := s.effects + [k],
               recorded := if Deduplicated(k) then s.recorded[k := 200] else s.recorded)
  {
    var s1 := CheckStep(s, r);
    assert s1.requests[r] == Request(op, k, Admitted);
    var s2 := HandleStep(s1, r, 200);
    assert s2.requests[r] == Request(op, k, Handled(200));
    var s3 := RecordStep(s2, r, true);
    assert s3.requests == s.requests[r := Request(op, k, Answered(200))];
  }

  lemma Replayed(s: System, r: nat, op: PendingOp, k: Key)
    requires r < |s.requests| && s.requests[r] == Request(op, k, InFlight) && Deduplicated(k) && k in s.recorded
    ensures Whole(s, Serve(r, 200)).effects == s.effects
  {
    assert CheckStep(s, r).requests[r].phase == Answered(s.recorded[k]);
  }

  lemma Received(s: System, i: nat, r: nat, op: PendingOp, k: Key, rest: seq<PendingOp>)
    requires i < |s.runs| && r < |s.requests| && s.runs[i] == Run(rest, Some(r)) && s.requests[r] == Request(op, k, Answered(200))
    ensures Whole(s, Other(Receive(i))) ==
            s.(store := Settle(s.store, op, Answer(200)), runs := s.runs[i := Run(rest, None)], accepted := s.accepted + {op.id})
  {
  }

  /** One operation sent, carried out and answered. */
  function SendOne(request: nat, tenant: int): seq<WholeStep> {
    [Other(Send(0, Some(tenant))), Serve(request, 200), Other(Receive(0))]
  }

  function Accepted(s: System, op: PendingOp, rest: seq<PendingOp>, tenant: int): System {
    var k := KeyFor(op, Some(tenant));
    s.(store := Settle(s.store, op, Answer(200)), runs := [Run(rest, None)],
       requests := s.requests + [Request(op, k, Answered(200))], effects := s.effects + [k],
       recorded := s.recorded[k := 200], accepted := s.accepted + {op.id})
  }

  lemma SendOneDone(s: System, op: PendingOp, rest: seq<PendingOp>, tenant: int)
    requires s.runs == [Run([op] + rest, None)] && op.meth in MUTATING && KeyFor(op, Some(tenant)) !in s.recorded
    ensures ExecWhole(s, SendOne(|s.requests|, tenant)) == Accepted(s, op, rest, tenant)
  {
    var n, k := |s.requests|, KeyFor(op, Some(tenant));
    Sent(s, 0, op, rest, Some(tenant));
    var s1 := Whole(s, Other(Send(0, Some(tenant))));
    Served(s1, n, op, k);
    var s2 := Whole(s1, Serve(n, 200));
    Received(s2, 0, n, op, k, rest);
    Three(s, Other(Send(0, Some(tenant))), Serve(n, 200), Other(Receive(0)));
    assert s2.requests == s.requests + [Request(op, k, Answered(200))];
  }

  lemma PaymentQueued(req: ApiRequest, d: Draws)
    requires TakesPayment(req) && d.opId != d.ledgerOpId
    ensures var s := Whole(START, Other(Offline(req, d, false)));
            && s.store.ops == [LedgerOp(req.body, d), RequestOp(req, d)]
            && s.runs == [] && s.requests == [] && s.effects == [] && s.recorded == map[]
  {
    HandleOfflineOps(EMPTY_STORE, req, d);
    assert Whole(START, Other(Offline(req, d, false))) == OfflineStep(START, req, d, false);
  }

  lemma PaymentStarted(req: ApiRequest, d: Draws)
    requires TakesPayment(req) && d.opId != d.ledgerOpId
    ensures var s, ledger, op := Whole(Whole(START, Other(Offline(req, d, false))), Other(StartRun)), LedgerOp(req.body, d), RequestOp(req, d);
            && s.store.ops == [ledger, op] && s.runs == [Run([ledger] + [op], None)]
            && s.requests == [] && s.effects == [] && s.recorded == map[]
  {
    var ledger, op := LedgerOp(req.body, d), RequestOp(req, d);
    PaymentQueued(req, d);
    TwoToSend(ledger, op);
    assert [ledger] + [op] == [ledger, op];
  }

  function PaymentRun(req: ApiRequest, d: Draws, tenant: int): seq<WholeStep> {
    [Other(Offline(req, d, false))] + ([Other(StartRun)] + (SendOne(0, tenant) + SendOne(1, tenant)))
  }

  lemma PaymentRunIsExec(req: ApiRequest, d: Draws, tenant: int)
    ensures ExecWhole(START, PaymentRun(req, d, tenant)) ==
            ExecWhole(ExecWhole(Whole(Whole(START, Other(Offline(req, d, false))), Other(StartRun)), SendOne(0, tenant)),
                      SendOne(1, tenant))
  {
    var offline, start := Other(Offline(req, d, false)), Other(StartRun);
    var both := SendOne(0, tenant) + SendOne(1, tenant);
    WholeCons(START, offline, [start] + both);
    WholeCons(Whole(START, offline), start, both);
    WholeAppend(Whole(Whole(START, offline), start), SendOne(0, tenant), SendOne(1, tenant));
  }

  /** A payment taken offline is queued as two operations with different keys. One push run
      in which nothing goes wrong carries both out: the payment is posted twice. */
  lemma PaymentIsPostedTwice(req: ApiRequest, d: Draws, tenant: int)
    requires TakesPayment(req) && d.opId != d.ledgerOpId
    ensures AllUnder(PaymentRun(req, d, tenant), tenant)
    ensures var s, ledger, op := ExecWhole(START, PaymentRun(req, d, tenant)), LedgerOp(req.body, d), RequestOp(req, d);
            && s.store.ops == [ledger.(status := Synced), op.(status := Synced)]
            && s.effects == [KeyFor(ledger, Some(tenant)), KeyFor(op, Some(tenant))]
  {
    var ledger, op := LedgerOp(req.body, d), RequestOp(req, d);
    PaymentStarted(req, d);
    var s := Whole(Whole(START, Other(Offline(req, d, false))), Other(StartRun));
    TwoSent(s, ledger, op, tenant);
    PaymentRunIsExec(req, d, tenant);
    PaymentRunTenant(req, d, tenant);
    TwoAccepted(s, ledger, op, tenant);
  }

  lemma PaymentRunTenant(req: ApiRequest, d: Draws, tenant: int)
    ensures AllUnder(PaymentRun(req, d, tenant), tenant)
  {
    forall w | w in PaymentRun(req, d, tenant) ensures SentAs(w, tenant) {
      assert w in [Other(Offline(req, d, false)), Other(StartRun)] || w in SendOne(0, tenant) || w in SendOne(1, tenant);
    }
  }

  lemma TwoSent(s: System, a: PendingOp, b: PendingOp, tenant: int)
    requires s.runs == [Run([a] + [b], None)] && s.requests == [] && s.recorded == map[]
    requires a.id != b.id && a.meth in MUTATING && b.meth in MUTATING
    ensures ExecWhole(ExecWhole(s, SendOne(0, tenant)), SendOne(1, tenant)) ==
            Accepted(Accepted(s, a, [b], tenant), b, [], tenant)
  {
    SendOneDone(s, a, [b], tenant);
    assert [b] + [] == [b];
    SendOneDone(Accepted(s, a, [b], tenant), b, [], tenant);
  }

  lemma TwoAccepted(s: System, a: PendingOp, b: PendingOp, tenant: int)
    requires s.store.ops == [a, b] && s.effects == [] && a.id != b.id
    ensures var s' := Accepted(Accepted(s, a, [b], tenant), b, [], tenant);
            && s'.store.ops == [a.(status := Synced), b.(status := Synced)]
            && s'.effects == [KeyFor(a, Some(tenant)), KeyFor(b, Some(tenant))]
  {
    assert Accepted(s, a, [b], tenant).store.ops == [a.(status := Synced), b];
  }

  // ---- a lost answer -----------------------------------------------------------------------------

  /** The operation is sent and carried out, and its answer is lost … */
  function FirstTry(restaurant: Option<int>): seq<WholeStep> {
    [Other(Send(0, restaurant)), Serve(0, 200), Other(Drop(0))]
  }

  /** … so that the next push run sends it again. */
  function SecondTry(restaurant: Option<int>): seq<WholeStep> {
    [Other(Send(1, restaurant)), Serve(1, 200)]
  }

  function ResendRun(req: ApiRequest, d: Draws, one: Option<int>, other: Option<int>): seq<WholeStep> {
    [Other(Offline(req, d, false))] + ([Other(StartRun)] + (FirstTry(one) + ([Other(StartRun)] + SecondTry(other))))
  }

  function RecordOf(k: Key): map<Key, int> {
    if Deduplicated(k) then map[k := 200] else map[]
  }

  lemma FirstTried(s: System, op: PendingOp, restaurant: Option<int>)
    requires s.runs == [Run([op], None)] && s.requests == [] && s.effects == [] && s.recorded == map[] && s.store.ops == [op]
    ensures var s', k := ExecWhole(s, FirstTry(restaurant)), KeyFor(op, restaurant);
            && s'.runs == [Run([], None)] && |s'.requests| == 1 && s'.effects == [k] && s'.recorded == RecordOf(k)
            && s'.store.ops == [op.(status := Failed)]
  {
    assert [op] + [] == [op];
    Sent(s, 0, op, [], restaurant);
    Served(Whole(s, Other(Send(0, restaurant))), 0, op, KeyFor(op, restaurant));
    Three(s, Other(Send(0, restaurant)), Serve(0, 200), Other(Drop(0)));
  }

  lemma SecondTried(s: System, op: PendingOp, one: Option<int>, other: Option<int>)
    requires s.runs == [Run([], None), Run([op], None)] && |s.requests| == 1
    requires s.effects == [KeyFor(op, one)] && s.recorded == RecordOf(KeyFor(op, one))
    ensures ExecWhole(s, SecondTry(other)).effects ==
            [KeyFor(op, one)] + if one == other && Deduplicated(KeyFor(op, one)) then [] else [KeyFor(op, other)]
  {
    var a, b, k := Other(Send(1, other)), Serve(1, 200), KeyFor(op, other);
    assert [op] + [] == [op] && [a, b] == [a] + ([b] + []);
    Sent(s, 1, op, [], other);
    WholeCons(s, a, [b] + []);
    WholeCons(Whole(s, a), b, []);
    if one == other && Deduplicated(k) {
      Replayed(Whole(s, a), 1, op, k);
    } else {
      Served(Whole(s, a), 1, op, k);
    }
  }

  lemma Tried(s: System, op: PendingOp, one: Option<int>, other: Option<int>)
    requires s.runs == [Run([op], None)] && s.requests == [] && s.effects == [] && s.recorded == map[] && s.store.ops == [op]
    ensures ExecWhole(s, FirstTry(one) + ([Other(StartRun)] + SecondTry(other))).effects ==
            [KeyFor(op, one)] + if one == other && Deduplicated(KeyFor(op, one)) then [] else [KeyFor(op, other)]
  {
    var start, failed := Other(StartRun), op.(status := Failed);
    FirstTried(s, op, one);
    var s1 := ExecWhole(s, FirstTry(one));
    OneToSend(failed);
    assert Whole(s1, start).runs == [Run([], None), Run([failed], None)];
    SecondTried(Whole(s1, start), failed, one, other);
    WholeAppend(s, FirstTry(one), [start] + SecondTry(other));
    WholeCons(s1, start, SecondTry(other));
  }

  lemma TimesOfTwo(a: Key, b: seq<Key>)
    requires |b| <= 1 && forall k | k in b :: k.id == a.id
    ensures Times([a] + b, a.id) == 1 + |b|
  {
    assert [a][..0] == [] && Times([a], a.id) == 1;
    if b == [] {
      assert [a] + b == [a];
    } else {
      assert ([a] + b)[..1] == [a] && b[0] in b;
    }
  }

  lemma StartOne(s: System, op: PendingOp)
    requires s.runs == [] && s.store.ops == [op] && Sendable(op)
    ensures Whole(s, Other(StartRun)) == s.(runs := [Run([op], None)])
  {
    OneToSend(op);
  }

  lemma StartedWithOne(req: ApiRequest, d: Draws)
    requires req.meth != "GET" && !TakesPayment(req) && d.opId != d.ledgerOpId
    ensures var s, op := Whole(Whole(START, Other(Offline(req, d, false))), Other(StartRun)), RequestOp(req, d);
            s.runs == [Run([op], None)] && s.requests == [] && s.effects == [] && s.recorded == map[] && s.store.ops == [op]
  {
    AfterOfflineState(req, d);
    ExecOne(START, Offline(req, d, false));
    StartOne(AfterOffline(req, d), RequestOp(req, d));
  }

  lemma TwoThen(s: System, a: WholeStep, b: WholeStep, rest: seq<WholeStep>)
    ensures ExecWhole(s, [a] + ([b] + rest)) == ExecWhole(Whole(Whole(s, a), b), rest)
  {
    WholeCons(s, a, [b] + rest);
    WholeCons(Whole(s, a), b, rest);
  }

  lemma ResendEffects(req: ApiRequest, d: Draws, one: Option<int>, other: Option<int>)
    requires req.meth != "GET" && !TakesPayment(req) && d.opId != d.ledgerOpId
    ensures var op := RequestOp(req, d);
            ExecWhole(START, ResendRun(req, d, one, other)).effects ==
            [KeyFor(op, one)] + if one == other && Deduplicated(KeyFor(op, one)) then [] else [KeyFor(op, other)]
  {
    StartedWithOne(req, d);
    Tried(Whole(Whole(START, Other(Offline(req, d, false))), Other(StartRun)), RequestOp(req, d), one, other);
    TwoThen(START, Other(Offline(req, d, false)), Other(StartRun), FirstTry(one) + ([Other(StartRun)] + SecondTry(other)));
  }

  /** What a server that handles each request in one piece makes of a resend after a lost answer:
      it recognizes it exactly if the method is one of the four, the token of either request
      resolves to a restaurant, and to the same one. */
  lemma ResendDoublesIff(req: ApiRequest, d: Draws, one: Option<int>, other: Option<int>)
    requires req.meth != "GET" && !TakesPayment(req) && d.opId != d.ledgerOpId
    ensures Times(ExecWhole(START, ResendRun(req, d, one, other)).effects, d.opId) ==
            if one == other && one.Some? && req.meth in {"POST", "PATCH", "PUT", "DELETE"} then 1 else 2
  {
    var op := RequestOp(req, d);
    ResendEffects(req, d, one, other);
    TimesOfTwo(KeyFor(op, one), if one == other && Deduplicated(KeyFor(op, one)) then [] else [KeyFor(op, other)]);
  }

  /** The queue outlives a change of token. An operation that is carried out for one
      restaurant, whose answer is lost, is carried out for another one as well. */
  lemma TwoTenantsDouble(req: ApiRequest, d: Draws, one: int, other: int)
    requires req.meth in {"POST", "PATCH", "PUT", "DELETE"} && !TakesPayment(req) && d.opId != d.ledgerOpId && one != other
    ensures Times(ExecWhole(START, ResendRun(req, d, Some(one), Some(other))).effects, d.opId) == 2
  {
    ResendDoublesIff(req, d, Some(one), Some(other));
  }
}
