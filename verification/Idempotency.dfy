/** How often the server carries an operation out (src/app/idempotency/middleware.py
    together with the shell's retries).

    The middleware looks a key up, lets the route run, and records the key afterwards.
    So a key is carried out at most once exactly as long as no request is let through
    while its key is in progress, or done but not recorded. */
module Idempotency {
  import opened Wrappers
  import opened LocalStore
  import opened PendingOps
  import opened SyncProtocol

  // ---- exposure ----------------------------------------------------------------------

  /** How many requests with this key the middleware has let through that the route
      has not finished. */
  function InProgress(requests: seq<Request>, k: Key): nat {
    if requests == [] then 0
    else
      var last := requests[|requests| - 1];
      InProgress(requests[..|requests| - 1], k) + if last.phase == Admitted && last.key == k then 1 else 0
  }

  function TimesDone(s: System, k: Key): nat {
    multiset(s.effects)[k]
  }

  /** How often the key has been, or may still be, carried out without letting
      anything else through. */
  function Exposure(s: System, k: Key): nat {
    TimesDone(s, k) + InProgress(s.requests, k)
  }

  function Weight(r: Request, k: Key): nat {
    if r.phase == Admitted && r.key == k then 1 else 0
  }

  lemma {:induction false} InProgressAfterUpdate(requests: seq<Request>, i: nat, r: Request, k: Key)
    requires i < |requests|
    ensures InProgress(requests[i := r], k) + Weight(requests[i], k) == InProgress(requests, k) + Weight(r, k)
    decreases |requests|
  {
    var n := |requests| - 1;
    if i == n {
      assert requests[i := r][..n] == requests[..n];
    } else {
      assert requests[i := r][..n] == requests[..n][i := r];
      InProgressAfterUpdate(requests[..n], i, r, k);
    }
  }

  lemma InProgressAfterAppend(requests: seq<Request>, r: Request, k: Key)
    ensures InProgress(requests + [r], k) == InProgress(requests, k) + Weight(r, k)
  {
    assert (requests + [r])[..|requests|] == requests;
  }

  lemma {:induction false} SomeInProgress(requests: seq<Request>, k: Key) returns (i: nat)
    requires InProgress(requests, k) > 0
    ensures i < |requests| && requests[i].phase == Admitted && requests[i].key == k
  {
    var n := |requests| - 1;
    if Weight(requests[n], k) == 1 {
      i := n;
    } else {
      i := SomeInProgress(requests[..n], k);
    }
  }

  /** The middleware lets a request with this key through. */
  predicate Admits(s: System, a: Action, k: Key) {
    && a.Check? && a.request < |s.requests|
    && s.requests[a.request].phase == InFlight && s.requests[a.request].key == k
    && !(Deduplicated(k) && k in s.recorded)
  }

  /** Only letting a request through raises the exposure of its key. */
  lemma StepExposure(s: System, a: Action, k: Key)
    ensures Exposure(Step(s, a), k) <= Exposure(s, k) + if Admits(s, a, k) then 1 else 0
    ensures Admits(s, a, k) ==> Exposure(Step(s, a), k) == Exposure(s, k) + 1
    ensures TimesDone(Step(s, a), k) >= TimesDone(s, k)
  {
    match a
    case Check(r) => PhaseExposure(s, a, r, k);
    case Handle(r, _) => PhaseExposure(s, a, r, k);
    case Record(r, _) => PhaseExposure(s, a, r, k);
    case Crash(r) => PhaseExposure(s, a, r, k);
    case Send(run, restaurant) =>
      if SendStep(s, run, restaurant) != s {
        InProgressAfterAppend(s.requests, Step(s, a).requests[|s.requests|], k);
      }
    case _ =>
  }

  lemma PhaseExposure(s: System, a: Action, r: nat, k: Key)
    requires (a.Check? || a.Handle? || a.Record? || a.Crash?) && a.request == r
    ensures Exposure(Step(s, a), k) <= Exposure(s, k) + if Admits(s, a, k) then 1 else 0
    ensures Admits(s, a, k) ==> Exposure(Step(s, a), k) == Exposure(s, k) + 1
    ensures TimesDone(Step(s, a), k) >= TimesDone(s, k)
    ensures a.Handle? && r < |s.requests| && s.requests[r].phase == Admitted && s.requests[r].key == k && Ok(a.status) ==>
              && TimesDone(Step(s, a), k) == TimesDone(s, k) + 1
              && Exposure(Step(s, a), k) == Exposure(s, k)
  {
    if r < |s.requests| {
      InProgressAfterUpdate(s.requests, r, Step(s, a).requests[r], k);
      assert Step(s, a).requests == s.requests[r := Step(s, a).requests[r]];
    }
  }

  // ---- when at most once holds ---------------------------------------------------

  /** Nothing is let through while its key is in progress, or done without a record. */
  predicate Quiet(s: System, a: Action, k: Key) {
    Admits(s, a, k) ==> Exposure(s, k) == 0
  }

  ghost predicate QuietRun(s: System, actions: seq<Action>, k: Key) {
    forall n | 0 <= n < |actions| :: Quiet(Exec(s, actions[..n]), actions[n], k)
  }

  /** In every run, whatever overlaps or gets lost, a key that is let through quietly
      is carried out at most once. */
  lemma {:induction false} AtMostOnce(s: System, actions: seq<Action>, k: Key)
    requires Exposure(s, k) <= 1 && QuietRun(s, actions, k)
    ensures Exposure(Exec(s, actions), k) <= 1 && TimesDone(Exec(s, actions), k) <= 1
    decreases |actions|
  {
    if actions != [] {
      var n := |actions| - 1;
      assert forall m | 0 <= m < n :: actions[..n][..m] == actions[..m];
      AtMostOnce(s, actions[..n], k);
      assert Quiet(Exec(s, actions[..n]), actions[n], k);
      StepExposure(Exec(s, actions[..n]), actions[n], k);
    }
  }

  /** No step of the run lets a request with this key through. */
  ghost predicate AdmitsNone(s: System, actions: seq<Action>, k: Key) {
    forall n | 0 <= n < |actions| :: !Admits(Exec(s, actions[..n]), actions[n], k)
  }

  /** What has been let through already can end in the key being carried out twice. */
  ghost predicate CanDouble(s: System, k: Key) {
    exists actions :: AdmitsNone(s, actions, k) && TimesDone(Exec(s, actions), k) >= 2
  }

  lemma {:induction false} ExposureBounds(s: System, actions: seq<Action>, k: Key)
    requires AdmitsNone(s, actions, k)
    ensures Exposure(Exec(s, actions), k) <= Exposure(s, k)
    decreases |actions|
  {
    if actions != [] {
      var n := |actions| - 1;
      assert forall m | 0 <= m < n :: actions[..n][..m] == actions[..m];
      ExposureBounds(s, actions[..n], k);
      StepExposure(Exec(s, actions[..n]), actions[n], k);
    }
  }

  /** Let the route finish every request of the key that is in progress. */
  lemma {:induction false} FinishAll(s: System, k: Key) returns (actions: seq<Action>)
    ensures forall a | a in actions :: a.Handle?
    ensures TimesDone(Exec(s, actions), k) == Exposure(s, k)
    decreases InProgress(s.requests, k)
  {
    if InProgress(s.requests, k) == 0 {
      actions := [];
    } else {
      var i := SomeInProgress(s.requests, k);
      var a := Handle(i, 200);
      PhaseExposure(s, a, i, k);
      var rest := FinishAll(Step(s, a), k);
      actions := [a] + rest;
      assert [a][..0] == [];
      assert Exec(s, [a]) == Step(Exec(s, [a][..0]), a);
      ExecAppend(s, [a], rest);
    }
  }

  /** The exposure is exact: a state can double the key if and only if it is two. */
  lemma ExposureIsExact(s: System, k: Key)
    ensures CanDouble(s, k) <==> Exposure(s, k) >= 2
  {
    if CanDouble(s, k) {
      var actions :| AdmitsNone(s, actions, k) && TimesDone(Exec(s, actions), k) >= 2;
      ExposureBounds(s, actions, k);
    }
    if Exposure(s, k) >= 2 {
      var actions := FinishAll(s, k);
      assert forall n | 0 <= n < |actions| :: actions[n] in actions;
      assert AdmitsNone(s, actions, k);
    }
  }

  /** Letting a request through is safe exactly when nothing of its key is in
      progress or done. This is the guard the middleware would have to take. */
  lemma AdmissionIsSafeIff(s: System, a: Action, k: Key)
    requires Admits(s, a, k)
    ensures !CanDouble(Step(s, a), k) <==> Exposure(s, k) == 0
  {
    StepExposure(s, a, k);
    ExposureIsExact(Step(s, a), k);
  }

  // ---- a server that handles each request in one piece ------------------------------

  /** A step of a run in which the middleware, the route and the bookkeeping of one
      request are a single step and the bookkeeping never fails. */
  datatype WholeStep = Other(action: Action) | Serve(request: nat, status: int)

  function ServeStep(s: System, r: nat, status: int): System {
    RecordStep(HandleStep(CheckStep(s, r), r, status), r, true)
  }

  function Whole(s: System, w: WholeStep): System {
    match w
    case Other(a) => if a.Check? || a.Handle? || a.Record? then s else Step(s, a)
    case Serve(r, status) => ServeStep(s, r, status)
  }

  function ExecWhole(s: System, steps: seq<WholeStep>): System
    decreases |steps|
  {
    if steps == [] then s else Whole(ExecWhole(s, steps[..|steps| - 1]), steps[|steps| - 1])
  }

  /** Between whole steps nothing is half done, and what is done is recorded. */
  ghost predicate Settled(s: System) {
    && (forall r | r in s.requests :: r.phase != Admitted && !r.phase.Handled?)
    && (forall k | Deduplicated(k) :: TimesDone(s, k) <= 1 && (k in s.effects ==> k in s.recorded))
  }

  /** A whole step is three steps of the system. */
  lemma WholeIsARun(s: System, r: nat, status: int)
    ensures ServeStep(s, r, status) == Exec(s, [Check(r), Handle(r, status), Record(r, true)])
  {
    var actions := [Check(r), Handle(r, status), Record(r, true)];
    assert actions[..2] == [Check(r), Handle(r, status)] && actions[..2][..1] == [Check(r)] && actions[..1][..0] == [];
    assert Exec(s, [Check(r)]) == CheckStep(s, r);
    assert Exec(s, actions[..2]) == HandleStep(CheckStep(s, r), r, status);
  }

  lemma ServeShape(s: System, r: nat, status: int)
    requires Settled(s)
    ensures var s' := ServeStep(s, r, status);
            || s' == s
            || (r < |s.requests| && Deduplicated(s.requests[r].key) && s.requests[r].key in s.recorded
                && s' == SetPhase(s, r, Answered(s.recorded[s.requests[r].key])))
            || (r < |s.requests| && !Ok(status) && s' == SetPhase(s, r, Answered(status)))
            || (r < |s.requests| && Ok(status)
                && var k := s.requests[r].key;
                   && !(Deduplicated(k) && k in s.recorded)
                   && s' == SetPhase(s, r, Answered(status)).(
                              effects := s.effects + [k],
                              recorded := if Deduplicated(k) then s.recorded[k := status] else s.recorded))
  {
    if r < |s.requests| {
      assert s.requests[r] in s.requests;
    }
  }

  lemma ServeKeepsSettled(s: System, r: nat, status: int)
    requires Settled(s)
    ensures Settled(ServeStep(s, r, status))
  {
    ServeShape(s, r, status);
    var s' := ServeStep(s, r, status);
    forall q | q in s'.requests
      ensures q.phase != Admitted && !q.phase.Handled?
    {
      assert q in s.requests || (q.phase.Answered? && q == s'.requests[r]);
    }
  }

  lemma OtherKeepsSettled(s: System, a: Action)
    requires Settled(s) && !(a.Check? || a.Handle? || a.Record?)
    ensures Settled(Step(s, a))
  {
    var s' := Step(s, a);
    assert s'.effects == s.effects && s'.recorded == s.recorded;
    forall q | q in s'.requests
      ensures q.phase != Admitted && !q.phase.Handled?
    {
      assert q in s.requests || q.phase == InFlight || q.phase == Dead;
    }
  }

  /** Then at most once holds in every run, however pushes overlap and answers get
      lost, for every key the middleware looks at. */
  lemma {:induction false} AtMostOnceIfWhole(steps: seq<WholeStep>, k: Key)
    requires k.meth in {"POST", "PATCH", "PUT", "DELETE"} && k.restaurant.Some?
    ensures TimesDone(ExecWhole(START, steps), k) <= 1
  {
    SettledHolds(steps);
  }

  lemma {:induction false} SettledHolds(steps: seq<WholeStep>)
    ensures Settled(ExecWhole(START, steps))
    decreases |steps|
  {
    if steps != [] {
      var n := |steps| - 1;
      SettledHolds(steps[..n]);
      match steps[n]
      case Other(a) =>
        if !(a.Check? || a.Handle? || a.Record?) {
          OtherKeepsSettled(ExecWhole(START, steps[..n]), a);
        }
      case Serve(r, status) => ServeKeepsSettled(ExecWhole(START, steps[..n]), r, status);
    }
  }

  // ---- how it goes wrong otherwise -----------------------------------------------

  lemma ExecOne(s: System, a: Action)
    ensures Exec(s, [a]) == Step(s, a)
  {
    assert [a][..0] == [];
  }

  /** A fresh shell after one request that could not be made and was not sent. */
  function AfterOffline(req: ApiRequest, d: Draws): System {
    Exec(START, [Offline(req, d, false)])
  }

  lemma AfterOfflineState(req: ApiRequest, d: Draws)
    requires req.meth != "GET" && !TakesPayment(req) && d.opId != d.ledgerOpId
    ensures var s := AfterOffline(req, d);
            && s.store.ops == [RequestOp(req, d)] && s.runs == [] && s.requests == []
            && s.recorded == map[] && s.effects == []
  {
    ExecOne(START, Offline(req, d, false));
    assert RequestOp(req, d).status == Pending;
  }

  lemma OneToSend(op: PendingOp)
    requires Sendable(op)
    ensures ToSend([op]) == [op]
  {
    var zero: seq<nat> := [0];
    assert ReadOrder([op], 0) == [];
    assert ReadOrder([op], 1) == zero;
    assert zero[..0] == [];
    assert SendOrder([op]) == zero;
  }

  /** A push run that gets as far as the server's lookup of its first request. */
  function Attempt(s: System, tenant: int): System {
    Step(Step(Step(s, StartRun), Send(|s.runs|, Some(tenant))), Check(|s.requests|))
  }

  function AttemptActions(run: nat, request: nat, tenant: int): seq<Action> {
    [StartRun, Send(run, Some(tenant)), Check(request)]
  }

  lemma AttemptIsExec(s: System, tenant: int)
    ensures Exec(s, AttemptActions(|s.runs|, |s.requests|, tenant)) == Attempt(s, tenant)
  {
    var a, b, c := StartRun, Send(|s.runs|, Some(tenant)), Check(|s.requests|);
    assert [a, b, c] == [a] + [b] + [c];
    ExecOne(s, a);
    ExecOne(Step(s, a), b);
    ExecOne(Step(Step(s, a), b), c);
    ExecAppend(s, [a], [b]);
    ExecAppend(s, [a] + [b], [c]);
  }

  lemma FirstAttempt(s: System, op: PendingOp, tenant: int)
    requires Sendable(op) && op.meth in MUTATING
    requires s.store.ops == [op] && s.runs == [] && s.requests == [] && s.recorded == map[]
    ensures Attempt(s, tenant) ==
            s.(requests := [Request(op, KeyFor(op, Some(tenant)), Admitted)], runs := [Run([], Some(0))])
  {
    OneToSend(op);
    var s1 := Step(s, StartRun);
    assert s1.runs == [Run([op], None)];
    var s2 := Step(s1, Send(0, Some(tenant)));
    assert [op][1..] == [];
    assert s2.requests == [Request(op, KeyFor(op, Some(tenant)), InFlight)] && s2.runs == [Run([], Some(0))];
  }

  /** After the first run has given up, a second one resends the operation. */
  lemma SecondAttempt(s: System, op: PendingOp, tenant: int)
    requires s.store.ops == [op] && Sendable(op) && op.meth in MUTATING
    requires s.runs == [Run([], None)] && |s.requests| == 1 && s.recorded == map[]
    ensures Attempt(s, tenant).requests == s.requests + [Request(op, KeyFor(op, Some(tenant)), Admitted)]
    ensures Attempt(s, tenant).effects == s.effects
  {
    OneToSend(op);
    var s1 := Step(s, StartRun);
    assert s1.runs == [Run([], None), Run([op], None)];
    var s2 := Step(s1, Send(1, Some(tenant)));
    assert s2.requests == s.requests + [Request(op, KeyFor(op, Some(tenant)), InFlight)];
  }

  /** A request, an attempt whose answer is lost after the server has done `between`, and
      another attempt. */
  function ResendRun(req: ApiRequest, d: Draws, tenant: int, between: seq<Action>): seq<Action> {
    [Offline(req, d, false)] + AttemptActions(0, 0, tenant) + between + [Drop(0)] + AttemptActions(1, 1, tenant)
  }

  lemma ResendIsExec(req: ApiRequest, d: Draws, tenant: int, between: seq<Action>)
    requires var s := Exec(Attempt(AfterOffline(req, d), tenant), between);
             |AfterOffline(req, d).runs| == 0 && |AfterOffline(req, d).requests| == 0
             && |Step(s, Drop(0)).runs| == 1 && |Step(s, Drop(0)).requests| == 1
    ensures Exec(START, ResendRun(req, d, tenant, between)) ==
            Attempt(Step(Exec(Attempt(AfterOffline(req, d), tenant), between), Drop(0)), tenant)
  {
    var first := [Offline(req, d, false)];
    var s := Exec(Attempt(AfterOffline(req, d), tenant), between);
    AttemptIsExec(AfterOffline(req, d), tenant);
    ExecAppend(START, first, AttemptActions(0, 0, tenant));
    ExecAppend(START, first + AttemptActions(0, 0, tenant), between);
    ExecOne(s, Drop(0));
    ExecAppend(START, first + AttemptActions(0, 0, tenant) + between, [Drop(0)]);
    AttemptIsExec(Step(s, Drop(0)), tenant);
    ExecAppend(START, first + AttemptActions(0, 0, tenant) + between + [Drop(0)], AttemptActions(1, 1, tenant));
  }

  lemma TwoHandled(s: System, k: Key)
    requires |s.requests| == 2 && s.requests[1].key == k && s.requests[1].phase == Admitted
    requires (s.requests[0].key == k && s.requests[0].phase == Admitted && s.effects == []) || (s.requests[0].phase != Admitted && s.effects == [k])
    ensures Exec(s, [Handle(0, 200), Handle(1, 200)]).effects == [k, k]
  {
    var a, b := Handle(0, 200), Handle(1, 200);
    assert [a, b] == [a] + [b];
    ExecOne(s, a);
    ExecOne(Step(s, a), b);
    ExecAppend(s, [a], [b]);
  }

  /** Ticks that do not overlap: the first answer is lost while the server is still at
      work, the next tick's request is let through as well, and both are carried out. */
  lemma LostAnswerDoubles(req: ApiRequest, d: Draws, tenant: int)
    requires req.meth in MUTATING && !TakesPayment(req) && d.opId != d.ledgerOpId
    ensures var k := KeyFor(RequestOp(req, d), Some(tenant));
            Exec(START, ResendRun(req, d, tenant, []) + [Handle(0, 200), Handle(1, 200)]).effects == [k, k]
  {
    var op := RequestOp(req, d);
    AfterOfflineState(req, d);
    FirstAttempt(AfterOffline(req, d), op, tenant);
    var s1 := Step(Attempt(AfterOffline(req, d), tenant), Drop(0));
    var failed := op.(status := Failed);
    assert s1.store.ops == [failed] && s1.runs == [Run([], None)];
    SecondAttempt(s1, failed, tenant);
    ResendIsExec(req, d, tenant, []);
    TwoHandled(Attempt(s1, tenant), KeyFor(op, Some(tenant)));
    ExecAppend(START, ResendRun(req, d, tenant, []), [Handle(0, 200), Handle(1, 200)]);
  }

  /** No overlap anywhere: the route succeeds, the bookkeeping write fails, the answer is
      lost, and the retry is carried out again. */
  lemma FailedBookkeepingDoubles(req: ApiRequest, d: Draws, tenant: int)
    requires req.meth in MUTATING && !TakesPayment(req) && d.opId != d.ledgerOpId
    ensures var k := KeyFor(RequestOp(req, d), Some(tenant));
            Exec(START, ResendRun(req, d, tenant, [Handle(0, 200), Record(0, false)]) + [Handle(0, 200), Handle(1, 200)]).effects
            == [k, k]
  {
    var op := RequestOp(req, d);
    var k := KeyFor(op, Some(tenant));
    var between := [Handle(0, 200), Record(0, false)];
    AfterOfflineState(req, d);
    FirstAttempt(AfterOffline(req, d), op, tenant);
    HandledUnrecorded(Attempt(AfterOffline(req, d), tenant), op, k);
    var s2 := Exec(Attempt(AfterOffline(req, d), tenant), between);
    var s3 := Step(s2, Drop(0));
    var failed := op.(status := Failed);
    assert s3.store.ops == [failed] && s3.runs == [Run([], None)];
    SecondAttempt(s3, failed, tenant);
    ResendIsExec(req, d, tenant, between);
    TwoHandled(Attempt(s3, tenant), k);
    ExecAppend(START, ResendRun(req, d, tenant, between), [Handle(0, 200), Handle(1, 200)]);
  }

  lemma HandledUnrecorded(s: System, op: PendingOp, k: Key)
    requires s.requests == [Request(op, k, Admitted)] && s.effects == [] && s.recorded == map[]
    ensures var s' := Exec(s, [Handle(0, 200), Record(0, false)]);
            && s'.requests == [Request(op, k, Answered(200))] && s'.effects == [k] && s'.recorded == map[]
            && s'.store == s.store && s'.runs == s.runs
  {
    var a, b := Handle(0, 200), Record(0, false);
    assert [a, b] == [a] + [b];
    ExecOne(s, a);
    ExecOne(Step(s, a), b);
    ExecAppend(s, [a], [b]);
    assert Step(s, a).requests == [Request(op, k, Handled(200))];
  }
}
