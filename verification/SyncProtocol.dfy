/** The push protocol as a transition system: the shell's queue and its push runs
    (desktop/src/main/sync.ts), the requests on their way, and the server's
    idempotency middleware (src/app/idempotency/middleware.py) as it is written.

    An action is one atomic step of one party. Its arguments are the environment's
    choices, so a run of the system is a list of actions; an action that is not
    enabled does nothing. Nothing limits how steps interleave: ticks overlap,
    answers get lost, processes restart. */
module SyncProtocol {
  import opened Wrappers
  import opened LocalStore
  import opened PendingOps

  /** The unique index of idempotency_keys. No restaurant: the token did not resolve. */
  datatype Key = Key(restaurant: Option<int>, id: string, meth: string, path: string)

  /** Where a request is: on its way; let through by the middleware; carried out by
      the route with a status; answered; or forgotten by a server that died. */
  datatype Phase = InFlight | Admitted | Handled(status: int) | Answered(status: int) | Dead

  datatype Request = Request(op: PendingOp, key: Key, phase: Phase)

  /** One call of pushSync: the operations still to send, as read at its start, and
      the request it awaits. */
  datatype Run = Run(queue: seq<PendingOp>, current: Option<nat>)

  datatype System = System(
    store: Store,
    runs: seq<Run>,
    requests: seq<Request>,
    recorded: map<Key, int>,
    effects: seq<Key>,
    attempts: set<string>,
    // history
    direct: set<string>,
    accepted: set<string>,
    refused: set<string>,
    unserved: set<string>,
    discarded: set<string>)

  const START := System(EMPTY_STORE, [], [], map[], [], {}, {}, {}, {}, {}, {})

  datatype Action =
    | Offline(req: ApiRequest, draws: Draws, sent: bool)
    | StartRun
    | Send(run: nat, restaurant: Option<int>)
    | Check(request: nat)
    | Handle(request: nat, status: int)
    | Record(request: nat, stored: bool)
    | HandleDirect(opId: string, status: int)
    | Crash(request: nat)
    | Receive(run: nat)
    | Drop(run: nat)
    | Restart
    | ResolveConflict(id: string, resolution: Resolution)

  const MUTATING := {"POST", "PATCH", "PUT", "DELETE"}

  predicate Deduplicated(k: Key) {
    k.meth in MUTATING && k.restaurant.Some?
  }

  function KeyFor(op: PendingOp, restaurant: Option<int>): Key {
    Key(restaurant, op.id, op.meth, op.path)
  }

  // ---- steps -----------------------------------------------------------------------

  function Awaited(s: System, run: nat): Option<nat> {
    if run < |s.runs| then s.runs[run].current else None
  }

  function SetPhase(s: System, r: nat, phase: Phase): System
    requires r < |s.requests|
  {
    s.(requests := s.requests[r := s.requests[r].(phase := phase)])
  }

  /** Before the handler: the middleware looks the key up. */
  function CheckStep(s: System, r: nat): System {
    if r < |s.requests| && s.requests[r].phase == InFlight then
      var k := s.requests[r].key;
      if Deduplicated(k) && k in s.recorded then SetPhase(s, r, Answered(s.recorded[k]))
      else SetPhase(s, r, Admitted)
    else s
  }

  /** The route: a 2xx means that it has carried the operation out. */
  function HandleStep(s: System, r: nat, status: int): System {
    if r < |s.requests| && s.requests[r].phase == Admitted then
      var s' := SetPhase(s, r, Handled(status));
      if Ok(status) then s'.(effects := s.effects + [s.requests[r].key]) else s'
    else s
  }

  /** After the handler: a 2xx is recorded, unless another request has recorded the
      key meanwhile or the write fails; the answer goes out in any case. */
  function RecordStep(s: System, r: nat, stored: bool): System {
    if r < |s.requests| && s.requests[r].phase.Handled? then
      var k, status := s.requests[r].key, s.requests[r].phase.status;
      var s' := SetPhase(s, r, Answered(status));
      if Ok(status) && Deduplicated(k) && stored && k !in s.recorded
      then s'.(recorded := s.recorded[k := status]) else s'
    else s
  }

  function SendStep(s: System, run: nat, restaurant: Option<int>): System {
    if run < |s.runs| && s.runs[run].current == None && s.runs[run].queue != [] then
      var op := s.runs[run].queue[0];
      s.(requests := s.requests + [Request(op, KeyFor(op, restaurant), InFlight)],
         runs := s.runs[run := Run(s.runs[run].queue[1..], Some(|s.requests|))])
    else s
  }

  /** A push run learns how its request ended. The histories say what it learned: a 2xx, a
      409, or neither. */
  function SettleStep(s: System, run: nat, outcome: Outcome): System
    requires Awaited(s, run).Some? && Awaited(s, run).value < |s.requests|
  {
    var op := s.requests[Awaited(s, run).value].op;
    s.(store := Settle(s.store, op, outcome),
       runs := s.runs[run := s.runs[run].(current := None)],
       accepted := if outcome.Answer? && 200 <= outcome.status < 300 then s.accepted + {op.id} else s.accepted,
       refused := if outcome == Answer(409) then s.refused + {op.id} else s.refused,
       unserved := if outcome == Lost || !(outcome.status == 409 || 200 <= outcome.status < 300)
                   then s.unserved + {op.id} else s.unserved)
  }

  function ReceiveStep(s: System, run: nat): System {
    var awaited := Awaited(s, run);
    if awaited.Some? && awaited.value < |s.requests| && s.requests[awaited.value].phase.Answered?
    then SettleStep(s, run, Answer(s.requests[awaited.value].phase.status))
    else s
  }

  function DropStep(s: System, run: nat): System {
    var awaited := Awaited(s, run);
    if awaited.Some? && awaited.value < |s.requests| then SettleStep(s, run, Lost) else s
  }

  /** The route handles a direct attempt. It bears no key, so the middleware lets it
      through and keeps no record of it. */
  function DirectStep(s: System, id: string, status: int): System {
    if id in s.attempts then
      s.(attempts := s.attempts - {id}, direct := if Ok(status) then s.direct + {id} else s.direct)
    else s
  }

  /** The direct attempt failed, seen from the shell. If it was sent, the server may still
      handle it at any time; it is named by the operation that is queued in its place. */
  function OfflineStep(s: System, req: ApiRequest, d: Draws, sent: bool): System {
    if req.meth != "GET" && Fresh(s.store, d) then
      s.(store := HandleOffline(s.store, req, d), attempts := if sent then s.attempts + {d.opId} else s.attempts)
    else s
  }

  predicate InConflict(ops: seq<PendingOp>, id: string) {
    exists op | op in ops :: op.id == id && op.status == Conflict
  }

  function Step(s: System, a: Action): System {
    match a
    case Offline(req, d, sent) => OfflineStep(s, req, d, sent)
    case StartRun => s.(runs := s.runs + [Run(ToSend(s.store.ops), None)])
    case Send(run, restaurant) => SendStep(s, run, restaurant)
    case Check(r) => CheckStep(s, r)
    case Handle(r, status) => HandleStep(s, r, status)
    case Record(r, stored) => RecordStep(s, r, stored)
    case HandleDirect(id, status) => DirectStep(s, id, status)
    case Crash(r) => if r < |s.requests| then SetPhase(s, r, Dead) else s
    case Receive(run) => ReceiveStep(s, run)
    case Drop(run) => DropStep(s, run)
    case Restart => s.(runs := [])
    case ResolveConflict(id, resolution) =>
      s.(store := s.store.(ops := Resolve(s.store.ops, id, resolution)),
         discarded := if resolution == Discard && InConflict(s.store.ops, id) then s.discarded + {id} else s.discarded)
  }

  function Exec(s: System, actions: seq<Action>): System
    decreases |actions|
  {
    if actions == [] then s else Step(Exec(s, actions[..|actions| - 1]), actions[|actions| - 1])
  }

  lemma {:induction false} ExecAppend(s: System, first: seq<Action>, second: seq<Action>)
    ensures Exec(s, first + second) == Exec(Exec(s, first), second)
    decreases |second|
  {
    if second == [] {
      assert first + second == first;
    } else {
      var n := |second| - 1;
      assert (first + second)[..|first + second| - 1] == first + second[..n];
      ExecAppend(s, first, second[..n]);
    }
  }

  lemma ExecCons(s: System, a: Action, rest: seq<Action>)
    ensures Exec(s, [a] + rest) == Exec(Step(s, a), rest)
  {
    assert [a][..0] == [];
    assert Exec(s, [a]) == Step(s, a);
    ExecAppend(s, [a], rest);
  }

  // ---- safety over all runs --------------------------------------------------------

  /** An operation that a run or a request carries is the one in the table. */
  predicate Listed(ops: seq<PendingOp>, op: PendingOp) {
    exists listed | listed in ops :: Core(listed) == Core(op)
  }

  /** Runs and requests carry operations of the table, and a request's key is made of
      its operation and the tenant only. */
  ghost predicate CarriesListed(s: System) {
    && (forall run, op | run in s.runs && op in run.queue :: Listed(s.store.ops, op))
    && (forall r | r in s.requests :: Listed(s.store.ops, r.op) && r.key == KeyFor(r.op, r.key.restaurant))
  }

  /** What a status tells about the past. */
  predicate StatusSound(s: System, op: PendingOp) {
    && (op.status == Synced ==> op.id in s.accepted || op.id in s.discarded)
    && (op.status == Conflict ==> op.id in s.refused)
    && (op.status == Failed ==> op.id in s.unserved)
    && op.attempts == 0
  }

  predicate Succeeded(p: Phase) {
    (p.Handled? || p.Answered?) && 200 <= p.status < 300
  }

  /** A success that the server has recorded or reports was carried out. */
  ghost predicate ServerSound(s: System) {
    && (forall k | k in s.recorded :: 200 <= s.recorded[k] < 300 && k in s.effects)
    && (forall r | r in s.requests && Succeeded(r.phase) :: r.key in s.effects)
  }

  /** What the shell takes for done was done. */
  ghost predicate AcceptedSound(s: System) {
    forall id | id in s.accepted :: exists k | k in s.effects :: k.id == id
  }

  ghost predicate Inv(s: System) {
    && UniqueIds(s.store.ops)
    && CarriesListed(s)
    && (forall op | op in s.store.ops :: StatusSound(s, op))
    && ServerSound(s)
    && AcceptedSound(s)
  }

  /** The table only grows, and its rows keep everything but their status. */
  ghost predicate Extends(before: seq<PendingOp>, after: seq<PendingOp>) {
    && |before| <= |after|
    && forall i | 0 <= i < |before| :: Core(after[i]) == Core(before[i])
  }

  lemma ListedStays(before: seq<PendingOp>, after: seq<PendingOp>, op: PendingOp)
    requires Extends(before, after) && Listed(before, op)
    ensures Listed(after, op)
  {
    var listed :| listed in before && Core(listed) == Core(op);
    var i :| 0 <= i < |before| && before[i] == listed;
    assert after[i] in after;
  }

  lemma CarriesListedStays(s: System, s': System)
    requires CarriesListed(s) && Extends(s.store.ops, s'.store.ops)
    requires s'.runs == s.runs && s'.requests == s.requests
    ensures CarriesListed(s')
  {
    forall run, op | run in s.runs && op in run.queue
      ensures Listed(s'.store.ops, op)
    {
      ListedStays(s.store.ops, s'.store.ops, op);
    }
    forall r | r in s.requests
      ensures Listed(s'.store.ops, r.op)
    {
      ListedStays(s.store.ops, s'.store.ops, r.op);
    }
  }

  // ---- … kept by what happens to the table

  lemma MarkKeepsRows(ops: seq<PendingOp>, id: string, status: OpStatus)
    ensures Extends(ops, Mark(ops, id, status))
    ensures UniqueIds(ops) ==> UniqueIds(Mark(ops, id, status))
  {
    assert forall i | 0 <= i < |ops| :: Mark(ops, id, status)[i].id == ops[i].id;
  }

  lemma SettleKeepsInv(s: System, run: nat, outcome: Outcome)
    requires Inv(s) && Awaited(s, run).Some? && Awaited(s, run).value < |s.requests|
    requires outcome.Answer? && 200 <= outcome.status < 300 ==> Succeeded(s.requests[Awaited(s, run).value].phase)
    ensures Inv(SettleStep(s, run, outcome))
  {
    var s' := SettleStep(s, run, outcome);
    var r := s.requests[Awaited(s, run).value];
    assert r in s.requests;
    MarkKeepsRows(s.store.ops, r.op.id, StatusAfter(outcome));
    assert s'.store.ops == Mark(s.store.ops, r.op.id, StatusAfter(outcome));
    CarriesListedStays(s.(runs := []), s'.(runs := []));
    forall run', op | run' in s'.runs && op in run'.queue
      ensures Listed(s'.store.ops, op)
    {
      assert exists run'' :: run'' in s.runs && op in run''.queue by {
        if run' !in s.runs { assert s.runs[run] in s.runs; }
      }
      ListedStays(s.store.ops, s'.store.ops, op);
    }
    forall op' | op' in s'.store.ops
      ensures StatusSound(s', op')
    {
      var i :| 0 <= i < |s'.store.ops| && s'.store.ops[i] == op';
      assert StatusSound(s, s.store.ops[i]);
    }
    forall id | id in s'.accepted
      ensures exists k | k in s'.effects :: k.id == id
    {
      if id !in s.accepted { assert r.key in s.effects; }
    }
  }

  lemma ResolveKeepsInv(s: System, id: string, resolution: Resolution)
    requires Inv(s)
    ensures Inv(Step(s, ResolveConflict(id, resolution)))
  {
    var s' := Step(s, ResolveConflict(id, resolution));
    assert forall i | 0 <= i < |s.store.ops| :: StatusSound(s, s.store.ops[i]);
    assert Extends(s.store.ops, s'.store.ops);
    CarriesListedStays(s, s');
    forall op' | op' in s'.store.ops
      ensures StatusSound(s', op')
    {
      var i :| 0 <= i < |s'.store.ops| && s'.store.ops[i] == op';
      assert StatusSound(s, s.store.ops[i]);
      assert s.store.ops[i] in s.store.ops;
    }
  }

  lemma OfflineKeepsInv(s: System, req: ApiRequest, d: Draws, sent: bool)
    requires Inv(s)
    ensures Inv(OfflineStep(s, req, d, sent))
  {
    var s' := OfflineStep(s, req, d, sent);
    if s' != s {
      HandleOfflineOps(s.store, req, d);
      CarriesListedStays(s, s');
      forall i, j | 0 <= i < j < |s'.store.ops|
        ensures s'.store.ops[i].id != s'.store.ops[j].id
      {
        assert i < |s.store.ops| ==> s.store.ops[i] in s.store.ops;
      }
    }
  }

  /** What the offline branch appends to the queue. */
  lemma HandleOfflineOps(store: Store, req: ApiRequest, d: Draws)
    ensures HandleOffline(store, req, d).ops ==
            store.ops + (if TakesPayment(req) then [LedgerOp(req.body, d)] else []) + [RequestOp(req, d)]
  {
  }

  // ---- … and by the runs and the server

  lemma StartRunKeepsInv(s: System)
    requires Inv(s)
    ensures Inv(Step(s, StartRun))
  {
    var s' := Step(s, StartRun);
    ToSendMembers(s.store.ops);
    forall run, op | run in s'.runs && op in run.queue
      ensures Listed(s'.store.ops, op)
    {
      if run !in s.runs { assert op in s.store.ops; }
    }
  }

  lemma SendKeepsInv(s: System, run: nat, restaurant: Option<int>)
    requires Inv(s)
    ensures Inv(SendStep(s, run, restaurant))
  {
    var s' := SendStep(s, run, restaurant);
    if s' != s {
      assert s.runs[run] in s.runs && s.runs[run].queue[0] in s.runs[run].queue;
      forall run', op | run' in s'.runs && op in run'.queue
        ensures Listed(s'.store.ops, op)
      {
        if run' !in s.runs { assert op in s.runs[run].queue; }
      }
    }
  }

  lemma PhaseKeepsInv(s: System, r: nat, phase: Phase)
    requires Inv(s) && r < |s.requests|
    requires Succeeded(phase) ==> s.requests[r].key in s.effects
    ensures Inv(SetPhase(s, r, phase))
  {
    var s' := SetPhase(s, r, phase);
    assert s.requests[r] in s.requests;
    assert forall q | q in s'.requests :: q in s.requests || q == s'.requests[r];
  }

  lemma HandleKeepsInv(s: System, r: nat, status: int)
    requires Inv(s)
    ensures Inv(HandleStep(s, r, status))
  {
    if r < |s.requests| && s.requests[r].phase == Admitted {
      var s0 := if Ok(status) then s.(effects := s.effects + [s.requests[r].key]) else s;
      EffectKeepsInv(s, s.requests[r].key);
      PhaseKeepsInv(s0, r, Handled(status));
    }
  }

  lemma EffectKeepsInv(s: System, k: Key)
    requires Inv(s)
    ensures Inv(s.(effects := s.effects + [k]))
  {
  }

  lemma ServerKeepsInv(s: System, a: Action)
    requires Inv(s) && (a.Check? || a.Record? || a.Crash?)
    ensures Inv(Step(s, a))
  {
    if a.request < |s.requests| {
      var r := s.requests[a.request];
      assert r in s.requests;
      match a
      case Check(_) =>
        if r.phase == InFlight && Deduplicated(r.key) && r.key in s.recorded {
          PhaseKeepsInv(s, a.request, Answered(s.recorded[r.key]));
        } else if r.phase == InFlight {
          PhaseKeepsInv(s, a.request, Admitted);
        }
      case Record(_, _) =>
        if r.phase.Handled? {
          PhaseKeepsInv(s, a.request, Answered(r.phase.status));
        }
      case Crash(_) => PhaseKeepsInv(s, a.request, Dead);
    }
  }

  lemma StepKeepsInv(s: System, a: Action)
    requires Inv(s)
    ensures Inv(Step(s, a))
  {
    match a
    case Offline(req, d, sent) => OfflineKeepsInv(s, req, d, sent);
    case StartRun => StartRunKeepsInv(s);
    case Send(run, restaurant) => SendKeepsInv(s, run, restaurant);
    case Receive(run) =>
      if ReceiveStep(s, run) != s {
        SettleKeepsInv(s, run, Answer(s.requests[Awaited(s, run).value].phase.status));
      }
    case Drop(run) =>
      if DropStep(s, run) != s {
        SettleKeepsInv(s, run, Lost);
      }
    case Restart =>
    case ResolveConflict(id, resolution) => ResolveKeepsInv(s, id, resolution);
    case Handle(r, status) => HandleKeepsInv(s, r, status);
    case HandleDirect(_, _) =>
    case _ => ServerKeepsInv(s, a);
  }

  lemma {:induction false} InvHolds(actions: seq<Action>)
    ensures Inv(Exec(START, actions))
    decreases |actions|
  {
    if actions != [] {
      InvHolds(actions[..|actions| - 1]);
      StepKeepsInv(Exec(START, actions[..|actions| - 1]), actions[|actions| - 1]);
    }
  }
}
