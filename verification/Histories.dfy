/** The histories of the push protocol, told by the actions of a run: where the statuses of the
    queue come from (desktop/src/main/sync.ts:146-186, desktop/src/main/offlineStore.ts:216-230). */
module Histories {
  import opened LocalStore
  import opened PendingOps
  import opened SyncProtocol
  import opened SyncSafety

  /** What can happen to an operation: a push run gets a 2xx, a 409, or neither for it; it is
      discarded; the direct attempt in whose place it was queued is sent, or is carried out. */
  datatype Event = Success | Refusal | Failure | Discarding | DirectAttempt | DirectSuccess

  predicate AwaitedFor(s: System, run: nat, id: string) {
    Awaited(s, run).Some? && Awaited(s, run).value < |s.requests| && s.requests[Awaited(s, run).value].op.id == id
  }

  predicate Receives(s: System, a: Action, id: string) {
    a.Receive? && AwaitedFor(s, a.run, id) && s.requests[Awaited(s, a.run).value].phase.Answered?
  }

  function StatusReceived(s: System, a: Action, id: string): int
    requires Receives(s, a, id)
  {
    s.requests[Awaited(s, a.run).value].phase.status
  }

  predicate Happens(s: System, a: Action, id: string, e: Event) {
    match e
    case Success => Receives(s, a, id) && 200 <= StatusReceived(s, a, id) < 300
    case Refusal => Receives(s, a, id) && StatusReceived(s, a, id) == 409
    case Failure =>
      || (a.Drop? && AwaitedFor(s, a.run, id))
      || (Receives(s, a, id) && StatusReceived(s, a, id) != 409 && !(200 <= StatusReceived(s, a, id) < 300))
    case Discarding =>
      a == ResolveConflict(id, Discard) && exists op | op in s.store.ops :: op.id == id && op.status == Conflict
    case DirectAttempt => a.Offline? && a.sent && a.req.meth != "GET" && Fresh(s.store, a.draws) && a.draws.opId == id
    case DirectSuccess => a.HandleDirect? && a.opId == id && 200 <= a.status < 300 && id in s.attempts
  }

  predicate HappensAt(actions: seq<Action>, n: nat, id: string, e: Event) {
    n < |actions| && Happens(Exec(START, actions[..n]), actions[n], id, e)
  }

  ghost predicate Happened(actions: seq<Action>, id: string, e: Event) {
    exists n: nat :: HappensAt(actions, n, id, e)
  }

  predicate InHistory(s: System, id: string, e: Event) {
    match e
    case Success => id in s.accepted
    case Refusal => id in s.refused
    case Failure => id in s.unserved
    case Discarding => id in s.discarded
    case DirectAttempt => id in s.attempts
    case DirectSuccess => id in s.direct
  }

  /** A step adds to the histories exactly what happens; only a direct attempt is taken off
      again, when it is handled. */
  lemma StepTells(s: System, a: Action, id: string, e: Event)
    ensures InHistory(Step(s, a), id, e) ==> InHistory(s, id, e) || Happens(s, a, id, e)
    ensures Happens(s, a, id, e) ==> InHistory(Step(s, a), id, e)
    ensures InHistory(s, id, e) && !(e.DirectAttempt? && a.HandleDirect? && a.opId == id) ==> InHistory(Step(s, a), id, e)
  {
  }

  lemma StillHappensAt(actions: seq<Action>, a: Action, n: nat, id: string, e: Event)
    requires n < |actions|
    ensures HappensAt(actions + [a], n, id, e) <==> HappensAt(actions, n, id, e)
  {
    assert (actions + [a])[..n] == actions[..n];
  }

  lemma HappensLast(actions: seq<Action>, a: Action, id: string, e: Event)
    ensures HappensAt(actions + [a], |actions|, id, e) <==> Happens(Exec(START, actions), a, id, e)
  {
    assert (actions + [a])[..|actions|] == actions;
  }

  lemma HappenedOneMore(actions: seq<Action>, a: Action, id: string, e: Event)
    ensures Happened(actions + [a], id, e) <==> Happened(actions, id, e) || Happens(Exec(START, actions), a, id, e)
  {
    HappensLast(actions, a, id, e);
    if m: nat :| HappensAt(actions, m, id, e) {
      StillHappensAt(actions, a, m, id, e);
    }
    if m: nat :| HappensAt(actions + [a], m, id, e) && m < |actions| {
      StillHappensAt(actions, a, m, id, e);
    }
  }

  /** In every run the histories hold what has happened, no more and no less; of the direct
      attempts, those that have not been handled. */
  lemma {:induction false} HistoriesTell(actions: seq<Action>, id: string, e: Event)
    ensures InHistory(Exec(START, actions), id, e) ==> Happened(actions, id, e)
    ensures Happened(actions, id, e) && !e.DirectAttempt? ==> InHistory(Exec(START, actions), id, e)
    decreases |actions|
  {
    if actions != [] {
      var n := |actions| - 1;
      HistoriesTell(actions[..n], id, e);
      StepTells(Exec(START, actions[..n]), actions[n], id, e);
      HappenedOneMore(actions[..n], actions[n], id, e);
      assert actions == actions[..n] + [actions[n]];
    }
  }

  /** In every run a row is synced only if a push run got a 2xx for it or it was discarded while
      in conflict, in conflict only after a 409, and failed only after a lost answer or one that
      is neither. A row to which nothing of the first three happened is sent by the next push. */
  lemma StatusesTell(actions: seq<Action>, op: PendingOp)
    requires op in Exec(START, actions).store.ops
    ensures op.status == Synced ==> Happened(actions, op.id, Success) || Happened(actions, op.id, Discarding)
    ensures op.status == Conflict ==> Happened(actions, op.id, Refusal)
    ensures op.status == Failed ==> Happened(actions, op.id, Failure)
    ensures Happened(actions, op.id, Success) || Happened(actions, op.id, Discarding) || Happened(actions, op.id, Refusal)
            || op in ToSend(Exec(START, actions).store.ops)
  {
    StatusesAreSound(actions, op);
    HistoriesTell(actions, op.id, Success);
    HistoriesTell(actions, op.id, Discarding);
    HistoriesTell(actions, op.id, Refusal);
    HistoriesTell(actions, op.id, Failure);
    if op.id !in Exec(START, actions).accepted && op.id !in Exec(START, actions).refused && op.id !in Exec(START, actions).discarded {
      UnfinishedIsSentAgain(actions, op);
    }
  }
}
