/** Where answers come from: the route, either just now or when it first carried the key out
    (src/app/idempotency/middleware.py:72-131). */
module Answers {
  import opened Wrappers
  import opened LocalStore
  import opened SyncProtocol

  /** Action `n` is the route giving `status` to a request that bears `key`. */
  predicate Routed(actions: seq<Action>, n: nat, key: Key, status: int) {
    && n < |actions| && actions[n].Handle? && actions[n].status == status
    && var s, r := Exec(START, actions[..n]), actions[n].request;
       r < |s.requests| && s.requests[r].phase == Admitted && s.requests[r].key == key
  }

  ghost predicate RouteSaid(actions: seq<Action>, key: Key, status: int) {
    exists n: nat :: Routed(actions, n, key, status)
  }

  /** What has been handled, answered or recorded is what the route said for that key. */
  ghost predicate Traced(actions: seq<Action>, s: System) {
    && (forall r | r in s.requests && (r.phase.Handled? || r.phase.Answered?) :: RouteSaid(actions, r.key, r.phase.status))
    && (forall k | k in s.recorded :: RouteSaid(actions, k, s.recorded[k]))
  }

  lemma SaidBefore(actions: seq<Action>, a: Action, key: Key, status: int)
    requires RouteSaid(actions, key, status)
    ensures RouteSaid(actions + [a], key, status)
  {
    var n: nat :| Routed(actions, n, key, status);
    assert (actions + [a])[n] == actions[n] && (actions + [a])[..n] == actions[..n];
    assert Routed(actions + [a], n, key, status);
  }

  lemma SaidNow(actions: seq<Action>, r: nat, status: int)
    requires var s := Exec(START, actions); r < |s.requests| && s.requests[r].phase == Admitted
    ensures RouteSaid(actions + [Handle(r, status)], Exec(START, actions).requests[r].key, status)
  {
    var after, n := actions + [Handle(r, status)], |actions|;
    assert after[..n] == actions && after[n] == Handle(r, status);
    assert Routed(after, n, Exec(START, actions).requests[r].key, status);
  }

  lemma TracedBefore(actions: seq<Action>, a: Action, s: System)
    requires Traced(actions, s)
    ensures Traced(actions + [a], s)
  {
    forall r | r in s.requests && (r.phase.Handled? || r.phase.Answered?)
      ensures RouteSaid(actions + [a], r.key, r.phase.status)
    {
      SaidBefore(actions, a, r.key, r.phase.status);
    }
    forall k | k in s.recorded
      ensures RouteSaid(actions + [a], k, s.recorded[k])
    {
      SaidBefore(actions, a, k, s.recorded[k]);
    }
  }

  lemma PhaseKeepsTraced(actions: seq<Action>, s: System, r: nat, phase: Phase)
    requires Traced(actions, s) && r < |s.requests|
    requires phase.Handled? || phase.Answered? ==> RouteSaid(actions, s.requests[r].key, phase.status)
    ensures Traced(actions, SetPhase(s, r, phase))
  {
    var s' := SetPhase(s, r, phase);
    forall q | q in s'.requests && (q.phase.Handled? || q.phase.Answered?)
      ensures RouteSaid(actions, q.key, q.phase.status)
    {
      var i: nat :| i < |s'.requests| && s'.requests[i] == q;
      assert s.requests[i] in s.requests;
    }
  }

  lemma RecordKeepsTraced(actions: seq<Action>, s: System, r: nat, stored: bool)
    requires Traced(actions, s)
    ensures Traced(actions, RecordStep(s, r, stored))
  {
    if r < |s.requests| && s.requests[r].phase.Handled? {
      assert s.requests[r] in s.requests;
      PhaseKeepsTraced(actions, s, r, Answered(s.requests[r].phase.status));
    }
  }

  lemma CheckKeepsTraced(actions: seq<Action>, s: System, r: nat)
    requires Traced(actions, s)
    ensures Traced(actions, CheckStep(s, r))
  {
    if r < |s.requests| && s.requests[r].phase == InFlight {
      var k := s.requests[r].key;
      PhaseKeepsTraced(actions, s, r, if Deduplicated(k) && k in s.recorded then Answered(s.recorded[k]) else Admitted);
    }
  }

  lemma HandleKeepsTraced(actions: seq<Action>, r: nat, status: int)
    requires Traced(actions, Exec(START, actions))
    ensures Traced(actions + [Handle(r, status)], HandleStep(Exec(START, actions), r, status))
  {
    var s, after := Exec(START, actions), actions + [Handle(r, status)];
    TracedBefore(actions, Handle(r, status), s);
    if r < |s.requests| && s.requests[r].phase == Admitted {
      SaidNow(actions, r, status);
      PhaseKeepsTraced(after, s, r, Handled(status));
    }
  }

  lemma SendKeepsTraced(actions: seq<Action>, s: System, run: nat, restaurant: Option<int>)
    requires Traced(actions, s)
    ensures Traced(actions, SendStep(s, run, restaurant))
  {
    var s' := SendStep(s, run, restaurant);
    assert forall r | r in s'.requests :: r in s.requests || r.phase == InFlight;
  }

  /** The other steps do not touch a request, nor what is recorded. */
  lemma RequestsUntouched(s: System, a: Action)
    requires !(a.Send? || a.Check? || a.Handle? || a.Record? || a.Crash?)
    ensures Step(s, a).requests == s.requests && Step(s, a).recorded == s.recorded
  {
  }

  lemma SameTraced(actions: seq<Action>, s: System, s': System)
    requires Traced(actions, s) && s'.requests == s.requests && s'.recorded == s.recorded
    ensures Traced(actions, s')
  {
  }

  lemma StepKeepsTraced(actions: seq<Action>, a: Action)
    requires Traced(actions, Exec(START, actions))
    ensures Traced(actions + [a], Step(Exec(START, actions), a))
  {
    var s, after := Exec(START, actions), actions + [a];
    TracedBefore(actions, a, s);
    match a
    case Send(run, restaurant) => SendKeepsTraced(after, s, run, restaurant);
    case Check(r) => CheckKeepsTraced(after, s, r);
    case Handle(r, status) => HandleKeepsTraced(actions, r, status);
    case Record(r, stored) => RecordKeepsTraced(after, s, r, stored);
    case Crash(r) => if r < |s.requests| { PhaseKeepsTraced(after, s, r, Dead); }
    case _ =>
      RequestsUntouched(s, a);
      SameTraced(after, s, Step(s, a));
  }

  lemma {:induction false} TracedHolds(actions: seq<Action>)
    ensures Traced(actions, Exec(START, actions))
  {
    if actions != [] {
      var n := |actions| - 1;
      TracedHolds(actions[..n]);
      StepKeepsTraced(actions[..n], actions[n]);
      assert actions == actions[..n] + [actions[n]];
    }
  }

  /** In every run, an answer that a request gets is one that the route gave to a request with
      the same key: a replay repeats what was said first, and nothing is made up. */
  lemma AnswersComeFromTheRoute(actions: seq<Action>, r: Request)
    requires r in Exec(START, actions).requests && r.phase.Answered?
    ensures RouteSaid(actions, r.key, r.phase.status)
  {
    TracedHolds(actions);
  }
}
