/** The queue outlives a change of token (desktop/src/main/main.ts:78-80), and a key holds the
    restaurant that its token resolves to. When an operation of the queue can be carried out
    for two restaurants, by a server that handles each request in one piece. */
module TenantChange {
  import opened Wrappers
  import opened LocalStore
  import opened PendingOps
  import opened SyncProtocol
  import opened Idempotency
  import opened SyncSafety
  import opened RunTasks
  import opened LateFailures
  import opened PerOperation
  import opened DirectAttempts

  predicate ForTenant(k: Key, id: string, tenant: int) {
    k.id == id && k.restaurant == Some(tenant)
  }

  ghost predicate DoneFor(s: System, id: string, tenant: int) {
    exists k | k in s.effects :: ForTenant(k, id, tenant)
  }

  ghost predicate DoneForTwo(s: System, id: string) {
    exists one, other :: one != other && DoneFor(s, id, one) && DoneFor(s, id, other)
  }

  ghost predicate CanBeDoneForTwo(s: System, id: string) {
    exists steps :: DoneForTwo(ExecWhole(s, steps), id)
  }

  /** A request under this tenant was carried out, or is on its way. */
  ghost predicate TenantOpen(s: System, id: string, tenant: int) {
    DoneFor(s, id, tenant) || exists r: nat :: Arriving(s, r, id) && ForTenant(s.requests[r].key, id, tenant)
  }

  ghost predicate TwoOpen(s: System, id: string) {
    exists one, other :: one != other && TenantOpen(s, id, one) && TenantOpen(s, id, other)
  }

  // ---- an operation that cannot be sent again ------------------------------------------------

  lemma ServeSparesUnsendable(s: System, r: nat, status: int, n: nat, tenant: int)
    requires Sound(s) && n < |s.store.ops| && !Resendable(s, n)
    ensures var s' := ServeStep(s, r, status);
            s'.store == s.store && !Resendable(s', n)
            && (TenantOpen(s', s.store.ops[n].id, tenant) ==> TenantOpen(s, s.store.ops[n].id, tenant))
  {
    var s', id := ServeStep(s, r, status), s.store.ops[n].id;
    ServeShape(s, r, status);
    if s' != s {
      assert s.requests[r] in s.requests;
      forall i: nat ensures !Held(s', i, id) {
        assert !Held(s, i, id);
      }
      if k :| k in s'.effects && ForTenant(k, id, tenant) && k !in s.effects {
        assert Arriving(s, r, id);
      } else if q: nat :| Arriving(s', q, id) && ForTenant(s'.requests[q].key, id, tenant) {
        assert Arriving(s, q, id);
      }
    }
  }

  lemma StepSparesTenants(s: System, a: Action, n: nat, tenant: int)
    requires Sound(s) && n < |s.store.ops| && !Resendable(s, n) && !(a.Check? || a.Handle? || a.Record?)
    ensures TenantOpen(Step(s, a), s.store.ops[n].id, tenant) ==> TenantOpen(s, s.store.ops[n].id, tenant)
  {
    var s', id := Step(s, a), s.store.ops[n].id;
    assert s'.effects == s.effects;
    if r: nat :| Arriving(s', r, id) && ForTenant(s'.requests[r].key, id, tenant) {
      NothingArrives(s, a, r, id);
    }
  }

  lemma {:induction false} UnsendableRun(s: System, steps: seq<WholeStep>, n: nat, tenant: int)
    requires Sound(s) && n < |s.store.ops| && !Resendable(s, n)
    ensures var s', id := ExecWhole(s, steps), s.store.ops[n].id;
            && Sound(s') && n < |s'.store.ops| && s'.store.ops[n].id == id && !Resendable(s', n)
            && (TenantOpen(s', id, tenant) ==> TenantOpen(s, id, tenant))
    decreases |steps|
  {
    if steps != [] {
      var m := |steps| - 1;
      var before := ExecWhole(s, steps[..m]);
      UnsendableRun(s, steps[..m], n, tenant);
      WholeKeepsSound(before, steps[m]);
      match steps[m]
      case Serve(r, status) => ServeSparesUnsendable(before, r, status, n, tenant);
      case Other(a) =>
        if !(a.Check? || a.Handle? || a.Record?) {
          StepSparesUnsendable(before, a, n);
          StepSparesTenants(before, a, n, tenant);
        }
    }
  }

  lemma NotForTwo(s: System, steps: seq<WholeStep>, n: nat)
    requires Sound(s) && n < |s.store.ops| && !Resendable(s, n) && !TwoOpen(s, s.store.ops[n].id)
    ensures !DoneForTwo(ExecWhole(s, steps), s.store.ops[n].id)
  {
    var s', id := ExecWhole(s, steps), s.store.ops[n].id;
    forall one, other | one != other && DoneFor(s', id, one)
      ensures !DoneFor(s', id, other)
    {
      UnsendableRun(s, steps, n, one);
      UnsendableRun(s, steps, n, other);
      assert TenantOpen(s', id, one) && (DoneFor(s', id, other) ==> TenantOpen(s', id, other));
    }
  }

  // ---- what is on its way arrives ---------------------------------------------------------------

  lemma DoneStays(s: System, s': System, id: string, tenant: int)
    requires DoneFor(s, id, tenant) && s.effects <= s'.effects
    ensures DoneFor(s', id, tenant)
  {
    var k :| k in s.effects && ForTenant(k, id, tenant);
    assert k in s'.effects;
  }

  /** The server carries a request out, or has done so under the same key. */
  lemma ServeFor(s: System, r: nat, id: string, tenant: int)
    requires Sound(s) && Arriving(s, r, id) && ForTenant(s.requests[r].key, id, tenant)
    ensures var s' := ServeStep(s, r, 200);
            DoneFor(s', id, tenant) && s.effects <= s'.effects && s'.store == s.store && s'.runs == s.runs
            && |s'.requests| == |s.requests| && s'.requests[r].op == s.requests[r].op
            && forall q: nat | q < |s.requests| && q != r :: s'.requests[q] == s.requests[q]
  {
    var s', k := ServeStep(s, r, 200), s.requests[r].key;
    assert s.requests[r] in s.requests;
    ServeShape(s, r, 200);
    if Deduplicated(k) && k in s.recorded {
      assert k in s'.effects;
    } else {
      assert s'.effects[|s.effects|] == k;
    }
  }

  lemma OtherStaysOpen(s: System, r: nat, id: string, tenant: int, other: int)
    requires Sound(s) && Arriving(s, r, id) && ForTenant(s.requests[r].key, id, tenant) && tenant != other
    requires TenantOpen(s, id, other)
    ensures TenantOpen(ServeStep(s, r, 200), id, other)
  {
    var s' := ServeStep(s, r, 200);
    ServeFor(s, r, id, tenant);
    if DoneFor(s, id, other) {
      DoneStays(s, s', id, other);
    } else {
      var q: nat :| Arriving(s, q, id) && ForTenant(s.requests[q].key, id, other);
      assert Arriving(s', q, id) && ForTenant(s'.requests[q].key, id, other);
    }
  }

  lemma FinishTenant(s: System, n: nat, tenant: int, other: int) returns (steps: seq<WholeStep>)
    requires Sound(s) && n < |s.store.ops| && tenant != other
    requires TenantOpen(s, s.store.ops[n].id, tenant) && TenantOpen(s, s.store.ops[n].id, other)
    ensures var s', id := ExecWhole(s, steps), s.store.ops[n].id;
            && Sound(s') && n < |s'.store.ops| && s'.store.ops[n].id == id
            && DoneFor(s', id, tenant) && s.effects <= s'.effects && TenantOpen(s', id, other)
  {
    var id := s.store.ops[n].id;
    if DoneFor(s, id, tenant) {
      steps := [];
    } else {
      var r: nat :| Arriving(s, r, id) && ForTenant(s.requests[r].key, id, tenant);
      ServeFor(s, r, id, tenant);
      OtherStaysOpen(s, r, id, tenant, other);
      WholeKeepsSound(s, Serve(r, 200));
      steps := [Serve(r, 200)] + [];
      WholeCons(s, Serve(r, 200), []);
    }
  }

  lemma BothArrive(s: System, n: nat)
    requires Sound(s) && n < |s.store.ops| && TwoOpen(s, s.store.ops[n].id)
    ensures CanBeDoneForTwo(s, s.store.ops[n].id)
  {
    var id := s.store.ops[n].id;
    var one, other :| one != other && TenantOpen(s, id, one) && TenantOpen(s, id, other);
    var first := FinishTenant(s, n, one, other);
    var s1 := ExecWhole(s, first);
    var second := FinishTenant(s1, n, other, one);
    WholeAppend(s, first, second);
    DoneStays(s1, ExecWhole(s1, second), id, one);
    assert DoneForTwo(ExecWhole(s, first + second), id);
  }

  // ---- an operation that can be sent again ---------------------------------------------------

  /** Run `i` has the operation and has not sent it. */
  predicate Unsent(s: System, i: nat, id: string) {
    i < |s.runs| && id in QueueIds(s.runs[i].queue)
  }

  predicate SameRow(s: System, s': System, n: nat)
    requires n < |s.store.ops|
  {
    n < |s'.store.ops| && s'.store.ops[n].id == s.store.ops[n].id
  }

  lemma StartUnsent(s: System, n: nat)
    requires Sound(s) && n < |s.store.ops| && Sendable(s.store.ops[n])
    ensures var s' := Step(s, StartRun);
            Sound(s') && SameRow(s, s', n) && Unsent(s', |s.runs|, s.store.ops[n].id) && s'.effects == s.effects
  {
    WholeKeepsSound(s, Other(StartRun));
    ToSendMembers(s.store.ops);
    assert s.store.ops[n] in ToSend(s.store.ops);
    var k :| 0 <= k < |ToSend(s.store.ops)| && ToSend(s.store.ops)[k] == s.store.ops[n];
    assert QueueIds(ToSend(s.store.ops))[k] == s.store.ops[n].id;
  }

  /** Some run gets the operation and has not sent it. */
  lemma Reopen(s: System, n: nat) returns (steps: seq<WholeStep>, i: nat)
    requires Sound(s) && n < |s.store.ops| && Resendable(s, n)
    ensures var s' := ExecWhole(s, steps);
            Sound(s') && SameRow(s, s', n) && Unsent(s', i, s.store.ops[n].id) && s'.effects == s.effects
  {
    var id := s.store.ops[n].id;
    if Sendable(s.store.ops[n]) {
      steps, i := StartAgain(s, n);
    } else if s.store.ops[n].status == Conflict {
      steps, i := ReopenAfter(s, ResolveConflict(id, Retry), n);
    } else {
      i :| Held(s, i, id);
      if Unsent(s, i, id) {
        steps := [];
      } else {
        DropFails(s, i, n);
        RowAfterStep(s, Drop(i), n);
        steps, i := ReopenAfter(s, Drop(i), n);
      }
    }
  }

  lemma StartAgain(s: System, n: nat) returns (steps: seq<WholeStep>, i: nat)
    requires Sound(s) && n < |s.store.ops| && Sendable(s.store.ops[n])
    ensures var s' := ExecWhole(s, steps);
            Sound(s') && SameRow(s, s', n) && Unsent(s', i, s.store.ops[n].id) && s'.effects == s.effects
  {
    steps, i := [Other(StartRun)] + [], |s.runs|;
    StartUnsent(s, n);
    WholeCons(s, Other(StartRun), []);
  }

  lemma ReopenAfter(s: System, a: Action, n: nat) returns (steps: seq<WholeStep>, i: nat)
    requires Sound(s) && n < |s.store.ops| && (a.Drop? || a.ResolveConflict?)
    requires SameRow(s, Step(s, a), n) && Sendable(Step(s, a).store.ops[n])
    ensures var s' := ExecWhole(s, steps);
            Sound(s') && SameRow(s, s', n) && Unsent(s', i, s.store.ops[n].id) && s'.effects == s.effects
  {
    WholeKeepsSound(s, Other(a));
    var rest: seq<WholeStep>;
    rest, i := StartAgain(Step(s, a), n);
    steps := [Other(a)] + rest;
    WholeCons(s, Other(a), rest);
  }

  lemma GoOnUnsent(s: System, i: nat, tenant: int, n: nat)
    requires Sound(s) && n < |s.store.ops| && Unsent(s, i, s.store.ops[n].id)
    requires s.runs[i].current.None? ==> s.runs[i].queue[0].id != s.store.ops[n].id
    ensures var s' := Step(s, GoOn(s, i, Some(tenant)));
            && Sound(s') && SameRow(s, s', n) && Unsent(s', i, s.store.ops[n].id)
            && Load(s', i) < Load(s, i) && s'.effects == s.effects
  {
    var a, id := GoOn(s, i, Some(tenant)), s.store.ops[n].id;
    assert RunSound(s, i);
    WholeKeepsSound(s, Other(a));
    RowAfterStep(s, a, n);
    var queue := s.runs[i].queue;
    assert QueueIds(queue) == [queue[0].id] + QueueIds(queue[1..]);
  }

  lemma SendAndServe(s: System, i: nat, tenant: int, n: nat)
    requires Sound(s) && n < |s.store.ops| && i < |s.runs|
    requires s.runs[i].current.None? && s.runs[i].queue != [] && s.runs[i].queue[0].id == s.store.ops[n].id
    ensures var s', id := Whole(Whole(s, Other(Send(i, Some(tenant)))), Serve(|s.requests|, 200)), s.store.ops[n].id;
            && Sound(s') && SameRow(s, s', n) && Held(s', i, id) && DoneFor(s', id, tenant) && s.effects <= s'.effects
  {
    var w, r, id := Other(Send(i, Some(tenant))), |s.requests|, s.store.ops[n].id;
    var s1 := Whole(s, w);
    WholeKeepsSound(s, w);
    WholeKeepsSound(s1, Serve(r, 200));
    assert Arriving(s1, r, id) && ForTenant(s1.requests[r].key, id, tenant);
    ServeFor(s1, r, id, tenant);
    var s' := ServeStep(s1, r, 200);
    assert Awaiting(s', i) && AwaitedRequest(s', i).op.id == id;
    assert TaskIds(s', i)[0] == id;
  }

  lemma {:induction false} CarryFor(s: System, i: nat, tenant: int, n: nat) returns (steps: seq<WholeStep>)
    requires Sound(s) && n < |s.store.ops| && Unsent(s, i, s.store.ops[n].id)
    ensures var s', id := ExecWhole(s, steps), s.store.ops[n].id;
            && Sound(s') && SameRow(s, s', n) && Held(s', i, id) && DoneFor(s', id, tenant) && s.effects <= s'.effects
    decreases Load(s, i)
  {
    if s.runs[i].current.None? && s.runs[i].queue[0].id == s.store.ops[n].id {
      var a, b := Other(Send(i, Some(tenant))), Serve(|s.requests|, 200);
      steps := [a] + ([b] + []);
      SendAndServe(s, i, tenant, n);
      WholeCons(s, a, [b] + []);
      WholeCons(Whole(s, a), b, []);
    } else {
      var w := Other(GoOn(s, i, Some(tenant)));
      GoOnUnsent(s, i, tenant, n);
      var rest := CarryFor(Whole(s, w), i, tenant, n);
      steps := [w] + rest;
      WholeCons(s, w, rest);
    }
  }

  lemma CarryOutFor(s: System, tenant: int, n: nat) returns (steps: seq<WholeStep>)
    requires Sound(s) && n < |s.store.ops| && Resendable(s, n)
    ensures var s', id := ExecWhole(s, steps), s.store.ops[n].id;
            && Sound(s') && SameRow(s, s', n) && Resendable(s', n) && DoneFor(s', id, tenant) && s.effects <= s'.effects
  {
    var first, i := Reopen(s, n);
    var second := CarryFor(ExecWhole(s, first), i, tenant, n);
    WholeAppend(s, first, second);
    steps := first + second;
  }

  lemma ResentForTwo(s: System, n: nat)
    requires Sound(s) && n < |s.store.ops| && Resendable(s, n)
    ensures CanBeDoneForTwo(s, s.store.ops[n].id)
  {
    var id := s.store.ops[n].id;
    var first := CarryOutFor(s, 1, n);
    var s1 := ExecWhole(s, first);
    var second := CarryOutFor(s1, 2, n);
    WholeAppend(s, first, second);
    DoneStays(s1, ExecWhole(s1, second), id, 1);
    assert DoneForTwo(ExecWhole(s, first + second), id);
  }

  /** From any point of any run, under whatever tokens: an operation can be carried out for
      two restaurants if and only if it can be sent again, or requests for it under two
      restaurants were carried out or are on their way. */
  lemma DoneForTwoIff(steps: seq<WholeStep>, n: nat)
    requires n < |ExecWhole(START, steps).store.ops|
    ensures var s := ExecWhole(START, steps);
            CanBeDoneForTwo(s, s.store.ops[n].id) <==> Resendable(s, n) || TwoOpen(s, s.store.ops[n].id)
  {
    var s := ExecWhole(START, steps);
    SoundHolds(steps);
    if Resendable(s, n) {
      ResentForTwo(s, n);
    } else if TwoOpen(s, s.store.ops[n].id) {
      BothArrive(s, n);
    } else {
      forall more ensures !DoneForTwo(ExecWhole(s, more), s.store.ops[n].id) {
        NotForTwo(s, more, n);
      }
    }
  }
}
