/** When an operation that is synced can be turned back: the exact condition on the push
    runs under way (desktop/src/main/pendingOps.ts:70-79, desktop/src/main/sync.ts:162-185). */
module LateFailures {
  import opened Wrappers
  import opened LocalStore
  import opened PendingOps
  import opened SyncProtocol
  import opened Idempotency
  import opened SyncSafety
  import opened RunTasks

  /** The request can only end in `failed`: it is dead, or its status is an error other
      than 409. */
  predicate Hopeless(p: Phase) {
    p.Dead? || ((p.Handled? || p.Answered?) && p.status != 409 && !(200 <= p.status < 300))
  }

  predicate Doomed(s: System, i: nat, id: string) {
    Awaiting(s, i) && AwaitedRequest(s, i).op.id == id && Hopeless(AwaitedRequest(s, i).phase)
  }

  /** Run `i` has row `n` among its tasks only if the row is pending or failed. */
  ghost predicate TaskIsOpen(s: System, i: nat, n: nat)
    requires i < |s.runs| && n < |s.store.ops|
  {
    s.store.ops[n].id in TaskIds(s, i) ==> Sendable(s.store.ops[n])
  }

  /** What two runs share, neither can end in anything but `failed`. */
  ghost predicate SharesDoomed(s: System, i: nat, j: nat)
    requires i < |s.runs| && j < |s.runs|
  {
    forall id | id in TaskIds(s, i) && id in TaskIds(s, j) :: Doomed(s, i, id)
  }

  ghost predicate Exclusive(s: System) {
    && (forall i: nat, n: nat | i < |s.runs| && n < |s.store.ops| :: TaskIsOpen(s, i, n))
    && (forall i: nat, j: nat | i < |s.runs| && j < |s.runs| && i != j :: SharesDoomed(s, i, j))
  }

  ghost predicate NoStart(actions: seq<Action>) {
    forall a | a in actions :: !a.StartRun?
  }

  predicate KeepsSynced(s: System, first: seq<Action>, second: seq<Action>, n: nat) {
    var between, end := Exec(s, first).store.ops, Exec(Exec(s, first), second).store.ops;
    n < |between| && between[n].status == Synced ==> n < |end| && end[n].status == Synced
  }

  /** However the runs under way go on, what is synced or becomes so stays synced. */
  ghost predicate SyncedIsStable(s: System) {
    forall first, second, n: nat | NoStart(first) && NoStart(second) :: KeepsSynced(s, first, second, n)
  }

  // ---- one step --------------------------------------------------------------------------

  lemma RowAfterStep(s: System, a: Action, n: nat)
    requires n < |s.store.ops|
    ensures n < |Step(s, a).store.ops| && Step(s, a).store.ops[n].id == s.store.ops[n].id
    ensures Step(s, a).store.ops[n].status == s.store.ops[n].status
            || s.store.ops[n].status == Conflict
            || ((a.Receive? || a.Drop?) && Settles(s, a, a.run) && AwaitedRequest(s, a.run).op.id == s.store.ops[n].id
                && Step(s, a).store.ops[n].status == StatusAfter(OutcomeOf(s, a, a.run)))
  {
    if a.Offline? { HandleOfflineOps(s.store, a.req, a.draws); }
  }

  lemma NewRowIsOpen(s: System, a: Action, n: nat)
    requires |s.store.ops| <= n < |Step(s, a).store.ops|
    ensures Sendable(Step(s, a).store.ops[n])
  {
    OnlyOfflineGrows(s, a);
    HandleOfflineOps(s.store, a.req, a.draws);
  }

  lemma OnlyOfflineGrows(s: System, a: Action)
    ensures |Step(s, a).store.ops| > |s.store.ops| ==> a.Offline? && Step(s, a).store == HandleOffline(s.store, a.req, a.draws)
  {
  }

  lemma HeadIsTask(s: System, i: nat)
    requires Awaiting(s, i)
    ensures AwaitedRequest(s, i).op.id in TaskIds(s, i)
  {
    assert TaskIds(s, i)[0] == AwaitedRequest(s, i).op.id;
  }

  /** A run that shares its awaited task can only fail it. */
  lemma SharedFails(s: System, a: Action, i: nat, j: nat)
    requires Exclusive(s) && Settles(s, a, i) && j < |s.runs| && i != j
    requires AwaitedRequest(s, i).op.id in TaskIds(s, j)
    ensures StatusAfter(OutcomeOf(s, a, i)) == Failed
  {
    HeadIsTask(s, i);
    assert SharesDoomed(s, i, j);
  }

  lemma OpenStaysOpen(s: System, a: Action, i: nat, n: nat)
    requires RunsSound(s) && Exclusive(s) && StaysUp(a) && i < |s.runs| && n < |Step(s, a).store.ops|
    ensures i < |Step(s, a).runs| && TaskIsOpen(Step(s, a), i, n)
  {
    assert RunSound(s, i);
    var id := Step(s, a).store.ops[n].id;
    TasksShrink(s, a, i, id);
    if id in TaskIds(Step(s, a), i) {
      if n < |s.store.ops| {
        RowAfterStep(s, a, n);
        assert TaskIsOpen(s, i, n);
        if (a.Receive? || a.Drop?) && Settles(s, a, a.run) && AwaitedRequest(s, a.run).op.id == id {
          SharedFails(s, a, a.run, i);
        }
      } else {
        NewRowIsOpen(s, a, n);
      }
    }
  }

  lemma DoomedStays(s: System, a: Action, i: nat, id: string)
    requires StaysUp(a) && i < |s.runs| && RunSound(s, i) && Doomed(s, i, id) && !Settles(s, a, i)
    ensures Doomed(Step(s, a), i, id)
  {
    RequestsStay(s, a);
  }

  lemma SharedStaysDoomed(s: System, a: Action, i: nat, j: nat)
    requires RunsSound(s) && Exclusive(s) && StaysUp(a) && i < |s.runs| && j < |s.runs| && i != j
    ensures i < |Step(s, a).runs| && j < |Step(s, a).runs| && SharesDoomed(Step(s, a), i, j)
  {
    assert RunSound(s, i) && RunSound(s, j);
    TasksAfterStep(s, a, i);
    TasksAfterStep(s, a, j);
    forall id | id in TaskIds(Step(s, a), i) && id in TaskIds(Step(s, a), j)
      ensures Doomed(Step(s, a), i, id)
    {
      TasksShrink(s, a, i, id);
      TasksShrink(s, a, j, id);
      assert SharesDoomed(s, i, j);
      DoomedStays(s, a, i, id);
    }
  }

  lemma StepKeepsExclusive(s: System, a: Action)
    requires RunsSound(s) && Exclusive(s) && !a.StartRun?
    ensures Exclusive(Step(s, a))
  {
    var s' := Step(s, a);
    if !a.Restart? {
      assert |s'.runs| == |s.runs|;
      forall i: nat, n: nat | i < |s'.runs| && n < |s'.store.ops| ensures TaskIsOpen(s', i, n) {
        OpenStaysOpen(s, a, i, n);
      }
      forall i: nat, j: nat | i < |s'.runs| && j < |s'.runs| && i != j ensures SharesDoomed(s', i, j) {
        SharedStaysDoomed(s, a, i, j);
      }
    }
  }

  lemma StepKeepsSyncedRow(s: System, a: Action, n: nat)
    requires Exclusive(s) && n < |s.store.ops| && s.store.ops[n].status == Synced
    ensures n < |Step(s, a).store.ops| && Step(s, a).store.ops[n].status == Synced
  {
    RowAfterStep(s, a, n);
    if (a.Receive? || a.Drop?) && Awaiting(s, a.run) {
      SyncedIsNoTask(s, a.run, n);
    }
  }

  lemma SyncedIsNoTask(s: System, i: nat, n: nat)
    requires Exclusive(s) && Awaiting(s, i) && n < |s.store.ops| && s.store.ops[n].status == Synced
    ensures AwaitedRequest(s, i).op.id != s.store.ops[n].id
  {
    HeadIsTask(s, i);
    assert TaskIsOpen(s, i, n);
  }

  lemma {:induction false} ExclusiveRun(s: System, actions: seq<Action>, n: nat)
    requires Inv(s) && RunsSound(s) && Exclusive(s) && NoStart(actions)
    ensures Inv(Exec(s, actions)) && RunsSound(Exec(s, actions)) && Exclusive(Exec(s, actions))
    ensures n < |s.store.ops| && s.store.ops[n].status == Synced ==>
              n < |Exec(s, actions).store.ops| && Exec(s, actions).store.ops[n].status == Synced
    decreases |actions|
  {
    if actions != [] {
      var m := |actions| - 1;
      assert actions[m] in actions && forall a | a in actions[..m] :: a in actions;
      ExclusiveRun(s, actions[..m], n);
      StepKeepsAll(Exec(s, actions[..m]), actions[m], n);
    }
  }

  lemma StepKeepsAll(s: System, a: Action, n: nat)
    requires Inv(s) && RunsSound(s) && Exclusive(s) && !a.StartRun?
    ensures Inv(Step(s, a)) && RunsSound(Step(s, a)) && Exclusive(Step(s, a))
    ensures n < |s.store.ops| && s.store.ops[n].status == Synced ==>
              n < |Step(s, a).store.ops| && Step(s, a).store.ops[n].status == Synced
  {
    StepKeepsInv(s, a);
    StepExtends(s, a);
    StepKeepsRunsSound(s, a);
    StepKeepsExclusive(s, a);
    if n < |s.store.ops| && s.store.ops[n].status == Synced { StepKeepsSyncedRow(s, a, n); }
  }

  // ---- and when it can be turned back ---------------------------------------------------------

  /** What the steps of run `i` and of its requests leave alone: the rows' ids, and the
      tasks of the other runs. */
  ghost predicate OthersSame(s: System, s': System, i: nat) {
    && |s'.store.ops| == |s.store.ops|
    && (forall n | 0 <= n < |s.store.ops| :: s'.store.ops[n].id == s.store.ops[n].id)
    && |s'.runs| == |s.runs|
    && (forall j: nat | j < |s.runs| && j != i && RunSound(s, j) :: TaskIds(s', j) == TaskIds(s, j))
  }

  /** A step of the queue's runs or of the server. */
  predicate Internal(a: Action) {
    a.Send? || a.Check? || a.Handle? || a.Record? || a.Receive? || a.Drop? || a.ResolveConflict?
  }

  lemma InternalKeepsOthers(s: System, a: Action, i: nat)
    requires Internal(a) && (a.Send? || a.Receive? || a.Drop? ==> a.run == i)
    ensures OthersSame(s, Step(s, a), i)
  {
    var s' := Step(s, a);
    forall n: nat | n < |s.store.ops| ensures s'.store.ops[n].id == s.store.ops[n].id {
      RowAfterStep(s, a, n);
    }
    forall j: nat | j < |s.runs| && j != i && RunSound(s, j) ensures TaskIds(s', j) == TaskIds(s, j) {
      TasksAfterStep(s, a, j);
    }
  }

  lemma OthersSameTwice(s: System, s1: System, s2: System, i: nat)
    requires RunsSound(s1) && OthersSame(s, s1, i) && OthersSame(s1, s2, i)
    ensures OthersSame(s, s2, i)
  {
    forall j: nat | j < |s.runs| && j != i && RunSound(s, j) ensures TaskIds(s2, j) == TaskIds(s, j) {
      assert RunSound(s1, j);
    }
  }

  function Load(s: System, i: nat): nat
    requires i < |s.runs|
  {
    2 * |s.runs[i].queue| + if s.runs[i].current.Some? then 1 else 0
  }

  /** A run that waits gives up; one that does not sends its next operation. */
  function GoOn(s: System, i: nat, restaurant: Option<int>): Action
    requires i < |s.runs|
  {
    if s.runs[i].current.Some? then Drop(i) else Send(i, restaurant)
  }

  lemma GoOnStep(s: System, i: nat, restaurant: Option<int>, id: string)
    requires Inv(s) && RunsSound(s) && i < |s.runs| && id in TaskIds(s, i)
    ensures var s' := Step(s, GoOn(s, i, restaurant));
            && Inv(s') && RunsSound(s') && OthersSame(s, s', i) && Load(s', i) < Load(s, i)
            && (if Awaiting(s, i) && AwaitedRequest(s, i).op.id == id then Settles(s, GoOn(s, i, restaurant), i) else id in TaskIds(s', i))
  {
    assert RunSound(s, i);
    StepKeepsInv(s, GoOn(s, i, restaurant));
    StepExtends(s, GoOn(s, i, restaurant));
    StepKeepsRunsSound(s, GoOn(s, i, restaurant));
    InternalKeepsOthers(s, GoOn(s, i, restaurant), i);
    TasksAfterStep(s, GoOn(s, i, restaurant), i);
    if Awaiting(s, i) {
      var was := TaskIds(s, i);
      assert was == [was[0]] + was[1..];
    }
  }

  /** Run `i` fails its tasks one after the other, up to row `n`. */
  lemma {:induction false} FailTask(s: System, i: nat, n: nat) returns (actions: seq<Action>)
    requires Inv(s) && RunsSound(s) && i < |s.runs| && n < |s.store.ops| && s.store.ops[n].id in TaskIds(s, i)
    ensures NoStart(actions)
    ensures n < |Exec(s, actions).store.ops| && Exec(s, actions).store.ops[n].status == Failed
    decreases Load(s, i)
  {
    var a, id := GoOn(s, i, None), s.store.ops[n].id;
    var s' := Step(s, a);
    GoOnStep(s, i, None, id);
    if Awaiting(s, i) && AwaitedRequest(s, i).op.id == id {
      actions := [a] + [];
      ExecCons(s, a, []);
      DropFails(s, i, n);
    } else {
      var rest := FailTask(s', i, n);
      actions := [a] + rest;
      ExecCons(s, a, rest);
    }
  }

  lemma DropFails(s: System, i: nat, n: nat)
    requires Awaiting(s, i) && n < |s.store.ops| && s.store.ops[n].id == AwaitedRequest(s, i).op.id
    ensures n < |Step(s, Drop(i)).store.ops| && Step(s, Drop(i)).store.ops[n].status == Failed
  {
  }

  function Rank(p: Phase): nat {
    match p
    case InFlight => 3
    case Admitted => 2
    case Handled(_) => 1
    case _ => 0
  }

  /** The server carries the awaited request on, with success where it still can. */
  function Serve(s: System, i: nat): Action
    requires Awaiting(s, i)
  {
    var c := s.runs[i].current.value;
    match s.requests[c].phase
    case InFlight => Check(c)
    case Admitted => Handle(c, 200)
    case Handled(_) => Record(c, false)
    case _ => Receive(i)
  }

  lemma ServeSteps(s: System, i: nat)
    requires Awaiting(s, i) && !Hopeless(AwaitedRequest(s, i).phase) && Serve(s, i) != Receive(i)
    ensures var s' := Step(s, Serve(s, i));
            && s'.store == s.store && s'.runs == s.runs
            && Awaiting(s', i) && AwaitedRequest(s', i).op == AwaitedRequest(s, i).op
            && Rank(AwaitedRequest(s', i).phase) < Rank(AwaitedRequest(s, i).phase)
  {
  }

  lemma ServedIsHopeful(s: System, i: nat)
    requires Inv(s) && Awaiting(s, i) && !Hopeless(AwaitedRequest(s, i).phase) && Serve(s, i) != Receive(i)
    ensures Awaiting(Step(s, Serve(s, i)), i) && !Hopeless(AwaitedRequest(Step(s, Serve(s, i)), i).phase)
  {
  }

  lemma ServeOn(s: System, i: nat)
    requires Inv(s) && RunsSound(s) && Awaiting(s, i) && !Hopeless(AwaitedRequest(s, i).phase) && Serve(s, i) != Receive(i)
    ensures var s' := Step(s, Serve(s, i));
            && Inv(s') && RunsSound(s') && OthersSame(s, s', i) && s'.store == s.store
            && Awaiting(s', i) && AwaitedRequest(s', i).op == AwaitedRequest(s, i).op && s'.runs[i] == s.runs[i]
            && Rank(AwaitedRequest(s', i).phase) < Rank(AwaitedRequest(s, i).phase) && !Hopeless(AwaitedRequest(s', i).phase)
  {
    StepKeepsInv(s, Serve(s, i));
    StepExtends(s, Serve(s, i));
    StepKeepsRunsSound(s, Serve(s, i));
    InternalKeepsOthers(s, Serve(s, i), i);
    ServeSteps(s, i);
    ServedIsHopeful(s, i);
  }

  /** Row `n`, which run `i` awaits, is brought to `synced`. */
  lemma {:induction false} SyncAwaited(s: System, i: nat, n: nat) returns (actions: seq<Action>)
    requires Inv(s) && RunsSound(s) && Awaiting(s, i) && !Hopeless(AwaitedRequest(s, i).phase)
    requires n < |s.store.ops| && s.store.ops[n].id == AwaitedRequest(s, i).op.id
    ensures NoStart(actions)
    ensures var s' := Exec(s, actions);
            && Inv(s') && RunsSound(s') && OthersSame(s, s', i)
            && n < |s'.store.ops| && s'.store.ops[n].status == Synced
    decreases Rank(AwaitedRequest(s, i).phase)
  {
    var a := Serve(s, i);
    var s1 := Step(s, a);
    if a == Receive(i) {
      actions := Accept(s, i, n);
    } else {
      ServeOn(s, i);
      var rest := SyncAwaited(s1, i, n);
      actions := [a] + rest;
      ExecCons(s, a, rest);
      OthersSameTwice(s, s1, Exec(s1, rest), i);
    }
  }

  lemma StepSound(s: System, a: Action, i: nat)
    requires Inv(s) && RunsSound(s) && Internal(a) && (a.Send? || a.Receive? || a.Drop? ==> a.run == i)
    ensures Inv(Step(s, a)) && RunsSound(Step(s, a)) && OthersSame(s, Step(s, a), i)
  {
    StepKeepsInv(s, a);
    StepExtends(s, a);
    StepKeepsRunsSound(s, a);
    InternalKeepsOthers(s, a, i);
  }

  /** A 2xx answer syncs the row; after a 409 the user discards it. */
  lemma Accept(s: System, i: nat, n: nat) returns (actions: seq<Action>)
    requires Inv(s) && RunsSound(s) && Awaiting(s, i) && AwaitedRequest(s, i).phase.Answered?
    requires !Hopeless(AwaitedRequest(s, i).phase)
    requires n < |s.store.ops| && s.store.ops[n].id == AwaitedRequest(s, i).op.id
    ensures NoStart(actions)
    ensures var s' := Exec(s, actions);
            && Inv(s') && RunsSound(s') && OthersSame(s, s', i)
            && n < |s'.store.ops| && s'.store.ops[n].status == Synced
  {
    var discard := ResolveConflict(s.store.ops[n].id, Discard);
    var s1 := Step(s, Receive(i));
    var s2 := Step(s1, discard);
    StepSound(s, Receive(i), i);
    StepSound(s1, discard, i);
    OthersSameTwice(s, s1, s2, i);
    ReceiveThenDiscard(s, i, n);
    actions := [Receive(i)] + ([discard] + []);
    ExecCons(s, Receive(i), [discard] + []);
    ExecCons(s1, discard, []);
  }

  lemma ReceiveThenDiscard(s: System, i: nat, n: nat)
    requires Awaiting(s, i) && AwaitedRequest(s, i).phase.Answered? && !Hopeless(AwaitedRequest(s, i).phase)
    requires n < |s.store.ops| && s.store.ops[n].id == AwaitedRequest(s, i).op.id
    ensures var s' := Step(Step(s, Receive(i)), ResolveConflict(s.store.ops[n].id, Discard));
            n < |s'.store.ops| && s'.store.ops[n].status == Synced
  {
    var s1 := Step(s, Receive(i));
    assert s1.store.ops[n].status in {Synced, Conflict} && s1.store.ops[n].id == s.store.ops[n].id;
  }

  /** Run `i` works off its tasks up to row `n`, which ends as `synced`. */
  lemma {:induction false} SyncTask(s: System, i: nat, n: nat) returns (actions: seq<Action>)
    requires Inv(s) && RunsSound(s) && i < |s.runs| && n < |s.store.ops|
    requires s.store.ops[n].id in TaskIds(s, i) && !Doomed(s, i, s.store.ops[n].id)
    ensures NoStart(actions)
    ensures var s' := Exec(s, actions);
            && Inv(s') && RunsSound(s') && OthersSame(s, s', i)
            && n < |s'.store.ops| && s'.store.ops[n].status == Synced
    decreases Load(s, i)
  {
    var id := s.store.ops[n].id;
    if Awaiting(s, i) && AwaitedRequest(s, i).op.id == id {
      actions := SyncAwaited(s, i, n);
    } else {
      var a := GoOn(s, i, None);
      var s1 := Step(s, a);
      GoOnStep(s, i, None, id);
      SentIsInFlight(s, i, id);
      var rest := SyncTask(s1, i, n);
      actions := [a] + rest;
      ExecCons(s, a, rest);
      OthersSameTwice(s, s1, Exec(s1, rest), i);
    }
  }

  lemma SentIsInFlight(s: System, i: nat, id: string)
    requires RunsSound(s) && i < |s.runs| && !(Awaiting(s, i) && AwaitedRequest(s, i).op.id == id)
    ensures i < |Step(s, GoOn(s, i, None)).runs| && !Doomed(Step(s, GoOn(s, i, None)), i, id)
  {
    assert RunSound(s, i);
  }

  // ---- the exact condition ---------------------------------------------------------------------

  lemma SettledTaskUnstable(s: System, i: nat, n: nat)
    requires Inv(s) && RunsSound(s) && i < |s.runs| && n < |s.store.ops| && !TaskIsOpen(s, i, n)
    ensures !SyncedIsStable(s)
  {
    var discard := ResolveConflict(s.store.ops[n].id, Discard);
    var s1 := Step(s, discard);
    StepSound(s, discard, i);
    assert RunSound(s, i);
    TasksAfterStep(s, discard, i);
    var second := FailTask(s1, i, n);
    assert s1.store.ops[n].status == Synced;
    ExecCons(s, discard, []);
    var first: seq<Action> := [discard] + [];
    assert NoStart(first) && Exec(s, first) == s1;
    assert !KeepsSynced(s, first, second, n);
  }

  lemma SharedTaskUnstable(s: System, i: nat, j: nat)
    requires Inv(s) && RunsSound(s) && i < |s.runs| && j < |s.runs| && i != j && !SharesDoomed(s, i, j)
    ensures !SyncedIsStable(s)
  {
    var id :| id in TaskIds(s, i) && id in TaskIds(s, j) && !Doomed(s, i, id);
    assert RunSound(s, i) && RunSound(s, j);
    var op :| op in s.store.ops && op.id == id;
    var n: nat :| n < |s.store.ops| && s.store.ops[n] == op;
    var first := SyncTask(s, i, n);
    var second := FailTask(Exec(s, first), j, n);
    assert !KeepsSynced(s, first, second, n);
  }

  lemma ExclusiveIsStable(s: System)
    requires Inv(s) && RunsSound(s) && Exclusive(s)
    ensures SyncedIsStable(s)
  {
    forall first, second, n: nat | NoStart(first) && NoStart(second) ensures KeepsSynced(s, first, second, n) {
      ExclusiveRun(s, first, n);
      ExclusiveRun(Exec(s, first), second, n);
    }
  }

  lemma {:induction false} RunsSoundHolds(actions: seq<Action>)
    ensures RunsSound(Exec(START, actions))
    decreases |actions|
  {
    if actions != [] {
      var n := |actions| - 1;
      var before := Exec(START, actions[..n]);
      RunsSoundHolds(actions[..n]);
      InvHolds(actions[..n]);
      StepExtends(before, actions[n]);
      StepKeepsRunsSound(before, actions[n]);
    }
  }

  /** From any point of any run: whatever the push runs under way, the server and the user
      do next, no row that is or becomes synced is turned back, if and only if every task
      of a run is pending or failed in the table, and what two runs share can end in
      nothing but failed for either. */
  lemma SyncedIsStableIff(actions: seq<Action>)
    ensures SyncedIsStable(Exec(START, actions)) <==> Exclusive(Exec(START, actions))
  {
    var s := Exec(START, actions);
    InvHolds(actions);
    RunsSoundHolds(actions);
    if Exclusive(s) {
      ExclusiveIsStable(s);
    } else if i: nat, n: nat :| i < |s.runs| && n < |s.store.ops| && !TaskIsOpen(s, i, n) {
      SettledTaskUnstable(s, i, n);
    } else {
      var i: nat, j: nat :| i < |s.runs| && j < |s.runs| && i != j && !SharesDoomed(s, i, j);
      SharedTaskUnstable(s, i, j);
    }
  }
}
