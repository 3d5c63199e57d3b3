/** How often one operation is carried out, counting its queued copy under any key and the
    direct attempt that it stands for, by a server that handles each request in one piece
    (src/app/idempotency/middleware.py:56-132, desktop/src/main/main.ts:87-164). */
module PerOperation {
  import opened Wrappers
  import opened LocalStore
  import opened PendingOps
  import opened SyncProtocol
  import opened Idempotency
  import opened SyncSafety
  import opened RunTasks
  import opened LateFailures

  function Times(effects: seq<Key>, id: string): nat {
    if effects == [] then 0
    else Times(effects[..|effects| - 1], id) + if effects[|effects| - 1].id == id then 1 else 0
  }

  function Executions(s: System, id: string): nat {
    Times(s.effects, id) + if id in s.direct then 1 else 0
  }

  // ---- whole steps -------------------------------------------------------------------------

  ghost predicate Sound(s: System) {
    Inv(s) && RunsSound(s) && Settled(s)
  }

  lemma StepKeepsBoth(s: System, a: Action)
    requires Inv(s) && RunsSound(s)
    ensures Inv(Step(s, a)) && RunsSound(Step(s, a))
  {
    StepKeepsInv(s, a);
    StepExtends(s, a);
    StepKeepsRunsSound(s, a);
  }

  lemma ServeKeepsBoth(s: System, r: nat, status: int)
    requires Inv(s) && RunsSound(s)
    ensures Inv(ServeStep(s, r, status)) && RunsSound(ServeStep(s, r, status))
  {
    StepKeepsBoth(s, Check(r));
    HandleAndRecordKeepBoth(CheckStep(s, r), r, status);
  }

  lemma HandleAndRecordKeepBoth(s: System, r: nat, status: int)
    requires Inv(s) && RunsSound(s)
    ensures var s' := RecordStep(HandleStep(s, r, status), r, true); Inv(s') && RunsSound(s')
  {
    StepKeepsBoth(s, Handle(r, status));
    StepKeepsBoth(HandleStep(s, r, status), Record(r, true));
  }

  lemma WholeKeepsSound(s: System, w: WholeStep)
    requires Sound(s)
    ensures Sound(Whole(s, w))
  {
    match w
    case Other(a) =>
      if !(a.Check? || a.Handle? || a.Record?) {
        StepKeepsBoth(s, a);
        OtherKeepsSettled(s, a);
      }
    case Serve(r, status) =>
      ServeKeepsBoth(s, r, status);
      ServeKeepsSettled(s, r, status);
  }

  lemma {:induction false} SoundHolds(steps: seq<WholeStep>)
    ensures Sound(ExecWhole(START, steps))
    decreases |steps|
  {
    if steps != [] {
      SoundHolds(steps[..|steps| - 1]);
      WholeKeepsSound(ExecWhole(START, steps[..|steps| - 1]), steps[|steps| - 1]);
    }
  }

  lemma {:induction false} WholeAppend(s: System, first: seq<WholeStep>, second: seq<WholeStep>)
    ensures ExecWhole(s, first + second) == ExecWhole(ExecWhole(s, first), second)
    decreases |second|
  {
    if second == [] {
      assert first + second == first;
    } else {
      var n := |second| - 1;
      assert (first + second)[..|first + second| - 1] == first + second[..n];
      WholeAppend(s, first, second[..n]);
    }
  }

  lemma WholeCons(s: System, w: WholeStep, rest: seq<WholeStep>)
    ensures ExecWhole(s, [w] + rest) == ExecWhole(Whole(s, w), rest)
  {
    assert [w][..0] == [];
    assert ExecWhole(s, [w]) == Whole(s, w);
    WholeAppend(s, [w], rest);
  }

  // ---- one tenant --------------------------------------------------------------------------

  predicate SentAs(w: WholeStep, tenant: int) {
    w.Other? && w.action.Send? ==> w.action.restaurant == Some(tenant)
  }

  ghost predicate AllUnder(steps: seq<WholeStep>, tenant: int) {
    forall w | w in steps :: SentAs(w, tenant)
  }

  /** The step sends the operation. */
  predicate Sends(s: System, w: WholeStep, id: string) {
    && w.Other? && w.action.Send? && w.action.run < |s.runs|
    && s.runs[w.action.run].current == None && s.runs[w.action.run].queue != []
    && s.runs[w.action.run].queue[0].id == id
  }

  predicate SentFor(s: System, w: WholeStep, id: string, tenant: int) {
    Sends(s, w, id) ==> w.action.restaurant == Some(tenant)
  }

  /** Every token that the requests for this operation bear resolves to the same
      restaurant; what other requests bear does not matter. */
  predicate OneTenant(s: System, steps: seq<WholeStep>, id: string, tenant: int)
    decreases |steps|
  {
    steps == [] ||
    (OneTenant(s, steps[..|steps| - 1], id, tenant)
     && SentFor(ExecWhole(s, steps[..|steps| - 1]), steps[|steps| - 1], id, tenant))
  }

  lemma {:induction false} OneForAll(s: System, steps: seq<WholeStep>, id: string, tenant: int)
    requires AllUnder(steps, tenant)
    ensures OneTenant(s, steps, id, tenant)
    decreases |steps|
  {
    if steps != [] {
      var init, last := steps[..|steps| - 1], steps[|steps| - 1];
      assert forall w | w in init :: w in steps;
      OneForAll(s, init, id, tenant);
      assert last in steps && SentAs(last, tenant);
    }
  }

  lemma {:induction false} OneTenantAppend(s: System, first: seq<WholeStep>, second: seq<WholeStep>, id: string, tenant: int)
    requires OneTenant(s, first, id, tenant) && OneTenant(ExecWhole(s, first), second, id, tenant)
    ensures OneTenant(s, first + second, id, tenant)
    decreases |second|
  {
    if second == [] {
      assert first + second == first;
    } else {
      var n := |second| - 1;
      OneTenantAppend(s, first, second[..n], id, tenant);
      WholeAppend(s, first, second[..n]);
      assert (first + second)[..|first| + n] == first + second[..n];
    }
  }

  predicate HasKey(requests: seq<Request>, k: Key) {
    exists r | 0 <= r < |requests| :: requests[r].key == k
  }

  ghost predicate TenantInv(s: System, id: string, tenant: int) {
    && (forall r | 0 <= r < |s.requests| && s.requests[r].key.id == id :: s.requests[r].key.restaurant == Some(tenant))
    && (forall k | k in s.effects && k.id == id :: HasKey(s.requests, k))
  }

  lemma HasKeyStays(before: seq<Request>, after: seq<Request>, k: Key)
    requires HasKey(before, k) && |before| <= |after|
    requires forall r | 0 <= r < |before| :: after[r].key == before[r].key
    ensures HasKey(after, k)
  {
    var r :| 0 <= r < |before| && before[r].key == k;
    assert after[r].key == k;
  }

  lemma StepKeepsTenant(s: System, a: Action, id: string, tenant: int)
    requires TenantInv(s, id, tenant) && SentFor(s, Other(a), id, tenant)
    ensures TenantInv(Step(s, a), id, tenant)
  {
    var s' := Step(s, a);
    RequestsStay(s, a);
    forall k | k in s'.effects && k.id == id ensures HasKey(s'.requests, k) {
      if k in s.effects {
        HasKeyStays(s.requests, s'.requests, k);
      } else {
        assert s'.requests[a.request].key == k;
      }
    }
  }

  lemma WholeKeepsTenant(s: System, w: WholeStep, id: string, tenant: int)
    requires TenantInv(s, id, tenant) && SentFor(s, w, id, tenant)
    ensures TenantInv(Whole(s, w), id, tenant)
  {
    match w
    case Other(a) => if !(a.Check? || a.Handle? || a.Record?) { StepKeepsTenant(s, a, id, tenant); }
    case Serve(r, status) => ServeKeepsTenant(s, r, status, id, tenant);
  }

  lemma ServeKeepsTenant(s: System, r: nat, status: int, id: string, tenant: int)
    requires TenantInv(s, id, tenant)
    ensures TenantInv(ServeStep(s, r, status), id, tenant)
  {
    var s1 := CheckStep(s, r);
    var s2 := HandleStep(s1, r, status);
    StepKeepsTenant(s, Check(r), id, tenant);
    StepKeepsTenant(s1, Handle(r, status), id, tenant);
    StepKeepsTenant(s2, Record(r, true), id, tenant);
  }

  lemma {:induction false} TenantHolds(steps: seq<WholeStep>, id: string, tenant: int)
    requires OneTenant(START, steps, id, tenant)
    ensures TenantInv(ExecWhole(START, steps), id, tenant)
    decreases |steps|
  {
    if steps != [] {
      var n := |steps| - 1;
      TenantHolds(steps[..n], id, tenant);
      WholeKeepsTenant(ExecWhole(START, steps[..n]), steps[n], id, tenant);
    }
  }

  lemma {:induction false} TimesOfKey(effects: seq<Key>, id: string, k: Key)
    requires k.id == id && forall e | e in effects && e.id == id :: e == k
    ensures Times(effects, id) == multiset(effects)[k]
    decreases |effects|
  {
    if effects != [] {
      var init, last := effects[..|effects| - 1], effects[|effects| - 1];
      assert effects == init + [last];
      TimesOfKey(init, id, k);
    }
  }

  /** Under one tenant the operation has one key only. */
  lemma OneKey(s: System, tenant: int, n: nat, k: Key)
    requires Inv(s) && n < |s.store.ops| && TenantInv(s, s.store.ops[n].id, tenant) && k in s.effects && k.id == s.store.ops[n].id
    ensures k == KeyFor(s.store.ops[n], Some(tenant))
  {
    var r :| 0 <= r < |s.requests| && s.requests[r].key == k;
    var request := s.requests[r];
    assert request in s.requests;
    var listed :| listed in s.store.ops && Core(listed) == Core(request.op);
    SameIdSameRow(s.store.ops, listed, s.store.ops[n]);
  }

  lemma OnceInState(s: System, tenant: int, n: nat)
    requires Sound(s) && n < |s.store.ops| && TenantInv(s, s.store.ops[n].id, tenant) && s.store.ops[n].meth in MUTATING
    ensures Times(s.effects, s.store.ops[n].id) <= 1
  {
    var k := KeyFor(s.store.ops[n], Some(tenant));
    forall e | e in s.effects && e.id == s.store.ops[n].id ensures e == k {
      OneKey(s, tenant, n, e);
    }
    TimesOfKey(s.effects, s.store.ops[n].id, k);
    assert Deduplicated(k) && TimesDone(s, k) <= 1;
  }

  /** When all its requests resolve to one tenant, an operation of the queue is carried out
      at most once, however pushes overlap, answers get lost and tokens change for the
      other operations. */
  lemma QueuedAtMostOnce(steps: seq<WholeStep>, tenant: int, n: nat)
    requires n < |ExecWhole(START, steps).store.ops| && ExecWhole(START, steps).store.ops[n].meth in {"POST", "PATCH", "PUT", "DELETE"}
    requires OneTenant(START, steps, ExecWhole(START, steps).store.ops[n].id, tenant)
    ensures Times(ExecWhole(START, steps).effects, ExecWhole(START, steps).store.ops[n].id) <= 1
  {
    SoundHolds(steps);
    TenantHolds(steps, ExecWhole(START, steps).store.ops[n].id, tenant);
    OnceInState(ExecWhole(START, steps), tenant, n);
  }
}
