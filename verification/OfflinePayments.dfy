/** Payments taken offline: the local_payments row, its ledger operation in the queue,
    and what `synced` means for each (desktop/src/main/offlineStore.ts:59-88,
    desktop/src/main/sync.ts:172-181). */
module OfflinePayments {
  import opened Wrappers
  import opened LocalStore
  import opened PendingOps
  import opened SyncProtocol
  import opened SyncSafety

  /** Row `i` of the queue is the ledger operation of payment `pid`. */
  predicate LedgerRow(ops: seq<PendingOp>, i: nat, pid: string) {
    i < |ops| && ops[i].payload.Ledger? && ops[i].payload.clientPaymentId == pid
  }

  predicate IsLedger(op: PendingOp) {
    op.entity == "offline_payment" && op.path == LEDGER_PATH && op.kind == Create && op.meth == "POST"
  }

  /** Every payment has a ledger operation, every ledger operation a payment, and no
      two are for the same one. */
  ghost predicate OneLedgerOpEach(store: Store) {
    && (forall i: nat, pid | LedgerRow(store.ops, i, pid) :: pid in store.payments && IsLedger(store.ops[i]))
    && (forall pid | pid in store.payments :: exists i: nat :: LedgerRow(store.ops, i, pid))
    && (forall i: nat, j: nat, pid | LedgerRow(store.ops, i, pid) && LedgerRow(store.ops, j, pid) :: i == j)
  }

  /** A payment is marked synced exactly when its own ledger operation got a 2xx. */
  ghost predicate SyncedWhenAccepted(s: System) {
    forall i: nat, pid | LedgerRow(s.store.ops, i, pid) && pid in s.store.payments ::
      s.store.payments[pid].status == PaymentSynced <==> s.store.ops[i].id in s.accepted
  }

  /** Only operations of the table have been accepted. */
  ghost predicate AcceptedListed(s: System) {
    s.accepted <= Ids(s.store.ops)
  }

  ghost predicate PaymentInv(s: System) {
    OneLedgerOpEach(s.store) && SyncedWhenAccepted(s) && AcceptedListed(s)
  }

  predicate SameRows(a: seq<PendingOp>, b: seq<PendingOp>) {
    |a| == |b| && forall i | 0 <= i < |a| :: Core(a[i]) == Core(b[i])
  }

  /** Rewriting statuses changes neither the ledger rows nor the ids. */
  lemma RewriteKeepsLedger(store: Store, store': Store)
    requires OneLedgerOpEach(store) && SameRows(store.ops, store'.ops) && store'.payments.Keys == store.payments.Keys
    ensures OneLedgerOpEach(store')
  {
    assert forall i: nat, pid :: LedgerRow(store.ops, i, pid) <==> LedgerRow(store'.ops, i, pid);
    forall pid | pid in store'.payments
      ensures exists i: nat :: LedgerRow(store'.ops, i, pid)
    {
      var i: nat :| LedgerRow(store.ops, i, pid);
      assert LedgerRow(store'.ops, i, pid);
    }
  }

  lemma SameIds(a: seq<PendingOp>, b: seq<PendingOp>)
    requires SameRows(a, b)
    ensures Ids(a) == Ids(b)
  {
    assert forall i | 0 <= i < |a| :: a[i] in a && b[i] in b && a[i].id == b[i].id;
    forall id | id in Ids(a)
      ensures id in Ids(b)
    {
      var i :| 0 <= i < |a| && a[i].id == id;
      assert b[i] in b;
    }
    forall id | id in Ids(b)
      ensures id in Ids(a)
    {
      var i :| 0 <= i < |b| && b[i].id == id;
      assert a[i] in a;
    }
  }

  lemma LedgerPathMatches()
    ensures Includes(LEDGER_PATH, "offline-payments")
  {
    assert LEDGER_PATH == "/api/v1/reliability/" + "offline-payments";
    assert LEDGER_PATH[|"/api/v1/reliability/"|..] == "offline-payments";
  }

  lemma SettleRows(store: Store, op: PendingOp, outcome: Outcome)
    ensures SameRows(store.ops, Settle(store, op, outcome).ops)
    ensures Settle(store, op, outcome).payments.Keys == store.payments.Keys
  {
  }

  lemma ListedAt(ops: seq<PendingOp>, op: PendingOp) returns (n: nat)
    requires Listed(ops, op)
    ensures n < |ops| && Core(ops[n]) == Core(op)
  {
    var listed :| listed in ops && Core(listed) == Core(op);
    n :| n < |ops| && ops[n] == listed;
  }

  lemma SettleKeepsPayments(s: System, run: nat, outcome: Outcome)
    requires Inv(s) && PaymentInv(s)
    requires Awaited(s, run).Some? && Awaited(s, run).value < |s.requests|
    ensures PaymentInv(SettleStep(s, run, outcome))
  {
    var s' := SettleStep(s, run, outcome);
    var r := s.requests[Awaited(s, run).value];
    assert r in s.requests;
    var n := ListedAt(s.store.ops, r.op);
    SettleRows(s.store, r.op, outcome);
    SameIds(s.store.ops, s'.store.ops);
    RewriteKeepsLedger(s.store, s'.store);
    assert AcceptedListed(s') by {
      assert s'.accepted <= s.accepted + {r.op.id};
      assert s.store.ops[n] in s.store.ops && s.store.ops[n].id == r.op.id;
    }
    LedgerPathMatches();
    forall i: nat, pid | LedgerRow(s'.store.ops, i, pid) && pid in s'.store.payments
      ensures s'.store.payments[pid].status == PaymentSynced <==> s'.store.ops[i].id in s'.accepted
    {
      SettledRow(s, s', r.op, n, i, pid, outcome);
    }
  }

  lemma SettledRow(s: System, s': System, op: PendingOp, n: nat, i: nat, pid: string, outcome: Outcome)
    requires UniqueIds(s.store.ops) && PaymentInv(s) && Includes(LEDGER_PATH, "offline-payments")
    requires n < |s.store.ops| && Core(s.store.ops[n]) == Core(op)
    requires s'.store == Settle(s.store, op, outcome)
    requires s'.accepted == if outcome.Answer? && 200 <= outcome.status < 300 then s.accepted + {op.id} else s.accepted
    requires LedgerRow(s'.store.ops, i, pid)
    ensures pid in s'.store.payments
    ensures s'.store.payments[pid].status == PaymentSynced <==> s'.store.ops[i].id in s'.accepted
  {
    assert LedgerRow(s.store.ops, i, pid);
    if i == n {
      assert IsLedger(s.store.ops[i]);
    } else {
      assert s.store.ops[i].id != s.store.ops[n].id;
      assert LedgerRow(s.store.ops, n, pid) ==> i == n;
    }
  }

  lemma ResolveKeepsPayments(s: System, id: string, resolution: Resolution)
    requires Inv(s) && PaymentInv(s)
    ensures PaymentInv(Step(s, ResolveConflict(id, resolution)))
  {
    var s' := Step(s, ResolveConflict(id, resolution));
    assert forall i | 0 <= i < |s.store.ops| :: StatusSound(s, s.store.ops[i]);
    assert SameRows(s.store.ops, s'.store.ops);
    SameIds(s.store.ops, s'.store.ops);
    RewriteKeepsLedger(s.store, s'.store);
    assert forall i: nat, pid :: LedgerRow(s.store.ops, i, pid) <==> LedgerRow(s'.store.ops, i, pid);
  }

  lemma OfflineRows(store: Store, req: ApiRequest, d: Draws, i: nat, pid: string)
    requires d.paymentId !in store.payments
    ensures var after := HandleOffline(store, req, d);
            && (LedgerRow(after.ops, i, pid) <==>
                  LedgerRow(store.ops, i, pid) || (TakesPayment(req) && i == |store.ops| && pid == d.paymentId))
            && after.payments == if TakesPayment(req)
                                 then store.payments[d.paymentId := Payment(LedgerPayload(req.body, d.paymentId), Queued, d.now)]
                                 else store.payments
  {
    HandleOfflineOps(store, req, d);
  }

  lemma OfflineKeepsLedger(store: Store, req: ApiRequest, d: Draws)
    requires OneLedgerOpEach(store) && Fresh(store, d)
    ensures OneLedgerOpEach(HandleOffline(store, req, d))
  {
    var after := HandleOffline(store, req, d);
    HandleOfflineOps(store, req, d);
    forall i: nat, pid
      ensures LedgerRow(after.ops, i, pid) <==>
                LedgerRow(store.ops, i, pid) || (TakesPayment(req) && i == |store.ops| && pid == d.paymentId)
    {
      OfflineRows(store, req, d, i, pid);
    }
    OfflineRows(store, req, d, 0, "");
    forall pid | pid in after.payments
      ensures exists i: nat :: LedgerRow(after.ops, i, pid)
    {
      if pid in store.payments {
        var i: nat :| LedgerRow(store.ops, i, pid);
        assert LedgerRow(after.ops, i, pid);
      } else {
        assert LedgerRow(after.ops, |store.ops|, pid);
      }
    }
  }

  /** The offline branch adds a payment together with its ledger operation. */
  lemma OfflineKeepsPayments(s: System, req: ApiRequest, d: Draws, sent: bool)
    requires PaymentInv(s)
    ensures PaymentInv(OfflineStep(s, req, d, sent))
  {
    var s' := OfflineStep(s, req, d, sent);
    if s' != s {
      HandleOfflineOps(s.store, req, d);
      OfflineKeepsLedger(s.store, req, d);
      forall i: nat, pid | LedgerRow(s'.store.ops, i, pid) && pid in s'.store.payments
        ensures s'.store.payments[pid].status == PaymentSynced <==> s'.store.ops[i].id in s'.accepted
      {
        OfflineRows(s.store, req, d, i, pid);
      }
      assert forall op | op in s.store.ops :: op in s'.store.ops;
    }
  }

  lemma StepKeepsPayments(s: System, a: Action)
    requires Inv(s) && PaymentInv(s)
    ensures PaymentInv(Step(s, a))
  {
    match a
    case Offline(req, d, sent) => OfflineKeepsPayments(s, req, d, sent);
    case Receive(run) =>
      if ReceiveStep(s, run) != s {
        SettleKeepsPayments(s, run, Answer(s.requests[Awaited(s, run).value].phase.status));
      }
    case Drop(run) =>
      if DropStep(s, run) != s {
        SettleKeepsPayments(s, run, Lost);
      }
    case ResolveConflict(id, resolution) => ResolveKeepsPayments(s, id, resolution);
    case _ => assert Step(s, a).store == s.store && Step(s, a).accepted == s.accepted;
  }

  /** In every run, overlapping or not: payments and ledger operations correspond one
      to one, and a payment is marked synced exactly when its own ledger operation was
      accepted. */
  lemma {:induction false} PaymentsMatchLedger(actions: seq<Action>)
    ensures PaymentInv(Exec(START, actions))
    decreases |actions|
  {
    if actions != [] {
      PaymentsMatchLedger(actions[..|actions| - 1]);
      InvHolds(actions[..|actions| - 1]);
      StepKeepsPayments(Exec(START, actions[..|actions| - 1]), actions[|actions| - 1]);
    }
  }

  /** A ledger operation that the user discarded without any acceptance is `synced` in
      the queue, and its payment still is not. */
  lemma DiscardedPaymentStaysQueued(actions: seq<Action>, i: nat, pid: string)
    requires var s := Exec(START, actions);
             LedgerRow(s.store.ops, i, pid) && s.store.ops[i].id !in s.accepted
    ensures var s := Exec(START, actions);
            && pid in s.store.payments && s.store.payments[pid].status == Queued
            && (s.store.ops[i].status == Synced ==> s.store.ops[i].id in s.discarded)
  {
    var s := Exec(START, actions);
    PaymentsMatchLedger(actions);
    StatusesAreSound(actions, s.store.ops[i]);
  }
}
