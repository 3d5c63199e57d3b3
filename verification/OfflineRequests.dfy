/** What the shell stores for a request that could not be made, said of the request and the
    tables alone (desktop/src/main/main.ts:118-166, desktop/src/main/offlineStore.ts:29-106),
    and that this is what the server gets. */
module OfflineRequests {
  import opened Wrappers
  import opened LocalStore
  import opened Paths
  import opened PendingOps
  import opened SyncProtocol
  import opened SyncSafety

  ghost predicate Orders(req: ApiRequest) {
    req.meth == "POST" && Mentions(req.path, "/orders")
  }

  ghost predicate Pays(req: ApiRequest) {
    req.meth == "POST" && Mentions(req.path, "/payments")
  }

  /** `value || fallback`. */
  predicate ValueOr(value: Option<string>, fallback: string, result: string) {
    result == match value case Some(text) => if text == "" then fallback else text case None => fallback
  }

  /** The operation replays the request as the renderer made it. */
  predicate CarriesRequest(op: PendingOp, req: ApiRequest, d: Draws) {
    op.id == d.opId && op.meth == req.meth && op.path == req.path && op.payload == Plain(req.body)
  }

  /** The payload records the payment of the request's body. */
  predicate RecordsPayment(payload: Payload, body: Body, id: string) {
    && payload.Ledger? && payload.clientPaymentId == id && payload.orderId == body.orderId
    && ValueOr(body.amountAed, "0", payload.amountAed) && ValueOr(body.tenderType, "cash", payload.tenderType)
  }

  predicate CarriesLedger(op: PendingOp, req: ApiRequest, d: Draws) {
    && op.id == d.ledgerOpId && op.meth == "POST" && op.path == "/api/v1/reliability/offline-payments"
    && RecordsPayment(op.payload, req.body, d.paymentId)
  }

  lemma Kinds(req: ApiRequest)
    ensures CreatesOrder(req) <==> Orders(req)
    ensures TakesPayment(req) <==> Pays(req)
  {
    IncludesIff(req.path, "/orders");
    IncludesIff(req.path, "/payments");
  }

  // ---- one request -------------------------------------------------------------------------

  /** The request is queued last, as the renderer made it, and for a payment its ledger
      entry before it; what was queued earlier stays. */
  lemma RequestIsQueued(store: Store, req: ApiRequest, d: Draws)
    ensures var ops, n := HandleOffline(store, req, d).ops, |store.ops| + if Pays(req) then 1 else 0;
            && |ops| == n + 1 && ops[..|store.ops|] == store.ops
            && CarriesRequest(ops[n], req, d)
            && ops[n].kind == (if req.meth == "POST" then Create else Update)
            && (IsFourth(req.path, ops[n].entity)
                || (ops[n].entity == "unknown" && forall fourth :: !IsFourth(req.path, fourth)))
            && ops[n].createdAt == d.now && ops[n].status == Pending && ops[n].attempts == 0
            && (Pays(req) ==>
                  && CarriesLedger(ops[n - 1], req, d) && ops[n - 1].kind == Create && ops[n - 1].entity == "offline_payment"
                  && ops[n - 1].createdAt == d.now && ops[n - 1].status == Pending && ops[n - 1].attempts == 0)
  {
    Kinds(req);
    HandleOfflineOps(store, req, d);
    EntityIff(req.path, EntityOf(req.path));
  }

  /** A payment is stored under its id as queued, with the same values as in its ledger
      entry; nothing else is. */
  lemma PaymentIsStored(store: Store, req: ApiRequest, d: Draws)
    ensures var after := HandleOffline(store, req, d).payments;
            && (!Pays(req) || d.paymentId in store.payments ==> after == store.payments)
            && (Pays(req) && d.paymentId !in store.payments ==>
                  && after.Keys == store.payments.Keys + {d.paymentId}
                  && (forall id | id in store.payments :: after[id] == store.payments[id])
                  && RecordsPayment(after[d.paymentId].payload, req.body, d.paymentId)
                  && after[d.paymentId].status == Queued && after[d.paymentId].createdAt == d.now)
  {
    Kinds(req);
  }

  /** The id of an offline order: the positive one of its body, or a drawn one. */
  predicate FiledUnder(req: ApiRequest, d: Draws, id: int) {
    if req.body.id.Some? && req.body.id.value > 0 then id == req.body.id.value else id == 0 - d.localOrder
  }

  /** An order is shown as an offline draft with the content of the body; no other order
      changes. */
  lemma DraftIsFiled(store: Store, req: ApiRequest, d: Draws, id: int)
    requires FiledUnder(req, d, id)
    ensures var after := HandleOffline(store, req, d).orders;
            && (!Orders(req) ==> after == store.orders)
            && (Orders(req) ==>
                  && after.Keys == store.orders.Keys + {id}
                  && (forall other | other in store.orders && other != id :: after[other] == store.orders[other])
                  && after[id].payload.id == id && after[id].payload.content == req.body.content
                  && after[id].payload.draft && after[id].payload.offline && after[id].updatedAt == d.now
                  && (id !in store.orders ==> after[id].offlineCreated)
                  && (id in store.orders ==> after[id].offlineCreated == store.orders[id].offlineCreated))
  {
    Kinds(req);
  }

  /** An order adds its kitchen ticket and a payment its receipt, each pending, after the
      jobs that were there. */
  lemma TicketsAreQueued(store: Store, req: ApiRequest, d: Draws, id: int)
    requires FiledUnder(req, d, id)
    ensures HandleOffline(store, req, d).jobs ==
            store.jobs
            + (if Orders(req) then [PrintJob(d.kotId, KotTicket(id, req.body), JobPending, d.now)] else [])
            + (if Pays(req) then [PrintJob(d.receiptId, ReceiptTicket(req.body), JobPending, d.now)] else [])
  {
    Kinds(req);
  }

  // ---- whole runs --------------------------------------------------------------------------

  /** The action queued this operation, as the request itself or as its ledger entry. */
  ghost predicate QueuedBy(a: Action, op: PendingOp) {
    a.Offline? && a.req.meth != "GET" && (CarriesRequest(op, a.req, a.draws) || (Pays(a.req) && CarriesLedger(op, a.req, a.draws)))
  }

  ghost predicate WasQueued(actions: seq<Action>, op: PendingOp) {
    exists k | 0 <= k < |actions| :: QueuedBy(actions[k], op)
  }

  lemma QueuedBefore(actions: seq<Action>, a: Action, op: PendingOp, after: PendingOp)
    requires WasQueued(actions, op) && Core(op) == Core(after)
    ensures WasQueued(actions + [a], after)
  {
    var k :| 0 <= k < |actions| && QueuedBy(actions[k], op);
    assert (actions + [a])[k] == actions[k];
    SameCore(actions[k], op, after);
  }

  lemma SameCore(a: Action, op: PendingOp, after: PendingOp)
    requires QueuedBy(a, op) && Core(op) == Core(after)
    ensures QueuedBy(a, after)
  {
    assert op.id == Core(op).id && op.meth == Core(op).meth && op.path == Core(op).path && op.payload == Core(op).payload;
    assert after.id == Core(op).id && after.meth == Core(op).meth && after.path == Core(op).path && after.payload == Core(op).payload;
  }

  lemma NewRowIsQueued(s: System, a: Action, i: nat)
    requires |s.store.ops| <= i < |Step(s, a).store.ops|
    ensures QueuedBy(a, Step(s, a).store.ops[i])
  {
    assert a.Offline? && Step(s, a).store == HandleOffline(s.store, a.req, a.draws) && a.req.meth != "GET";
    RequestIsQueued(s.store, a.req, a.draws);
  }

  lemma {:induction false} RowsAreQueued(actions: seq<Action>, i: nat)
    requires i < |Exec(START, actions).store.ops|
    ensures WasQueued(actions, Exec(START, actions).store.ops[i])
    decreases |actions|
  {
    var n := |actions| - 1;
    var before := Exec(START, actions[..n]);
    assert actions == actions[..n] + [actions[n]];
    if i < |before.store.ops| {
      RowsAreQueued(actions[..n], i);
      InvHolds(actions[..n]);
      StepExtends(before, actions[n]);
      QueuedBefore(actions[..n], actions[n], before.store.ops[i], Exec(START, actions).store.ops[i]);
    } else {
      NewRowIsQueued(before, actions[n], i);
      assert QueuedBy(actions[n], Exec(START, actions).store.ops[i]);
    }
  }

  /** In every run, every request that a push sends carries the method, path and body of a
      request that the renderer made, or the ledger entry of its payment, and its key names
      just that. */
  lemma RequestsCarryWhatWasQueued(actions: seq<Action>, r: Request)
    requires r in Exec(START, actions).requests
    ensures WasQueued(actions, r.op)
    ensures r.key.id == r.op.id && r.key.meth == r.op.meth && r.key.path == r.op.path
  {
    var s := Exec(START, actions);
    InvHolds(actions);
    var listed :| listed in s.store.ops && Core(listed) == Core(r.op);
    var i :| 0 <= i < |s.store.ops| && s.store.ops[i] == listed;
    RowsAreQueued(actions, i);
    var k :| 0 <= k < |actions| && QueuedBy(actions[k], listed);
    SameCore(actions[k], listed, r.op);
  }

  /** And every such request is in the queue from then on, as it was made. */
  lemma EveryRequestStaysQueued(before: seq<Action>, req: ApiRequest, d: Draws, sent: bool, after: seq<Action>)
    requires req.meth != "GET" && Fresh(Exec(START, before).store, d)
    ensures var ops := Exec(START, before + [Offline(req, d, sent)] + after).store.ops;
            && (exists op | op in ops :: CarriesRequest(op, req, d))
            && (Pays(req) ==> exists op | op in ops :: CarriesLedger(op, req, d))
  {
    var first := before + [Offline(req, d, sent)];
    var s0, s1 := Exec(START, before), Exec(START, first);
    assert first[..|before|] == before;
    RequestIsQueued(s0.store, req, d);
    NoOperationIsLost(first, after);
    var ops, n := Exec(START, first + after).store.ops, |s1.store.ops| - 1;
    assert Core(ops[n]) == Core(s1.store.ops[n]) && ops[n] in ops;
    KeepsCore(s1.store.ops[n], ops[n]);
    if Pays(req) {
      assert Core(ops[n - 1]) == Core(s1.store.ops[n - 1]) && ops[n - 1] in ops;
      KeepsCore(s1.store.ops[n - 1], ops[n - 1]);
    }
  }

  lemma KeepsCore(a: PendingOp, b: PendingOp)
    requires Core(a) == Core(b)
    ensures a.id == b.id && a.meth == b.meth && a.path == b.path && a.payload == b.payload
  {
    assert a.id == Core(a).id && a.meth == Core(a).meth && a.path == Core(a).path && a.payload == Core(a).payload;
  }
}
