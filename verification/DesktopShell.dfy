/** The offline code of the desktop shell, statement by statement on its database.
    Each method is tied to the function on values that the protocol's steps use. */
module DesktopShell {
  import opened Wrappers
  import opened LocalStore
  import opened PendingOps

  /** pos-cache.sqlite. */
  class LocalDb {
    var pendingOps: seq<PendingOp>
    var localPayments: map<string, Payment>
    var localOrders: map<int, OrderRow>
    var printJobs: seq<PrintJob>
    var localMenu: map<int, MenuRow>
    var menuCursor: Option<int>
    var ordersCursor: Option<string>
    var online: bool
    var lastOnlineAt: Option<string>
    var lastOfflineAt: Option<string>
    var lastError: Option<string>

    constructor ()
      ensures Contents() == EMPTY_STORE && localMenu == map[] && menuCursor == None && ordersCursor == None && online
    {
      pendingOps, localPayments, localOrders, printJobs := [], map[], map[], [];
      localMenu, menuCursor, ordersCursor := map[], None, None;
      online, lastOnlineAt, lastOfflineAt, lastError := true, None, None, None;
    }

    ghost function Contents(): Store
      reads this
    {
      Store(pendingOps, localPayments, localOrders, printJobs)
    }
  }

  /** The state and its last error are replaced, and the time of the state it is now in. */
  method SetNetworkOnline(db: LocalDb, online: bool, error: Option<string>, now: string)
    modifies db`online, db`lastOnlineAt, db`lastOfflineAt, db`lastError
    ensures db.online == online && db.lastError == error
    ensures db.lastOnlineAt == if online then Some(now) else old(db.lastOnlineAt)
    ensures db.lastOfflineAt == if online then old(db.lastOfflineAt) else Some(now)
  {
    db.online, db.lastError := online, error;
    if online {
      db.lastOnlineAt := Some(now);
    } else {
      db.lastOfflineAt := Some(now);
    }
  }

  // ---- pendingOps.ts ---------------------------------------------------------------

  method EnqueueOp(db: LocalDb, op: PendingOp)
    modifies db`pendingOps
    ensures db.pendingOps == Enqueue(old(db.pendingOps), op)
  {
    db.pendingOps := db.pendingOps + [op.(status := Pending, attempts := 0)];
  }

  method MarkOpStatus(db: LocalDb, id: string, status: OpStatus)
    modifies db`pendingOps
    ensures db.pendingOps == Mark(old(db.pendingOps), id, status)
  {
    var ops := db.pendingOps;
    db.pendingOps := seq(|ops|, i requires 0 <= i < |ops| => if ops[i].id == id then ops[i].(status := status) else ops[i]);
  }

  // ---- offlineStore.ts ---------------------------------------------------------------

  method QueueLocalPrint(db: LocalDb, id: string, ticket: Ticket, now: string)
    modifies db`printJobs
    ensures db.printJobs == old(db.printJobs) + [PrintJob(id, ticket, JobPending, now)]
  {
    db.printJobs := db.printJobs + [PrintJob(id, ticket, JobPending, now)];
  }

  method SaveLocalOrder(db: LocalDb, id: Option<int>, content: string, draft: bool, offlineCreated: bool, draw: nat, now: string)
    returns (orderId: int)
    modifies db`localOrders
    ensures orderId == LocalOrderId(id, draw)
    ensures if id.Some? && id.value > 0 then orderId == id.value else orderId == 0 - draw
    ensures forall other | other != orderId :: other in db.localOrders <==> other in old(db.localOrders)
    ensures forall other | other != orderId && other in db.localOrders :: db.localOrders[other] == old(db.localOrders)[other]
    ensures orderId in db.localOrders && db.localOrders[orderId].payload == OrderPayload(orderId, content, draft, offlineCreated)
    ensures db.localOrders[orderId].updatedAt == now
    ensures db.localOrders[orderId].offlineCreated ==
              if orderId in old(db.localOrders) then old(db.localOrders)[orderId].offlineCreated else offlineCreated
    ensures db.localOrders ==
            UpsertOrder(old(db.localOrders), OrderPayload(orderId, content, draft, offlineCreated), now, offlineCreated)
  {
    orderId := if id.Some? && id.value > 0 then id.value else 0 - draw;
    var payload := OrderPayload(orderId, content, draft, offlineCreated);
    if orderId in db.localOrders {
      db.localOrders := db.localOrders[orderId := db.localOrders[orderId].(payload := payload, updatedAt := now)];
    } else {
      db.localOrders := db.localOrders[orderId := OrderRow(payload, now, offlineCreated)];
    }
  }

  method QueueOfflinePayment(db: LocalDb, amountAed: string, tenderType: string, orderId: Option<int>, paymentId: string, opId: string, now: string)
    modifies db`localPayments, db`pendingOps
    ensures var payload := Ledger(paymentId, amountAed, tenderType, orderId);
            && db.localPayments == (if paymentId in old(db.localPayments) then old(db.localPayments)
                                    else old(db.localPayments)[paymentId := Payment(payload, Queued, now)])
            && db.pendingOps == Enqueue(old(db.pendingOps),
                                        PendingOp(opId, "offline_payment", Create, "POST", LEDGER_PATH, payload, now, Pending, 0))
  {
    var payload := Ledger(paymentId, amountAed, tenderType, orderId);
    if paymentId !in db.localPayments {
      db.localPayments := db.localPayments[paymentId := Payment(payload, Queued, now)];
    }
    EnqueueOp(db, PendingOp(opId, "offline_payment", Create, "POST", LEDGER_PATH, payload, now, Pending, 0));
  }

  method ResolveConflict(db: LocalDb, id: string, action: Resolution)
    modifies db`pendingOps
    ensures db.pendingOps == Resolve(old(db.pendingOps), id, action)
    ensures |db.pendingOps| == |old(db.pendingOps)|
    ensures forall i | 0 <= i < |db.pendingOps| :: db.pendingOps[i] ==
              if old(db.pendingOps)[i].id != id || old(db.pendingOps)[i].status != Conflict then old(db.pendingOps)[i]
              else if action == Discard then old(db.pendingOps)[i].(status := Synced)
              else old(db.pendingOps)[i].(status := Pending, attempts := 0)
  {
    var ops := db.pendingOps;
    if action == Discard {
      db.pendingOps := seq(|ops|, i requires 0 <= i < |ops| =>
        if ops[i].id == id && ops[i].status == Conflict then ops[i].(status := Synced) else ops[i]);
    } else {
      db.pendingOps := seq(|ops|, i requires 0 <= i < |ops| =>
        if ops[i].id == id && ops[i].status == Conflict then ops[i].(status := Pending, attempts := 0) else ops[i]);
    }
  }

  // ---- main.ts: the offline branch of pos-api-request ---------------------------------

  /** The direct attempt threw: save what has to be shown or printed now, and queue
      the request. */
  method HandleOfflineRequest(db: LocalDb, req: ApiRequest, d: Draws, error: string)
    requires req.meth != "GET"
    modifies db
    ensures db.Contents() == HandleOffline(old(db.Contents()), req, d)
    ensures !db.online && db.lastError == Some(error)
  {
    SetNetworkOnline(db, false, Some(error), d.now);
    if req.meth == "POST" && Includes(req.path, "/orders") {
      var localId := SaveLocalOrder(db, req.body.id, req.body.content, true, true, d.localOrder, d.now);
      QueueLocalPrint(db, d.kotId, KotTicket(localId, req.body), d.now);
    }
    if req.meth == "POST" && Includes(req.path, "/payments") {
      QueueOfflinePayment(db, OrElse(req.body.amountAed, "0"), OrElse(req.body.tenderType, "cash"), req.body.orderId,
                          d.paymentId, d.ledgerOpId, d.now);
      QueueLocalPrint(db, d.receiptId, ReceiptTicket(req.body), d.now);
    }
    EnqueueOp(db, PendingOp(d.opId, EntityOf(req.path), if req.meth == "POST" then Create else Update, req.meth, req.path,
                            Plain(req.body), d.now, Pending, 0));
  }

  // ---- sync.ts: pushSync ----------------------------------------------------------------

  /** The request has ended with `outcome`. */
  method PushOne(db: LocalDb, op: PendingOp, outcome: Outcome, now: string)
    modifies db
    ensures db.Contents() == Settle(old(db.Contents()), op, outcome)
    ensures |db.pendingOps| == |old(db.pendingOps)|
    ensures forall i | 0 <= i < |db.pendingOps| :: db.pendingOps[i] ==
              if old(db.pendingOps)[i].id != op.id then old(db.pendingOps)[i]
              else old(db.pendingOps)[i].(status := if outcome == Answer(409) then Conflict
                                                    else if outcome.Answer? && 200 <= outcome.status < 300 then Synced
                                                    else Failed)
    ensures var pid := if op.payload.Ledger? then op.payload.clientPaymentId else "";
            db.localPayments ==
              if outcome.Answer? && 200 <= outcome.status < 300
                 && Includes(op.path, "offline-payments") && op.payload.Ledger? && pid in old(db.localPayments)
              then old(db.localPayments)[pid := old(db.localPayments)[pid].(status := PaymentSynced)]
              else old(db.localPayments)
    ensures db.localOrders == old(db.localOrders) && db.printJobs == old(db.printJobs)
    ensures db.online == outcome.Answer?
  {
    match outcome
    case Lost =>
      SetNetworkOnline(db, false, Some("offline"), now);
      MarkOpStatus(db, op.id, Failed);
    case Answer(status) =>
      SetNetworkOnline(db, true, None, now);
      if status == 409 {
        MarkOpStatus(db, op.id, Conflict);
        return;
      }
      if !Ok(status) {
        MarkOpStatus(db, op.id, Failed);
        return;
      }
      MarkOpStatus(db, op.id, Synced);
      if Includes(op.path, "offline-payments") && op.payload.Ledger? {
        var pid := op.payload.clientPaymentId;
        if pid in db.localPayments {
          db.localPayments := db.localPayments[pid := db.localPayments[pid].(status := PaymentSynced)];
        }
      }
  }

  /** Settling a list of operations, one after the other. */
  function SettleAll(store: Store, ops: seq<PendingOp>, outcomes: seq<Outcome>): Store
    requires |ops| == |outcomes|
    decreases |ops|
  {
    if ops == [] then store
    else
      var n := |ops| - 1;
      Settle(SettleAll(store, ops[..n], outcomes[..n]), ops[n], outcomes[n])
  }

  /** The indices of `order` whose row is pending or failed. */
  method SelectOpen(ops: seq<PendingOp>) returns (toSend: seq<PendingOp>)
    ensures toSend == ToSend(ops)
  {
    toSend := [];
    var order := ReadOrder(ops, |ops|);
    ghost var sent: seq<nat> := [];
    for a := 0 to |order|
      invariant Below(order[..a], |ops|) && sent == Filter(ops, order[..a])
      invariant |toSend| == |sent| && forall n | 0 <= n < |sent| :: toSend[n] == ops[sent[n]]
    {
      assert order[..a + 1][..a] == order[..a];
      if ops[order[a]].status == Pending || ops[order[a]].status == Failed {
        toSend := toSend + [ops[order[a]]];
        sent := sent + [order[a]];
      }
    }
    assert order[..|order|] == order;
  }

  /** One push run that nothing interleaves with: it sends the operations that were
      open at its start, in order, and settles each by its own outcome. */
  method PushSync(db: LocalDb, outcomes: seq<Outcome>, clock: seq<string>) returns (sent: seq<PendingOp>)
    requires |outcomes| == |clock| == |ToSend(db.pendingOps)|
    modifies db
    ensures sent == ToSend(old(db.pendingOps))
    ensures db.Contents() == SettleAll(old(db.Contents()), sent, outcomes)
  {
    sent := [];
    var ops := SelectOpen(db.pendingOps);
    for a := 0 to |ops|
      invariant sent == ops[..a]
      invariant db.Contents() == SettleAll(old(db.Contents()), ops[..a], outcomes[..a])
    {
      assert ops[..a + 1][..a] == ops[..a] && outcomes[..a + 1][..a] == outcomes[..a];
      PushOne(db, ops[a], outcomes[a], clock[a]);
      sent := sent + [ops[a]];
    }
    assert ops[..|ops|] == ops && outcomes[..|ops|] == outcomes;
  }

  // ---- sync.ts: pullMenu, and the write-through of main.ts -------------------------------

  datatype Response<T> = Unreachable(error: string) | Refused | Rows(rows: seq<T>)

  /** What pullMenu does with the response to a request made when the cursor was
      `cursor`: upsert every row, then move the cursor to the latest stamp. */
  method FinishPullMenu(db: LocalDb, cursor: Option<int>, response: Response<Dish>, now: string)
    modifies db
    ensures db.Contents() == old(db.Contents()) && db.ordersCursor == old(db.ordersCursor)
    ensures response.Rows? ==>
              && db.localMenu == UpsertAll(old(db.localMenu), response.rows)
              && db.menuCursor == if Latest(cursor, response.rows).Some? then Latest(cursor, response.rows) else old(db.menuCursor)
    ensures !response.Rows? ==> db.localMenu == old(db.localMenu) && db.menuCursor == old(db.menuCursor)
    ensures db.online == !response.Unreachable?
  {
    if response.Unreachable? {
      SetNetworkOnline(db, false, Some(response.error), now);
      return;
    }
    SetNetworkOnline(db, true, None, now);
    if response.Refused? { return; }
    var dishes := response.rows;
    var maxUpdatedAt := cursor;
    for i := 0 to |dishes|
      invariant db.localMenu == UpsertAll(old(db.localMenu), dishes[..i])
      invariant maxUpdatedAt == Latest(cursor, dishes[..i])
      invariant db.Contents() == old(db.Contents()) && db.ordersCursor == old(db.ordersCursor)
      invariant db.menuCursor == old(db.menuCursor) && db.online
    {
      assert dishes[..i + 1][..i] == dishes[..i];
      var dish := dishes[i];
      db.localMenu := db.localMenu[dish.id := MenuRow(dish.updatedAt, dish.body)];
      if maxUpdatedAt.None? || dish.updatedAt > maxUpdatedAt.value {
        maxUpdatedAt := Some(dish.updatedAt);
      }
    }
    assert dishes[..|dishes|] == dishes;
    if maxUpdatedAt.Some? { db.menuCursor := maxUpdatedAt; }
  }

  /** A dish as the renderer's GET brings it. */
  datatype ListedDish = ListedDish(id: int, updatedAt: Option<int>, body: string)

  /** A dish without a stamp is stamped with the time of its arrival. */
  function Stamped(dishes: seq<ListedDish>, now: int): seq<Dish> {
    seq(|dishes|, i requires 0 <= i < |dishes| =>
      Dish(dishes[i].id, if dishes[i].updatedAt.Some? then dishes[i].updatedAt.value else now, dishes[i].body))
  }

  /** A successful GET of dishes by the renderer is cached as well; the cursor stays. */
  method WriteThroughMenu(db: LocalDb, dishes: seq<ListedDish>, now: int)
    modifies db`localMenu
    ensures db.localMenu == UpsertAll(old(db.localMenu), Stamped(dishes, now))
  {
    ghost var rows := Stamped(dishes, now);
    for i := 0 to |dishes|
      invariant db.localMenu == UpsertAll(old(db.localMenu), rows[..i])
    {
      assert rows[..i + 1][..i] == rows[..i];
      var stamp := if dishes[i].updatedAt.Some? then dishes[i].updatedAt.value else now;
      db.localMenu := db.localMenu[dishes[i].id := MenuRow(stamp, dishes[i].body)];
    }
    assert rows[..|dishes|] == rows;
  }

  // ---- sync.ts: pullOrders, and its write-through -----------------------------------------

  function LatestText(cursor: Option<string>, rows: seq<ServerOrder>, now: string): Option<string> {
    if rows == [] then cursor
    else
      var max, stamp := LatestText(cursor, rows[..|rows| - 1], now), StampOf(rows[|rows| - 1], now);
      if max.None? || max.value == "" || TextLess(max.value, stamp) then Some(stamp) else max
  }

  method FinishPullOrders(db: LocalDb, cursor: Option<string>, response: Response<ServerOrder>, now: string)
    modifies db`localOrders, db`ordersCursor
    ensures response.Rows? ==>
              && db.localOrders == UpsertPulled(old(db.localOrders), response.rows, now)
              && var max := LatestText(cursor, response.rows, now);
                 db.ordersCursor == if max.Some? && max.value != "" then max else old(db.ordersCursor)
    ensures !response.Rows? ==> db.localOrders == old(db.localOrders) && db.ordersCursor == old(db.ordersCursor)
  {
    if !response.Rows? { return; }
    var orders := response.rows;
    var maxCursor := cursor;
    for i := 0 to |orders|
      invariant db.localOrders == UpsertPulled(old(db.localOrders), orders[..i], now)
      invariant maxCursor == LatestText(cursor, orders[..i], now)
      invariant db.ordersCursor == old(db.ordersCursor)
    {
      assert orders[..i + 1][..i] == orders[..i];
      var updated := StampOf(orders[i], now);
      var payload := OrderPayload(orders[i].id, orders[i].content, false, false);
      if payload.id in db.localOrders {
        db.localOrders := db.localOrders[payload.id := db.localOrders[payload.id].(payload := payload, updatedAt := updated)];
      } else {
        db.localOrders := db.localOrders[payload.id := OrderRow(payload, updated, false)];
      }
      if maxCursor.None? || maxCursor.value == "" || TextLess(maxCursor.value, updated) { maxCursor := Some(updated); }
    }
    assert orders[..|orders|] == orders;
    if maxCursor.Some? && maxCursor.value != "" { db.ordersCursor := maxCursor; }
  }

  method WriteThroughOrders(db: LocalDb, orders: seq<ServerOrder>, draws: seq<nat>, now: string)
    requires |draws| == |orders|
    modifies db`localOrders
    ensures db.localOrders == UpsertListed(old(db.localOrders), orders, draws, now)
  {
    for i := 0 to |orders|
      invariant db.localOrders == UpsertListed(old(db.localOrders), orders[..i], draws[..i], now)
    {
      assert orders[..i + 1][..i] == orders[..i] && draws[..i + 1][..i] == draws[..i];
      var _ := SaveLocalOrder(db, Some(orders[i].id), orders[i].content, false, false, draws[i], now);
    }
    assert orders[..|orders|] == orders && draws[..|draws|] == draws;
  }

  // ---- offlineStore.ts: flushLocalPrintJobsAsync ---------------------------------------------

  /** Marking a list of jobs, each with its own outcome. */
  function SettleJobs(jobs: seq<PrintJob>, done: seq<PrintJob>, oks: seq<bool>): seq<PrintJob>
    requires |done| == |oks|
    decreases |done|
  {
    if done == [] then jobs
    else
      var n := |done| - 1;
      MarkJob(SettleJobs(jobs, done[..n], oks[..n]), done[n].id, JobOutcome(oks[n]))
  }

  /** One flush that nothing interleaves with; `oks` says whether each print resolved. */
  method FlushLocalPrintJobs(db: LocalDb, oks: seq<bool>) returns (handed: seq<PrintJob>, printed: nat, failed: nat)
    requires |oks| == |PendingJobs(db.printJobs)|
    modifies db`printJobs
    ensures handed == PendingJobs(old(db.printJobs))
    ensures db.printJobs == SettleJobs(old(db.printJobs), handed, oks)
    ensures printed == multiset(oks)[true] && printed + failed == |handed|
  {
    var rows := PendingJobs(db.printJobs);
    handed, printed, failed := [], 0, 0;
    for i := 0 to |rows|
      invariant handed == rows[..i]
      invariant db.printJobs == SettleJobs(old(db.printJobs), rows[..i], oks[..i])
      invariant printed == multiset(oks[..i])[true] && printed + failed == i
    {
      assert rows[..i + 1][..i] == rows[..i] && oks[..i + 1][..i] == oks[..i];
      assert oks[..i + 1] == oks[..i] + [oks[i]];
      var jobs := db.printJobs;
      handed := handed + [rows[i]];
      if oks[i] {
        db.printJobs := seq(|jobs|, k requires 0 <= k < |jobs| =>
          if jobs[k].id == rows[i].id then jobs[k].(status := Printed) else jobs[k]);
        printed := printed + 1;
      } else {
        db.printJobs := seq(|jobs|, k requires 0 <= k < |jobs| =>
          if jobs[k].id == rows[i].id then jobs[k].(status := PrintFailed) else jobs[k]);
        failed := failed + 1;
      }
    }
    assert rows[..|rows|] == rows && oks[..|rows|] == oks;
  }
}
