/** The desktop shell's SQLite tables (desktop/src/main/db.ts) and what each
    statement of the offline code does to them, as functions on values. */
module LocalStore {
  import opened Wrappers

  // ---- pending_ops -----------------------------------------------------------

  datatype OpStatus = Pending | Synced | Failed | Conflict

  datatype OpKind = Create | Update

  /** A request body as the renderer sends it; it never carries a client payment id.
      `content` is the rest of the JSON. */
  datatype Body = Body(id: Option<int>, amountAed: Option<string>, tenderType: Option<string>,
                       orderId: Option<int>, content: string)

  /** What is replayed: a renderer request, or the ledger entry of an offline payment. */
  datatype Payload =
    | Plain(body: Body)
    | Ledger(clientPaymentId: string, amountAed: string, tenderType: string, orderId: Option<int>)

  datatype PendingOp = PendingOp(id: string, entity: string, kind: OpKind, meth: string, path: string,
                                 payload: Payload, createdAt: string, status: OpStatus, attempts: nat)

  /** Everything about an operation that no statement changes. */
  function Core(op: PendingOp): PendingOp {
    op.(status := Pending)
  }

  function Ids(ops: seq<PendingOp>): set<string> {
    set op | op in ops :: op.id
  }

  /** Overwrite the status of the rows with this id, whatever it was. */
  function Mark(ops: seq<PendingOp>, id: string, status: OpStatus): (r: seq<PendingOp>)
  {
    seq(|ops|, i requires 0 <= i < |ops| => if ops[i].id == id then ops[i].(status := status) else ops[i])
  }

  datatype Resolution = Retry | Discard

  /** `resolveConflict`: only a conflict can be resolved. */
  function Resolve(ops: seq<PendingOp>, id: string, action: Resolution): (r: seq<PendingOp>)
  {
    seq(|ops|, i requires 0 <= i < |ops| =>
      if ops[i].id == id && ops[i].status == Conflict then
        match action
        case Discard => ops[i].(status := Synced)
        case Retry => ops[i].(status := Pending, attempts := 0)
      else ops[i])
  }

  /** A new row at the end: pending, and never attempted. */
  function Enqueue(ops: seq<PendingOp>, op: PendingOp): seq<PendingOp> {
    ops + [op.(status := Pending, attempts := 0)]
  }

  // ---- local_payments, local_orders, local_print_jobs -------------------------

  datatype PaymentStatus = Queued | PaymentSynced

  datatype Payment = Payment(payload: Payload, status: PaymentStatus, createdAt: string)

  datatype OrderRow = OrderRow(payload: OrderPayload, updatedAt: string, offlineCreated: bool)

  datatype OrderPayload = OrderPayload(id: int, content: string, draft: bool, offline: bool)

  /** The upsert of local_orders: a conflict keeps the offline_created column. */
  function UpsertOrder(orders: map<int, OrderRow>, payload: OrderPayload, now: string, offline: bool): map<int, OrderRow> {
    orders[payload.id :=
      OrderRow(payload, now, if payload.id in orders then orders[payload.id].offlineCreated else offline)]
  }

  /** The id `saveLocalOrder` files an order under; `draw` is a
      random number from 0 to 999999999. */
  function LocalOrderId(id: Option<int>, draw: nat): int {
    if id.Some? && id.value > 0 then id.value else 0 - draw
  }

  /** An order as the server lists it. */
  datatype ServerOrder = ServerOrder(id: int, updatedAt: Option<string>, createdAt: Option<string>, content: string)

  /** When the order last changed: by its own account if it gives one, else now. */
  function StampOf(order: ServerOrder, now: string): string {
    OrElse(order.updatedAt, OrElse(order.createdAt, now))
  }

  /** pullOrders: upsert under the server's id. */
  function UpsertPulled(orders: map<int, OrderRow>, rows: seq<ServerOrder>, now: string): map<int, OrderRow> {
    if rows == [] then orders
    else
      var last := rows[|rows| - 1];
      UpsertOrder(UpsertPulled(orders, rows[..|rows| - 1], now), OrderPayload(last.id, last.content, false, false),
                  StampOf(last, now), false)
  }

  /** The write-through of a GET: each order is saved as a copy. */
  function UpsertListed(orders: map<int, OrderRow>, rows: seq<ServerOrder>, draws: seq<nat>, now: string): map<int, OrderRow>
    requires |draws| == |rows|
    decreases |rows|
  {
    if rows == [] then orders
    else
      var n := |rows| - 1;
      UpsertOrder(UpsertListed(orders, rows[..n], draws[..n], now),
                  OrderPayload(LocalOrderId(Some(rows[n].id), draws[n]), rows[n].content, false, false), now, false)
  }

  datatype JobStatus = JobPending | Printed | PrintFailed

  datatype Ticket = KotTicket(localId: int, body: Body) | ReceiptTicket(body: Body) | Text(text: string)

  datatype PrintJob = PrintJob(id: string, ticket: Ticket, status: JobStatus, createdAt: string)

  /** The jobs a flush reads. */
  function PendingJobs(jobs: seq<PrintJob>): seq<PrintJob> {
    if jobs == [] then []
    else
      var last := jobs[|jobs| - 1];
      PendingJobs(jobs[..|jobs| - 1]) + if last.status == JobPending then [last] else []
  }

  function MarkJob(jobs: seq<PrintJob>, id: string, status: JobStatus): seq<PrintJob> {
    seq(|jobs|, i requires 0 <= i < |jobs| => if jobs[i].id == id then jobs[i].(status := status) else jobs[i])
  }

  function JobOutcome(ok: bool): JobStatus {
    if ok then Printed else PrintFailed
  }

  datatype Store = Store(ops: seq<PendingOp>, payments: map<string, Payment>,
                         orders: map<int, OrderRow>, jobs: seq<PrintJob>)

  const EMPTY_STORE := Store([], map[], map[], [])

  // ---- local_menu ----------------------------------------------------------------

  /** A dish as the server sends it. Timestamps are compared as text; text order is
      time order (IsoTime.StampOrderIsTimeOrder), so they are instants here. */
  datatype Dish = Dish(id: int, updatedAt: int, body: string)

  datatype MenuRow = MenuRow(updatedAt: int, body: string)

  function Upsert(menu: map<int, MenuRow>, dish: Dish): map<int, MenuRow> {
    menu[dish.id := MenuRow(dish.updatedAt, dish.body)]
  }

  /** One upsert per row, in the order of the answer. */
  function UpsertAll(menu: map<int, MenuRow>, rows: seq<Dish>): map<int, MenuRow> {
    if rows == [] then menu else Upsert(UpsertAll(menu, rows[..|rows| - 1]), rows[|rows| - 1])
  }

  /** The later of two stamps, if there is one yet. */
  function Later(max: Option<int>, stamp: int): Option<int> {
    if max.None? || stamp > max.value then Some(stamp) else max
  }

  function Latest(cursor: Option<int>, rows: seq<Dish>): Option<int> {
    if rows == [] then cursor else Later(Latest(cursor, rows[..|rows| - 1]), rows[|rows| - 1].updatedAt)
  }

  // ---- strings ------------------------------------------------------------------

  /** `s.includes(part)`. */
  predicate Includes(s: string, part: string) {
    exists i | 0 <= i <= |s| :: part <= s[i..]
  }

  /** `s.split(separator)`. */
  function Split(s: string, separator: char): (parts: seq<string>)
    ensures |parts| >= 1
  {
    if s == "" then [""]
    else
      var rest := Split(s[1..], separator);
      if s[0] == separator then [""] + rest else [[s[0]] + rest[0]] + rest[1..]
  }

  /** `reqPath.split("/")[3] ?? "unknown"`. */
  function EntityOf(path: string): string {
    var parts := Split(path, '/');
    if |parts| > 3 then parts[3] else "unknown"
  }

  /** `value || fallback` on an optional string. */
  function OrElse(value: Option<string>, fallback: string): string {
    if value.Some? && value.value != "" then value.value else fallback
  }

  // ---- the offline branch of pos-api-request --------------------------------------

  const LEDGER_PATH := "/api/v1/reliability/offline-payments"

  datatype ApiRequest = ApiRequest(meth: string, path: string, body: Body)

  /** The values `randomUUID`, `Math.random` and the clock supply to one request. */
  datatype Draws = Draws(opId: string, paymentId: string, ledgerOpId: string, kotId: string, receiptId: string,
                         localOrder: nat, now: string)

  predicate CreatesOrder(req: ApiRequest) {
    req.meth == "POST" && Includes(req.path, "/orders")
  }

  predicate TakesPayment(req: ApiRequest) {
    req.meth == "POST" && Includes(req.path, "/payments")
  }

  function LedgerPayload(body: Body, id: string): Payload {
    Ledger(id, OrElse(body.amountAed, "0"), OrElse(body.tenderType, "cash"), body.orderId)
  }

  function LedgerOp(body: Body, d: Draws): PendingOp {
    PendingOp(d.ledgerOpId, "offline_payment", Create, "POST", LEDGER_PATH, LedgerPayload(body, d.paymentId), d.now, Pending, 0)
  }

  function RequestOp(req: ApiRequest, d: Draws): PendingOp {
    PendingOp(d.opId, EntityOf(req.path), if req.meth == "POST" then Create else Update, req.meth, req.path,
              Plain(req.body), d.now, Pending, 0)
  }

  function SaveDraft(store: Store, req: ApiRequest, d: Draws): Store {
    var id := LocalOrderId(req.body.id, d.localOrder);
    store.(orders := UpsertOrder(store.orders, OrderPayload(id, req.body.content, true, true), d.now, true),
           jobs := store.jobs + [PrintJob(d.kotId, KotTicket(id, req.body), JobPending, d.now)])
  }

  function SavePayment(store: Store, req: ApiRequest, d: Draws): Store {
    var payment := Payment(LedgerPayload(req.body, d.paymentId), Queued, d.now);
    store.(payments := if d.paymentId in store.payments then store.payments else store.payments[d.paymentId := payment],
           ops := Enqueue(store.ops, LedgerOp(req.body, d)),
           jobs := store.jobs + [PrintJob(d.receiptId, ReceiptTicket(req.body), JobPending, d.now)])
  }

  /** A request other than GET whose direct attempt threw. */
  function HandleOffline(store: Store, req: ApiRequest, d: Draws): Store {
    var s1 := if CreatesOrder(req) then SaveDraft(store, req, d) else store;
    var s2 := if TakesPayment(req) then SavePayment(s1, req, d) else s1;
    s2.(ops := Enqueue(s2.ops, RequestOp(req, d)))
  }

  /** The identifiers drawn for one request occur nowhere yet. */
  predicate Fresh(store: Store, d: Draws) {
    && d.opId !in Ids(store.ops) && d.ledgerOpId !in Ids(store.ops) && d.opId != d.ledgerOpId
    && d.paymentId !in store.payments
  }

  // ---- settling a push --------------------------------------------------------------

  /** What `pushOne` sees: an HTTP status, or a thrown error. */
  datatype Outcome = Answer(status: int) | Lost

  predicate Ok(status: int) {
    200 <= status < 300
  }

  function StatusAfter(outcome: Outcome): OpStatus {
    match outcome
    case Lost => Failed
    case Answer(status) => if status == 409 then Conflict else if !Ok(status) then Failed else Synced
  }

  /** Synced is for a 2xx, conflict for a 409, and failed for everything else: another
      status, or no answer. */
  lemma StatusAfterIff(outcome: Outcome)
    ensures StatusAfter(outcome) == Synced <==> outcome.Answer? && 200 <= outcome.status < 300
    ensures StatusAfter(outcome) == Conflict <==> outcome == Answer(409)
    ensures StatusAfter(outcome) == Failed <==> outcome == Lost || !(outcome.status == 409 || 200 <= outcome.status < 300)
  {
  }

  /** What `pushOne` writes once its request has ended. */
  function Settle(store: Store, op: PendingOp, outcome: Outcome): Store {
    var s := store.(ops := Mark(store.ops, op.id, StatusAfter(outcome)));
    if StatusAfter(outcome) == Synced && Includes(op.path, "offline-payments") && op.payload.Ledger?
       && op.payload.clientPaymentId in s.payments
    then
      var pid := op.payload.clientPaymentId;
      s.(payments := s.payments[pid := s.payments[pid].(status := PaymentSynced)])
    else s
  }
}
