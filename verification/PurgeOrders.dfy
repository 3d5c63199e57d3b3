/** scripts/purge_orders.py: hard-delete every order of one restaurant. */
module PurgeOrders {
  import opened ForeignKeys

  /** Columns that merely remember an order: a purge empties them. */
  const SOFT_REFS: seq<(Table, Column)> :=
    [(Coupons, RedeemedOnOrderId), (MarketingSends, ConvertedOrderId), (Orders, ResaleOfOrderId)]

  /** Rows that hang on a payment transaction. */
  const TXN_CHILDREN: seq<(Table, Column)> :=
    [(PaymentSettlementLines, PaymentTransactionId), (CreditNotes, TransactionId),
     (RefundNotes, TransactionId), (PaymentLinks, PaidTransactionId)]

  /** Rows that hang on an order; the transactions come last. */
  const ORDER_CHILDREN: seq<Table> :=
    [ApprovalRequests, Assignments, BatchOrders, CodCollections, Coupons, CreditNotes,
     EInvoiceTransmissions, LoyaltyPointEntries, NpsResponses, OfflinePaymentLedger,
     OrderItems, OrderTrackingSessions, PaymentLinks, PrintJobs, RefundNotes,
     ReviewReplySuggestions, SlaEvents, StaffMistakes, Tickets, PaymentTransactions]

  /** Tables that the migrations give an order_id. */
  predicate HasOrderId(t: Table) {
    t in {Assignments, BatchOrders, Coupons, CodCollections, CreditNotes, SlaEvents, OrderItems, PrintJobs, Tickets,
          PaymentTransactions, PaymentLinks, RefundNotes, EInvoiceTransmissions, NpsResponses, LoyaltyPointEntries,
          OrderTrackingSessions, OfflinePaymentLedger, ApprovalRequests, StaffMistakes, ReviewReplySuggestions}
  }

  /** The keys that the migrations declare into a table the purge deletes from. */
  predicate Declared(fk: ForeignKey) {
    match fk.parent
    case Orders =>
      || (fk.column == OrderId && HasOrderId(fk.child))
      || (fk.column == RedeemedOnOrderId && fk.child == Coupons)
      || (fk.column == ConvertedOrderId && fk.child == MarketingSends)
      || (fk.column == ResaleOfOrderId && fk.child == Orders)
    case PaymentTransactions =>
      || (fk.column == TransactionId && fk.child in {CreditNotes, RefundNotes})
      || (fk.column == PaidTransactionId && fk.child == PaymentLinks)
      || (fk.column == PaymentTransactionId && fk.child == PaymentSettlementLines)
    case Coupons => fk == REDEMPTIONS
    case _ => false
  }

  const REDEMPTIONS := ForeignKey(CouponRedemptions, CouponId, Coupons)

  predicate DeletedFrom(t: Table) {
    t == Orders || HasOrderId(t) || t == PaymentSettlementLines
  }

  /** The script's lists are the declared keys: none is forgotten and none is made up. Only
      the key into coupons is missing. */
  lemma ListsAreComplete(t: Table, c: Column)
    ensures (t, c) in SOFT_REFS <==> Declared(ForeignKey(t, c, Orders)) && c != OrderId
    ensures t in ORDER_CHILDREN <==> Declared(ForeignKey(t, OrderId, Orders))
    ensures (t, c) in TXN_CHILDREN <==> Declared(ForeignKey(t, c, PaymentTransactions))
  {
    SoftRefsAreComplete(t, c);
    OrderChildrenAreComplete(t);
    TxnChildrenAreComplete(t, c);
  }

  lemma SoftRefsAreComplete(t: Table, c: Column)
    ensures (t, c) in SOFT_REFS <==> Declared(ForeignKey(t, c, Orders)) && c != OrderId
  {
  }

  lemma OrderChildrenAreComplete(t: Table)
    ensures t in ORDER_CHILDREN <==> HasOrderId(t)
  {
  }

  lemma TxnChildrenAreComplete(t: Table, c: Column)
    ensures (t, c) in TXN_CHILDREN <==> Declared(ForeignKey(t, c, PaymentTransactions))
  {
  }

  /** A schema whose keys into the deleted tables are the declared ones. Its other
      keys are arbitrary, as long as none hangs on a table's status column. */
  ghost predicate Schema(fks: set<ForeignKey>) {
    && REDEMPTIONS in fks
    && forall fk | fk in fks :: (DeletedFrom(fk.parent) ==> Declared(fk)) && fk.column != Status
  }

  // ---- what the script runs, as a plan -------------------------------------

  function OrderIds(db: Database, restaurantId: int): set<int> {
    Selected(db, Orders, RestaurantId, {restaurantId})
  }

  function TransactionIds(db: Database, orders: set<int>): set<int> {
    Selected(db, PaymentTransactions, OrderId, orders)
  }

  function SoftPlan(orders: set<int>): seq<Statement> {
    seq(|SOFT_REFS|, i requires 0 <= i < |SOFT_REFS| => Clear(SOFT_REFS[i].0, SOFT_REFS[i].1, orders))
  }

  function TransactionPlan(txns: set<int>): seq<Statement> {
    if txns == {} then [] else
    seq(|TXN_CHILDREN|, i requires 0 <= i < |TXN_CHILDREN| => Delete(TXN_CHILDREN[i].0, TXN_CHILDREN[i].1, txns))
  }

  function ChildPlan(orders: set<int>): seq<Statement> {
    seq(|ORDER_CHILDREN|, i requires 0 <= i < |ORDER_CHILDREN| => Delete(ORDER_CHILDREN[i], OrderId, orders))
  }

  function Plan(orders: set<int>, txns: set<int>, restaurantId: int): seq<Statement> {
    SoftPlan(orders) + TransactionPlan(txns) + ChildPlan(orders) + [Delete(Orders, RestaurantId, {restaurantId})]
  }

  function PurgePlan(db: Database, restaurantId: int): seq<Statement> {
    var orders := OrderIds(db, restaurantId);
    Plan(orders, TransactionIds(db, orders), restaurantId)
  }

  /** The restaurant's tables are marked available, which is 0. */
  function FreeTables(db: Database, restaurantId: int): Database {
    var rows := Rows(db, DiningTables);
    db[DiningTables := map id | id in rows ::
         if Matches(rows[id], RestaurantId, {restaurantId}) then rows[id][Status := 0] else rows[id]]
  }

  /** The database accepts every statement: the keys hold after each of them. */
  ghost predicate Executable(db: Database, plan: seq<Statement>, fks: set<ForeignKey>) {
    forall n | 0 <= n <= |plan| :: Consistent(Effects(db, plan[..n]), fks)
  }

  // ---- the script ------------------------------------------------------------

  /** A database session: `Execute` refuses a statement that would leave a foreign
      key dangling, and the transaction is then rolled back. */
  class Session {
    const fks: set<ForeignKey>
    var db: Database
    var committed: Database

    constructor (db: Database, fks: set<ForeignKey>)
      ensures this.db == committed == db && this.fks == fks
    {
      this.db, committed, this.fks := db, db, fks;
    }

    method Execute(s: Statement) returns (ok: bool)
      modifies `db
      ensures ok <==> Consistent(Effect(old(db), s), fks)
      ensures db == if ok then Effect(old(db), s) else committed
    {
      var after := Effect(db, s);
      ok := Consistent(after, fks);
      db := if ok then after else committed;
    }

    method Commit()
      modifies `committed
      ensures committed == db
    {
      committed := db;
    }
  }

  /** The state of a session `n` statements into a plan that started at `start`. */
  ghost predicate Reached(session: Session, start: Database, plan: seq<Statement>, n: nat)
    reads session
  {
    && n <= |plan|
    && session.committed == start
    && session.db == Effects(start, plan[..n])
    && forall m | 0 <= m <= n :: Consistent(Effects(start, plan[..m]), session.fks)
  }

  /** Execute statement `n` of the plan. */
  method Advance(session: Session, ghost start: Database, ghost plan: seq<Statement>, ghost n: nat, s: Statement)
    returns (ok: bool)
    requires n < |plan| && plan[n] == s && Reached(session, start, plan, n)
    modifies session`db
    ensures ok ==> Reached(session, start, plan, n + 1)
    ensures !ok ==> session.db == start && !Executable(start, plan, session.fks)
  {
    assert plan[..n + 1][..n] == plan[..n];
    ok := session.Execute(s);
    assert Effects(start, plan[..n + 1]) == Effect(Effects(start, plan[..n]), s);
  }

  /** One of the script's loops: the statements of `block`, in order, from position
      `n` of the plan on. */
  method RunBlock(session: Session, ghost start: Database, ghost plan: seq<Statement>, ghost n: nat, block: seq<Statement>)
    returns (ok: bool)
    requires n + |block| <= |plan| && plan[n..n + |block|] == block && Reached(session, start, plan, n)
    modifies session`db
    ensures ok ==> Reached(session, start, plan, n + |block|)
    ensures !ok ==> session.db == start && !Executable(start, plan, session.fks)
  {
    ok := true;
    for i := 0 to |block|
      invariant ok && Reached(session, start, plan, n + i)
    {
      assert plan[n + i] == plan[n..n + |block|][i];
      ok := Advance(session, start, plan, n + i, block[i]);
      if !ok { return; }
    }
  }

  /** The script's four loops, over the orders `ids` of the restaurant. */
  method DeleteOrders(session: Session, restaurantId: int, ids: set<int>) returns (ok: bool)
    requires session.db == session.committed && Consistent(session.db, session.fks)
    requires ids == OrderIds(session.db, restaurantId)
    modifies session`db
    ensures ok <==> Executable(old(session.db), PurgePlan(old(session.db), restaurantId), session.fks)
    ensures session.db == if ok then Effects(old(session.db), PurgePlan(old(session.db), restaurantId)) else old(session.db)
  {
    ghost var start := session.db;
    ghost var plan := PurgePlan(start, restaurantId);
    PlanBlocks(ids, TransactionIds(start, ids), restaurantId);
    StartReached(session, plan);
    var soft := SoftPlan(ids);
    ok := RunBlock(session, start, plan, 0, soft);
    if !ok { return; }

    TransactionsUntouched(start, ids);
    var txnIds := TransactionIds(session.db, ids);
    var txn := TransactionPlan(txnIds);
    ok := RunBlock(session, start, plan, |soft|, txn);
    if !ok { return; }

    var children := ChildPlan(ids);
    ok := RunBlock(session, start, plan, |soft| + |txn|, children);
    if !ok { return; }

    ok := RunBlock(session, start, plan, |soft| + |txn| + |children|, [Delete(Orders, RestaurantId, {restaurantId})]);
  }

  /** Purge all orders of a restaurant. Either every statement is accepted and the
      whole plan takes effect, or the database is as it was. */
  method Purge(session: Session, restaurantId: int) returns (ok: bool)
    requires session.db == session.committed && Consistent(session.db, session.fks)
    modifies session
    ensures OrderIds(old(session.db), restaurantId) == {} ==> ok && session.db == old(session.db)
    ensures OrderIds(old(session.db), restaurantId) != {} ==>
              (ok <==> Executable(old(session.db), PurgePlan(old(session.db), restaurantId), session.fks))
    ensures ok && OrderIds(old(session.db), restaurantId) != {} ==>
              session.db == FreeTables(Effects(old(session.db), PurgePlan(old(session.db), restaurantId)), restaurantId)
    ensures ok && OrderIds(old(session.db), restaurantId) != {} ==> IsPurged(old(session.db), restaurantId, session.db)
    ensures !ok ==> session.db == old(session.db)
    ensures session.db == session.committed
  {
    ghost var start := session.db;
    var ids := OrderIds(session.db, restaurantId);
    if ids == {} { return true; }
    ok := DeleteOrders(session, restaurantId, ids);
    if !ok { return; }
    PurgeLeaves(start, restaurantId);
    session.db := FreeTables(session.db, restaurantId);
    session.Commit();
  }

  lemma PlanBlocks(orders: set<int>, txns: set<int>, restaurantId: int)
    ensures var plan, soft, txn, children :=
              Plan(orders, txns, restaurantId), SoftPlan(orders), TransactionPlan(txns), ChildPlan(orders);
            && plan[..0] == [] && plan[0..|soft|] == plan[..|soft|] == soft
            && plan[|soft|..|soft| + |txn|] == txn
            && plan[|soft| + |txn|..|soft| + |txn| + |children|] == children
            && |plan| == |soft| + |txn| + |children| + 1
            && plan[|soft| + |txn| + |children|..|plan|] == [Delete(Orders, RestaurantId, {restaurantId})]
            && plan[..|plan|] == plan
  {
  }

  lemma StartReached(session: Session, plan: seq<Statement>)
    requires session.db == session.committed && Consistent(session.db, session.fks)
    ensures Reached(session, session.db, plan, 0)
  {
    assert plan[..0] == [];
  }

  lemma TransactionsUntouched(db: Database, orders: set<int>)
    ensures TransactionIds(Effects(db, SoftPlan(orders)), orders) == TransactionIds(db, orders)
  {
    TableUntouched(db, SoftPlan(orders), PaymentTransactions);
  }

  lemma {:induction false} TableUntouched(db: Database, plan: seq<Statement>, t: Table)
    requires forall s | s in plan :: s.table != t
    ensures Rows(Effects(db, plan), t) == Rows(db, t)
    decreases |plan|
  {
    if plan != [] {
      assert forall s | s in plan[..|plan| - 1] :: s in plan;
      TableUntouched(db, plan[..|plan| - 1], t);
      EffectRows(Effects(db, plan[..|plan| - 1]), plan[|plan| - 1], t);
    }
  }

  // ---- when the database accepts it -----------------------------------------

  /** The one thing the script forgets: redemptions of coupons that go with the
      purged orders. */
  predicate RedemptionsInTheWay(db: Database, orders: set<int>) {
    !Unreferenced(db, REDEMPTIONS, Selected(db, Coupons, OrderId, orders))
  }

  /** Where the plan deals with a declared key into orders. */
  lemma OrderKeyDischarged(orders: set<int>, txns: set<int>, restaurantId: int, fk: ForeignKey)
    returns (j: nat)
    requires Declared(fk) && fk.parent == Orders
    ensures var plan := Plan(orders, txns, restaurantId);
            j < |plan| - 1 && Discharges(plan[j], fk, orders)
  {
    PlanBlocks(orders, txns, restaurantId);
    ListsAreComplete(fk.child, fk.column);
    var plan := Plan(orders, txns, restaurantId);
    if (fk.child, fk.column) in SOFT_REFS {
      j :| 0 <= j < |SOFT_REFS| && SOFT_REFS[j] == (fk.child, fk.column);
      assert plan[j] == SoftPlan(orders)[j];
    } else {
      var k :| 0 <= k < |ORDER_CHILDREN| && ORDER_CHILDREN[k] == fk.child;
      j := |SoftPlan(orders)| + |TransactionPlan(txns)| + k;
      assert plan[j] == ChildPlan(orders)[k];
    }
  }

  /** Where the plan deals with a declared key into payment_transactions. */
  lemma TransactionKeyDischarged(orders: set<int>, txns: set<int>, restaurantId: int, fk: ForeignKey)
    returns (j: nat)
    requires Declared(fk) && fk.parent == PaymentTransactions && txns != {}
    ensures var plan := Plan(orders, txns, restaurantId);
            j < |SoftPlan(orders)| + |TransactionPlan(txns)| && Discharges(plan[j], fk, txns)
  {
    PlanBlocks(orders, txns, restaurantId);
    ListsAreComplete(fk.child, fk.column);
    var k :| 0 <= k < |TXN_CHILDREN| && TXN_CHILDREN[k] == (fk.child, fk.column);
    j := |SoftPlan(orders)| + k;
    assert Plan(orders, txns, restaurantId)[j] == TransactionPlan(txns)[k];
  }

  /** What each DELETE of the plan deletes from, and after which statements. */
  lemma DeletePositions(orders: set<int>, txns: set<int>, restaurantId: int, i: nat)
    requires i < |Plan(orders, txns, restaurantId)| && Plan(orders, txns, restaurantId)[i].Delete?
    ensures var plan, before := Plan(orders, txns, restaurantId), |SoftPlan(orders)| + |TransactionPlan(txns)|;
            var s := plan[i];
            && DeletedFrom(s.table)
            && (i == |plan| - 1 ==> s == Delete(Orders, RestaurantId, {restaurantId}))
            && (i < |plan| - 1 && s.table in {Orders, PaymentTransactions, Coupons} ==>
                  before <= i && s == Delete(s.table, OrderId, orders) && s.table != Orders)
  {
    PlanBlocks(orders, txns, restaurantId);
    var plan, soft, txn, children :=
      Plan(orders, txns, restaurantId), SoftPlan(orders), TransactionPlan(txns), ChildPlan(orders);
    assert forall m | 0 <= m < |soft| :: plan[m] == soft[m] && soft[m].Clear?;
    if i < |soft| + |txn| {
      assert plan[i] == txn[i - |soft|];
      assert TXN_CHILDREN[i - |soft|] in TXN_CHILDREN;
    } else if i < |plan| - 1 {
      assert plan[i] == children[i - |soft| - |txn|];
      assert ORDER_CHILDREN[i - |soft| - |txn|] in ORDER_CHILDREN;
    }
  }

  lemma PurgeIsChildFirst(db: Database, restaurantId: int, fks: set<ForeignKey>)
    requires Schema(fks) && !RedemptionsInTheWay(db, OrderIds(db, restaurantId))
    ensures ChildFirst(db, PurgePlan(db, restaurantId), fks)
  {
    var orders := OrderIds(db, restaurantId);
    var txns := TransactionIds(db, orders);
    var plan := PurgePlan(db, restaurantId);
    PlanBlocks(orders, txns, restaurantId);
    forall i, fk | 0 <= i < |plan| && plan[i].Delete? && fk in fks && fk.parent == plan[i].table
      ensures var doomed := Selected(db, plan[i].table, plan[i].column, plan[i].keys);
              || Unreferenced(db, fk, doomed)
              || exists j :: 0 <= j < i && Discharges(plan[j], fk, doomed)
    {
      DeletePositions(orders, txns, restaurantId, i);
      if fk.parent == Orders {
        var j := OrderKeyDischarged(orders, txns, restaurantId, fk);
      } else if fk.parent == PaymentTransactions && txns != {} {
        var j := TransactionKeyDischarged(orders, txns, restaurantId, fk);
      }
    }
  }

  lemma CouponStatement(orders: set<int>, txns: set<int>, restaurantId: int) returns (i: nat)
    ensures var plan := Plan(orders, txns, restaurantId);
            && i < |plan| && plan[i] == Delete(Coupons, OrderId, orders)
            && forall s | s in plan[..i] ::
                 s.table != CouponRedemptions && !(s.Delete? && s.table == Coupons) && !(s.table == Coupons && s.column == OrderId)
  {
    PlanBlocks(orders, txns, restaurantId);
    var plan, soft, txn, children :=
      Plan(orders, txns, restaurantId), SoftPlan(orders), TransactionPlan(txns), ChildPlan(orders);
    var k := 4;
    i := |soft| + |txn| + k;
    assert plan[i] == children[k];
    forall m | 0 <= m < i
      ensures plan[m].table != CouponRedemptions && !(plan[m].Delete? && plan[m].table == Coupons)
           && !(plan[m].table == Coupons && plan[m].column == OrderId)
    {
      if m < |soft| {
        assert plan[m] == soft[m];
      } else if m < |soft| + |txn| {
        assert plan[m] == txn[m - |soft|];
      } else {
        assert plan[m] == children[m - |soft| - |txn|];
      }
    }
  }

  /** Statements that neither delete from a table nor clear a column leave that
      column alone. */
  lemma {:induction false} ColumnUntouched(db: Database, plan: seq<Statement>, t: Table, c: Column, id: int)
    requires forall s | s in plan :: !(s.Delete? && s.table == t) && !(s.table == t && s.column == c)
    requires id in Rows(db, t) && c in Rows(db, t)[id]
    ensures id in Rows(Effects(db, plan), t) && c in Rows(Effects(db, plan), t)[id]
         && Rows(Effects(db, plan), t)[id][c] == Rows(db, t)[id][c]
    decreases |plan|
  {
    if plan != [] {
      assert forall s | s in plan[..|plan| - 1] :: s in plan;
      ColumnUntouched(db, plan[..|plan| - 1], t, c, id);
      EffectOnRow(Effects(db, plan[..|plan| - 1]), plan[|plan| - 1], t, id);
    }
  }

  /** Deleting the coupons of the purged orders leaves a redemption of one of them dangling. */
  lemma RedemptionDangles(db: Database, before: seq<Statement>, orders: set<int>)
    requires forall s | s in before ::
               s.table != CouponRedemptions && !(s.Delete? && s.table == Coupons) && !(s.table == Coupons && s.column == OrderId)
    requires Satisfied(db, REDEMPTIONS) && RedemptionsInTheWay(db, orders)
    ensures !Satisfied(Effect(Effects(db, before), Delete(Coupons, OrderId, orders)), REDEMPTIONS)
  {
    var reached, s := Effects(db, before), Delete(Coupons, OrderId, orders);
    TableUntouched(db, before, CouponRedemptions);
    var rid :| rid in Rows(db, CouponRedemptions)
               && Matches(Rows(db, CouponRedemptions)[rid], CouponId, Selected(db, Coupons, OrderId, orders));
    var coupon := Rows(db, CouponRedemptions)[rid][CouponId];
    ColumnUntouched(db, before, Coupons, OrderId, coupon);
    EffectOnRow(reached, s, Coupons, coupon);
    EffectRows(reached, s, CouponRedemptions);
  }

  /** A redemption in the way makes the coupons' DELETE fail. */
  lemma RedemptionBlocks(db: Database, restaurantId: int, fks: set<ForeignKey>)
    requires Consistent(db, fks) && Schema(fks) && RedemptionsInTheWay(db, OrderIds(db, restaurantId))
    ensures !Executable(db, PurgePlan(db, restaurantId), fks)
  {
    var orders := OrderIds(db, restaurantId);
    var plan := PurgePlan(db, restaurantId);
    var i := CouponStatement(orders, TransactionIds(db, orders), restaurantId);
    RedemptionDangles(db, plan[..i], orders);
    assert plan[..i + 1][..i] == plan[..i];
    assert !Satisfied(Effects(db, plan[..i + 1]), REDEMPTIONS);
  }

  /** The purge goes through exactly when no coupon redemption points at a coupon of
      a purged order. */
  lemma PurgeSucceedsIff(db: Database, restaurantId: int, fks: set<ForeignKey>)
    requires Consistent(db, fks) && Schema(fks)
    ensures Executable(db, PurgePlan(db, restaurantId), fks) <==>
            !RedemptionsInTheWay(db, OrderIds(db, restaurantId))
  {
    var plan := PurgePlan(db, restaurantId);
    if RedemptionsInTheWay(db, OrderIds(db, restaurantId)) {
      RedemptionBlocks(db, restaurantId, fks);
    } else {
      PurgeIsChildFirst(db, restaurantId, fks);
      forall n | 0 <= n <= |plan|
        ensures Consistent(Effects(db, plan[..n]), fks)
      {
        ChildFirstPreservesIntegrity(db, plan, fks, n);
      }
    }
  }

  // ---- what is left -----------------------------------------------------------

  /** The rows the purge is meant to delete, said of the database before it. */
  ghost predicate Purged(db: Database, restaurantId: int, t: Table, row: Row) {
    var orders := OrderIds(db, restaurantId);
    || (Declared(ForeignKey(t, OrderId, Orders)) && Matches(row, OrderId, orders))
    || (exists c | Declared(ForeignKey(t, c, PaymentTransactions)) :: Matches(row, c, TransactionIds(db, orders)))
    || (t == Orders && Matches(row, RestaurantId, {restaurantId}))
  }

  /** A pointer that the purge empties: it refers to a purged order but does not make the row
      part of it. */
  predicate SoftPointer(db: Database, restaurantId: int, t: Table, row: Row, c: Column) {
    c in row && Declared(ForeignKey(t, c, Orders)) && c != OrderId && row[c] in OrderIds(db, restaurantId)
  }

  lemma PlanStatements(orders: set<int>, txns: set<int>, restaurantId: int, s: Statement)
    ensures s in Plan(orders, txns, restaurantId) <==>
            || (s.Clear? && (s.table, s.column) in SOFT_REFS && s.keys == orders)
            || (s.Delete? && txns != {} && (s.table, s.column) in TXN_CHILDREN && s.keys == txns)
            || (s.Delete? && s.table in ORDER_CHILDREN && s.column == OrderId && s.keys == orders)
            || s == Delete(Orders, RestaurantId, {restaurantId})
  {
    var soft, txn, children := SoftPlan(orders), TransactionPlan(txns), ChildPlan(orders);
    assert s in Plan(orders, txns, restaurantId) <==>
           s in soft || s in txn || s in children || s == Delete(Orders, RestaurantId, {restaurantId});
    if s.Clear? && (s.table, s.column) in SOFT_REFS && s.keys == orders {
      var i :| 0 <= i < |SOFT_REFS| && SOFT_REFS[i] == (s.table, s.column);
      assert soft[i] == s;
    }
    if s.Delete? && txns != {} && (s.table, s.column) in TXN_CHILDREN && s.keys == txns {
      var i :| 0 <= i < |TXN_CHILDREN| && TXN_CHILDREN[i] == (s.table, s.column);
      assert txn[i] == s;
    }
    if s.Delete? && s.table in ORDER_CHILDREN && s.column == OrderId && s.keys == orders {
      var i :| 0 <= i < |ORDER_CHILDREN| && ORDER_CHILDREN[i] == s.table;
      assert children[i] == s;
    }
  }

  lemma PlanIsIndependent(orders: set<int>, txns: set<int>, restaurantId: int)
    ensures Independent(Plan(orders, txns, restaurantId))
  {
    var plan := Plan(orders, txns, restaurantId);
    forall s, s' | s in plan && s' in plan && s.Clear? && s'.Delete?
      ensures !(s.table == s'.table && s.column == s'.column)
    {
      PlanStatements(orders, txns, restaurantId, s);
      PlanStatements(orders, txns, restaurantId, s');
    }
  }

  lemma DoomedIsPurged(db: Database, restaurantId: int, t: Table, row: Row)
    ensures Doomed(PurgePlan(db, restaurantId), t, row) <==> Purged(db, restaurantId, t, row)
  {
    var orders := OrderIds(db, restaurantId);
    var txns := TransactionIds(db, orders);
    var plan := PurgePlan(db, restaurantId);
    if Doomed(plan, t, row) {
      var s :| s in plan && s.Delete? && s.table == t && Matches(row, s.column, s.keys);
      PlanStatements(orders, txns, restaurantId, s);
      ListsAreComplete(t, s.column);
    }
    if Purged(db, restaurantId, t, row) {
      var s: Statement;
      ListsAreComplete(t, OrderId);
      if Declared(ForeignKey(t, OrderId, Orders)) && Matches(row, OrderId, orders) {
        s := Delete(t, OrderId, orders);
      } else if t == Orders && Matches(row, RestaurantId, {restaurantId}) {
        s := Delete(Orders, RestaurantId, {restaurantId});
      } else {
        var c :| Declared(ForeignKey(t, c, PaymentTransactions)) && Matches(row, c, txns);
        ListsAreComplete(t, c);
        s := Delete(t, c, txns);
      }
      PlanStatements(orders, txns, restaurantId, s);
    }
  }

  lemma PlanClears(orders: set<int>, txns: set<int>, restaurantId: int, s: Statement)
    requires s.Clear?
    ensures s in Plan(orders, txns, restaurantId) <==>
            Declared(ForeignKey(s.table, s.column, Orders)) && s.column != OrderId && s.keys == orders
  {
    PlanStatements(orders, txns, restaurantId, s);
    SoftRefsAreComplete(s.table, s.column);
  }

  lemma ClearedIsSoft(db: Database, restaurantId: int, t: Table, row: Row, c: Column)
    ensures Cleared(PurgePlan(db, restaurantId), t, row, c) <==> SoftPointer(db, restaurantId, t, row, c)
  {
    var orders := OrderIds(db, restaurantId);
    var txns := TransactionIds(db, orders);
    var plan := PurgePlan(db, restaurantId);
    PlanClears(orders, txns, restaurantId, Clear(t, c, orders));
    if Cleared(plan, t, row, c) {
      var s :| s in plan && s.Clear? && s.table == t && s.column == c && Matches(row, c, s.keys);
      PlanClears(orders, txns, restaurantId, s);
    }
  }

  /** A row survives the plan exactly when it is not one the purge is meant to delete, and a
      survivor loses exactly the soft pointers to purged orders. */
  lemma PlanLeaves(db: Database, restaurantId: int, t: Table, id: int)
    requires id in Rows(db, t)
    ensures var after, row := Effects(db, PurgePlan(db, restaurantId)), Rows(db, t)[id];
            && (id in Rows(after, t) <==> !Purged(db, restaurantId, t, row))
            && (id in Rows(after, t) ==>
                  forall c :: c in Rows(after, t)[id] <==> c in row && !SoftPointer(db, restaurantId, t, row, c))
  {
    var orders := OrderIds(db, restaurantId);
    var plan, row := PurgePlan(db, restaurantId), Rows(db, t)[id];
    PlanIsIndependent(orders, TransactionIds(db, orders), restaurantId);
    Survivors(db, plan, t, id);
    DoomedIsPurged(db, restaurantId, t, row);
    forall c
      ensures Cleared(plan, t, row, c) <==> SoftPointer(db, restaurantId, t, row, c)
    {
      ClearedIsSoft(db, restaurantId, t, row, c);
    }
  }

  predicate IsFreed(t: Table, row: Row, restaurantId: int) {
    t == DiningTables && RestaurantId in row && row[RestaurantId] == restaurantId
  }

  /** The row as a successful purge leaves it: without its soft pointers to purged orders, and
      available if it is a dining table of the restaurant. */
  ghost predicate LeftAs(db: Database, restaurantId: int, t: Table, row: Row, left: Row) {
    forall c ::
      if IsFreed(t, row, restaurantId) && c == Status then c in left && left[c] == 0
      else (c in left <==> c in row && !SoftPointer(db, restaurantId, t, row, c)) && (c in left ==> left[c] == row[c])
  }

  /** What a successful purge leaves, of every table: exactly the rows that are not part of a
      purged order. */
  ghost predicate IsPurged(db: Database, restaurantId: int, after: Database) {
    forall t, id ::
      && (id in Rows(after, t) <==> id in Rows(db, t) && !Purged(db, restaurantId, t, Rows(db, t)[id]))
      && (id in Rows(after, t) ==> id in Rows(db, t) && LeftAs(db, restaurantId, t, Rows(db, t)[id], Rows(after, t)[id]))
  }

  lemma FreedRow(db: Database, restaurantId: int, t: Table, id: int)
    ensures var after := FreeTables(db, restaurantId);
            && (id in Rows(after, t) <==> id in Rows(db, t))
            && (id in Rows(db, t) ==>
                  Rows(after, t)[id] == if IsFreed(t, Rows(db, t)[id], restaurantId) then Rows(db, t)[id][Status := 0]
                                        else Rows(db, t)[id])
  {
  }

  lemma RowLeft(db: Database, restaurantId: int, t: Table, id: int)
    requires id in Rows(db, t)
    ensures var after, row := FreeTables(Effects(db, PurgePlan(db, restaurantId)), restaurantId), Rows(db, t)[id];
            && (id in Rows(after, t) <==> !Purged(db, restaurantId, t, row))
            && (id in Rows(after, t) ==> LeftAs(db, restaurantId, t, row, Rows(after, t)[id]))
  {
    var planned := Effects(db, PurgePlan(db, restaurantId));
    PlanLeaves(db, restaurantId, t, id);
    EffectsShrink(db, PurgePlan(db, restaurantId));
    FreedRow(planned, restaurantId, t, id);
  }

  /** After a successful purge a row is there exactly when it is not part of a purged order;
      it has lost exactly its soft pointers to purged orders, and a dining table of the
      restaurant is available. */
  lemma PurgeLeaves(db: Database, restaurantId: int)
    ensures IsPurged(db, restaurantId, FreeTables(Effects(db, PurgePlan(db, restaurantId)), restaurantId))
  {
    var planned := Effects(db, PurgePlan(db, restaurantId));
    var after := FreeTables(planned, restaurantId);
    EffectsShrink(db, PurgePlan(db, restaurantId));
    forall t, id
      ensures id in Rows(after, t) <==> id in Rows(db, t) && !Purged(db, restaurantId, t, Rows(db, t)[id])
      ensures id in Rows(after, t) ==> id in Rows(db, t) && LeftAs(db, restaurantId, t, Rows(db, t)[id], Rows(after, t)[id])
    {
      FreedRow(planned, restaurantId, t, id);
      if id in Rows(db, t) { RowLeft(db, restaurantId, t, id); }
    }
  }

  /** Of the dining tables the purge changes the status of the restaurant's own, to available,
      and nothing else. */
  lemma OnlyStatusChanges(db: Database, restaurantId: int, after: Database, id: int)
    requires IsPurged(db, restaurantId, after)
    ensures id in Rows(after, DiningTables) <==> id in Rows(db, DiningTables)
    ensures id in Rows(db, DiningTables) ==>
              var row := Rows(db, DiningTables)[id];
              Rows(after, DiningTables)[id] ==
                if RestaurantId in row && row[RestaurantId] == restaurantId then row[Status := 0] else row
  {
    if id in Rows(db, DiningTables) {
      var row, left := Rows(db, DiningTables)[id], Rows(after, DiningTables)[id];
      assert LeftAs(db, restaurantId, DiningTables, row, left);
      assert forall c :: !SoftPointer(db, restaurantId, DiningTables, row, c);
    }
  }

  /** Freeing the tables touches no key. */
  lemma FreeTablesKeepsKeys(db: Database, restaurantId: int, fks: set<ForeignKey>)
    requires Consistent(db, fks) && forall fk | fk in fks :: fk.column != Status
    ensures Consistent(FreeTables(db, restaurantId), fks)
  {
    var after := FreeTables(db, restaurantId);
    forall fk | fk in fks
      ensures Satisfied(after, fk)
    {
      assert Satisfied(db, fk);
      assert Rows(after, fk.parent).Keys == Rows(db, fk.parent).Keys;
      forall id | id in Rows(after, fk.child) && fk.column in Rows(after, fk.child)[id]
        ensures Rows(after, fk.child)[id][fk.column] in Rows(after, fk.parent)
      {
        assert fk.column in Rows(db, fk.child)[id]
            && Rows(db, fk.child)[id][fk.column] == Rows(after, fk.child)[id][fk.column];
      }
    }
  }

  lemma OrderPurgedIff(db: Database, restaurantId: int, id: int)
    requires id in Rows(db, Orders)
    ensures Purged(db, restaurantId, Orders, Rows(db, Orders)[id]) <==> id in OrderIds(db, restaurantId)
  {
  }

  lemma OrdersLeft(db: Database, restaurantId: int)
    ensures Rows(Effects(db, PurgePlan(db, restaurantId)), Orders).Keys ==
            Rows(db, Orders).Keys - OrderIds(db, restaurantId)
  {
    var orders, plan := OrderIds(db, restaurantId), PurgePlan(db, restaurantId);
    var purged := Effects(db, plan);
    EffectsShrink(db, plan);
    forall id
      ensures id in Rows(purged, Orders) <==> id in Rows(db, Orders) && id !in orders
    {
      if id in Rows(db, Orders) {
        PlanLeaves(db, restaurantId, Orders, id);
        OrderPurgedIff(db, restaurantId, id);
      }
    }
  }

  /** After a successful purge the keys hold, no order of the restaurant is left and
      nothing points at one; the tables have been freed. */
  lemma PurgeOutcome(db: Database, restaurantId: int, fks: set<ForeignKey>)
    requires Consistent(db, fks) && Schema(fks) && Executable(db, PurgePlan(db, restaurantId), fks)
    ensures var orders, after := OrderIds(db, restaurantId), FreeTables(Effects(db, PurgePlan(db, restaurantId)), restaurantId);
            && Consistent(after, fks)
            && Rows(after, Orders).Keys == Rows(db, Orders).Keys - orders
            && (forall id :: id in Rows(after, Orders) <==>
                  id in Rows(db, Orders) && !(RestaurantId in Rows(db, Orders)[id] && Rows(db, Orders)[id][RestaurantId] == restaurantId))
            && (forall fk | fk in fks && fk.parent == Orders :: Unreferenced(after, fk, orders))
            && (forall id | id in Rows(after, DiningTables) && Matches(Rows(after, DiningTables)[id], RestaurantId, {restaurantId}) ::
                  Matches(Rows(after, DiningTables)[id], Status, {0}))
  {
    var orders, plan := OrderIds(db, restaurantId), PurgePlan(db, restaurantId);
    var purged := Effects(db, plan);
    assert plan[..|plan|] == plan;
    var after := FreeTables(purged, restaurantId);
    EffectsShrink(db, plan);
    FreeTablesKeepsKeys(purged, restaurantId, fks);
    assert Rows(after, Orders) == Rows(purged, Orders);
    OrdersLeft(db, restaurantId);
    forall fk | fk in fks && fk.parent == Orders
      ensures Unreferenced(after, fk, orders)
    {
      assert Satisfied(after, fk);
    }
  }
}
