/** The denormalized order statistics of customers: the grouped backfill
    (alembic/versions/a1b2c3d4e5f6_backfill_customer_order_stats.py) and the
    per-customer refresh that keeps them up to date (src/app/ordering/service.py). */
module CustomerStats {
  import opened Wrappers

  /** Totals are counted in hundredths. */
  datatype Order = Order(customerId: int, status: string, total: int, createdAt: int)

  datatype Stats = Stats(totalOrders: nat, totalSpend: int, firstAt: Option<int>, lastAt: Option<int>)

  /** What a customer is created with. */
  const DEFAULTS := Stats(0, 0, None, None)

  predicate Placed(o: Order) {
    o.status != "draft"
  }

  // ---- the grouped query -----------------------------------------------------------

  function Earlier(a: Option<int>, t: int): Option<int> {
    if a.None? || t < a.value then Some(t) else a
  }

  function Later(a: Option<int>, t: int): Option<int> {
    if a.None? || a.value < t then Some(t) else a
  }

  /** One row enters its group: each aggregate takes it if its FILTER holds. */
  function Accumulate(s: Stats, o: Order): Stats {
    Stats(if Placed(o) then s.totalOrders + 1 else s.totalOrders,
          if o.status == "delivered" then s.totalSpend + o.total else s.totalSpend,
          if Placed(o) then Earlier(s.firstAt, o.createdAt) else s.firstAt,
          if Placed(o) then Later(s.lastAt, o.createdAt) else s.lastAt)
  }

  /** GROUP BY customer_id: only customers with an order have a group. */
  function Grouped(orders: seq<Order>): map<int, Stats> {
    if orders == [] then map[]
    else
      var o, groups := orders[|orders| - 1], Grouped(orders[..|orders| - 1]);
      groups[o.customerId := Accumulate(if o.customerId in groups then groups[o.customerId] else DEFAULTS, o)]
  }

  /** UPDATE customers ... FROM the groups WHERE c.id = o.customer_id. */
  function Backfill(customers: map<int, Stats>, orders: seq<Order>): map<int, Stats> {
    map c | c in customers :: if c in Grouped(orders) then Grouped(orders)[c] else customers[c]
  }

  function OfCustomer(orders: seq<Order>, c: int): seq<Order> {
    if orders == [] then []
    else
      var o := orders[|orders| - 1];
      OfCustomer(orders[..|orders| - 1], c) + if o.customerId == c then [o] else []
  }

  /** recompute_customer_stats: the same query over one customer's orders, with the
      creation defaults when it returns no row. */
  function Recompute(customers: map<int, Stats>, orders: seq<Order>, c: int): map<int, Stats> {
    if c !in customers then customers
    else
      var groups := Grouped(OfCustomer(orders, c));
      customers[c := if c in groups then groups[c] else DEFAULTS]
  }

  // ---- what the columns mean, customer by customer ----------------------------------------

  predicate PlacedFor(o: Order, c: int) {
    o.customerId == c && o.status != "draft"
  }

  ghost function PlacedBy(orders: seq<Order>, c: int): set<int> {
    set i | 0 <= i < |orders| && PlacedFor(orders[i], c)
  }

  function Collected(orders: seq<Order>, c: int): int {
    if orders == [] then 0
    else
      var o := orders[|orders| - 1];
      Collected(orders[..|orders| - 1], c) + if o.customerId == c && o.status == "delivered" then o.total else 0
  }

  ghost predicate PlacedAt(orders: seq<Order>, c: int, t: int) {
    exists i | 0 <= i < |orders| :: PlacedFor(orders[i], c) && orders[i].createdAt == t
  }

  ghost predicate IsFirst(orders: seq<Order>, c: int, t: Option<int>) {
    && (t.None? ==> forall u :: !PlacedAt(orders, c, u))
    && (t.Some? ==> PlacedAt(orders, c, t.value) && forall u | PlacedAt(orders, c, u) :: t.value <= u)
  }

  ghost predicate IsLast(orders: seq<Order>, c: int, t: Option<int>) {
    && (t.None? ==> forall u :: !PlacedAt(orders, c, u))
    && (t.Some? ==> PlacedAt(orders, c, t.value) && forall u | PlacedAt(orders, c, u) :: u <= t.value)
  }

  ghost predicate Describes(orders: seq<Order>, c: int, s: Stats) {
    && s.totalOrders == |PlacedBy(orders, c)|
    && s.totalSpend == Collected(orders, c)
    && IsFirst(orders, c, s.firstAt)
    && IsLast(orders, c, s.lastAt)
  }

  predicate HasOrder(orders: seq<Order>, c: int) {
    exists i | 0 <= i < |orders| :: orders[i].customerId == c
  }

  lemma DescribesIsUnique(orders: seq<Order>, c: int, s: Stats, t: Stats)
    requires Describes(orders, c, s) && Describes(orders, c, t)
    ensures s == t
  {
  }

  lemma PlacedByAfter(orders: seq<Order>, o: Order, c: int)
    ensures |PlacedBy(orders + [o], c)| == |PlacedBy(orders, c)| + if PlacedFor(o, c) then 1 else 0
  {
    var all := orders + [o];
    assert forall i | 0 <= i < |orders| :: all[i] == orders[i];
    assert PlacedBy(all, c) == PlacedBy(orders, c) + if PlacedFor(o, c) then {|orders|} else {};
  }

  lemma PlacedAtSum(a: seq<Order>, b: seq<Order>, c: int, t: int)
    ensures PlacedAt(a + b, c, t) <==> PlacedAt(a, c, t) || PlacedAt(b, c, t)
  {
    if PlacedAt(a, c, t) {
      var i :| 0 <= i < |a| && PlacedFor(a[i], c) && a[i].createdAt == t;
      assert (a + b)[i] == a[i];
    }
    if PlacedAt(b, c, t) {
      var i :| 0 <= i < |b| && PlacedFor(b[i], c) && b[i].createdAt == t;
      assert (a + b)[|a| + i] == b[i];
    }
  }

  lemma PlacedAtOne(o: Order, c: int, t: int)
    ensures PlacedAt([o], c, t) <==> PlacedFor(o, c) && o.createdAt == t
  {
    assert [o][0] == o;
  }

  lemma PlacedAtAfter(orders: seq<Order>, o: Order, c: int)
    ensures forall t :: PlacedAt(orders + [o], c, t) <==> PlacedAt(orders, c, t) || (PlacedFor(o, c) && o.createdAt == t)
  {
    forall t
      ensures PlacedAt(orders + [o], c, t) <==> PlacedAt(orders, c, t) || (PlacedFor(o, c) && o.createdAt == t)
    {
      PlacedAtSum(orders, [o], c, t);
      PlacedAtOne(o, c, t);
    }
  }

  /** A row of the customer's own. */
  lemma AccumulateDescribes(orders: seq<Order>, o: Order, s: Stats)
    requires Describes(orders, o.customerId, s)
    ensures Describes(orders + [o], o.customerId, Accumulate(s, o))
  {
    var all := orders + [o];
    PlacedByAfter(orders, o, o.customerId);
    PlacedAtAfter(orders, o, o.customerId);
    assert all[..|orders|] == orders;
  }

  /** A row of somebody else's. */
  lemma OtherRowDescribes(orders: seq<Order>, o: Order, c: int, s: Stats)
    requires Describes(orders, c, s) && o.customerId != c
    ensures Describes(orders + [o], c, s)
  {
    var all := orders + [o];
    PlacedByAfter(orders, o, c);
    PlacedAtAfter(orders, o, c);
    assert all[..|orders|] == orders;
  }

  lemma NoOrderDescribes(orders: seq<Order>, c: int)
    requires !HasOrder(orders, c)
    ensures Describes(orders, c, DEFAULTS)
    decreases |orders|
  {
    if orders != [] {
      var n := |orders| - 1;
      assert orders == orders[..n] + [orders[n]];
      assert forall i | 0 <= i < n :: orders[..n][i] == orders[i];
      NoOrderDescribes(orders[..n], c);
      OtherRowDescribes(orders[..n], orders[n], c, DEFAULTS);
    }
  }

  /** Each group holds what its customer's orders mean, and only customers with an order
      have one. */
  lemma {:induction false} GroupedDescribes(orders: seq<Order>, c: int)
    ensures c in Grouped(orders) <==> HasOrder(orders, c)
    ensures Describes(orders, c, if c in Grouped(orders) then Grouped(orders)[c] else DEFAULTS)
    decreases |orders|
  {
    if orders != [] {
      var n := |orders| - 1;
      var init, o := orders[..n], orders[n];
      assert orders == init + [o];
      GroupedDescribes(init, c);
      var s := if c in Grouped(init) then Grouped(init)[c] else DEFAULTS;
      if o.customerId == c {
        AccumulateDescribes(init, o, s);
      } else {
        OtherRowDescribes(init, o, c, s);
        assert forall i | 0 <= i < n :: init[i] == orders[i];
      }
    }
  }

  // ---- the backfill ---------------------------------------------------------------------

  ghost predicate InSync(customers: map<int, Stats>, orders: seq<Order>) {
    forall c | c in customers :: Describes(orders, c, customers[c])
  }

  /** A customer with an order gets exactly its statistics; every other one is left as it
      was. */
  lemma BackfillIsExact(customers: map<int, Stats>, orders: seq<Order>, c: int)
    requires c in customers
    ensures Backfill(customers, orders).Keys == customers.Keys
    ensures HasOrder(orders, c) ==> Describes(orders, c, Backfill(customers, orders)[c])
    ensures !HasOrder(orders, c) ==> Backfill(customers, orders)[c] == customers[c]
  {
    GroupedDescribes(orders, c);
  }

  /** The backfill leaves every customer right exactly when those without an order still
      had their creation defaults. */
  lemma BackfillSyncsIff(customers: map<int, Stats>, orders: seq<Order>)
    ensures InSync(Backfill(customers, orders), orders)
            <==> forall c | c in customers && !HasOrder(orders, c) :: customers[c] == DEFAULTS
  {
    var after := Backfill(customers, orders);
    if InSync(after, orders) {
      forall c | c in customers && !HasOrder(orders, c)
        ensures customers[c] == DEFAULTS
      {
        BackfillIsExact(customers, orders, c);
        NoOrderDescribes(orders, c);
        assert c in after && Describes(orders, c, after[c]);
        DescribesIsUnique(orders, c, after[c], DEFAULTS);
      }
    } else {
      var c :| c in after && !Describes(orders, c, after[c]);
      BackfillIsExact(customers, orders, c);
      if customers[c] == DEFAULTS && !HasOrder(orders, c) { NoOrderDescribes(orders, c); }
      assert c in customers && !HasOrder(orders, c) && customers[c] != DEFAULTS;
    }
  }

  lemma BackfillTwice(customers: map<int, Stats>, orders: seq<Order>)
    ensures Backfill(Backfill(customers, orders), orders) == Backfill(customers, orders)
  {
  }

  // ---- the refresh agrees ------------------------------------------------------------------

  lemma {:induction false} GroupOfOneCustomer(orders: seq<Order>, c: int)
    ensures c in Grouped(OfCustomer(orders, c)) <==> c in Grouped(orders)
    ensures c in Grouped(orders) ==> Grouped(OfCustomer(orders, c))[c] == Grouped(orders)[c]
    decreases |orders|
  {
    if orders != [] {
      var init, o := orders[..|orders| - 1], orders[|orders| - 1];
      GroupOfOneCustomer(init, c);
      if o.customerId == c {
        assert OfCustomer(orders, c)[..|OfCustomer(init, c)|] == OfCustomer(init, c);
      } else {
        assert OfCustomer(orders, c) == OfCustomer(init, c);
      }
    }
  }

  /** Refreshing a customer makes its row right and no other row different. */
  lemma RecomputeDescribes(customers: map<int, Stats>, orders: seq<Order>, c: int)
    requires c in customers
    ensures Recompute(customers, orders, c).Keys == customers.Keys
    ensures Describes(orders, c, Recompute(customers, orders, c)[c])
    ensures forall d | d in customers && d != c :: Recompute(customers, orders, c)[d] == customers[d]
  {
    GroupOfOneCustomer(orders, c);
    GroupedDescribes(orders, c);
  }

  /** The backfill is the refresh of every customer that has an order. */
  lemma BackfillIsRecompute(customers: map<int, Stats>, orders: seq<Order>, c: int)
    requires c in customers && HasOrder(orders, c)
    ensures Backfill(customers, orders)[c] == Recompute(customers, orders, c)[c]
  {
    BackfillIsExact(customers, orders, c);
    RecomputeDescribes(customers, orders, c);
    DescribesIsUnique(orders, c, Backfill(customers, orders)[c], Recompute(customers, orders, c)[c]);
  }

  // ---- runs of the shop ---------------------------------------------------------------------

  /** Insert is any new row: a draft, but also an aggregator's confirmed order, a resold
      one, a replacement or the copy that goes on resale. EditTotal, SetStatus and Remove
      are the other writes that no refresh follows. */
  datatype Action =
    | AddCustomer(customer: int)
    | Insert(row: Order)
    | EditTotal(order: nat, total: int)
    | SetStatus(order: nat, status: string)
    | Remove(order: nat)
    | Transition(order: nat, status: string)

  datatype System = System(customers: map<int, Stats>, orders: seq<Order>)

  /** A transition, and no other step, refreshes the customer of its order. */
  function Step(s: System, a: Action): System {
    match a
    case AddCustomer(c) => if c in s.customers then s else s.(customers := s.customers[c := DEFAULTS])
    case Insert(o) => if o.customerId in s.customers then s.(orders := s.orders + [o]) else s
    case EditTotal(i, total) =>
      if i < |s.orders| then s.(orders := s.orders[i := s.orders[i].(total := total)]) else s
    case SetStatus(i, status) =>
      if i < |s.orders| then s.(orders := s.orders[i := s.orders[i].(status := status)]) else s
    case Remove(i) => if i < |s.orders| then s.(orders := s.orders[..i] + s.orders[i + 1..]) else s
    case Transition(i, status) =>
      if i < |s.orders| then
        var orders := s.orders[i := s.orders[i].(status := status)];
        System(Recompute(s.customers, orders, s.orders[i].customerId), orders)
      else s
  }

  function Exec(s: System, actions: seq<Action>): System
    decreases |actions|
  {
    if actions == [] then s else Step(Exec(s, actions[..|actions| - 1]), actions[|actions| - 1])
  }

  ghost predicate Right(s: System, c: int) {
    c in s.customers && Describes(s.orders, c, s.customers[c])
  }

  predicate Delivered(o: Order) {
    o.status == "delivered"
  }

  predicate SameStanding(o: Order, status: string) {
    && (Placed(o) <==> status != "draft")
    && (o.total == 0 || (Delivered(o) <==> status == "delivered"))
  }

  /** The guard of an unrefreshed write, for one customer: a new or removed order is a
      draft, an order whose total changes is not delivered, and a status that is set
      neither places, unplaces, delivers nor undelivers. */
  predicate Harmless(s: System, a: Action, c: int) {
    match a
    case AddCustomer(_) => true
    case Insert(o) => o.customerId != c || o.customerId !in s.customers || !Placed(o)
    case EditTotal(i, total) =>
      i >= |s.orders| || s.orders[i].customerId != c || !Delivered(s.orders[i]) || s.orders[i].total == total
    case SetStatus(i, status) => i >= |s.orders| || s.orders[i].customerId != c || SameStanding(s.orders[i], status)
    case Remove(i) => i >= |s.orders| || s.orders[i].customerId != c || !Placed(s.orders[i])
    case Transition(_, _) => true
  }

  // ---- replacing a row, adding one, taking one away ------------------------------------------

  lemma {:induction false} CountsAdd(a: seq<Order>, b: seq<Order>, c: int)
    ensures |PlacedBy(a + b, c)| == |PlacedBy(a, c)| + |PlacedBy(b, c)|
    ensures Collected(a + b, c) == Collected(a, c) + Collected(b, c)
    decreases |b|
  {
    if b == [] {
      assert a + b == a;
    } else {
      var init, o := b[..|b| - 1], b[|b| - 1];
      CountsAdd(a, init, c);
      PlacedByAfter(a + init, o, c);
      PlacedByAfter(init, o, c);
      assert b == init + [o] && a + b == (a + init) + [o];
      assert (a + b)[..|a + b| - 1] == a + init;
    }
  }

  /** At most one row, of the same age if there are two. */
  predicate Exchange(out: seq<Order>, into: seq<Order>) {
    |out| <= 1 && |into| <= 1 && (out != [] && into != [] ==> out[0].createdAt == into[0].createdAt)
  }

  lemma CountOfOne(part: seq<Order>, c: int)
    requires |part| <= 1
    ensures |PlacedBy(part, c)| == (if part != [] && PlacedFor(part[0], c) then 1 else 0)
    ensures Collected(part, c) == (if part != [] && part[0].customerId == c && Delivered(part[0]) then part[0].total else 0)
  {
    if part == [] {
      assert PlacedBy(part, c) == {};
    } else {
      assert PlacedBy(part, c) == if PlacedFor(part[0], c) then {0} else {};
      assert Collected(part[..0], c) == 0;
    }
  }

  lemma TimesStay(before: seq<Order>, out: seq<Order>, into: seq<Order>, after: seq<Order>, c: int, t: int)
    requires Exchange(out, into)
    requires (out != [] && PlacedFor(out[0], c)) == (into != [] && PlacedFor(into[0], c))
    ensures PlacedAt(before + out + after, c, t) <==> PlacedAt(before + into + after, c, t)
  {
    PlacedAtSum(before + out, after, c, t);
    PlacedAtSum(before, out, c, t);
    PlacedAtSum(before + into, after, c, t);
    PlacedAtSum(before, into, c, t);
    assert PlacedAt(out, c, t) <==> out != [] && PlacedFor(out[0], c) && out[0].createdAt == t;
    assert PlacedAt(into, c, t) <==> into != [] && PlacedFor(into[0], c) && into[0].createdAt == t;
  }

  /** Exchanging a row leaves the statistics right exactly when it leaves the customer's
      placed count and collected sum alone. */
  lemma ExchangeIff(before: seq<Order>, out: seq<Order>, into: seq<Order>, after: seq<Order>, c: int, s: Stats)
    requires Exchange(out, into) && Describes(before + out + after, c, s)
    ensures Describes(before + into + after, c, s) <==>
            |PlacedBy(out, c)| == |PlacedBy(into, c)| && Collected(out, c) == Collected(into, c)
  {
    CountsAdd(before, out, c);
    CountsAdd(before + out, after, c);
    CountsAdd(before, into, c);
    CountsAdd(before + into, after, c);
    CountOfOne(out, c);
    CountOfOne(into, c);
    if |PlacedBy(out, c)| == |PlacedBy(into, c)| {
      forall t
        ensures PlacedAt(before + out + after, c, t) <==> PlacedAt(before + into + after, c, t)
      {
        TimesStay(before, out, into, after, c, t);
      }
    }
  }

  lemma UpdateIff(orders: seq<Order>, i: nat, o: Order, c: int, s: Stats)
    requires i < |orders| && o.createdAt == orders[i].createdAt && o.customerId == orders[i].customerId
    requires Describes(orders, c, s)
    ensures Describes(orders[i := o], c, s) <==>
            || o.customerId != c
            || (&& Placed(o) == Placed(orders[i])
                && (if Delivered(o) then o.total else 0) == (if Delivered(orders[i]) then orders[i].total else 0))
  {
    var before, after := orders[..i], orders[i + 1..];
    assert orders == before + [orders[i]] + after && orders[i := o] == before + [o] + after;
    ExchangeIff(before, [orders[i]], [o], after, c, s);
    CountOfOne([orders[i]], c);
    CountOfOne([o], c);
  }

  // ---- every step, exactly -------------------------------------------------------------------

  lemma InsertIff(s: System, o: Order, c: int)
    requires Right(s, c) && o.customerId in s.customers
    ensures Right(Step(s, Insert(o)), c) <==> Harmless(s, Insert(o), c)
  {
    assert s.orders + [] + [] == s.orders && s.orders + [o] + [] == s.orders + [o];
    ExchangeIff(s.orders, [], [o], [], c, s.customers[c]);
    CountOfOne([], c);
    CountOfOne([o], c);
  }

  lemma RemoveIff(s: System, i: nat, c: int)
    requires Right(s, c) && i < |s.orders|
    ensures Right(Step(s, Remove(i)), c) <==> Harmless(s, Remove(i), c)
  {
    var before, o, after := s.orders[..i], s.orders[i], s.orders[i + 1..];
    assert s.orders == before + [o] + after && before + [] + after == before + after;
    ExchangeIff(before, [o], [], after, c, s.customers[c]);
    CountOfOne([], c);
    CountOfOne([o], c);
  }

  /** A status change that is refreshed makes its own customer right, whatever was wrong
      with it before. */
  lemma TransitionRepairs(s: System, i: nat, status: string)
    requires i < |s.orders| && s.orders[i].customerId in s.customers
    ensures Right(Step(s, Transition(i, status)), s.orders[i].customerId)
  {
    RecomputeDescribes(s.customers, Step(s, Transition(i, status)).orders, s.orders[i].customerId);
  }

  lemma TransitionKeepsRight(s: System, i: nat, status: string, c: int)
    requires Right(s, c) && i < |s.orders|
    ensures Right(Step(s, Transition(i, status)), c)
  {
    var d := s.orders[i].customerId;
    if d == c {
      TransitionRepairs(s, i, status);
    } else {
      UpdateIff(s.orders, i, s.orders[i].(status := status), c, s.customers[c]);
      if d in s.customers { RecomputeDescribes(s.customers, Step(s, Transition(i, status)).orders, d); }
    }
  }

  /** A step leaves a customer's columns right if and only if it meets its guard. */
  lemma StepKeepsRightIff(s: System, a: Action, c: int)
    requires Right(s, c)
    ensures Right(Step(s, a), c) <==> Harmless(s, a, c)
  {
    match a
    case AddCustomer(_) =>
    case Insert(o) => if o.customerId in s.customers { InsertIff(s, o, c); }
    case EditTotal(i, total) =>
      if i < |s.orders| { UpdateIff(s.orders, i, s.orders[i].(total := total), c, s.customers[c]); }
    case SetStatus(i, status) =>
      if i < |s.orders| { UpdateIff(s.orders, i, s.orders[i].(status := status), c, s.customers[c]); }
    case Remove(i) => if i < |s.orders| { RemoveIff(s, i, c); }
    case Transition(i, status) => if i < |s.orders| { TransitionKeepsRight(s, i, status, c); }
  }

  /** An aggregator's order is inserted as confirmed and not refreshed: the customer's
      columns are wrong from then on, until one of its orders makes a transition. */
  lemma AggregatorOrderDesyncs(s: System, c: int, total: int, now: int)
    requires Right(s, c)
    ensures var s' := Step(s, Insert(Order(c, "confirmed", total, now)));
            && !Right(s', c)
            && forall status :: Right(Step(s', Transition(|s.orders|, status)), c)
  {
    var o := Order(c, "confirmed", total, now);
    StepKeepsRightIff(s, Insert(o), c);
    forall status
      ensures Right(Step(Step(s, Insert(o)), Transition(|s.orders|, status)), c)
    {
      TransitionRepairs(Step(s, Insert(o)), |s.orders|, status);
    }
  }

  // ---- whole runs ------------------------------------------------------------------------------

  ghost predicate RightThroughout(s: System, actions: seq<Action>, c: int) {
    forall n | 0 <= n <= |actions| :: Right(Exec(s, actions[..n]), c)
  }

  ghost predicate HarmlessRun(s: System, actions: seq<Action>, c: int) {
    forall n | 0 <= n < |actions| :: Harmless(Exec(s, actions[..n]), actions[n], c)
  }

  lemma OneMore(s: System, actions: seq<Action>, n: nat)
    requires n < |actions|
    ensures Exec(s, actions[..n + 1]) == Step(Exec(s, actions[..n]), actions[n])
  {
    assert actions[..n + 1][..n] == actions[..n];
  }

  /** A customer that is right at the start is right after every step of a run if and
      only if every step meets its guard. */
  lemma {:induction false} RightThroughoutIff(s: System, actions: seq<Action>, c: int)
    requires Right(s, c)
    ensures RightThroughout(s, actions, c) <==> HarmlessRun(s, actions, c)
  {
    if HarmlessRun(s, actions, c) {
      forall n: nat | n <= |actions|
        ensures Right(Exec(s, actions[..n]), c)
      {
        RightUpTo(s, actions, c, n);
      }
    } else if RightThroughout(s, actions, c) {
      var n: nat :| n < |actions| && !Harmless(Exec(s, actions[..n]), actions[n], c);
      var next := n + 1;
      assert Right(Exec(s, actions[..n]), c) && Right(Exec(s, actions[..next]), c);
      OneMore(s, actions, n);
      StepKeepsRightIff(Exec(s, actions[..n]), actions[n], c);
      assert false;
    }
  }

  lemma {:induction false} RightUpTo(s: System, actions: seq<Action>, c: int, m: nat)
    requires Right(s, c) && HarmlessRun(s, actions, c) && m <= |actions|
    ensures Right(Exec(s, actions[..m]), c)
    decreases m
  {
    if m == 0 {
      assert actions[..0] == [];
    } else {
      RightUpTo(s, actions, c, m - 1);
      OneMore(s, actions, m - 1);
      StepKeepsRightIff(Exec(s, actions[..m - 1]), actions[m - 1], c);
    }
  }

  /** From a table at its creation defaults, the backfill makes every customer right, and
      in every run after it all four columns of a customer stay right if and only if each
      write that is not refreshed meets its guard. */
  lemma StatsStayInSync(customers: map<int, Stats>, orders: seq<Order>, actions: seq<Action>, c: int)
    requires forall d | d in customers && !HasOrder(orders, d) :: customers[d] == DEFAULTS
    requires c in customers
    ensures var s := System(Backfill(customers, orders), orders);
            Right(s, c) && (RightThroughout(s, actions, c) <==> HarmlessRun(s, actions, c))
  {
    BackfillSyncsIff(customers, orders);
    RightThroughoutIff(System(Backfill(customers, orders), orders), actions, c);
  }

  /** Whatever happened before, a refreshed transition puts a customer right for as long as
      the writes after it are harmless. */
  lemma RightSinceTransition(s: System, i: nat, status: string, actions: seq<Action>)
    requires i < |s.orders| && s.orders[i].customerId in s.customers
    requires HarmlessRun(Step(s, Transition(i, status)), actions, s.orders[i].customerId)
    ensures RightThroughout(Step(s, Transition(i, status)), actions, s.orders[i].customerId)
  {
    TransitionRepairs(s, i, status);
    RightThroughoutIff(Step(s, Transition(i, status)), actions, s.orders[i].customerId);
  }
}
