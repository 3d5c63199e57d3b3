/** What pulls and write-throughs leave in local_orders and local_menu, row by row, and where
    they leave the cursors (desktop/src/main/sync.ts:43-130, desktop/src/main/main.ts:99-117). */
module ShellRows {
  import opened Wrappers
  import opened LocalStore
  import opened PendingOps
  import opened DesktopShell

  /** Of several entries under one id, this is the last. */
  ghost predicate IsLast(ids: seq<int>, i: nat) {
    i < |ids| && forall j | i < j < |ids| :: ids[j] != ids[i]
  }

  lemma LastStays(ids: seq<int>, i: nat)
    requires IsLast(ids, i) && i < |ids| - 1
    ensures IsLast(ids[..|ids| - 1], i) && ids[|ids| - 1] != ids[i]
  {
  }

  // ---- pulled orders -------------------------------------------------------------------------

  /** `a || b || now` for the two times of an order. */
  predicate IsStamp(o: ServerOrder, now: string, stamp: string) {
    if o.updatedAt.Some? && o.updatedAt.value != "" then stamp == o.updatedAt.value
    else if o.createdAt.Some? && o.createdAt.value != "" then stamp == o.createdAt.value
    else stamp == now
  }

  /** A row as it stands after its content was replaced: the offline mark is that of the row
      before, and none for a new one. */
  predicate Replaced(orders: map<int, OrderRow>, id: int, content: string, row: OrderRow) {
    && row.payload == OrderPayload(id, content, false, false)
    && (row.offlineCreated <==> id in orders && orders[id].offlineCreated)
  }

  function PulledIds(rows: seq<ServerOrder>): seq<int> {
    seq(|rows|, i requires 0 <= i < |rows| => rows[i].id)
  }

  lemma {:induction false} UnpulledOrder(orders: map<int, OrderRow>, rows: seq<ServerOrder>, now: string, id: int)
    requires id !in PulledIds(rows)
    ensures var after := UpsertPulled(orders, rows, now);
            (id in after <==> id in orders) && (id in orders ==> after[id] == orders[id])
    decreases |rows|
  {
    if rows != [] {
      var n := |rows| - 1;
      assert PulledIds(rows) == PulledIds(rows[..n]) + [rows[n].id];
      UnpulledOrder(orders, rows[..n], now, id);
    }
  }

  lemma {:induction false} OfflineMarkStays(orders: map<int, OrderRow>, rows: seq<ServerOrder>, now: string, id: int)
    ensures var after := UpsertPulled(orders, rows, now);
            (id in orders ==> id in after)
            && (id in after ==> (after[id].offlineCreated <==> id in orders && orders[id].offlineCreated))
    decreases |rows|
  {
    if rows != [] {
      OfflineMarkStays(orders, rows[..|rows| - 1], now, id);
    }
  }

  lemma {:induction false} LastPulled(orders: map<int, OrderRow>, rows: seq<ServerOrder>, now: string, i: nat)
    requires IsLast(PulledIds(rows), i)
    ensures var after, id := UpsertPulled(orders, rows, now), rows[i].id;
            id in after && after[id].payload == OrderPayload(id, rows[i].content, false, false)
            && IsStamp(rows[i], now, after[id].updatedAt)
    decreases |rows|
  {
    var n := |rows| - 1;
    if i < n {
      LastStays(PulledIds(rows), i);
      assert PulledIds(rows)[..n] == PulledIds(rows[..n]);
      LastPulled(orders, rows[..n], now, i);
    }
  }

  /** Every pulled id has the content and stamp of its last row in the answer, and its offline
      mark if it had one; other ids are unchanged. */
  lemma PulledOrders(orders: map<int, OrderRow>, rows: seq<ServerOrder>, now: string, id: int)
    ensures var after := UpsertPulled(orders, rows, now);
            && (id !in PulledIds(rows) ==> (id in after <==> id in orders) && (id in orders ==> after[id] == orders[id]))
            && (id in PulledIds(rows) ==>
                  exists i: nat | IsLast(PulledIds(rows), i) && rows[i].id == id ::
                    id in after && Replaced(orders, id, rows[i].content, after[id]) && IsStamp(rows[i], now, after[id].updatedAt))
  {
    if id in PulledIds(rows) {
      SomeIsLast(PulledIds(rows), id);
      var i: nat :| IsLast(PulledIds(rows), i) && PulledIds(rows)[i] == id;
      LastPulled(orders, rows, now, i);
      OfflineMarkStays(orders, rows, now, id);
    } else {
      UnpulledOrder(orders, rows, now, id);
    }
  }

  lemma {:induction false} SomeIsLast(ids: seq<int>, id: int)
    requires id in ids
    ensures exists i: nat :: IsLast(ids, i) && ids[i] == id
    decreases |ids|
  {
    var n := |ids| - 1;
    if ids[n] == id {
      assert IsLast(ids, n);
    } else {
      SomeIsLast(ids[..n], id);
      var i: nat :| IsLast(ids[..n], i) && ids[..n][i] == id;
      assert IsLast(ids, i);
    }
  }

  /** The orders cursor after a pull is no earlier than it was and than any order's own
      stamp, and is one of these. */
  lemma {:induction false} OrdersCursorIsLatest(cursor: Option<string>, rows: seq<ServerOrder>, now: string)
    ensures var max := LatestText(cursor, rows, now);
            && (max == None <==> cursor == None && rows == [])
            && (cursor.Some? ==> !TextLess(max.value, cursor.value))
            && (forall o, stamp | o in rows && IsStamp(o, now, stamp) :: !TextLess(max.value, stamp))
            && (max == cursor || exists o | o in rows :: IsStamp(o, now, max.value))
    decreases |rows|
  {
    if rows != [] {
      var n := |rows| - 1;
      var before, last := LatestText(cursor, rows[..n], now), rows[n];
      var max, stamp := LatestText(cursor, rows, now), StampOf(last, now);
      OrdersCursorIsLatest(cursor, rows[..n], now);
      assert rows == rows[..n] + [last] && IsStamp(last, now, stamp);
      NotEarlier(before, stamp, max.value);
      if cursor.Some? { NotEarlierThan(before, stamp, max.value, cursor.value); }
      forall o, t | o in rows && IsStamp(o, now, t) ensures !TextLess(max.value, t) {
        if o in rows[..n] { NotEarlierThan(before, stamp, max.value, t); }
      }
    } else if cursor.Some? {
      TextLessIsTotal(cursor.value, cursor.value);
    }
  }

  predicate IsLater(max: Option<string>, stamp: string, later: string) {
    later == if max.None? || max.value == "" || TextLess(max.value, stamp) then stamp else max.value
  }

  lemma NotEarlier(max: Option<string>, stamp: string, later: string)
    requires IsLater(max, stamp, later)
    ensures !TextLess(later, stamp)
  {
    TextLessIsTotal(stamp, stamp);
  }

  lemma NotEarlierThan(max: Option<string>, stamp: string, later: string, t: string)
    requires IsLater(max, stamp, later) && max.Some? && !TextLess(max.value, t)
    ensures !TextLess(later, t)
  {
    if later == stamp && TextLess(stamp, t) {
      if TextLess(max.value, stamp) { TextLessIsTransitive(max.value, stamp, t); }
    }
  }

  // ---- listed orders -------------------------------------------------------------------------

  /** A listed order is saved under its own id if that is positive, else under a drawn one. */
  function ListedId(row: ServerOrder, draw: nat): int {
    if row.id > 0 then row.id else 0 - draw
  }

  function ListedIds(rows: seq<ServerOrder>, draws: seq<nat>): seq<int>
    requires |draws| == |rows|
  {
    seq(|rows|, i requires 0 <= i < |rows| => ListedId(rows[i], draws[i]))
  }

  lemma {:induction false} UnlistedOrder(orders: map<int, OrderRow>, rows: seq<ServerOrder>, draws: seq<nat>, now: string, id: int)
    requires |draws| == |rows| && id !in ListedIds(rows, draws)
    ensures var after := UpsertListed(orders, rows, draws, now);
            (id in after <==> id in orders) && (id in orders ==> after[id] == orders[id])
    decreases |rows|
  {
    if rows != [] {
      var n := |rows| - 1;
      assert ListedIds(rows, draws) == ListedIds(rows[..n], draws[..n]) + [ListedId(rows[n], draws[n])];
      UnlistedOrder(orders, rows[..n], draws[..n], now, id);
    }
  }

  lemma {:induction false} ListedMarkStays(orders: map<int, OrderRow>, rows: seq<ServerOrder>, draws: seq<nat>, now: string, id: int)
    requires |draws| == |rows|
    ensures var after := UpsertListed(orders, rows, draws, now);
            (id in orders ==> id in after)
            && (id in after ==> (after[id].offlineCreated <==> id in orders && orders[id].offlineCreated))
    decreases |rows|
  {
    if rows != [] {
      var n := |rows| - 1;
      ListedMarkStays(orders, rows[..n], draws[..n], now, id);
    }
  }

  lemma {:induction false} LastListed(orders: map<int, OrderRow>, rows: seq<ServerOrder>, draws: seq<nat>, now: string, i: nat)
    requires |draws| == |rows| && IsLast(ListedIds(rows, draws), i)
    ensures var after, id := UpsertListed(orders, rows, draws, now), ListedId(rows[i], draws[i]);
            id in after && after[id].payload == OrderPayload(id, rows[i].content, false, false) && after[id].updatedAt == now
    decreases |rows|
  {
    var n := |rows| - 1;
    var ids := ListedIds(rows, draws);
    if i < n {
      LastStays(ids, i);
      assert ids[..n] == ListedIds(rows[..n], draws[..n]);
      LastListed(orders, rows[..n], draws[..n], now, i);
    }
  }

  /** The same for orders that the renderer lists; their time is that of the listing. */
  lemma ListedOrders(orders: map<int, OrderRow>, rows: seq<ServerOrder>, draws: seq<nat>, now: string, id: int)
    requires |draws| == |rows|
    ensures var after, ids := UpsertListed(orders, rows, draws, now), ListedIds(rows, draws);
            && (id !in ids ==> (id in after <==> id in orders) && (id in orders ==> after[id] == orders[id]))
            && (id in ids ==>
                  exists i: nat | IsLast(ids, i) && ids[i] == id ::
                    id in after && Replaced(orders, id, rows[i].content, after[id]) && after[id].updatedAt == now)
  {
    var ids := ListedIds(rows, draws);
    if id in ids {
      SomeIsLast(ids, id);
      var i: nat :| IsLast(ids, i) && ids[i] == id;
      LastListed(orders, rows, draws, now, i);
      ListedMarkStays(orders, rows, draws, now, id);
    } else {
      UnlistedOrder(orders, rows, draws, now, id);
    }
  }

  // ---- dishes ----------------------------------------------------------------------------------

  function DishIds(rows: seq<Dish>): seq<int> {
    seq(|rows|, i requires 0 <= i < |rows| => rows[i].id)
  }

  lemma {:induction false} UnpulledDish(menu: map<int, MenuRow>, rows: seq<Dish>, id: int)
    requires id !in DishIds(rows)
    ensures var after := UpsertAll(menu, rows);
            (id in after <==> id in menu) && (id in menu ==> after[id] == menu[id])
    decreases |rows|
  {
    if rows != [] {
      var n := |rows| - 1;
      assert DishIds(rows) == DishIds(rows[..n]) + [rows[n].id];
      UnpulledDish(menu, rows[..n], id);
    }
  }

  lemma {:induction false} LastDish(menu: map<int, MenuRow>, rows: seq<Dish>, i: nat)
    requires IsLast(DishIds(rows), i)
    ensures var after, id := UpsertAll(menu, rows), rows[i].id;
            id in after && after[id].updatedAt == rows[i].updatedAt && after[id].body == rows[i].body
    decreases |rows|
  {
    var n := |rows| - 1;
    if i < n {
      LastStays(DishIds(rows), i);
      assert DishIds(rows)[..n] == DishIds(rows[..n]);
      LastDish(menu, rows[..n], i);
    }
  }

  /** Every dish of an answer is cached as its last row has it; other dishes are unchanged. */
  lemma PulledDishes(menu: map<int, MenuRow>, rows: seq<Dish>, id: int)
    ensures var after := UpsertAll(menu, rows);
            && (id !in DishIds(rows) ==> (id in after <==> id in menu) && (id in menu ==> after[id] == menu[id]))
            && (id in DishIds(rows) ==>
                  exists i: nat | IsLast(DishIds(rows), i) && rows[i].id == id ::
                    id in after && after[id].updatedAt == rows[i].updatedAt && after[id].body == rows[i].body)
  {
    if id in DishIds(rows) {
      SomeIsLast(DishIds(rows), id);
      var i: nat :| IsLast(DishIds(rows), i) && DishIds(rows)[i] == id;
      LastDish(menu, rows, i);
    } else {
      UnpulledDish(menu, rows, id);
    }
  }

  /** The menu cursor after a pull is no earlier than it was and than any row's stamp, and is
      one of these. */
  lemma {:induction false} MenuCursorIsLatest(cursor: Option<int>, rows: seq<Dish>)
    ensures var max := Latest(cursor, rows);
            && (max == None <==> cursor == None && rows == [])
            && (cursor.Some? ==> cursor.value <= max.value)
            && (forall d | d in rows :: d.updatedAt <= max.value)
            && (max == cursor || exists d | d in rows :: d.updatedAt == max.value)
    decreases |rows|
  {
    if rows != [] {
      var n := |rows| - 1;
      MenuCursorIsLatest(cursor, rows[..n]);
      assert rows == rows[..n] + [rows[n]];
    }
  }

  function ListedDishIds(dishes: seq<ListedDish>): seq<int> {
    seq(|dishes|, i requires 0 <= i < |dishes| => dishes[i].id)
  }

  /** A dish that the renderer lists is cached as listed last, with its own stamp or else the
      time of the listing. */
  lemma ListedDishes(menu: map<int, MenuRow>, dishes: seq<ListedDish>, now: int, id: int)
    ensures var after, ids := UpsertAll(menu, Stamped(dishes, now)), ListedDishIds(dishes);
            && (id !in ids ==> (id in after <==> id in menu) && (id in menu ==> after[id] == menu[id]))
            && (id in ids ==>
                  exists i: nat | IsLast(ids, i) && ids[i] == id ::
                    && id in after && after[id].body == dishes[i].body
                    && (dishes[i].updatedAt.Some? ==> after[id].updatedAt == dishes[i].updatedAt.value)
                    && (dishes[i].updatedAt.None? ==> after[id].updatedAt == now))
  {
    assert DishIds(Stamped(dishes, now)) == ListedDishIds(dishes);
    PulledDishes(menu, Stamped(dishes, now), id);
  }
}
