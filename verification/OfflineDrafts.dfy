/** Orders taken offline and orders copied from the server share local_orders
    (desktop/src/main/offlineStore.ts:29-50, desktop/src/main/sync.ts:110-128). Drafts
    are filed under ids that are not positive, the server's orders under its own. */
module OfflineDrafts {
  import opened Wrappers
  import opened LocalStore

  type Orders = map<int, OrderRow>

  /** What happens to local_orders; `draw` is the random local id. */
  datatype OrderAction =
    | CreateOffline(id: Option<int>, content: string, draw: nat, now: string)
    | PullOrders(rows: seq<ServerOrder>, now: string)
    | WriteThrough(rows: seq<ServerOrder>, draws: seq<nat>, now: string)

  function Step(orders: Orders, a: OrderAction): Orders {
    match a
    case CreateOffline(id, content, draw, now) =>
      UpsertOrder(orders, OrderPayload(LocalOrderId(id, draw), content, true, true), now, true)
    case PullOrders(rows, now) => UpsertPulled(orders, rows, now)
    case WriteThrough(rows, draws, now) => if |draws| == |rows| then UpsertListed(orders, rows, draws, now) else orders
  }

  function Exec(orders: Orders, actions: seq<OrderAction>): Orders
    decreases |actions|
  {
    if actions == [] then orders else Step(Exec(orders, actions[..|actions| - 1]), actions[|actions| - 1])
  }

  /** The server numbers orders from 1. */
  predicate Numbered(a: OrderAction) {
    match a
    case CreateOffline(_, _, _, _) => true
    case PullOrders(rows, _) => forall o | o in rows :: o.id > 0
    case WriteThrough(rows, _, _) => forall o | o in rows :: o.id > 0
  }

  function Drafts(orders: Orders): Orders {
    map id | id in orders && id <= 0 :: orders[id]
  }

  function Copies(orders: Orders): Orders {
    map id | id in orders && id > 0 :: orders[id]
  }

  /** An offline order is filed under a local id, unless its body brings a positive one. */
  predicate FiledLocally(a: OrderAction) {
    a.CreateOffline? && !(a.id.Some? && a.id.value > 0)
  }

  function Creates(actions: seq<OrderAction>): seq<OrderAction> {
    if actions == [] then []
    else
      var last := actions[|actions| - 1];
      Creates(actions[..|actions| - 1]) + if FiledLocally(last) then [last] else []
  }

  function Refreshes(actions: seq<OrderAction>): seq<OrderAction> {
    if actions == [] then []
    else
      var last := actions[|actions| - 1];
      Refreshes(actions[..|actions| - 1]) + if FiledLocally(last) then [] else [last]
  }

  lemma UpsertSplits(orders: Orders, payload: OrderPayload, now: string, offline: bool)
    ensures var after := UpsertOrder(orders, payload, now, offline);
            && Drafts(after) == (if payload.id <= 0 then UpsertOrder(Drafts(orders), payload, now, offline) else Drafts(orders))
            && Copies(after) == (if payload.id > 0 then UpsertOrder(Copies(orders), payload, now, offline) else Copies(orders))
  {
  }

  lemma {:induction false} PullSplits(orders: Orders, rows: seq<ServerOrder>, now: string)
    requires forall o | o in rows :: o.id > 0
    ensures Drafts(UpsertPulled(orders, rows, now)) == Drafts(orders)
    ensures Copies(UpsertPulled(orders, rows, now)) == UpsertPulled(Copies(orders), rows, now)
  {
    if rows != [] {
      var n := |rows| - 1;
      assert rows[n] in rows && forall o | o in rows[..n] :: o in rows;
      PullSplits(orders, rows[..n], now);
      UpsertSplits(UpsertPulled(orders, rows[..n], now), OrderPayload(rows[n].id, rows[n].content, false, false),
                   StampOf(rows[n], now), false);
    }
  }

  lemma {:induction false} ListSplits(orders: Orders, rows: seq<ServerOrder>, draws: seq<nat>, now: string)
    requires |draws| == |rows| && forall o | o in rows :: o.id > 0
    ensures Drafts(UpsertListed(orders, rows, draws, now)) == Drafts(orders)
    ensures Copies(UpsertListed(orders, rows, draws, now)) == UpsertListed(Copies(orders), rows, draws, now)
    decreases |rows|
  {
    if rows != [] {
      var n := |rows| - 1;
      assert rows[n] in rows && forall o | o in rows[..n] :: o in rows;
      ListSplits(orders, rows[..n], draws[..n], now);
      UpsertSplits(UpsertListed(orders, rows[..n], draws[..n], now),
                   OrderPayload(LocalOrderId(Some(rows[n].id), draws[n]), rows[n].content, false, false), now, false);
    }
  }

  /** One action reaches one kind of order only. */
  lemma StepSplits(orders: Orders, a: OrderAction)
    requires Numbered(a)
    ensures Drafts(Step(orders, a)) == if FiledLocally(a) then Step(Drafts(orders), a) else Drafts(orders)
    ensures Copies(Step(orders, a)) == if FiledLocally(a) then Copies(orders) else Step(Copies(orders), a)
  {
    match a
    case CreateOffline(id, content, draw, now) =>
      UpsertSplits(orders, OrderPayload(LocalOrderId(id, draw), content, true, true), now, true);
    case PullOrders(rows, now) => PullSplits(orders, rows, now);
    case WriteThrough(rows, draws, now) =>
      if |draws| == |rows| { ListSplits(orders, rows, draws, now); }
  }

  lemma ExecOneMore(orders: Orders, actions: seq<OrderAction>, a: OrderAction)
    ensures Exec(orders, actions + [a]) == Step(Exec(orders, actions), a)
  {
    assert (actions + [a])[..|actions|] == actions;
  }

  lemma SortedOut(actions: seq<OrderAction>, a: OrderAction)
    ensures Creates(actions + [a]) == if FiledLocally(a) then Creates(actions) + [a] else Creates(actions)
    ensures Refreshes(actions + [a]) == if FiledLocally(a) then Refreshes(actions) else Refreshes(actions) + [a]
  {
    assert (actions + [a])[..|actions|] == actions;
  }

  lemma OneMoreIsolated(orders: Orders, actions: seq<OrderAction>, a: OrderAction)
    requires Numbered(a)
    requires Drafts(Exec(orders, actions)) == Exec(Drafts(orders), Creates(actions))
    requires Copies(Exec(orders, actions)) == Exec(Copies(orders), Refreshes(actions))
    ensures Drafts(Exec(orders, actions + [a])) == Exec(Drafts(orders), Creates(actions + [a]))
    ensures Copies(Exec(orders, actions + [a])) == Exec(Copies(orders), Refreshes(actions + [a]))
  {
    StepSplits(Exec(orders, actions), a);
    ExecOneMore(orders, actions, a);
    SortedOut(actions, a);
    if FiledLocally(a) {
      ExecOneMore(Drafts(orders), Creates(actions), a);
    } else {
      ExecOneMore(Copies(orders), Refreshes(actions), a);
    }
  }

  /** In every run the two kinds of order do not interfere: the drafts are what the
      offline creates filed locally would have made alone, and everything under a server
      id is what the other actions would have made alone. */
  lemma {:induction false} DraftsAreIsolated(orders: Orders, actions: seq<OrderAction>)
    requires forall a | a in actions :: Numbered(a)
    ensures Drafts(Exec(orders, actions)) == Exec(Drafts(orders), Creates(actions))
    ensures Copies(Exec(orders, actions)) == Exec(Copies(orders), Refreshes(actions))
    decreases |actions|
  {
    if actions != [] {
      var n := |actions| - 1;
      var init, last := actions[..n], actions[n];
      assert Numbered(last) && forall a | a in init :: Numbered(a) by {
        assert last in actions && forall a | a in init :: a in actions;
      }
      DraftsAreIsolated(orders, init);
      assert actions == init + [last];
      OneMoreIsolated(orders, init, last);
    }
  }

  // ---- how many drafts there are ----------------------------------------------------------

  ghost predicate Distinct(ids: seq<int>) {
    forall i, j | 0 <= i < j < |ids| :: ids[i] != ids[j]
  }

  lemma {:induction false} SizeOfSet(ids: seq<int>)
    ensures |set x | x in ids| <= |ids|
    ensures |set x | x in ids| == |ids| <==> Distinct(ids)
    decreases |ids|
  {
    if ids != [] {
      var init, last := ids[..|ids| - 1], ids[|ids| - 1];
      SizeOfSet(init);
      var before := set x | x in init;
      assert ids == init + [last];
      assert (set x | x in ids) == before + {last};
      DistinctWithLast(init, last);
      if last in before {
        assert (set x | x in ids) == before;
      }
    }
  }

  lemma DistinctWithLast(init: seq<int>, last: int)
    ensures Distinct(init + [last]) <==> Distinct(init) && last !in init
  {
    var ids := init + [last];
    if last in init {
      var i :| 0 <= i < |init| && init[i] == last;
      assert ids[i] == ids[|init|];
    } else {
      assert forall i, j | 0 <= i < j < |init| :: init[i] == ids[i] && init[j] == ids[j];
      assert forall i | 0 <= i < |init| :: ids[i] in init;
    }
  }

  /** The ids under which the creates of a run file their drafts. */
  function LocalIds(creates: seq<OrderAction>): (r: seq<int>)
    ensures |r| == |creates|
  {
    seq(|creates|, i requires 0 <= i < |creates| => if creates[i].CreateOffline? then 0 - creates[i].draw else 0)
  }

  lemma {:induction false} DraftIds(creates: seq<OrderAction>)
    requires forall a | a in creates :: FiledLocally(a)
    ensures Exec(map[], creates).Keys == set id | id in LocalIds(creates)
    decreases |creates|
  {
    if creates != [] {
      var init, last := creates[..|creates| - 1], creates[|creates| - 1];
      assert last in creates && forall a | a in init :: a in creates;
      DraftIds(init);
      assert LocalIds(creates) == LocalIds(init) + [0 - last.draw];
      assert Exec(map[], creates).Keys == Exec(map[], init).Keys + {0 - last.draw};
    }
  }

  function AllCreates(actions: seq<OrderAction>): nat {
    if actions == [] then 0
    else AllCreates(actions[..|actions| - 1]) + if actions[|actions| - 1].CreateOffline? then 1 else 0
  }

  predicate BringsServerId(a: OrderAction) {
    a.CreateOffline? && a.id.Some? && a.id.value > 0
  }

  lemma {:induction false} CreatesAreLocal(actions: seq<OrderAction>)
    ensures forall a | a in Creates(actions) :: FiledLocally(a)
    ensures |Creates(actions)| <= AllCreates(actions)
    ensures |Creates(actions)| == AllCreates(actions) <==> forall a | a in actions :: !BringsServerId(a)
    decreases |actions|
  {
    if actions != [] {
      var init, last := actions[..|actions| - 1], actions[|actions| - 1];
      CreatesAreLocal(init);
      assert forall a | a in actions :: a in init || a == last;
      assert last in actions && forall a | a in init :: a in actions;
      assert FiledLocally(last) <==> last.CreateOffline? && !BringsServerId(last);
    }
  }

  /** Starting from an empty table there are as many drafts as offline creates exactly
      when no body brings a server id and the random local ids differ: a server id files
      the order among the copies, and a repeated local id overwrites an earlier draft. */
  lemma DraftsCountedIff(actions: seq<OrderAction>)
    requires forall a | a in actions :: Numbered(a)
    ensures |Drafts(Exec(map[], actions))| == AllCreates(actions) <==>
            (forall a | a in actions :: !BringsServerId(a)) && Distinct(LocalIds(Creates(actions)))
  {
    DraftsAreIsolated(map[], actions);
    CreatesAreLocal(actions);
    assert Drafts(map[]) == map[];
    DraftIds(Creates(actions));
    SizeOfSet(LocalIds(Creates(actions)));
    var drafts := Exec(map[], Creates(actions));
    assert |drafts| == |drafts.Keys|;
  }

  /** The row is there already, but for nothing that the create would change. */
  predicate HasDraft(orders: Orders, a: OrderAction)
    requires a.CreateOffline? && a.id.Some?
  {
    var id := a.id.value;
    && id in orders && orders[id].updatedAt == a.now
    && orders[id].payload == OrderPayload(id, a.content, true, true)
  }

  /** The server's copies survive an offline create exactly when it brings no server id,
      or the table has the same draft with the same time under that id already. */
  lemma CreateSparesCopiesIff(orders: Orders, a: OrderAction)
    requires a.CreateOffline?
    ensures Copies(Step(orders, a)) == Copies(orders) <==>
            !BringsServerId(a) || HasDraft(orders, a)
  {
    if BringsServerId(a) {
      var id := a.id.value;
      assert id in Copies(Step(orders, a)) && Copies(Step(orders, a))[id] == Step(orders, a)[id];
      assert id in Copies(orders) ==> Copies(orders)[id] == orders[id];
      if HasDraft(orders, a) {
        assert Step(orders, a) == orders;
      }
    } else {
      StepSplits(orders, a);
    }
  }
}
