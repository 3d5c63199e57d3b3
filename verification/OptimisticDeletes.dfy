/** The menu review dialog's list while several deletes are in flight
    (frontend/src/components/MenuReviewDialog.tsx:64-92). */
module OptimisticDeletes {
  import opened Wrappers

  datatype Dish = Dish(id: int, content: string)

  /** `calls` holds one dish for every suspended onRemove: the version it captured when
      it was clicked. `deleted` lists the deletes that succeeded. */
  datatype State = State(dishes: seq<Dish>, selectedId: Option<int>, removingIds: set<int>,
                         calls: seq<Dish>, deleted: seq<int>)

  datatype Action =
    | Remove(id: int)
    | Save(updated: Dish)
    | Select(row: nat)
    | Succeed(call: nat)
    | Fail(call: nat)

  function Ids(dishes: seq<Dish>): seq<int> {
    seq(|dishes|, i requires 0 <= i < |dishes| => dishes[i].id)
  }

  function Find(dishes: seq<Dish>, id: int): (found: Option<Dish>)
    ensures found.Some? <==> id in Ids(dishes)
    ensures found.Some? ==> found.value in dishes && found.value.id == id
  {
    if dishes == [] then None
    else if dishes[0].id == id then
      assert Ids(dishes)[0] == id;
      Some(dishes[0])
    else
      assert Ids(dishes) == [dishes[0].id] + Ids(dishes[1..]);
      Find(dishes[1..], id)
  }

  function Without(dishes: seq<Dish>, id: int): seq<Dish> {
    if dishes == [] then []
    else
      var last := dishes[|dishes| - 1];
      Without(dishes[..|dishes| - 1], id) + if last.id != id then [last] else []
  }

  function Replace(dishes: seq<Dish>, updated: Dish): seq<Dish> {
    seq(|dishes|, i requires 0 <= i < |dishes| => if dishes[i].id == updated.id then updated else dishes[i])
  }

  function FirstId(dishes: seq<Dish>): Option<int> {
    if dishes == [] then None else Some(dishes[0].id)
  }

  function Open(dishes: seq<Dish>): State {
    State(dishes, FirstId(dishes), {}, [], [])
  }

  function Step(s: State, a: Action): State {
    match a
    case Remove(id) =>
      var removed := Find(s.dishes, id);
      if removed.None? || id in s.removingIds then s
      else
        var remaining := Without(s.dishes, id);
        s.(dishes := remaining,
           selectedId := if s.selectedId == Some(id) then FirstId(remaining) else s.selectedId,
           removingIds := s.removingIds + {id},
           calls := s.calls + [removed.value])
    case Save(updated) => s.(dishes := Replace(s.dishes, updated))
    case Select(row) => if row < |s.dishes| then s.(selectedId := Some(s.dishes[row].id)) else s
    case Succeed(k) =>
      if k < |s.calls| then
        s.(removingIds := s.removingIds - {s.calls[k].id}, calls := s.calls[..k] + s.calls[k + 1..],
           deleted := s.deleted + [s.calls[k].id])
      else s
    case Fail(k) =>
      if k < |s.calls| then
        s.(dishes := if s.calls[k].id in Ids(s.dishes) then s.dishes else s.dishes + [s.calls[k]],
           removingIds := s.removingIds - {s.calls[k].id}, calls := s.calls[..k] + s.calls[k + 1..])
      else s
  }

  function Exec(s: State, actions: seq<Action>): State
    decreases |actions|
  {
    if actions == [] then s else Step(Exec(s, actions[..|actions| - 1]), actions[|actions| - 1])
  }

  // ---- the dialog's own code ---------------------------------------------------------

  class Dialog {
    var dishes: seq<Dish>
    var selectedId: Option<int>
    var removingIds: set<int>
    var calls: seq<Dish>
    var deleted: seq<int>

    ghost function Contents(): State
      reads this
    {
      State(dishes, selectedId, removingIds, calls, deleted)
    }

    constructor (menu: seq<Dish>)
      ensures Contents() == Open(menu)
    {
      dishes, selectedId := menu, if menu == [] then None else Some(menu[0].id);
      removingIds, calls, deleted := {}, [], [];
    }

    method ApplyLocal(updated: Dish)
      modifies this
      ensures Contents() == Step(old(Contents()), Save(updated))
    {
      dishes := Replace(dishes, updated);
    }

    /** onRemove up to the await: nothing happens for an unknown dish, or for one whose
        delete is in flight. */
    method OnRemove(id: int)
      modifies this
      ensures Contents() == Step(old(Contents()), Remove(id))
    {
      var removed := Find(dishes, id);
      if removed.None? || id in removingIds { return; }
      var remaining := Without(dishes, id);
      dishes := remaining;
      if selectedId == Some(id) { selectedId := FirstId(remaining); }
      removingIds := removingIds + {id};
      calls := calls + [removed.value];
    }

    /** The rest of a suspended onRemove, after the delete has ended. */
    method Resume(k: nat, ok: bool)
      requires k < |calls|
      modifies this
      ensures Contents() == Step(old(Contents()), if ok then Succeed(k) else Fail(k))
    {
      var removed := calls[k];
      calls := calls[..k] + calls[k + 1..];
      if ok {
        deleted := deleted + [removed.id];
      } else if Find(dishes, removed.id).None? {
        dishes := dishes + [removed];
      }
      removingIds := removingIds - {removed.id};
    }
  }

  // ---- every dish is in exactly one place -----------------------------------------------

  function Times(ids: seq<int>, id: int): nat {
    multiset(ids)[id]
  }

  /** The number of places a dish is in: shown, being deleted, deleted. */
  function Places(s: State, id: int): nat {
    Times(Ids(s.dishes), id) + Times(Ids(s.calls), id) + Times(s.deleted, id)
  }

  lemma TimesOfSum(a: seq<int>, b: seq<int>, id: int)
    ensures Times(a + b, id) == Times(a, id) + Times(b, id)
  {
  }

  lemma {:induction false} TimesOfWithout(dishes: seq<Dish>, removed: int, id: int)
    ensures Times(Ids(Without(dishes, removed)), id) == if id == removed then 0 else Times(Ids(dishes), id)
  {
    if dishes != [] {
      var init, last := dishes[..|dishes| - 1], dishes[|dishes| - 1];
      TimesOfWithout(init, removed, id);
      assert Ids(dishes) == Ids(init) + [last.id];
      TimesOfSum(Ids(init), [last.id], id);
      if last.id != removed {
        assert Ids(Without(dishes, removed)) == Ids(Without(init, removed)) + [last.id];
        TimesOfSum(Ids(Without(init, removed)), [last.id], id);
      } else {
        assert Without(dishes, removed) == Without(init, removed);
      }
    }
  }

  lemma TimesWithoutCall(calls: seq<Dish>, k: nat, id: int)
    requires k < |calls|
    ensures Times(Ids(calls[..k] + calls[k + 1..]), id) == Times(Ids(calls), id) - (if id == calls[k].id then 1 else 0)
  {
    var before, after := Ids(calls[..k]), Ids(calls[k + 1..]);
    assert Ids(calls[..k] + calls[k + 1..]) == before + after;
    assert Ids(calls) == before + [calls[k].id] + after;
    TimesOfSum(before, after, id);
    TimesOfSum(before + [calls[k].id], after, id);
    TimesOfSum(before, [calls[k].id], id);
  }

  ghost predicate Inv(menu: seq<Dish>, s: State) {
    && (forall id :: Places(s, id) == Times(Ids(menu), id))
    && (forall id :: id in s.removingIds <==> id in Ids(s.calls))
    && (s.selectedId.Some? ==> s.selectedId.value in Ids(s.dishes))
  }

  ghost predicate DistinctIds(dishes: seq<Dish>) {
    forall id :: Times(Ids(dishes), id) <= 1
  }

  lemma RemoveKeepsInv(menu: seq<Dish>, s: State, id: int)
    requires DistinctIds(menu) && Inv(menu, s)
    ensures Inv(menu, Step(s, Remove(id)))
  {
    var s' := Step(s, Remove(id));
    if s' != s {
      var removed := Find(s.dishes, id).value;
      assert Ids(s'.calls) == Ids(s.calls) + [id];
      forall other ensures Places(s', other) == Places(s, other) {
        TimesOfWithout(s.dishes, id, other);
        TimesOfSum(Ids(s.calls), [id], other);
        assert Places(s, id) == Times(Ids(menu), id) <= 1 && Times(Ids(s.dishes), id) >= 1;
      }
      if s.selectedId.Some? && s.selectedId.value != id {
        TimesOfWithout(s.dishes, id, s.selectedId.value);
      } else if s'.selectedId.Some? {
        assert Ids(s'.dishes)[0] == s'.selectedId.value;
      }
    }
  }

  lemma EndKeepsInv(menu: seq<Dish>, s: State, k: nat, ok: bool)
    requires DistinctIds(menu) && Inv(menu, s) && k < |s.calls|
    ensures Inv(menu, Step(s, if ok then Succeed(k) else Fail(k)))
    ensures !ok ==> Step(s, Fail(k)).dishes == s.dishes + [s.calls[k]]
  {
    var removed := s.calls[k];
    assert Ids(s.calls)[k] == removed.id;
    assert Places(s, removed.id) <= 1;
    var s' := Step(s, if ok then Succeed(k) else Fail(k));
    forall id
      ensures Places(s', id) == Places(s, id)
      ensures id in Ids(s'.calls) <==> id in Ids(s.calls) && id != removed.id
    {
      TimesWithoutCall(s.calls, k, id);
      assert Places(s, id) <= 1;
      TimesOfSum(s.deleted, [removed.id], id);
      assert Ids(s.dishes + [removed]) == Ids(s.dishes) + [removed.id];
      TimesOfSum(Ids(s.dishes), [removed.id], id);
    }
    assert forall id | id in Ids(s.dishes) :: id in Ids(s.dishes) + [removed.id];
    assert Ids(s.dishes + [removed]) == Ids(s.dishes) + [removed.id];
  }

  lemma StepKeepsInv(menu: seq<Dish>, s: State, a: Action)
    requires DistinctIds(menu) && Inv(menu, s)
    ensures Inv(menu, Step(s, a))
  {
    match a
    case Remove(id) => RemoveKeepsInv(menu, s, id);
    case Save(updated) => assert Ids(Replace(s.dishes, updated)) == Ids(s.dishes);
    case Select(row) => if row < |s.dishes| { assert Ids(s.dishes)[row] == s.dishes[row].id; }
    case Succeed(k) => if k < |s.calls| { EndKeepsInv(menu, s, k, true); }
    case Fail(k) => if k < |s.calls| { EndKeepsInv(menu, s, k, false); }
  }

  lemma {:induction false} InvHolds(menu: seq<Dish>, actions: seq<Action>)
    requires DistinctIds(menu)
    ensures Inv(menu, Exec(Open(menu), actions))
    decreases |actions|
  {
    if actions == [] {
      if menu != [] { assert Ids(menu)[0] == menu[0].id; }
    } else {
      InvHolds(menu, actions[..|actions| - 1]);
      StepKeepsInv(menu, Exec(Open(menu), actions[..|actions| - 1]), actions[|actions| - 1]);
    }
  }

  lemma SumOfPlaces(menu: seq<Dish>, s: State)
    requires Inv(menu, s)
    ensures multiset(Ids(s.dishes)) + multiset(Ids(s.calls)) + multiset(s.deleted) == multiset(Ids(menu))
  {
    var all := multiset(Ids(s.dishes)) + multiset(Ids(s.calls)) + multiset(s.deleted);
    forall id ensures all[id] == multiset(Ids(menu))[id] {
      assert Places(s, id) == Times(Ids(menu), id);
    }
  }

  lemma SettledState(menu: seq<Dish>, s: State, id: int)
    requires DistinctIds(menu) && Inv(menu, s) && s.calls == []
    ensures s.removingIds == {} && Times(Ids(s.dishes), id) <= 1
    ensures id in Ids(s.dishes) <==> id in Ids(menu) && id !in s.deleted
  {
    assert forall other | other in s.removingIds :: other in Ids(s.calls);
    assert Places(s, id) == Times(Ids(menu), id) <= 1;
    assert Times(Ids(s.calls), id) == 0;
  }

  /** In every run the shown, the in-flight and the deleted ids together are the original
      ids, each exactly once. */
  lemma IdsArePartitioned(menu: seq<Dish>, actions: seq<Action>)
    requires DistinctIds(menu)
    ensures var s := Exec(Open(menu), actions);
            && multiset(Ids(s.dishes)) + multiset(Ids(s.calls)) + multiset(s.deleted) == multiset(Ids(menu))
            && (s.selectedId.Some? ==> s.selectedId.value in Ids(s.dishes))
  {
    InvHolds(menu, actions);
    SumOfPlaces(menu, Exec(Open(menu), actions));
  }

  /** Once every request has ended, the list is the original without exactly the deletes
      that succeeded, and no row is locked. */
  lemma SettledList(menu: seq<Dish>, actions: seq<Action>, id: int)
    requires DistinctIds(menu) && Exec(Open(menu), actions).calls == []
    ensures var s := Exec(Open(menu), actions);
            && s.removingIds == {}
            && Times(Ids(s.dishes), id) <= 1
            && (id in Ids(s.dishes) <==> id in Ids(menu) && id !in s.deleted)
  {
    InvHolds(menu, actions);
    SettledState(menu, Exec(Open(menu), actions), id);
  }

  /** A failed delete puts the captured version at the end of the list: the row can never
      be there already. */
  lemma RollbackAppends(menu: seq<Dish>, actions: seq<Action>, k: nat)
    requires DistinctIds(menu) && k < |Exec(Open(menu), actions).calls|
    ensures var s := Exec(Open(menu), actions);
            Step(s, Fail(k)).dishes == s.dishes + [s.calls[k]]
  {
    InvHolds(menu, actions);
    EndKeepsInv(menu, Exec(Open(menu), actions), k, false);
  }

  // ---- the list and the selection, step by step -------------------------------------------------

  lemma {:induction false} WithoutFirst(dishes: seq<Dish>, i: nat)
    requires i < |dishes| && forall j | 0 <= j < |dishes| && j != i :: dishes[j].id != dishes[i].id
    ensures Without(dishes, dishes[i].id) == dishes[..i] + dishes[i + 1..]
    decreases |dishes|
  {
    var n := |dishes| - 1;
    if i == n {
      WithoutNone(dishes[..n], dishes[n].id);
    } else {
      WithoutFirst(dishes[..n], i);
      assert dishes[i + 1..] == dishes[..n][i + 1..] + [dishes[n]];
    }
  }

  lemma {:induction false} WithoutNone(dishes: seq<Dish>, id: int)
    requires forall j | 0 <= j < |dishes| :: dishes[j].id != id
    ensures Without(dishes, id) == dishes
    decreases |dishes|
  {
    if dishes != [] {
      WithoutNone(dishes[..|dishes| - 1], id);
    }
  }

  lemma ShownOnce(menu: seq<Dish>, s: State, i: nat, j: nat)
    requires DistinctIds(menu) && Inv(menu, s) && i < |s.dishes| && j < |s.dishes| && s.dishes[i].id == s.dishes[j].id
    ensures i == j
  {
    assert Places(s, s.dishes[i].id) == Times(Ids(menu), s.dishes[i].id) <= 1;
    if i < j {
      TwiceInIds(Ids(s.dishes), i, j);
    } else if j < i {
      TwiceInIds(Ids(s.dishes), j, i);
    }
  }

  /** A click takes out the row at its place and captures it; the other rows keep their order. */
  lemma ClickTakesOut(menu: seq<Dish>, actions: seq<Action>, i: nat)
    requires DistinctIds(menu)
    requires var s := Exec(Open(menu), actions); i < |s.dishes| && s.dishes[i].id !in s.removingIds
    ensures var s := Exec(Open(menu), actions);
            var s' := Step(s, Remove(s.dishes[i].id));
            && s'.dishes == s.dishes[..i] + s.dishes[i + 1..]
            && s'.calls == s.calls + [s.dishes[i]] && s'.removingIds == s.removingIds + {s.dishes[i].id}
            && s'.deleted == s.deleted
  {
    var s := Exec(Open(menu), actions);
    InvHolds(menu, actions);
    forall j: nat | j < |s.dishes| && j != i ensures s.dishes[j].id != s.dishes[i].id {
      if s.dishes[j].id == s.dishes[i].id { ShownOnce(menu, s, i, j); }
    }
    WithoutFirst(s.dishes, i);
    assert Ids(s.dishes)[i] == s.dishes[i].id;
    var found := Find(s.dishes, s.dishes[i].id).value;
    var k :| 0 <= k < |s.dishes| && s.dishes[k] == found;
    ShownOnce(menu, s, i, k);
  }

  /** The dialog opens on the first dish. The selection moves only when another row is selected
      or the selected dish is taken out; then the first of the remaining rows is selected. */
  lemma SelectionMoves(menu: seq<Dish>, s: State, a: Action)
    ensures Open(menu).selectedId == if menu == [] then None else Some(menu[0].id)
    ensures var s' := Step(s, a);
            if a.Select? && a.row < |s.dishes| then s'.selectedId == Some(s.dishes[a.row].id)
            else if a.Remove? && s.selectedId == Some(a.id) && a.id in Ids(s.dishes) && a.id !in s.removingIds
            then s'.selectedId == if s'.dishes == [] then None else Some(s'.dishes[0].id)
            else s'.selectedId == s.selectedId
  {
  }

  // ---- which version comes back -----------------------------------------------------------

  /** The version of a dish that was saved last. */
  function Latest(dish: Dish, actions: seq<Action>): (latest: Dish)
    ensures latest.id == dish.id
    decreases |actions|
  {
    if actions == [] then dish
    else
      var a := actions[|actions| - 1];
      if a.Save? && a.updated.id == dish.id then a.updated else Latest(dish, actions[..|actions| - 1])
  }

  ghost predicate IsLatest(menu: seq<Dish>, actions: seq<Action>, dish: Dish) {
    exists i | 0 <= i < |menu| :: Latest(menu[i], actions) == dish
  }

  /** A save arrives for a dish that is not being deleted, or brings the captured version. */
  predicate Harmless(s: State, a: Action) {
    a.Save? && a.updated.id in s.removingIds ==> a.updated in s.calls
  }

  predicate HarmlessAt(menu: seq<Dish>, actions: seq<Action>, n: nat)
    requires n < |actions|
  {
    Harmless(Exec(Open(menu), actions[..n]), actions[n])
  }

  ghost predicate HarmlessRun(menu: seq<Dish>, actions: seq<Action>) {
    forall n: nat | n < |actions| :: HarmlessAt(menu, actions, n)
  }

  ghost predicate VersionsAreLatest(menu: seq<Dish>, actions: seq<Action>) {
    var s := Exec(Open(menu), actions);
    forall dish | dish in s.dishes || dish in s.calls :: IsLatest(menu, actions, dish)
  }

  lemma {:induction false} WithoutIsPart(dishes: seq<Dish>, id: int, dish: Dish)
    ensures dish in Without(dishes, id) <==> dish in dishes && dish.id != id
  {
    if dishes != [] {
      var init := dishes[..|dishes| - 1];
      WithoutIsPart(init, id, dish);
      assert dishes == init + [dishes[|dishes| - 1]];
    }
  }

  /** The dishes after a step are dishes from before it, or the one just saved. */
  lemma StepMovesDishes(s: State, a: Action, dish: Dish)
    requires dish in Step(s, a).dishes || dish in Step(s, a).calls
    ensures (a.Save? && dish == a.updated && dish.id in Ids(s.dishes))
            || ((dish in s.dishes || dish in s.calls) && (a.Save? && dish.id == a.updated.id ==> dish in s.calls))
  {
    if a.Remove? {
      WithoutIsPart(s.dishes, a.id, dish);
    } else if a.Save? && dish in Step(s, a).dishes {
      var i :| 0 <= i < |s.dishes| && Replace(s.dishes, a.updated)[i] == dish;
      assert Ids(s.dishes)[i] == s.dishes[i].id;
    }
  }

  lemma TwiceInIds(ids: seq<int>, i: nat, j: nat)
    requires i < j < |ids| && ids[i] == ids[j]
    ensures Times(ids, ids[i]) >= 2
  {
    assert ids == ids[..i] + [ids[i]] + ids[i + 1..j] + [ids[i]] + ids[j + 1..];
  }

  /** A dish has at most one captured version. */
  lemma OneCall(menu: seq<Dish>, s: State, i: nat, j: nat)
    requires DistinctIds(menu) && Inv(menu, s) && i < |s.calls| && j < |s.calls| && s.calls[i].id == s.calls[j].id
    ensures i == j
  {
    assert Places(s, s.calls[i].id) == Times(Ids(menu), s.calls[i].id) <= 1;
    if i < j {
      TwiceInIds(Ids(s.calls), i, j);
    } else if j < i {
      TwiceInIds(Ids(s.calls), j, i);
    }
  }

  lemma LatestAfterStep(menu: seq<Dish>, actions: seq<Action>, a: Action, dish: Dish)
    requires var before := Exec(Open(menu), actions);
             && DistinctIds(menu) && Inv(menu, before) && VersionsAreLatest(menu, actions) && Harmless(before, a)
             && (dish in Step(before, a).dishes || dish in Step(before, a).calls)
    ensures IsLatest(menu, actions + [a], dish)
  {
    var before := Exec(Open(menu), actions);
    assert (actions + [a])[..|actions|] == actions;
    StepMovesDishes(before, a, dish);
    if a.Save? && dish.id == a.updated.id {
      if dish in before.calls {
        var k :| 0 <= k < |before.calls| && before.calls[k] == dish;
        assert Ids(before.calls)[k] == dish.id;
        var m :| 0 <= m < |before.calls| && before.calls[m] == a.updated;
        OneCall(menu, before, k, m);
      }
      assert Places(before, dish.id) == Times(Ids(menu), dish.id) > 0;
      var i :| 0 <= i < |menu| && Ids(menu)[i] == dish.id;
      assert Latest(menu[i], actions + [a]) == dish;
    } else {
      assert IsLatest(menu, actions, dish);
      var i :| 0 <= i < |menu| && Latest(menu[i], actions) == dish;
      assert Latest(menu[i], actions + [a]) == dish;
    }
  }

  /** The captured version is out of date once another one has been saved. */
  lemma HarmfulSave(menu: seq<Dish>, actions: seq<Action>, a: Action)
    requires Inv(menu, Exec(Open(menu), actions)) && !Harmless(Exec(Open(menu), actions), a)
    ensures !VersionsAreLatest(menu, actions + [a])
  {
    var before := Exec(Open(menu), actions);
    assert (actions + [a])[..|actions|] == actions;
    var k :| 0 <= k < |before.calls| && Ids(before.calls)[k] == a.updated.id;
    var captured := before.calls[k];
    assert captured in Exec(Open(menu), actions + [a]).calls;
    forall i | 0 <= i < |menu| ensures Latest(menu[i], actions + [a]) != captured {
      assert menu[i].id == captured.id ==> Latest(menu[i], actions + [a]) == a.updated;
    }
  }

  lemma StepKeepsVersionsIff(menu: seq<Dish>, actions: seq<Action>, a: Action)
    requires DistinctIds(menu) && VersionsAreLatest(menu, actions)
    ensures VersionsAreLatest(menu, actions + [a]) <==> Harmless(Exec(Open(menu), actions), a)
  {
    InvHolds(menu, actions);
    var s := Exec(Open(menu), actions + [a]);
    assert (actions + [a])[..|actions|] == actions;
    if Harmless(Exec(Open(menu), actions), a) {
      forall dish | dish in s.dishes || dish in s.calls ensures IsLatest(menu, actions + [a], dish) {
        LatestAfterStep(menu, actions, a, dish);
      }
    } else {
      HarmfulSave(menu, actions, a);
    }
  }

  lemma OpenedVersions(menu: seq<Dish>)
    ensures VersionsAreLatest(menu, [])
  {
    forall dish | dish in menu ensures IsLatest(menu, [], dish) {
      var i :| 0 <= i < |menu| && menu[i] == dish;
      assert Latest(menu[i], []) == dish;
    }
  }

  lemma NextKeepsVersionsIff(menu: seq<Dish>, actions: seq<Action>, n: nat)
    requires DistinctIds(menu) && n < |actions| && VersionsAreLatest(menu, actions[..n])
    ensures var next := n + 1; VersionsAreLatest(menu, actions[..next]) <==> HarmlessAt(menu, actions, n)
  {
    var next := n + 1;
    StepKeepsVersionsIff(menu, actions[..n], actions[n]);
    assert actions[..next] == actions[..n] + [actions[n]];
  }

  lemma {:induction false} VersionsUpTo(menu: seq<Dish>, actions: seq<Action>, n: nat)
    requires DistinctIds(menu) && HarmlessRun(menu, actions) && n <= |actions|
    ensures VersionsAreLatest(menu, actions[..n])
    decreases n
  {
    if n == 0 {
      OpenedVersions(menu);
      assert actions[..0] == [];
    } else {
      VersionsUpTo(menu, actions, n - 1);
      NextKeepsVersionsIff(menu, actions, n - 1);
      assert HarmlessAt(menu, actions, n - 1);
    }
  }

  /** In every run: every shown or captured dish is the version saved last, at each point,
      if and only if no save changes a dish whose delete is in flight. */
  lemma VersionsSurviveIff(menu: seq<Dish>, actions: seq<Action>)
    requires DistinctIds(menu)
    ensures (forall n | 0 <= n <= |actions| :: VersionsAreLatest(menu, actions[..n])) <==> HarmlessRun(menu, actions)
  {
    if HarmlessRun(menu, actions) {
      forall n: nat | n <= |actions| ensures VersionsAreLatest(menu, actions[..n]) {
        VersionsUpTo(menu, actions, n);
      }
    } else {
      var n: nat :| n < |actions| && !HarmlessAt(menu, actions, n);
      var next := n + 1;
      if VersionsAreLatest(menu, actions[..n]) {
        NextKeepsVersionsIff(menu, actions, n);
        assert !VersionsAreLatest(menu, actions[..next]);
      }
    }
  }

  /** The guard is exact: a save is kept, in the list or in a captured row, exactly when
      the dish is shown or the captured version is the same. */
  lemma SaveIsKeptIff(menu: seq<Dish>, s: State, updated: Dish)
    requires DistinctIds(menu) && Inv(menu, s) && updated.id in Ids(menu) && updated.id !in s.deleted
    ensures var s' := Step(s, Save(updated));
            (updated in s'.dishes || updated in s'.calls) <==> (updated.id !in s.removingIds || updated in s.calls)
  {
    var s' := Step(s, Save(updated));
    assert Places(s, updated.id) == Times(Ids(menu), updated.id) == 1;
    if updated.id in Ids(s.dishes) {
      var i :| 0 <= i < |s.dishes| && Ids(s.dishes)[i] == updated.id;
      assert s'.dishes[i] == updated;
    } else {
      assert forall i | 0 <= i < |s.dishes| :: s'.dishes[i].id == Ids(s.dishes)[i];
    }
  }

  /** A save answered while the delete is in flight is undone by the rollback. */
  lemma RollbackLosesEdit(captured: Dish, edited: Dish)
    requires captured.id == edited.id && captured != edited
    ensures Exec(Open([captured]), [Remove(captured.id), Save(edited), Fail(0)]).dishes == [captured]
  {
    var actions := [Remove(captured.id), Save(edited), Fail(0)];
    assert actions[..2][..1] == actions[..1] && actions[..1][..0] == [];
    assert Without([captured], captured.id) == Without([], captured.id) == [];
    var removed := Step(Open([captured]), Remove(captured.id));
    assert removed == State([], None, {captured.id}, [captured], []);
    assert Exec(Open([captured]), actions[..1]) == removed;
    assert Exec(Open([captured]), actions[..2]) == Step(removed, Save(edited)) == removed;
  }
}
