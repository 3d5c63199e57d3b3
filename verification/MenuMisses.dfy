/** How the menu cache misses an edit (desktop/src/main/sync.ts:43-87, desktop/src/main/main.ts:
    78-117): what a missed dish needs to come back, and runs that lose one. */
module MenuMisses {
  import opened Wrappers
  import opened LocalStore
  import opened MenuCache

  // ---- a missed dish -------------------------------------------------------------------------

  predicate Has(rows: map<int, MenuRow>, id: int, row: MenuRow) {
    id in rows && rows[id] == row
  }

  predicate BringsRow(p: Pull, id: int, row: MenuRow) {
    p.Got? && Has(AsMap(p.rows), id, row)
  }

  /** The cursor has passed the dish as it is now, and neither the cache nor an answer on its
      way has it so. */
  ghost predicate Missed(s: System, id: int) {
    && Listed(s.server, id) && Within(s.server[id].stamp, s.cursor)
    && !Has(s.cache, id, RowOf(s.server[id]))
    && forall p | 0 <= p < |s.pulls| :: !BringsRow(s.pulls[p], id, RowOf(s.server[id]))
  }

  /** The step does not edit the dish, and is no GET of the renderer that lists it. */
  predicate Ignores(t: TickStep, id: int) {
    match t
    case Plain(Commit(_, changes, removed)) => id !in changes && id !in removed
    case Plain(_) => true
    case WriteThrough(rows) => forall d | d in rows :: d.id != id
  }

  /** `updated_at > since` leaves it out. */
  lemma NotInAnswer(server: Menu, since: Option<int>, rows: seq<Dish>, id: int)
    requires Listed(server, id) && Within(server[id].stamp, since) && IsAnswer(server, since, rows)
    ensures id !in AsMap(rows)
  {
    if id in AsMap(rows) {
      AsMapRows(rows, id);
    }
  }

  lemma PlainKeepsMissed(s: System, a: Action, id: int)
    requires Missed(s, id) && OnePull(s) && SerializedStep(s, TickStep.Plain(a)) && Ignores(TickStep.Plain(a), id)
    ensures Missed(Step(s, a), id)
  {
    var s' := Step(s, a);
    SerializedMoves(s, TickStep.Plain(a));
    if a.AnswerPull? && s' != s {
      NotInAnswer(s.server, s.pulls[a.pull].since, a.rows, id);
    } else if a.ApplyPull? && s' != s {
      UpsertAllIsUnion(s.cache, s.pulls[a.pull].rows);
      assert !BringsRow(s.pulls[a.pull], id, RowOf(s.server[id]));
    }
  }

  lemma WriteThroughKeepsMissed(s: System, rows: seq<Dish>, id: int)
    requires Missed(s, id) && forall d | d in rows :: d.id != id
    ensures Missed(Tick(s, WriteThrough(rows)), id)
  {
    UpsertAllIsUnion(s.cache, rows);
    if id in AsMap(rows) {
      AsMapRows(rows, id);
    }
  }

  /** With serialized pulls, what has been missed once is brought by no later pull: it stays
      missed until the dish is edited again or a GET of the renderer lists it. */
  lemma {:induction false} MissedIsNeverPulled(s: System, ticks: seq<TickStep>, n: nat, m: nat, id: int)
    requires Initial(s) && SerializedRun(s, ticks) && n <= m <= |ticks| && Missed(TickStates(s, ticks)[n], id)
    requires forall k | n <= k < m :: Ignores(ticks[k], id)
    ensures Missed(TickStates(s, ticks)[m], id)
    decreases m
  {
    if n < m {
      MissedIsNeverPulled(s, ticks, n, m - 1, id);
      var before := TickStates(s, ticks)[m - 1];
      OnePullUpTo(s, ticks, m - 1);
      TickStatesAreNext(s, ticks, m - 1);
      assert SerializedStep(ExecTicks(s, ticks[..m - 1]), ticks[m - 1]);
      match ticks[m - 1]
      case Plain(a) => PlainKeepsMissed(before, a, id);
      case WriteThrough(rows) => WriteThroughKeepsMissed(before, rows, id);
    }
  }

  // ---- one dish and its versions ----------------------------------------------------------------

  lemma UpsertOne(menu: map<int, MenuRow>, d: Dish)
    ensures UpsertAll(menu, [d]) == menu[d.id := MenuRow(d.updatedAt, d.body)]
    ensures forall since :: Latest(since, [d]) == Later(since, d.updatedAt)
  {
    assert [d][..0] == [];
  }

  function Only(d: Dish): Menu {
    map[d.id := Entry(d.updatedAt, d.body, true)]
  }

  function Cached(d: Dish): map<int, MenuRow> {
    map[d.id := MenuRow(d.updatedAt, d.body)]
  }

  function Edit(d: Dish): Action {
    Commit(d.updatedAt, Only(d), {})
  }

  lemma OnlyDish(since: Option<int>, d: Dish)
    ensures !Within(d.updatedAt, since) ==> IsAnswer(Only(d), since, [d])
    ensures Within(d.updatedAt, since) ==> IsAnswer(Only(d), since, [])
    ensures IsSelection(Only(d), [d])
  {
    UpsertOne(map[], d);
  }

  /** One pull, from its start to its end, that brings the one dish. */
  lemma PullsDish(s: System, d: Dish)
    requires s.server == Only(d) && !Within(d.updatedAt, s.cursor)
    ensures var s1 := Step(s, BeginPull);
            var s2 := Step(s1, AnswerPull(|s.pulls|, [d]));
            && s1 == s.(pulls := s.pulls + [Asked(s.cursor)])
            && s2 == s.(pulls := s.pulls + [Got(s.cursor, [d], s.clock)])
            && Step(s2, ApplyPull(|s.pulls|)) ==
               s.(cache := s.cache[d.id := MenuRow(d.updatedAt, d.body)], cursor := Some(d.updatedAt), pulls := s.pulls + [Over])
  {
    OnlyDish(s.cursor, d);
    UpsertOne(s.cache, d);
  }

  /** Nothing is cached yet. */
  function BeforeFirstSync(d: Dish): System {
    System(Only(d), d.updatedAt, map[], None, [], [])
  }

  lemma EditReplaces(s: System, older: Dish, newer: Dish)
    requires s.server == Only(older) && older.id == newer.id
    ensures Step(s, Edit(newer)).server == Only(newer)
  {
  }

  // ---- pulls that overlap --------------------------------------------------------------------------

  /** Pull A is answered; the dish is edited; pull B brings the edit. */
  function AfterTwoPulls(older: Dish, newer: Dish): System {
    var a := Step(Step(BeforeFirstSync(older), BeginPull), AnswerPull(0, [older]));
    Step(Step(Step(Step(a, Edit(newer)), BeginPull), AnswerPull(1, [newer])), ApplyPull(1))
  }

  lemma TwoPullsState(older: Dish, newer: Dish)
    requires older.id == newer.id && older.updatedAt < newer.updatedAt
    ensures AfterTwoPulls(older, newer) ==
            System(Only(newer), newer.updatedAt, Cached(newer), Some(newer.updatedAt), [Got(None, [older], older.updatedAt), Over], [])
  {
    var s0 := BeforeFirstSync(older);
    PullsDish(s0, older);
    var s1 := Step(Step(s0, BeginPull), AnswerPull(0, [older]));
    EditReplaces(s1, older, newer);
    PullsDish(Step(s1, Edit(newer)), newer);
  }

  /** Three interleaved pulls, at most two of them under way at once: C reads the cursor
      that B has moved, A's old snapshot is applied, and C moves the cursor back over
      the edit that A has just undone. */
  lemma ThreePullsLoseAnEdit(older: Dish, newer: Dish)
    requires older.id == newer.id && older.updatedAt < newer.updatedAt
    ensures var c := Step(Step(AfterTwoPulls(older, newer), BeginPull), AnswerPull(2, []));
            var s := Step(Step(c, ApplyPull(0)), ApplyPull(2));
            && s.cursor == Some(newer.updatedAt)
            && s.cache == Cached(older)
            && !Covers(s.server, s.cache, s.cursor)
  {
    TwoPullsState(older, newer);
    var s0 := AfterTwoPulls(older, newer);
    OnlyDish(Some(newer.updatedAt), newer);
    var s1 := Step(s0, BeginPull);
    assert s1.pulls == [Got(None, [older], older.updatedAt), Over, Asked(Some(newer.updatedAt))];
    var s2 := Step(s1, AnswerPull(2, []));
    UpsertOne(s0.cache, older);
    var s3 := Step(s2, ApplyPull(0));
    assert s3.cache == Cached(older);
    assert s3.pulls[2] == Got(Some(newer.updatedAt), [], newer.updatedAt);
    var s := Step(s3, ApplyPull(2));
    assert Listed(s.server, newer.id) && s.cache[newer.id] != RowOf(s.server[newer.id]);
  }

  /** A third version is committed with a stamp that the cursor has passed. */
  function AfterLateEdit(first: Dish, second: Dish, third: Dish): System {
    Step(AfterTwoPulls(first, second), Edit(third))
  }

  /** And pull A's old answer arrives. */
  function AfterOldAnswer(first: Dish, second: Dish, third: Dish): System {
    Step(AfterLateEdit(first, second, third), ApplyPull(0))
  }

  lemma OldAnswerState(first: Dish, second: Dish, third: Dish)
    requires first.id == second.id == third.id && first.updatedAt < third.updatedAt < second.updatedAt
    ensures Missed(AfterLateEdit(first, second, third), third.id)
    ensures AfterOldAnswer(first, second, third) ==
            System(Only(third), second.updatedAt, Cached(first), Some(first.updatedAt), [Over, Over], [])
  {
    TwoPullsState(first, second);
    var s0 := AfterTwoPulls(first, second);
    EditReplaces(s0, second, third);
    var s1 := AfterLateEdit(first, second, third);
    assert s1 == s0.(server := Only(third));
    UpsertOne(map[], first);
    UpsertOne(s0.cache, first);
    assert s0.cache[first.id := MenuRow(first.updatedAt, first.body)] == Cached(first);
  }

  lemma FreshAgrees(s: System, d: Dish)
    requires s.server == Only(d) && s.cache == Cached(d) && forall p | p in s.pulls :: p.Over?
    ensures Agreement(s)
  {
    forall p | 0 <= p < |s.pulls| ensures PullAgrees(s, s.pulls[p]) {
      assert s.pulls[p] in s.pulls;
    }
  }

  lemma PulledAgain(s: System, older: Dish, d: Dish)
    requires s.server == Only(d) && s.cache == Cached(older) && older.id == d.id && !Within(d.updatedAt, s.cursor)
    requires s.pulls == [Over, Over]
    ensures var s' := Step(Step(Step(s, BeginPull), AnswerPull(2, [d])), ApplyPull(2));
            s'.cache == Cached(d) && Agreement(s')
  {
    PullsDish(s, d);
    assert Cached(older)[d.id := MenuRow(d.updatedAt, d.body)] == Cached(d);
    FreshAgrees(Step(Step(Step(s, BeginPull), AnswerPull(2, [d])), ApplyPull(2)), d);
  }

  /** Pulls that overlap can also bring a missed dish back: the old answer moves the cursor
      back, so that the next pull asks for the edit again. */
  lemma OverlapBringsBack(first: Dish, second: Dish, third: Dish)
    requires first.id == second.id == third.id && first.updatedAt < third.updatedAt < second.updatedAt
    ensures Missed(AfterLateEdit(first, second, third), third.id)
    ensures var reset := AfterOldAnswer(first, second, third);
            var s := Step(Step(Step(reset, BeginPull), AnswerPull(2, [third])), ApplyPull(2));
            reset.cursor == Some(first.updatedAt) && s.cache == Cached(third) && Agreement(s)
  {
    OldAnswerState(first, second, third);
    PulledAgain(AfterOldAnswer(first, second, third), first, third);
  }

  // ---- write-throughs that overlap a pull ---------------------------------------------------------

  /** A renderer's GET is answered; the dish is edited; a pull brings the edit. */
  function GetOvertaken(older: Dish, newer: Dish): System {
    var asked := Step(BeforeFirstSync(older), AnswerGet([older]));
    Step(Step(Step(Step(asked, Edit(newer)), BeginPull), AnswerPull(0, [newer])), ApplyPull(0))
  }

  lemma OvertakenState(older: Dish, newer: Dish)
    requires older.id == newer.id
    ensures var s := GetOvertaken(older, newer);
            && s.server == Only(newer) && s.cache == Cached(newer) && s.cursor == Some(newer.updatedAt)
            && s.pulls == [Over] && s.throughs == [Through([older], older.updatedAt)]
  {
    OnlyDish(None, older);
    var asked := Step(BeforeFirstSync(older), AnswerGet([older]));
    assert asked.throughs == [Through([older], older.updatedAt)];
    EditReplaces(asked, older, newer);
    PullsDish(Step(asked, Edit(newer)), newer);
  }

  lemma LateGetArrives(older: Dish, newer: Dish)
    requires older.id == newer.id && older != newer
    ensures var s := Step(GetOvertaken(older, newer), ApplyGet(0));
            s.cursor == Some(newer.updatedAt) && s.cache == Cached(older) && !Covers(s.server, s.cache, s.cursor)
  {
    OvertakenState(older, newer);
    UpsertOne(Cached(newer), older);
    var s := Step(GetOvertaken(older, newer), ApplyGet(0));
    assert Cached(newer)[older.id := MenuRow(older.updatedAt, older.body)] == Cached(older);
    assert Listed(s.server, newer.id) && s.cache[newer.id] != RowOf(s.server[newer.id]);
  }

  /** One pull only, but the GET that was answered before it reaches the cache after it:
      the edit is lost as well. */
  lemma SlowWriteThroughLosesAnEdit(older: Dish, newer: Dish)
    requires older.id == newer.id && older.updatedAt < newer.updatedAt
    ensures var s := Step(GetOvertaken(older, newer), ApplyGet(0));
            && s.cursor == Some(newer.updatedAt)
            && s.cache == Cached(older)
            && !Covers(s.server, s.cache, s.cursor)
  {
    LateGetArrives(older, newer);
  }

  /** When an edit is stamped earlier than the version it replaces, comparing stamps would
      not help: the arriving row is not the older one, and the edit is lost. */
  lemma LateStampFoolsComparison(early: Dish, late: Dish)
    requires early.id == late.id && late.updatedAt < early.updatedAt
    ensures var s := GetOvertaken(early, late);
            Agreement(s) && InOrder(s, ApplyGet(0)) && !Agreement(Step(s, ApplyGet(0)))
  {
    OvertakenState(early, late);
    LateGetArrives(early, late);
    UpsertOne(map[], early);
  }

  // ---- a change of token ------------------------------------------------------------------------------

  /** The list is replaced by another restaurant's, whose entries keep their stamps. */
  function Switch(s: System, menu: Menu): Action {
    Commit(s.clock, menu, s.server.Keys - menu.Keys)
  }

  lemma SwitchReplaces(s: System, menu: Menu)
    ensures Step(s, Switch(s, menu)) == s.(server := menu)
  {
    assert Committed(s.server, menu, s.server.Keys - menu.Keys) == menu;
  }

  ghost predicate PullKnows(s: System, p: Pull, menu: Menu) {
    EditIsKnown(View(s, p), Bound(p), menu, {})
  }

  /** A change of token keeps the agreement if and only if each live dish of the new list
      is stamped beyond the cursors in use or cached as it is. */
  lemma SwitchIsSafeIff(s: System, menu: Menu)
    requires Agreement(s)
    ensures Agreement(Step(s, Switch(s, menu))) <==>
            EditIsKnown(s.cache, s.cursor, menu, {}) && forall p | p in s.pulls :: PullKnows(s, p, menu)
  {
    var a := Switch(s, menu);
    StepKeepsAgreementIff(s, a);
    assert EditIsKnown(s.cache, s.cursor, menu, a.removed) <==> EditIsKnown(s.cache, s.cursor, menu, {});
    assert forall q: nat | q < |s.pulls| :: SparedByEdit(s, a, q) <==> PullKnows(s, s.pulls[q], menu);
    assert forall q: nat | q < |s.pulls| :: s.pulls[q] in s.pulls;
  }

  /** One restaurant's menu is pulled, and the token changes to the other restaurant's. */
  function SwitchRun(mine: Dish, theirs: Dish): seq<TickStep> {
    [TickStep.Plain(BeginPull), TickStep.Plain(AnswerPull(0, [mine])), TickStep.Plain(ApplyPull(0)),
     TickStep.Plain(Commit(mine.updatedAt, Only(theirs), {mine.id}))]
  }

  lemma SwitchRunState(mine: Dish, theirs: Dish)
    requires mine.id != theirs.id
    ensures var run, s0 := SwitchRun(mine, theirs), BeforeFirstSync(mine);
            && SerializedRun(s0, run)
            && ExecTicks(s0, run) == System(Only(theirs), mine.updatedAt, Cached(mine), Some(mine.updatedAt), [Over], [])
  {
    var run, s0 := SwitchRun(mine, theirs), BeforeFirstSync(mine);
    assert run[..3] == [run[0], run[1], run[2]] && run[..3][..2] == [run[0], run[1]] && run[..2][..1] == [run[0]] && run[..1][..0] == [];
    assert run[..2] == [run[0], run[1]] && run[..1] == [run[0]] && run[..0] == [];
    PullsDish(s0, mine);
    var s1 := Step(s0, BeginPull);
    assert ExecTicks(s0, [run[0]]) == s1;
    var s2 := Step(s1, AnswerPull(0, [mine]));
    assert ExecTicks(s0, [run[0], run[1]]) == s2;
    var s3 := Step(s2, ApplyPull(0));
    assert ExecTicks(s0, [run[0], run[1], run[2]]) == s3;
    assert s3 == System(Only(mine), mine.updatedAt, Cached(mine), Some(mine.updatedAt), [Over], []);
    assert Committed(Only(mine), Only(theirs), {mine.id}) == Only(theirs);
  }

  /** Nothing overlaps and nothing fails, and yet a dish of the second restaurant that was
      last changed before the cursor is never cached, however many pulls follow, until it is
      edited or the renderer lists it. */
  lemma TokenChangeLosesMenu(mine: Dish, theirs: Dish, more: seq<TickStep>)
    requires mine.id != theirs.id && theirs.updatedAt <= mine.updatedAt
    requires SerializedRun(BeforeFirstSync(mine), SwitchRun(mine, theirs) + more) && forall t | t in more :: Ignores(t, theirs.id)
    ensures Missed(ExecTicks(BeforeFirstSync(mine), SwitchRun(mine, theirs) + more), theirs.id)
  {
    var s0, run := BeforeFirstSync(mine), SwitchRun(mine, theirs);
    var all := run + more;
    SwitchRunState(mine, theirs);
    assert all[..4] == run && all[..|all|] == all;
    assert Missed(TickStates(s0, all)[4], theirs.id);
    forall k | 4 <= k < |all| ensures Ignores(all[k], theirs.id) {
      assert all[k] == more[k - 4];
    }
    MissedIsNeverPulled(s0, all, 4, |all|, theirs.id);
  }
}
