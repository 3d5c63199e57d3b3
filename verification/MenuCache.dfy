/** The cursor-driven copy of the server's menu: pullMenu and the write-through of GET
    requests (desktop/src/main/sync.ts:43-87, desktop/src/main/main.ts:99-112)
    against the server's dish list (src/app/menu/service.py:284-312).

    A pull reads the cursor, the server answers from one snapshot, and the answer is
    applied later; all of this may interleave with other pulls, with write-throughs
    and with edits on the server. */
module MenuCache {
  import opened Wrappers
  import opened LocalStore

  /** A dish in the server's table. It is listed while it is live: on the active menu
      and not archived. */
  datatype Entry = Entry(stamp: int, body: string, live: bool)

  type Menu = map<int, Entry>

  /** A pull: the cursor it read, and the server's answer with the time of the snapshot. */
  datatype Pull = Asked(since: Option<int>) | Got(since: Option<int>, rows: seq<Dish>, at: int) | Over

  /** The answer to a renderer's GET, on its way to the cache. */
  datatype Through = Through(rows: seq<Dish>, at: int)

  datatype System = System(server: Menu, clock: int, cache: map<int, MenuRow>, cursor: Option<int>,
                           pulls: seq<Pull>, throughs: seq<Through>)

  /** A commit brings every entry with its own stamp: edits, and also a change of token,
      which replaces the list that the shell sees by another restaurant's. */
  datatype Action =
    | Commit(now: int, changes: map<int, Entry>, removed: set<int>)
    | BeginPull
    | AnswerPull(pull: nat, rows: seq<Dish>)
    | ApplyPull(pull: nat)
    | FailPull(pull: nat)
    | AnswerGet(rows: seq<Dish>)
    | ApplyGet(get: nat)
    | Restart

  predicate Within(stamp: int, bound: Option<int>) {
    bound.Some? && stamp <= bound.value
  }

  function RowOf(e: Entry): MenuRow {
    MenuRow(e.stamp, e.body)
  }

  predicate Listed(server: Menu, id: int) {
    id in server && server[id].live
  }

  function AsMap(rows: seq<Dish>): map<int, MenuRow> {
    UpsertAll(map[], rows)
  }

  /** `WHERE … AND updated_at > since`, in any order. */
  predicate IsAnswer(server: Menu, since: Option<int>, rows: seq<Dish>) {
    && (forall d | d in rows ::
          Listed(server, d.id) && !Within(server[d.id].stamp, since) && MenuRow(d.updatedAt, d.body) == RowOf(server[d.id]))
    && (forall id | id in server && server[id].live && !Within(server[id].stamp, since) :: id in AsMap(rows))
  }

  /** Any selection of live dishes, as they are. */
  predicate IsSelection(server: Menu, rows: seq<Dish>) {
    forall d | d in rows :: Listed(server, d.id) && MenuRow(d.updatedAt, d.body) == RowOf(server[d.id])
  }

  function Committed(server: Menu, changes: map<int, Entry>, removed: set<int>): Menu {
    (server + changes) - removed
  }

  function Step(s: System, a: Action): System {
    match a
    case Commit(now, changes, removed) =>
      s.(server := Committed(s.server, changes, removed), clock := if now > s.clock then now else s.clock)
    case BeginPull => s.(pulls := s.pulls + [Asked(s.cursor)])
    case AnswerPull(p, rows) =>
      if p < |s.pulls| && s.pulls[p].Asked? && IsAnswer(s.server, s.pulls[p].since, rows)
      then s.(pulls := s.pulls[p := Got(s.pulls[p].since, rows, s.clock)]) else s
    case ApplyPull(p) =>
      if p < |s.pulls| && s.pulls[p].Got? then
        var latest := Latest(s.pulls[p].since, s.pulls[p].rows);
        s.(cache := UpsertAll(s.cache, s.pulls[p].rows),
           cursor := if latest.Some? then latest else s.cursor,
           pulls := s.pulls[p := Over])
      else s
    case FailPull(p) => if p < |s.pulls| then s.(pulls := s.pulls[p := Over]) else s
    case AnswerGet(rows) =>
      if IsSelection(s.server, rows) then s.(throughs := s.throughs + [Through(rows, s.clock)]) else s
    case ApplyGet(w) =>
      if w < |s.throughs| then s.(cache := UpsertAll(s.cache, s.throughs[w].rows), throughs := s.throughs[w := Through([], s.throughs[w].at)])
      else s
    case Restart => s.(pulls := [], throughs := [])
  }

  function Exec(s: System, actions: seq<Action>): System
    decreases |actions|
  {
    if actions == [] then s else Step(Exec(s, actions[..|actions| - 1]), actions[|actions| - 1])
  }

  // ---- rows and cursors ------------------------------------------------------------

  lemma {:induction false} UpsertAllIsUnion(menu: map<int, MenuRow>, rows: seq<Dish>)
    ensures UpsertAll(menu, rows) == menu + AsMap(rows)
  {
    if rows != [] {
      UpsertAllIsUnion(menu, rows[..|rows| - 1]);
    }
  }

  lemma {:induction false} AsMapRows(rows: seq<Dish>, id: int)
    requires id in AsMap(rows)
    ensures exists d | d in rows :: d.id == id && MenuRow(d.updatedAt, d.body) == AsMap(rows)[id]
  {
    var init, last := rows[..|rows| - 1], rows[|rows| - 1];
    if last.id != id {
      AsMapRows(init, id);
      var d :| d in init && d.id == id && MenuRow(d.updatedAt, d.body) == AsMap(init)[id];
      assert d in rows;
    }
  }

  lemma {:induction false} AsMapIds(rows: seq<Dish>, d: Dish)
    requires d in rows
    ensures d.id in AsMap(rows)
  {
    var init, last := rows[..|rows| - 1], rows[|rows| - 1];
    if d != last {
      assert d in init;
      AsMapIds(init, d);
    }
  }

  lemma {:induction false} LatestBounds(cursor: Option<int>, rows: seq<Dish>, top: int)
    requires cursor.Some? ==> cursor.value <= top
    requires forall d | d in rows :: d.updatedAt <= top
    ensures Latest(cursor, rows).Some? ==> Latest(cursor, rows).value <= top
    ensures cursor.Some? ==> Latest(cursor, rows).Some? && cursor.value <= Latest(cursor, rows).value
    ensures Latest(cursor, rows).None? <==> cursor.None? && rows == []
  {
    if rows != [] {
      assert forall d | d in rows[..|rows| - 1] :: d in rows;
      LatestBounds(cursor, rows[..|rows| - 1], top);
      assert rows[|rows| - 1] in rows;
    }
  }

  // ---- agreement --------------------------------------------------------------------

  /** Every live dish last changed at or before `bound` is cached as it is now. */
  ghost predicate Covers(server: Menu, cache: map<int, MenuRow>, bound: Option<int>) {
    forall id | Listed(server, id) && Within(server[id].stamp, bound) :: id in cache && cache[id] == RowOf(server[id])
  }

  /** The cache as it would be if the pull were applied now … */
  function View(s: System, p: Pull): map<int, MenuRow> {
    if p.Got? then s.cache + AsMap(p.rows) else s.cache
  }

  /** … and the cursor it would then store, or ask from. */
  function Bound(p: Pull): Option<int> {
    match p
    case Over => None
    case Asked(since) => since
    case Got(since, rows, _) => Latest(since, rows)
  }

  ghost predicate PullAgrees(s: System, p: Pull) {
    Covers(s.server, View(s, p), Bound(p))
  }

  /** The cache agrees with the server up to the stored cursor, and every pull on its way
      will leave it so. */
  ghost predicate Agreement(s: System) {
    && Covers(s.server, s.cache, s.cursor)
    && forall p | 0 <= p < |s.pulls| :: PullAgrees(s, s.pulls[p])
  }

  /** A pull asked for the exact answer and applied, or an answered one applied. */
  function Finish(s: System, p: nat, rows: seq<Dish>): System {
    if p < |s.pulls| && s.pulls[p].Asked? then Step(Step(s, AnswerPull(p, rows)), ApplyPull(p)) else Step(s, ApplyPull(p))
  }

  ghost predicate LosesAgreement(s: System) {
    || !Covers(s.server, s.cache, s.cursor)
    || exists p: nat, rows :: !Covers(s.server, Finish(s, p, rows).cache, Finish(s, p, rows).cursor)
  }

  /** An answer always exists. */
  lemma {:induction false} AnswerExists(server: Menu, since: Option<int>) returns (rows: seq<Dish>)
    ensures IsAnswer(server, since, rows)
    decreases |server|
  {
    if id: int :| id in server {
      var rest := AnswerExists(server - {id}, since);
      forall d | d in rest ensures d.id != id && Listed(server, d.id) && server[d.id] == (server - {id})[d.id] {
        assert Listed(server - {id}, d.id);
      }
      if server[id].live && !Within(server[id].stamp, since) {
        rows := rest + [Dish(id, server[id].stamp, server[id].body)];
        assert rows[..|rest|] == rest;
      } else {
        rows := rest;
      }
      forall other | other in server && server[other].live && !Within(server[other].stamp, since)
        ensures other in AsMap(rows)
      {
        assert other != id ==> other in server - {id} && (server - {id})[other] == server[other];
      }
    } else {
      rows := [];
    }
  }

  lemma AnswerRows(server: Menu, since: Option<int>, rows: seq<Dish>, id: int)
    requires IsAnswer(server, since, rows) && id in AsMap(rows)
    ensures Listed(server, id) && !Within(server[id].stamp, since) && AsMap(rows)[id] == RowOf(server[id])
  {
    AsMapRows(rows, id);
  }

  lemma LatestGrows(since: Option<int>, rows: seq<Dish>, stamp: int)
    requires Within(stamp, since)
    ensures Within(stamp, Latest(since, rows))
  {
    if rows != [] {
      LatestGrows(since, rows[..|rows| - 1], stamp);
    }
  }

  lemma AnsweredAgrees(s: System, p: nat, rows: seq<Dish>)
    requires p < |s.pulls| && s.pulls[p].Asked? && PullAgrees(s, s.pulls[p]) && IsAnswer(s.server, s.pulls[p].since, rows)
    ensures Covers(s.server, s.cache + AsMap(rows), Latest(s.pulls[p].since, rows))
  {
    forall id | Listed(s.server, id)
      ensures id in s.cache + AsMap(rows) && (s.cache + AsMap(rows))[id] == RowOf(s.server[id])
    {
      if id in AsMap(rows) {
        AnswerRows(s.server, s.pulls[p].since, rows, id);
      } else {
        assert Within(s.server[id].stamp, s.pulls[p].since);
      }
    }
  }

  /** Applying an answered pull leaves exactly the view it promised. */
  lemma AppliedView(s: System, p: nat)
    requires p < |s.pulls| && s.pulls[p].Got?
    ensures var s' := Step(s, ApplyPull(p));
            && s'.cache == View(s, s.pulls[p])
            && (Bound(s.pulls[p]).Some? ==> s'.cursor == Bound(s.pulls[p]))
            && (Bound(s.pulls[p]).None? ==> s'.cursor == s.cursor && s'.cache == s.cache)
  {
    UpsertAllIsUnion(s.cache, s.pulls[p].rows);
    LatestNone(s.pulls[p].since, s.pulls[p].rows);
  }

  lemma LatestNone(since: Option<int>, rows: seq<Dish>)
    ensures Latest(since, rows).None? ==> rows == []
  {
  }

  lemma UnansweredLoses(s: System, p: nat)
    requires p < |s.pulls| && s.pulls[p].Asked? && !PullAgrees(s, s.pulls[p])
    ensures LosesAgreement(s)
  {
    var since := s.pulls[p].since;
    var id :| Listed(s.server, id) && Within(s.server[id].stamp, since) && !(id in s.cache && s.cache[id] == RowOf(s.server[id]));
    var rows := AnswerExists(s.server, since);
    var s1 := Step(s, AnswerPull(p, rows));
    AppliedView(s1, p);
    LatestGrows(since, rows, s.server[id].stamp);
    if id in AsMap(rows) { AnswerRows(s.server, since, rows, id); }
    assert !Covers(s.server, Finish(s, p, rows).cache, Finish(s, p, rows).cursor);
  }

  lemma AnsweredLoses(s: System, p: nat)
    requires p < |s.pulls| && s.pulls[p].Got? && !PullAgrees(s, s.pulls[p])
    ensures LosesAgreement(s)
  {
    AppliedView(s, p);
    assert !Covers(s.server, Finish(s, p, []).cache, Finish(s, p, []).cursor);
  }

  lemma FinishKeepsCovered(s: System, p: nat, rows: seq<Dish>)
    requires Agreement(s)
    ensures Covers(s.server, Finish(s, p, rows).cache, Finish(s, p, rows).cursor)
  {
    if p < |s.pulls| {
      assert PullAgrees(s, s.pulls[p]);
      if s.pulls[p].Asked? && IsAnswer(s.server, s.pulls[p].since, rows) {
        AnsweredAgrees(s, p, rows);
        AppliedView(Step(s, AnswerPull(p, rows)), p);
      } else if s.pulls[p].Got? {
        AppliedView(s, p);
      }
    }
  }

  /** Agreement is no more than what is needed: it fails exactly when the cache is wrong
      already, or one pull that is under way can go on and make it wrong. */
  lemma AgreementIsExact(s: System)
    ensures Agreement(s) <==> !LosesAgreement(s)
  {
    if Agreement(s) {
      forall p: nat, rows ensures Covers(s.server, Finish(s, p, rows).cache, Finish(s, p, rows).cursor) {
        FinishKeepsCovered(s, p, rows);
      }
    } else if Covers(s.server, s.cache, s.cursor) {
      var p: nat :| p < |s.pulls| && !PullAgrees(s, s.pulls[p]);
      if s.pulls[p].Asked? {
        UnansweredLoses(s, p);
      } else {
        AnsweredLoses(s, p);
      }
    }
  }

  // ---- every step, exactly ---------------------------------------------------------------

  /** None of these rows is out of date as far as `bound` reaches. */
  ghost predicate NothingStale(server: Menu, rows: map<int, MenuRow>, bound: Option<int>) {
    forall id | id in rows && Listed(server, id) && Within(server[id].stamp, bound) :: rows[id] == RowOf(server[id])
  }

  /** Each changed entry is beyond what `bound` reaches, or the cache has it already. */
  ghost predicate EditIsKnown(cache: map<int, MenuRow>, bound: Option<int>, changes: map<int, Entry>, removed: set<int>) {
    forall id | id in changes && id !in removed && changes[id].live && Within(changes[id].stamp, bound) ::
      id in cache && cache[id] == RowOf(changes[id])
  }

  /** What arriving rows overwrite of a view: the pull's own rows come on top of them. */
  function Overwritten(rows: seq<Dish>, p: Pull): map<int, MenuRow> {
    if p.Got? then AsMap(rows) - AsMap(p.rows).Keys else AsMap(rows)
  }

  ghost predicate SparesPull(s: System, rows: seq<Dish>, q: nat)
    requires q < |s.pulls|
  {
    NothingStale(s.server, Overwritten(rows, s.pulls[q]), Bound(s.pulls[q]))
  }

  ghost predicate SparedByEdit(s: System, a: Action, q: nat)
    requires q < |s.pulls| && a.Commit?
  {
    EditIsKnown(View(s, s.pulls[q]), Bound(s.pulls[q]), a.changes, a.removed)
  }

  ghost predicate Harmless(s: System, a: Action) {
    match a
    case Commit(_, changes, removed) =>
      && EditIsKnown(s.cache, s.cursor, changes, removed)
      && forall q: nat | q < |s.pulls| :: SparedByEdit(s, a, q)
    case ApplyPull(p) =>
      p < |s.pulls| && s.pulls[p].Got? ==> forall q: nat | q < |s.pulls| && q != p :: SparesPull(s, s.pulls[p].rows, q)
    case ApplyGet(w) =>
      w < |s.throughs| ==>
        && NothingStale(s.server, AsMap(s.throughs[w].rows), s.cursor)
        && forall q: nat | q < |s.pulls| :: SparesPull(s, s.throughs[w].rows, q)
    case _ => true
  }

  lemma OverwriteIff(server: Menu, cache: map<int, MenuRow>, rows: map<int, MenuRow>, bound: Option<int>)
    requires Covers(server, cache, bound)
    ensures Covers(server, cache + rows, bound) <==> NothingStale(server, rows, bound)
  {
    if Covers(server, cache + rows, bound) {
      forall id | id in rows && Listed(server, id) && Within(server[id].stamp, bound)
        ensures rows[id] == RowOf(server[id])
      {
        assert (cache + rows)[id] == rows[id];
      }
    }
  }

  /** The cache keeps its coverage through a commit exactly when each changed entry is
      stamped beyond the bound or is known already. */
  lemma CommitKeepsCoverageIff(server: Menu, cache: map<int, MenuRow>, bound: Option<int>,
                               changes: map<int, Entry>, removed: set<int>)
    requires Covers(server, cache, bound)
    ensures Covers(Committed(server, changes, removed), cache, bound) <==> EditIsKnown(cache, bound, changes, removed)
  {
    var after := Committed(server, changes, removed);
    forall id | id in after
      ensures id !in removed && after[id] == if id in changes then changes[id] else server[id]
    {
    }
    if Covers(after, cache, bound) {
      forall id | id in changes && id !in removed && changes[id].live && Within(changes[id].stamp, bound)
        ensures id in cache && cache[id] == RowOf(changes[id])
      {
        assert Listed(after, id) && after[id] == changes[id];
      }
    }
  }

  lemma ArrivalView(s: System, s': System, rows: seq<Dish>, q: nat)
    requires q < |s.pulls| && q < |s'.pulls| && s'.pulls[q] == s.pulls[q] && PullAgrees(s, s.pulls[q])
    requires s'.server == s.server && s'.cache == UpsertAll(s.cache, rows)
    ensures PullAgrees(s', s'.pulls[q]) <==> SparesPull(s, rows, q)
  {
    var p := s.pulls[q];
    UpsertAllIsUnion(s.cache, rows);
    OverwriteIff(s.server, View(s, p), Overwritten(rows, p), Bound(p));
    assert View(s', p) == View(s, p) + Overwritten(rows, p);
  }

  lemma ApplyPullIff(s: System, p: nat)
    requires Agreement(s) && p < |s.pulls| && s.pulls[p].Got?
    ensures Agreement(Step(s, ApplyPull(p))) <==> Harmless(s, ApplyPull(p))
  {
    var s' := Step(s, ApplyPull(p));
    assert PullAgrees(s, s.pulls[p]) && PullAgrees(s', s'.pulls[p]);
    AppliedView(s, p);
    forall q: nat | q < |s.pulls| && q != p
      ensures PullAgrees(s', s'.pulls[q]) <==> SparesPull(s, s.pulls[p].rows, q)
    {
      ArrivalView(s, s', s.pulls[p].rows, q);
    }
  }

  lemma ApplyGetIff(s: System, w: nat)
    requires Agreement(s) && w < |s.throughs|
    ensures Agreement(Step(s, ApplyGet(w))) <==> Harmless(s, ApplyGet(w))
  {
    var s', rows := Step(s, ApplyGet(w)), s.throughs[w].rows;
    UpsertAllIsUnion(s.cache, rows);
    OverwriteIff(s.server, s.cache, AsMap(rows), s.cursor);
    forall q: nat | q < |s.pulls|
      ensures PullAgrees(s', s'.pulls[q]) <==> SparesPull(s, rows, q)
    {
      ArrivalView(s, s', rows, q);
    }
  }

  lemma CommitIff(s: System, a: Action)
    requires Agreement(s) && a.Commit?
    ensures Agreement(Step(s, a)) <==> Harmless(s, a)
  {
    var s' := Step(s, a);
    CommitKeepsCoverageIff(s.server, s.cache, s.cursor, a.changes, a.removed);
    forall q: nat | q < |s.pulls|
      ensures PullAgrees(s', s'.pulls[q]) <==> SparedByEdit(s, a, q)
    {
      assert PullAgrees(s, s.pulls[q]) && View(s', s.pulls[q]) == View(s, s.pulls[q]);
      CommitKeepsCoverageIff(s.server, View(s, s.pulls[q]), Bound(s.pulls[q]), a.changes, a.removed);
    }
  }

  lemma AnswerKeepsAgreement(s: System, p: nat, rows: seq<Dish>)
    requires Agreement(s)
    ensures Agreement(Step(s, AnswerPull(p, rows)))
  {
    var s' := Step(s, AnswerPull(p, rows));
    if s' != s {
      assert PullAgrees(s, s.pulls[p]);
      AnsweredAgrees(s, p, rows);
      forall q: nat | q < |s'.pulls| ensures PullAgrees(s', s'.pulls[q]) {
        assert PullAgrees(s, s.pulls[q]);
      }
    }
  }

  lemma QuietKeepsAgreement(s: System, a: Action)
    requires Agreement(s) && (a.BeginPull? || a.FailPull? || a.AnswerGet? || a.Restart?)
    ensures Agreement(Step(s, a))
  {
    var s' := Step(s, a);
    forall q: nat | q < |s'.pulls| ensures PullAgrees(s', s'.pulls[q]) {
      assert q < |s.pulls| ==> PullAgrees(s, s.pulls[q]);
    }
  }

  /** Each step keeps agreement if and only if it meets its guard: each entry of a commit is
      beyond every cursor in use or known already, and an arriving snapshot overwrites nothing that a
      cursor in use has passed with an out-of-date row. */
  lemma StepKeepsAgreementIff(s: System, a: Action)
    requires Agreement(s)
    ensures Agreement(Step(s, a)) <==> Harmless(s, a)
  {
    match a
    case Commit(_, _, _) => CommitIff(s, a);
    case AnswerPull(p, rows) => AnswerKeepsAgreement(s, p, rows);
    case ApplyPull(p) => if p < |s.pulls| && s.pulls[p].Got? { ApplyPullIff(s, p); }
    case ApplyGet(w) => if w < |s.throughs| { ApplyGetIff(s, w); }
    case BeginPull => QuietKeepsAgreement(s, a);
    case FailPull(_) => QuietKeepsAgreement(s, a);
    case AnswerGet(_) => QuietKeepsAgreement(s, a);
    case Restart => QuietKeepsAgreement(s, a);
  }

  // ---- whole runs --------------------------------------------------------------------------

  function States(s: System, actions: seq<Action>): (states: seq<System>)
    ensures |states| == |actions| + 1
  {
    seq(|actions| + 1, n requires 0 <= n <= |actions| => Exec(s, actions[..n]))
  }

  ghost predicate Next(states: seq<System>, actions: seq<Action>, k: nat)
    requires k + 1 < |states| && k < |actions|
  {
    states[k + 1] == Step(states[k], actions[k])
  }

  lemma StatesAreNext(s: System, actions: seq<Action>, k: nat)
    requires k < |actions|
    ensures Next(States(s, actions), actions, k)
  {
    var next := k + 1;
    assert actions[..next][..k] == actions[..k];
    assert Exec(s, actions[..next]) == Step(Exec(s, actions[..k]), actions[k]);
  }

  ghost predicate AgreesThroughout(s: System, actions: seq<Action>) {
    forall n | 0 <= n <= |actions| :: Agreement(States(s, actions)[n])
  }

  ghost predicate HarmlessRun(s: System, actions: seq<Action>) {
    forall n | 0 <= n < |actions| :: Harmless(States(s, actions)[n], actions[n])
  }

  lemma {:induction false} AgreesUpTo(s: System, actions: seq<Action>, m: nat)
    requires Agreement(s) && HarmlessRun(s, actions) && m <= |actions|
    ensures Agreement(States(s, actions)[m])
    decreases m
  {
    if m == 0 {
      assert actions[..0] == [];
    } else {
      AgreesUpTo(s, actions, m - 1);
      StatesAreNext(s, actions, m - 1);
      StepKeepsAgreementIff(States(s, actions)[m - 1], actions[m - 1]);
    }
  }

  /** In every run, whatever overlaps and however the server stamps its edits: the cache
      and every pull agree with the server after each step if and only if each step meets
      its guard. */
  lemma CacheAgreesIff(s: System, actions: seq<Action>)
    requires Agreement(s)
    ensures AgreesThroughout(s, actions) <==> HarmlessRun(s, actions)
  {
    if HarmlessRun(s, actions) {
      forall m: nat | m <= |actions| ensures Agreement(States(s, actions)[m]) {
        AgreesUpTo(s, actions, m);
      }
    } else {
      var n: nat :| n < |actions| && !Harmless(States(s, actions)[n], actions[n]);
      StatesAreNext(s, actions, n);
      var next := n + 1;
      if Agreement(States(s, actions)[n]) {
        StepKeepsAgreementIff(States(s, actions)[n], actions[n]);
        assert !Agreement(States(s, actions)[next]);
      }
    }
  }

  // ---- the comparison that the upsert leaves out ----------------------------------------------

  /** A row from a snapshot taken at `at` is current unless the dish changed later. */
  ghost predicate Snapshot(server: Menu, rows: seq<Dish>, at: int) {
    && (forall d | d in rows :: d.updatedAt <= at)
    && (forall id | id in AsMap(rows) && Listed(server, id) && server[id].stamp <= at ::
          AsMap(rows)[id] == RowOf(server[id]))
  }

  /** The answer to a pull leaves out nothing that had changed since its cursor. */
  ghost predicate Complete(server: Menu, since: Option<int>, rows: seq<Dish>, at: int) {
    forall id | Listed(server, id) && server[id].stamp <= at && !Within(server[id].stamp, since) :: id in AsMap(rows)
  }

  ghost predicate PullSnapshot(s: System, p: Pull) {
    p.Got? ==> p.at <= s.clock && Snapshot(s.server, p.rows, p.at) && Complete(s.server, p.since, p.rows, p.at)
  }

  ghost predicate ThroughSnapshot(s: System, w: Through) {
    w.at <= s.clock && Snapshot(s.server, w.rows, w.at)
  }

  /** Every answer on its way is what the server held at some moment. */
  ghost predicate Snapshots(s: System) {
    && (forall id | id in s.server :: s.server[id].stamp <= s.clock)
    && (forall p | 0 <= p < |s.pulls| :: PullSnapshot(s, s.pulls[p]))
    && (forall w | 0 <= w < |s.throughs| :: ThroughSnapshot(s, s.throughs[w]))
  }

  /** No row of a live dish within the bound is older than the row it overwrites. */
  ghost predicate NoneOlder(server: Menu, cache: map<int, MenuRow>, rows: map<int, MenuRow>, bound: Option<int>) {
    forall id | id in rows && id in cache && Listed(server, id) && Within(server[id].stamp, bound) ::
      cache[id].updatedAt <= rows[id].updatedAt
  }

  lemma StaleIsOlder(server: Menu, cache: map<int, MenuRow>, rows: seq<Dish>, at: int, part: map<int, MenuRow>, bound: Option<int>)
    requires Covers(server, cache, bound) && Snapshot(server, rows, at)
    requires forall id | id in part :: id in AsMap(rows) && part[id] == AsMap(rows)[id]
    ensures NothingStale(server, part, bound) <==> NoneOlder(server, cache, part, bound)
  {
    forall id | id in part && Listed(server, id) && Within(server[id].stamp, bound)
      ensures part[id] == RowOf(server[id]) <==> cache[id].updatedAt <= part[id].updatedAt
    {
      AsMapRows(rows, id);
      assert cache[id] == RowOf(server[id]);
    }
  }

  ghost predicate NoneOlderForPull(s: System, rows: seq<Dish>, q: nat)
    requires q < |s.pulls|
  {
    NoneOlder(s.server, View(s, s.pulls[q]), Overwritten(rows, s.pulls[q]), Bound(s.pulls[q]))
  }

  /** The version check for an arriving answer. */
  ghost predicate InOrder(s: System, a: Action) {
    match a
    case ApplyPull(p) =>
      p < |s.pulls| && s.pulls[p].Got? ==> forall q: nat | q < |s.pulls| && q != p :: NoneOlderForPull(s, s.pulls[p].rows, q)
    case ApplyGet(w) =>
      w < |s.throughs| ==>
        && NoneOlder(s.server, s.cache, AsMap(s.throughs[w].rows), s.cursor)
        && forall q: nat | q < |s.pulls| :: NoneOlderForPull(s, s.throughs[w].rows, q)
    case _ => true
  }

  lemma SparesIsNoneOlder(s: System, rows: seq<Dish>, at: int, q: nat)
    requires q < |s.pulls| && PullAgrees(s, s.pulls[q]) && Snapshot(s.server, rows, at)
    ensures SparesPull(s, rows, q) <==> NoneOlderForPull(s, rows, q)
  {
    StaleIsOlder(s.server, View(s, s.pulls[q]), rows, at, Overwritten(rows, s.pulls[q]), Bound(s.pulls[q]));
  }

  lemma ArrivalInState(s: System, a: Action)
    requires Agreement(s) && Snapshots(s) && (a.ApplyPull? || a.ApplyGet?)
    ensures Agreement(Step(s, a)) <==> InOrder(s, a)
  {
    StepKeepsAgreementIff(s, a);
    if a.ApplyPull? && a.pull < |s.pulls| && s.pulls[a.pull].Got? {
      var p := s.pulls[a.pull];
      assert PullSnapshot(s, p);
      forall q: nat | q < |s.pulls| && q != a.pull
        ensures SparesPull(s, p.rows, q) <==> NoneOlderForPull(s, p.rows, q)
      {
        assert PullAgrees(s, s.pulls[q]);
        SparesIsNoneOlder(s, p.rows, p.at, q);
      }
    } else if a.ApplyGet? && a.get < |s.throughs| {
      var w := s.throughs[a.get];
      assert ThroughSnapshot(s, w);
      StaleIsOlder(s.server, s.cache, w.rows, w.at, AsMap(w.rows), s.cursor);
      forall q: nat | q < |s.pulls|
        ensures SparesPull(s, w.rows, q) <==> NoneOlderForPull(s, w.rows, q)
      {
        assert PullAgrees(s, s.pulls[q]);
        SparesIsNoneOlder(s, w.rows, w.at, q);
      }
    }
  }

  lemma CoversSnapshotInState(s: System, p: nat)
    requires p < |s.pulls| && s.pulls[p].Got? && PullAgrees(s, s.pulls[p]) && PullSnapshot(s, s.pulls[p])
    ensures Covers(s.server, Step(s, ApplyPull(p)).cache, Some(s.pulls[p].at))
  {
    var pull := s.pulls[p];
    UpsertAllIsUnion(s.cache, pull.rows);
    forall id | Listed(s.server, id) && Within(s.server[id].stamp, Some(pull.at))
      ensures id in View(s, pull) && View(s, pull)[id] == RowOf(s.server[id])
    {
      if id !in AsMap(pull.rows) {
        LatestGrows(pull.since, pull.rows, s.server[id].stamp);
      }
    }
  }

  /** The entries of a commit are stamped later than everything before, and not later than
      the commit itself. */
  predicate LaterEdit(s: System, a: Action) {
    a.Commit? ==> forall id | id in a.changes :: s.clock < a.changes[id].stamp <= a.now
  }

  lemma CommitKeepsSnapshot(server: Menu, clock: int, changes: map<int, Entry>, removed: set<int>, rows: seq<Dish>, at: int)
    requires Snapshot(server, rows, at) && at <= clock && forall id | id in changes :: clock < changes[id].stamp
    ensures Snapshot(Committed(server, changes, removed), rows, at)
  {
    var after := Committed(server, changes, removed);
    forall id | id in AsMap(rows) && Listed(after, id) && after[id].stamp <= at
      ensures AsMap(rows)[id] == RowOf(after[id])
    {
      assert after[id] == server[id];
    }
  }

  lemma CommitKeepsComplete(server: Menu, clock: int, changes: map<int, Entry>, removed: set<int>,
                            since: Option<int>, rows: seq<Dish>, at: int)
    requires Complete(server, since, rows, at) && at <= clock && forall id | id in changes :: clock < changes[id].stamp
    ensures Complete(Committed(server, changes, removed), since, rows, at)
  {
    var after := Committed(server, changes, removed);
    forall id | Listed(after, id) && after[id].stamp <= at && !Within(after[id].stamp, since)
      ensures id in AsMap(rows)
    {
      assert after[id] == server[id];
    }
  }

  lemma FreshSnapshot(server: Menu, rows: seq<Dish>, clock: int)
    requires IsSelection(server, rows) && forall id | id in server :: server[id].stamp <= clock
    ensures Snapshot(server, rows, clock)
  {
    forall id | id in AsMap(rows)
      ensures Listed(server, id) && AsMap(rows)[id] == RowOf(server[id])
    {
      AsMapRows(rows, id);
    }
  }

  lemma StepKeepsSnapshots(s: System, a: Action)
    requires Snapshots(s) && LaterEdit(s, a)
    ensures Snapshots(Step(s, a))
  {
    var s' := Step(s, a);
    if (a.AnswerPull? || a.AnswerGet?) && s' != s { FreshSnapshot(s.server, a.rows, s.clock); }
    forall p: nat | p < |s'.pulls| ensures PullSnapshot(s', s'.pulls[p]) {
      if p < |s.pulls| {
        assert PullSnapshot(s, s.pulls[p]);
        if a.Commit? && s.pulls[p].Got? {
          CommitKeepsSnapshot(s.server, s.clock, a.changes, a.removed, s.pulls[p].rows, s.pulls[p].at);
          CommitKeepsComplete(s.server, s.clock, a.changes, a.removed, s.pulls[p].since, s.pulls[p].rows, s.pulls[p].at);
        }
      }
    }
    forall w: nat | w < |s'.throughs| ensures ThroughSnapshot(s', s'.throughs[w]) {
      if w < |s.throughs| {
        assert ThroughSnapshot(s, s.throughs[w]);
        if a.Commit? {
          CommitKeepsSnapshot(s.server, s.clock, a.changes, a.removed, s.throughs[w].rows, s.throughs[w].at);
        }
      }
    }
  }

  /** A shell that has never synced, against any server. */
  predicate Initial(s: System) {
    && s.cache == map[] && s.cursor == None && s.pulls == [] && s.throughs == []
    && forall id | id in s.server :: s.server[id].stamp <= s.clock
  }

  /** A run whose edits are stamped in the order of their commits. */
  ghost predicate StampedInOrder(s: System, actions: seq<Action>) {
    forall n | 0 <= n < |actions| :: LaterEdit(States(s, actions)[n], actions[n])
  }

  lemma {:induction false} SnapshotsUpTo(s: System, actions: seq<Action>, m: nat)
    requires Initial(s) && StampedInOrder(s, actions) && m <= |actions|
    ensures Snapshots(States(s, actions)[m])
    decreases m
  {
    if m == 0 {
      assert actions[..0] == [];
    } else {
      SnapshotsUpTo(s, actions, m - 1);
      StatesAreNext(s, actions, m - 1);
      StepKeepsSnapshots(States(s, actions)[m - 1], actions[m - 1]);
    }
  }

  /** In every such run every answer on its way is what the server held at some moment. */
  lemma SnapshotsHold(s: System, actions: seq<Action>)
    requires Initial(s) && StampedInOrder(s, actions)
    ensures Snapshots(Exec(s, actions))
  {
    SnapshotsUpTo(s, actions, |actions|);
    assert actions[..|actions|] == actions;
  }

  /** At any point of a run whose edits are stamped in order, an answer keeps the agreement
      if and only if none of its rows for a live dish, as far as a cursor in use reaches, is
      older than the row it overwrites. The upsert does not make this comparison; where it
      fails, LosesAgreement says what can follow. */
  lemma ArrivalIsSafeIff(s: System, actions: seq<Action>, a: Action)
    requires Initial(s) && StampedInOrder(s, actions) && Agreement(Exec(s, actions)) && (a.ApplyPull? || a.ApplyGet?)
    ensures Agreement(Step(Exec(s, actions), a)) <==> InOrder(Exec(s, actions), a)
    ensures LosesAgreement(Step(Exec(s, actions), a)) <==> !InOrder(Exec(s, actions), a)
  {
    SnapshotsHold(s, actions);
    ArrivalInState(Exec(s, actions), a);
    AgreementIsExact(Step(Exec(s, actions), a));
  }

  /** In such a run an applied pull makes the cache right for everything changed up to its
      snapshot. */
  lemma AppliedPullCoversSnapshot(s: System, actions: seq<Action>, p: nat)
    requires Initial(s) && StampedInOrder(s, actions)
    requires var c := Exec(s, actions); p < |c.pulls| && c.pulls[p].Got? && PullAgrees(c, c.pulls[p])
    ensures var c := Exec(s, actions); Covers(c.server, Step(c, ApplyPull(p)).cache, Some(c.pulls[p].at))
  {
    SnapshotsHold(s, actions);
    CoversSnapshotInState(Exec(s, actions), p);
  }

  // ---- ticks that do not overlap ------------------------------------------------------

  /** A step, or a write-through in one piece. */
  datatype TickStep = Plain(action: Action) | WriteThrough(rows: seq<Dish>)

  /** A pull begins only when the one before is over, and a write-through is not
      interrupted between the server's answer and its arrival. */
  ghost predicate SerializedStep(s: System, t: TickStep) {
    match t
    case Plain(BeginPull) => forall p | p in s.pulls :: p.Over?
    case Plain(AnswerGet(_)) => false
    case Plain(ApplyGet(_)) => false
    case _ => true
  }

  function Tick(s: System, t: TickStep): System {
    match t
    case Plain(a) => Step(s, a)
    case WriteThrough(rows) => Step(Step(s, AnswerGet(rows)), ApplyGet(|s.throughs|))
  }

  function ExecTicks(s: System, ticks: seq<TickStep>): System
    decreases |ticks|
  {
    if ticks == [] then s else Tick(ExecTicks(s, ticks[..|ticks| - 1]), ticks[|ticks| - 1])
  }

  ghost predicate SerializedRun(s: System, ticks: seq<TickStep>) {
    forall n | 0 <= n < |ticks| :: SerializedStep(ExecTicks(s, ticks[..n]), ticks[n])
  }

  /** At most one pull is under way, and it has read the stored cursor. */
  ghost predicate OnePull(s: System) {
    && (forall p, q | 0 <= p < q < |s.pulls| :: s.pulls[p].Over? || s.pulls[q].Over?)
    && (forall p | 0 <= p < |s.pulls| && !s.pulls[p].Over? :: s.pulls[p].since == s.cursor)
  }

  lemma SelectionIsNeverStale(server: Menu, rows: seq<Dish>, part: map<int, MenuRow>, bound: Option<int>)
    requires IsSelection(server, rows) && forall id | id in part :: id in AsMap(rows) && part[id] == AsMap(rows)[id]
    ensures NothingStale(server, part, bound)
  {
    forall id | id in part
      ensures Listed(server, id) && part[id] == RowOf(server[id])
    {
      AsMapRows(rows, id);
    }
  }

  predicate CursorMoves(before: Option<int>, after: Option<int>) {
    before.Some? ==> after.Some? && before.value <= after.value
  }

  lemma {:induction false} LatestIsLater(since: Option<int>, rows: seq<Dish>)
    ensures CursorMoves(since, Latest(since, rows))
  {
    if rows != [] {
      LatestIsLater(since, rows[..|rows| - 1]);
    }
  }

  /** The guard of a tick step: only an edit can break the agreement. */
  ghost predicate HarmlessTick(s: System, t: TickStep) {
    t.Plain? && t.action.Commit? ==> Harmless(s, t.action)
  }

  /** With serialized pulls the cursor never goes back, whatever the server does. */
  lemma SerializedMoves(s: System, t: TickStep)
    requires OnePull(s) && SerializedStep(s, t)
    ensures OnePull(Tick(s, t)) && CursorMoves(s.cursor, Tick(s, t).cursor)
  {
    if t.Plain? && t.action.ApplyPull? && t.action.pull < |s.pulls| && s.pulls[t.action.pull].Got? {
      LatestIsLater(s.pulls[t.action.pull].since, s.pulls[t.action.pull].rows);
    }
    if t.Plain? && t.action.BeginPull? {
      assert forall p | 0 <= p < |s.pulls| :: s.pulls[p] in s.pulls;
    }
  }

  lemma SerializedPlainIff(s: System, a: Action)
    requires Agreement(s) && OnePull(s) && SerializedStep(s, TickStep.Plain(a))
    ensures Agreement(Step(s, a)) <==> HarmlessTick(s, TickStep.Plain(a))
  {
    StepKeepsAgreementIff(s, a);
    if a.ApplyPull? && a.pull < |s.pulls| && s.pulls[a.pull].Got? {
      assert forall q: nat | q < |s.pulls| && q != a.pull :: s.pulls[q].Over?;
      assert forall q: nat | q < |s.pulls| && q != a.pull :: SparesPull(s, s.pulls[a.pull].rows, q);
    }
  }

  lemma WriteThroughKeeps(s: System, rows: seq<Dish>)
    requires Agreement(s)
    ensures var s' := Tick(s, WriteThrough(rows));
            Agreement(s')
  {
    var s1 := Step(s, AnswerGet(rows));
    StepKeepsAgreementIff(s, AnswerGet(rows));
    if s1 != s {
      SelectionIsNeverStale(s.server, rows, AsMap(rows), s.cursor);
      forall q: nat | q < |s1.pulls| ensures SparesPull(s1, rows, q) {
        SelectionIsNeverStale(s.server, rows, Overwritten(rows, s.pulls[q]), Bound(s.pulls[q]));
      }
      StepKeepsAgreementIff(s1, ApplyGet(|s.throughs|));
    }
  }

  lemma SerializedTickIff(s: System, t: TickStep)
    requires Agreement(s) && OnePull(s) && SerializedStep(s, t)
    ensures Agreement(Tick(s, t)) <==> HarmlessTick(s, t)
  {
    match t
    case Plain(a) => SerializedPlainIff(s, a);
    case WriteThrough(rows) => WriteThroughKeeps(s, rows);
  }

  function TickStates(s: System, ticks: seq<TickStep>): (states: seq<System>)
    ensures |states| == |ticks| + 1
  {
    seq(|ticks| + 1, n requires 0 <= n <= |ticks| => ExecTicks(s, ticks[..n]))
  }

  lemma TickStatesAreNext(s: System, ticks: seq<TickStep>, k: nat)
    requires k < |ticks|
    ensures var next := k + 1; TickStates(s, ticks)[next] == Tick(TickStates(s, ticks)[k], ticks[k])
  {
    var next := k + 1;
    assert ticks[..next][..k] == ticks[..k];
    assert ExecTicks(s, ticks[..next]) == Tick(ExecTicks(s, ticks[..k]), ticks[k]);
  }

  lemma {:induction false} OnePullUpTo(s: System, ticks: seq<TickStep>, m: nat)
    requires Initial(s) && SerializedRun(s, ticks) && m <= |ticks|
    ensures OnePull(TickStates(s, ticks)[m])
    ensures m > 0 ==> CursorMoves(TickStates(s, ticks)[m - 1].cursor, TickStates(s, ticks)[m].cursor)
    decreases m
  {
    if m == 0 {
      assert ticks[..0] == [];
    } else {
      OnePullUpTo(s, ticks, m - 1);
      TickStatesAreNext(s, ticks, m - 1);
      assert SerializedStep(ExecTicks(s, ticks[..m - 1]), ticks[m - 1]);
      SerializedMoves(TickStates(s, ticks)[m - 1], ticks[m - 1]);
    }
  }

  lemma {:induction false} SerializedUpTo(s: System, ticks: seq<TickStep>, m: nat)
    requires Initial(s) && SerializedRun(s, ticks) && m <= |ticks|
    requires forall n: nat | n < m :: HarmlessTick(TickStates(s, ticks)[n], ticks[n])
    ensures Agreement(TickStates(s, ticks)[m])
    decreases m
  {
    if m == 0 {
      assert ticks[..0] == [];
    } else {
      SerializedUpTo(s, ticks, m - 1);
      OnePullUpTo(s, ticks, m - 1);
      TickStatesAreNext(s, ticks, m - 1);
      assert SerializedStep(ExecTicks(s, ticks[..m - 1]), ticks[m - 1]);
      SerializedTickIff(TickStates(s, ticks)[m - 1], ticks[m - 1]);
    }
  }

  /** With serialized pulls and atomic write-throughs, however the server stamps its edits:
      the cache agrees with the server after every step if and only if every edit is beyond
      the cursors in use or known already when it is committed. */
  lemma {:induction false} SerializedCacheAgreesIff(s: System, ticks: seq<TickStep>)
    requires Initial(s) && SerializedRun(s, ticks)
    ensures (forall n | 0 <= n <= |ticks| :: Agreement(TickStates(s, ticks)[n]))
            <==> (forall n | 0 <= n < |ticks| :: HarmlessTick(TickStates(s, ticks)[n], ticks[n]))
  {
    if n: nat :| n < |ticks| && !HarmlessTick(TickStates(s, ticks)[n], ticks[n]) && FirstHarm(s, ticks, n) {
      SerializedUpTo(s, ticks, n);
      OnePullUpTo(s, ticks, n);
      TickStatesAreNext(s, ticks, n);
      assert SerializedStep(ExecTicks(s, ticks[..n]), ticks[n]);
      SerializedTickIff(TickStates(s, ticks)[n], ticks[n]);
      var next := n + 1;
      assert !Agreement(TickStates(s, ticks)[next]);
    } else {
      NoHarm(s, ticks, |ticks|);
      forall n: nat | n <= |ticks| ensures Agreement(TickStates(s, ticks)[n]) {
        SerializedUpTo(s, ticks, n);
      }
    }
  }

  ghost predicate FirstHarm(s: System, ticks: seq<TickStep>, n: nat)
    requires n < |ticks|
  {
    forall m: nat | m < n :: HarmlessTick(TickStates(s, ticks)[m], ticks[m])
  }

  lemma {:induction false} NoHarm(s: System, ticks: seq<TickStep>, m: nat)
    requires m <= |ticks|
    requires forall n: nat | n < |ticks| && !HarmlessTick(TickStates(s, ticks)[n], ticks[n]) :: !FirstHarm(s, ticks, n)
    ensures forall n: nat | n < m :: HarmlessTick(TickStates(s, ticks)[n], ticks[n])
    decreases m
  {
    if m > 0 {
      NoHarm(s, ticks, m - 1);
      assert FirstHarm(s, ticks, m - 1);
    }
  }

  /** Cursors and answers reach no further than the server's clock. */
  ghost predicate Reached(s: System) {
    && (forall id | id in s.server :: s.server[id].stamp <= s.clock)
    && (s.cursor.Some? ==> s.cursor.value <= s.clock)
    && (forall p | 0 <= p < |s.pulls| && Bound(s.pulls[p]).Some? :: Bound(s.pulls[p]).value <= s.clock)
  }

  lemma StepKeepsReached(s: System, a: Action)
    requires Reached(s) && LaterEdit(s, a)
    ensures Reached(Step(s, a))
  {
    if a.AnswerPull? && Step(s, a) != s {
      LatestBounds(s.pulls[a.pull].since, a.rows, s.clock);
      assert Bound(s.pulls[a.pull]) == s.pulls[a.pull].since;
    }
  }

  lemma TickKeepsReached(s: System, t: TickStep)
    requires Reached(s) && LaterTick(s, t)
    ensures Reached(Tick(s, t))
  {
    match t
    case Plain(a) => StepKeepsReached(s, a);
    case WriteThrough(rows) =>
      StepKeepsReached(s, AnswerGet(rows));
      StepKeepsReached(Step(s, AnswerGet(rows)), ApplyGet(|s.throughs|));
  }

  predicate LaterTick(s: System, t: TickStep) {
    t.Plain? ==> LaterEdit(s, t.action)
  }

  lemma {:induction false} ReachedUpTo(s: System, ticks: seq<TickStep>, m: nat)
    requires Initial(s) && m <= |ticks| && forall n: nat | n < |ticks| :: LaterTick(TickStates(s, ticks)[n], ticks[n])
    ensures Reached(TickStates(s, ticks)[m])
    decreases m
  {
    if m == 0 {
      assert ticks[..0] == [];
    } else {
      ReachedUpTo(s, ticks, m - 1);
      TickStatesAreNext(s, ticks, m - 1);
      TickKeepsReached(TickStates(s, ticks)[m - 1], ticks[m - 1]);
    }
  }

  /** In particular, when every edit is stamped later than all before it the cache agrees
      with the server in every such run, and the cursor never goes back. */
  lemma SerializedCacheAgrees(s: System, ticks: seq<TickStep>)
    requires Initial(s) && SerializedRun(s, ticks)
    requires forall n: nat | n < |ticks| :: LaterTick(TickStates(s, ticks)[n], ticks[n])
    ensures forall n | 0 <= n <= |ticks| :: Agreement(TickStates(s, ticks)[n])
    ensures forall m, n | 0 <= m && m + 1 == n <= |ticks| :: CursorMoves(TickStates(s, ticks)[m].cursor, TickStates(s, ticks)[n].cursor)
  {
    forall n: nat | n < |ticks| ensures HarmlessTick(TickStates(s, ticks)[n], ticks[n]) {
      ReachedUpTo(s, ticks, n);
      assert LaterTick(TickStates(s, ticks)[n], ticks[n]);
    }
    forall n: nat | n <= |ticks|
      ensures Agreement(TickStates(s, ticks)[n])
      ensures n > 0 ==> CursorMoves(TickStates(s, ticks)[n - 1].cursor, TickStates(s, ticks)[n].cursor)
    {
      SerializedUpTo(s, ticks, n);
      OnePullUpTo(s, ticks, n);
    }
  }

  /** In every run, overlapping or not, a cached dish stays cached: what the server
      deletes or archives never leaves the cache. */
  lemma {:induction false} NothingLeavesTheCache(s: System, actions: seq<Action>)
    ensures s.cache.Keys <= Exec(s, actions).cache.Keys
    decreases |actions|
  {
    if actions != [] {
      var before, a := Exec(s, actions[..|actions| - 1]), actions[|actions| - 1];
      NothingLeavesTheCache(s, actions[..|actions| - 1]);
      if a.ApplyPull? && a.pull < |before.pulls| && before.pulls[a.pull].Got? {
        UpsertAllIsUnion(before.cache, before.pulls[a.pull].rows);
      } else if a.ApplyGet? && a.get < |before.throughs| {
        UpsertAllIsUnion(before.cache, before.throughs[a.get].rows);
      }
    }
  }
}
