/** Tables related by foreign keys, and what a sequence of DELETE and SET NULL
    statements does to them.

    The general result is `ChildFirstPreservesIntegrity`: a plan that deals with
    every referring column before it deletes the rows referred to never leaves a
    dangling reference, not even between two of its statements. */
module ForeignKeys {

  datatype Table =
    | Orders | PaymentTransactions | Coupons | CouponRedemptions | MarketingSends
    | PaymentSettlementLines | CreditNotes | RefundNotes | PaymentLinks
    | ApprovalRequests | Assignments | BatchOrders | CodCollections
    | EInvoiceTransmissions | LoyaltyPointEntries | NpsResponses
    | OfflinePaymentLedger | OrderItems | OrderTrackingSessions | PrintJobs
    | ReviewReplySuggestions | SlaEvents | StaffMistakes | Tickets
    | DiningTables
    | OtherTable(name: string)

  datatype Column =
    | OrderId | RestaurantId | RedeemedOnOrderId | ConvertedOrderId
    | ResaleOfOrderId | PaymentTransactionId | TransactionId
    | PaidTransactionId | CouponId | Status
    | OtherColumn(name: string)

  /** A row by column; a NULL column is absent. */
  type Row = map<Column, int>

  /** Every table's rows by primary key; a table that is absent is empty. */
  type Database = map<Table, map<int, Row>>

  datatype ForeignKey = ForeignKey(child: Table, column: Column, parent: Table)

  /** `update t set column = null where column = any(keys)` and
      `delete from t where column = any(keys)`. */
  datatype Statement =
    | Clear(table: Table, column: Column, keys: set<int>)
    | Delete(table: Table, column: Column, keys: set<int>)

  function Rows(db: Database, t: Table): map<int, Row> {
    if t in db then db[t] else map[]
  }

  predicate Matches(row: Row, column: Column, keys: set<int>) {
    column in row && row[column] in keys
  }

  /** Primary keys of the rows a condition `column = any(keys)` selects. */
  function Selected(db: Database, t: Table, column: Column, keys: set<int>): (ids: set<int>)
  {
    set id | id in Rows(db, t) && Matches(Rows(db, t)[id], column, keys)
  }

  function Effect(db: Database, s: Statement): Database {
    var rows := Rows(db, s.table);
    match s
    case Clear(t, column, keys) =>
      db[t := map id | id in rows ::
                if Matches(rows[id], column, keys) then rows[id] - {column} else rows[id]]
    case Delete(t, column, keys) =>
      db[t := map id | id in rows && !Matches(rows[id], column, keys) :: rows[id]]
  }

  function Effects(db: Database, plan: seq<Statement>): Database
    decreases |plan|
  {
    if plan == [] then db else Effect(Effects(db, plan[..|plan| - 1]), plan[|plan| - 1])
  }

  predicate Satisfied(db: Database, fk: ForeignKey) {
    var rows := Rows(db, fk.child);
    forall id | id in rows :: fk.column in rows[id] ==> rows[id][fk.column] in Rows(db, fk.parent)
  }

  predicate Consistent(db: Database, fks: set<ForeignKey>) {
    forall fk | fk in fks :: Satisfied(db, fk)
  }

  /** No row of the child table points at one of `ids` through this key. */
  predicate Unreferenced(db: Database, fk: ForeignKey, ids: set<int>) {
    var rows := Rows(db, fk.child);
    forall id | id in rows :: !Matches(rows[id], fk.column, ids)
  }

  /** Statement `plan[j]` leaves no row with `fk.column` in `ids`. */
  predicate Discharges(s: Statement, fk: ForeignKey, ids: set<int>) {
    s.table == fk.child && s.column == fk.column && ids <= s.keys
  }

  /** Before a table's rows are deleted, each key into that table has been dealt
      with: an earlier statement cleared or deleted the referring rows, or nothing
      refers to them in the first place. */
  ghost predicate ChildFirst(db: Database, plan: seq<Statement>, fks: set<ForeignKey>) {
    forall i, fk | 0 <= i < |plan| && plan[i].Delete? && fk in fks && fk.parent == plan[i].table ::
      var doomed := Selected(db, plan[i].table, plan[i].column, plan[i].keys);
      || Unreferenced(db, fk, doomed)
      || exists j :: 0 <= j < i && Discharges(plan[j], fk, doomed)
  }

  /** Every row and every non-NULL column of `later` was already in `earlier`. */
  ghost predicate Shrunk(earlier: Database, later: Database) {
    forall t, id | id in Rows(later, t) ::
      && id in Rows(earlier, t)
      && forall c | c in Rows(later, t)[id] ::
           c in Rows(earlier, t)[id] && Rows(later, t)[id][c] == Rows(earlier, t)[id][c]
  }

  lemma EffectRows(db: Database, s: Statement, t: Table)
    ensures t != s.table ==> Rows(Effect(db, s), t) == Rows(db, t)
  {
  }

  lemma {:induction false} EffectsShrink(db: Database, plan: seq<Statement>)
    ensures Shrunk(db, Effects(db, plan))
    decreases |plan|
  {
    if plan != [] {
      var before := Effects(db, plan[..|plan| - 1]);
      EffectsShrink(db, plan[..|plan| - 1]);
      var s := plan[|plan| - 1];
      forall t, id | id in Rows(Effect(before, s), t)
        ensures id in Rows(before, t)
        ensures forall c | c in Rows(Effect(before, s), t)[id] ::
                  c in Rows(before, t)[id] && Rows(Effect(before, s), t)[id][c] == Rows(before, t)[id][c]
      {
        if t != s.table {
          EffectRows(before, s, t);
        }
      }
    }
  }

  /** What a statement has discharged stays discharged for the rest of the plan. */
  lemma {:induction false} DischargedStays(db: Database, plan: seq<Statement>, j: nat, fk: ForeignKey, ids: set<int>)
    requires j < |plan| && Discharges(plan[j], fk, ids)
    ensures Unreferenced(Effects(db, plan), fk, ids)
    decreases |plan|
  {
    var before := Effects(db, plan[..|plan| - 1]);
    var s := plan[|plan| - 1];
    if j < |plan| - 1 {
      DischargedStays(db, plan[..|plan| - 1], j, fk, ids);
      UnreferencedStays(before, s, fk, ids);
    }
  }

  lemma UnreferencedStays(db: Database, s: Statement, fk: ForeignKey, ids: set<int>)
    requires Unreferenced(db, fk, ids)
    ensures Unreferenced(Effect(db, s), fk, ids)
  {
    EffectRows(db, s, fk.child);
  }

  lemma {:induction false} UnreferencedStaysThrough(db: Database, plan: seq<Statement>, fk: ForeignKey, ids: set<int>)
    requires Unreferenced(db, fk, ids)
    ensures Unreferenced(Effects(db, plan), fk, ids)
    decreases |plan|
  {
    if plan != [] {
      UnreferencedStaysThrough(db, plan[..|plan| - 1], fk, ids);
      UnreferencedStays(Effects(db, plan[..|plan| - 1]), plan[|plan| - 1], fk, ids);
    }
  }

  /** One statement keeps a key satisfied exactly when it deletes no parent row
      that is still referred to. */
  lemma DeleteKeepsKey(db: Database, s: Statement, fk: ForeignKey)
    requires Satisfied(db, fk)
    requires s.Delete? && fk.parent == s.table ==>
               Unreferenced(db, fk, Selected(db, s.table, s.column, s.keys))
    ensures Satisfied(Effect(db, s), fk)
  {
    var after := Effect(db, s);
    EffectRows(db, s, fk.child);
    EffectRows(db, s, fk.parent);
    forall id | id in Rows(after, fk.child) && fk.column in Rows(after, fk.child)[id]
      ensures Rows(after, fk.child)[id][fk.column] in Rows(after, fk.parent)
    {
      var target := Rows(db, fk.child)[id][fk.column];
      assert Rows(after, fk.child)[id][fk.column] == target;
      assert target in Rows(db, fk.parent);
      assert target in Selected(db, s.table, s.column, s.keys) ==>
          Matches(Rows(db, fk.child)[id], fk.column, Selected(db, s.table, s.column, s.keys));
    }
  }

  /** The general theorem: deleting children first keeps every key satisfied after
      every statement of the plan. */
  lemma {:induction false} ChildFirstPreservesIntegrity(db: Database, plan: seq<Statement>, fks: set<ForeignKey>, n: nat)
    requires Consistent(db, fks) && ChildFirst(db, plan, fks) && n <= |plan|
    ensures Consistent(Effects(db, plan[..n]), fks)
    decreases n
  {
    if n > 0 {
      ChildFirstPreservesIntegrity(db, plan, fks, n - 1);
      assert plan[..n][..n - 1] == plan[..n - 1];
      var before, s := Effects(db, plan[..n - 1]), plan[n - 1];
      forall fk | fk in fks
        ensures Satisfied(Effect(before, s), fk)
      {
        if s.Delete? && fk.parent == s.table {
          NothingRefersToDoomed(db, plan, fks, n, fk);
        }
        DeleteKeepsKey(before, s, fk);
      }
    }
  }

  lemma NothingRefersToDoomed(db: Database, plan: seq<Statement>, fks: set<ForeignKey>, n: nat, fk: ForeignKey)
    requires ChildFirst(db, plan, fks) && 0 < n <= |plan| && fk in fks
    requires plan[n - 1].Delete? && fk.parent == plan[n - 1].table
    ensures var before, s := Effects(db, plan[..n - 1]), plan[n - 1];
            Unreferenced(before, fk, Selected(before, s.table, s.column, s.keys))
  {
    var before, s := Effects(db, plan[..n - 1]), plan[n - 1];
    var doomed := Selected(db, s.table, s.column, s.keys);
    if Unreferenced(db, fk, doomed) {
      UnreferencedStaysThrough(db, plan[..n - 1], fk, doomed);
    } else {
      var j :| 0 <= j < n - 1 && Discharges(plan[j], fk, doomed);
      DischargedStays(db, plan[..n - 1], j, fk, doomed);
    }
    EffectsShrink(db, plan[..n - 1]);
    forall id | id in Selected(before, s.table, s.column, s.keys)
      ensures id in doomed
    {
      assert id in Rows(db, s.table) && s.column in Rows(before, s.table)[id];
    }
  }

  predicate Deletes(s: Statement, t: Table, row: Row) {
    s.Delete? && s.table == t && Matches(row, s.column, s.keys)
  }

  predicate Empties(s: Statement, t: Table, row: Row, c: Column) {
    s.Clear? && s.table == t && s.column == c && Matches(row, c, s.keys)
  }

  ghost predicate Any<T(!new)>(items: seq<T>, p: T -> bool) {
    exists i | 0 <= i < |items| :: p(items[i])
  }

  lemma AnyByLast<T(!new)>(items: seq<T>, p: T -> bool)
    requires items != []
    ensures var n := |items| - 1; Any(items, p) <==> Any(items[..n], p) || p(items[n])
  {
    var n := |items| - 1;
    assert forall i | 0 <= i < n :: items[..n][i] == items[i];
    if Any(items[..n], p) {
      var i :| 0 <= i < n && p(items[..n][i]);
      assert p(items[i]);
    }
  }

  /** A row goes when some DELETE of the plan selects it. */
  ghost predicate Doomed(plan: seq<Statement>, t: Table, row: Row) {
    Any(plan, s => Deletes(s, t, row))
  }

  /** A column is dropped when some SET NULL of the plan selects it. */
  ghost predicate Cleared(plan: seq<Statement>, t: Table, row: Row, c: Column) {
    Any(plan, s => Empties(s, t, row, c))
  }

  /** No DELETE looks at a column that a SET NULL of the plan empties. */
  ghost predicate Independent(plan: seq<Statement>) {
    forall s, s' | s in plan && s' in plan && s.Clear? && s'.Delete? ::
      !(s.table == s'.table && s.column == s'.column)
  }

  /** One statement seen from one row. */
  lemma EffectOnRow(db: Database, s: Statement, t: Table, id: int)
    requires id in Rows(db, t)
    ensures id in Rows(Effect(db, s), t) <==>
              !(s.Delete? && s.table == t && Matches(Rows(db, t)[id], s.column, s.keys))
    ensures id in Rows(Effect(db, s), t) ==>
              Rows(Effect(db, s), t)[id] ==
                if s.Clear? && s.table == t && Matches(Rows(db, t)[id], s.column, s.keys)
                then Rows(db, t)[id] - {s.column} else Rows(db, t)[id]
  {
  }

  /** What a plan leaves, said without running it: a row survives exactly when no
      DELETE selects it as it was at the start, and then loses exactly the columns
      that a SET NULL selects. */
  lemma {:induction false} Survivors(db: Database, plan: seq<Statement>, t: Table, id: int)
    requires Independent(plan) && id in Rows(db, t)
    ensures id in Rows(Effects(db, plan), t) <==> !Doomed(plan, t, Rows(db, t)[id])
    ensures id in Rows(Effects(db, plan), t) ==>
              forall c :: (c in Rows(Effects(db, plan), t)[id] <==>
                             c in Rows(db, t)[id] && !Cleared(plan, t, Rows(db, t)[id], c))
    decreases |plan|
  {
    if plan != [] {
      var init, s := plan[..|plan| - 1], plan[|plan| - 1];
      assert plan == init + [s];
      assert Independent(init) by {
        assert forall s' :: s' in init ==> s' in plan;
      }
      var before, row := Effects(db, init), Rows(db, t)[id];
      Survivors(db, init, t, id);
      EffectsShrink(db, init);
      EffectsShrink(db, plan);
      SurvivesOneMore(before, init, s, t, id, row);
      AnyByLast(plan, s => Deletes(s, t, row));
      forall c
        ensures Cleared(plan, t, row, c) <==> Cleared(init, t, row, c) || Empties(s, t, row, c)
      {
        AnyByLast(plan, s => Empties(s, t, row, c));
      }
    }
  }

  lemma SurvivesOneMore(before: Database, init: seq<Statement>, s: Statement, t: Table, id: int, row: Row)
    requires Independent(init + [s])
    requires id in Rows(before, t) <==> !Doomed(init, t, row)
    requires id in Rows(before, t) ==> var now := Rows(before, t)[id];
               forall c :: (c in now <==> c in row && !Cleared(init, t, row, c)) && (c in now ==> now[c] == row[c])
    ensures var after := Effect(before, s);
            && (id in Rows(after, t) <==> !Doomed(init, t, row) && !Deletes(s, t, row))
            && (id in Rows(after, t) ==>
                  forall c :: c in Rows(after, t)[id] <==> c in row && !Cleared(init, t, row, c) && !Empties(s, t, row, c))
  {
    if id in Rows(before, t) {
      EffectOnRow(before, s, t, id);
      if s.table == t {
        StillMatches(init, s, t, row, Rows(before, t)[id]);
      }
    } else {
      assert id !in Rows(Effect(before, s), t);
    }
  }

  lemma StillMatches(init: seq<Statement>, s: Statement, t: Table, row: Row, now: Row)
    requires Independent(init + [s]) && s.table == t
    requires forall c :: c in now <==> c in row && !Cleared(init, t, row, c)
    requires forall c :: c in now ==> now[c] == row[c]
    ensures s.Delete? ==> (Matches(now, s.column, s.keys) <==> Matches(row, s.column, s.keys))
    ensures s.Clear? ==> forall c ::
              c in (if Matches(now, s.column, s.keys) then now - {s.column} else now) <==>
              c in now && !(s.column == c && Matches(row, c, s.keys))
  {
    if s.Delete? {
      assert s in init + [s];
      forall s' | s' in init && s'.Clear? && s'.table == t
        ensures s'.column != s.column
      {
        assert s' in init + [s];
      }
    }
  }
}
