/** desktop/src/main/pendingOps.ts: the order in which the queue is read. */
module PendingOps {
  import opened LocalStore

  /** BINARY collation on TEXT. */
  predicate TextLess(a: string, b: string) {
    if b == "" then false
    else if a == "" then true
    else a[0] < b[0] || (a[0] == b[0] && TextLess(a[1..], b[1..]))
  }

  lemma {:induction false} TextLessIsTotal(a: string, b: string)
    ensures TextLess(a, b) || TextLess(b, a) || a == b
    ensures !(TextLess(a, b) && TextLess(b, a))
    ensures a == b ==> !TextLess(a, b)
    decreases |a|
  {
    if a != "" && b != "" && a[0] == b[0] {
      TextLessIsTotal(a[1..], b[1..]);
      assert a == [a[0]] + a[1..] && b == [b[0]] + b[1..];
    }
  }

  lemma {:induction false} TextLessIsTransitive(a: string, b: string, c: string)
    requires TextLess(a, b) && TextLess(b, c)
    ensures TextLess(a, c)
    decreases |a|
  {
    if a != "" && a[0] == b[0] == c[0] {
      TextLessIsTransitive(a[1..], b[1..], c[1..]);
    }
  }

  /** Row `i` comes before row `j` in the order of the query, oldest first; rows are
      never deleted, so the rowid order is the order in the table. */
  predicate Before(ops: seq<PendingOp>, i: nat, j: nat)
    requires i < |ops| && j < |ops|
  {
    TextLess(ops[i].createdAt, ops[j].createdAt) || (ops[i].createdAt == ops[j].createdAt && i < j)
  }

  lemma BeforeIsTransitive(ops: seq<PendingOp>, i: nat, j: nat, k: nat)
    requires i < |ops| && j < |ops| && k < |ops| && Before(ops, i, j) && Before(ops, j, k)
    ensures Before(ops, i, k)
  {
    if TextLess(ops[i].createdAt, ops[j].createdAt) && TextLess(ops[j].createdAt, ops[k].createdAt) {
      TextLessIsTransitive(ops[i].createdAt, ops[j].createdAt, ops[k].createdAt);
    }
  }

  predicate Below(order: seq<nat>, n: nat) {
    forall a | 0 <= a < |order| :: order[a] < n
  }

  /** Put the newest row, which has the largest rowid, where its timestamp belongs. */
  function Insert(ops: seq<PendingOp>, order: seq<nat>, n: nat): (r: seq<nat>)
    requires n < |ops| && Below(order, n)
    ensures |r| == |order| + 1
    decreases |order|
  {
    if order == [] then [n]
    else
      var last := order[|order| - 1];
      if TextLess(ops[n].createdAt, ops[last].createdAt)
      then Insert(ops, order[..|order| - 1], n) + [last]
      else order + [n]
  }

  /** The first `n` rows in the order of the query. */
  function ReadOrder(ops: seq<PendingOp>, n: nat): (order: seq<nat>)
    requires n <= |ops|
    ensures |order| == n && Below(order, n)
  {
    if n == 0 then []
    else
      InsertBelow(ops, ReadOrder(ops, n - 1), n - 1);
      Insert(ops, ReadOrder(ops, n - 1), n - 1)
  }

  lemma {:induction false} InsertBelow(ops: seq<PendingOp>, order: seq<nat>, n: nat)
    requires n < |ops| && Below(order, n)
    ensures Below(Insert(ops, order, n), n + 1)
    ensures forall i :: i in Insert(ops, order, n) <==> i in order || i == n
    decreases |order|
  {
    if order != [] {
      var init, last := order[..|order| - 1], order[|order| - 1];
      InsertBelow(ops, init, n);
      assert order == init + [last];
    }
  }

  ghost predicate Ordered(ops: seq<PendingOp>, order: seq<nat>)
    requires Below(order, |ops|)
  {
    forall a, b | 0 <= a < b < |order| :: Before(ops, order[a], order[b])
  }

  lemma {:induction false} InsertKeepsOrder(ops: seq<PendingOp>, order: seq<nat>, n: nat)
    requires n < |ops| && Below(order, n) && Ordered(ops, order)
    ensures Below(Insert(ops, order, n), |ops|) && Ordered(ops, Insert(ops, order, n))
    decreases |order|
  {
    InsertBelow(ops, order, n);
    if order != [] {
      var init, last := order[..|order| - 1], order[|order| - 1];
      InsertBelow(ops, init, n);
      if TextLess(ops[n].createdAt, ops[last].createdAt) {
        InsertKeepsOrder(ops, init, n);
        var inserted := Insert(ops, init, n);
        forall a | 0 <= a < |inserted|
          ensures Before(ops, inserted[a], last)
        {
          assert inserted[a] in inserted;
          if inserted[a] != n {
            var b :| 0 <= b < |init| && init[b] == inserted[a];
            assert Before(ops, order[b], order[|order| - 1]);
          }
        }
      } else {
        TextLessIsTotal(ops[n].createdAt, ops[last].createdAt);
        assert Before(ops, last, n);
        forall a | 0 <= a < |order|
          ensures Before(ops, order[a], n)
        {
          if a < |order| - 1 {
            BeforeIsTransitive(ops, order[a], last, n);
          }
        }
      }
    }
  }

  /** The query gives every row once, by created_at and then rowid. */
  lemma {:induction false} ReadOrderIsSorted(ops: seq<PendingOp>, n: nat)
    requires n <= |ops|
    ensures Ordered(ops, ReadOrder(ops, n))
    ensures forall i: nat :: i in ReadOrder(ops, n) <==> i < n
    decreases n
  {
    if n > 0 {
      ReadOrderIsSorted(ops, n - 1);
      InsertBelow(ops, ReadOrder(ops, n - 1), n - 1);
      InsertKeepsOrder(ops, ReadOrder(ops, n - 1), n - 1);
    }
  }

  // ---- what a push run sends ----------------------------------------------------

  predicate Sendable(op: PendingOp) {
    op.status == Pending || op.status == Failed
  }

  function Filter(ops: seq<PendingOp>, order: seq<nat>): (r: seq<nat>)
    requires Below(order, |ops|)
    ensures Below(r, |ops|)
    decreases |order|
  {
    if order == [] then []
    else
      var last := order[|order| - 1];
      Filter(ops, order[..|order| - 1]) + if Sendable(ops[last]) then [last] else []
  }

  /** The rows that pushSync reads as pending or failed, in queue order. */
  function SendOrder(ops: seq<PendingOp>): (order: seq<nat>)
    ensures Below(order, |ops|)
  {
    Filter(ops, ReadOrder(ops, |ops|))
  }

  function ToSend(ops: seq<PendingOp>): (r: seq<PendingOp>)
    ensures |r| == |SendOrder(ops)|
  {
    var order := SendOrder(ops);
    seq(|order|, a requires 0 <= a < |order| => ops[order[a]])
  }

  lemma {:induction false} FilterIsSubsequence(ops: seq<PendingOp>, order: seq<nat>)
    requires Below(order, |ops|) && Ordered(ops, order)
    ensures Ordered(ops, Filter(ops, order))
    ensures forall i :: i in Filter(ops, order) <==> i in order && Sendable(ops[i])
    decreases |order|
  {
    if order != [] {
      var init, last := order[..|order| - 1], order[|order| - 1];
      FilterIsSubsequence(ops, init);
      assert order == init + [last];
      var r := Filter(ops, init);
      forall a | 0 <= a < |r|
        ensures Before(ops, r[a], last)
      {
        assert r[a] in r;
        var b :| 0 <= b < |init| && init[b] == r[a];
        assert Before(ops, order[b], order[|order| - 1]);
      }
    }
  }

  /** A push run sends exactly the rows that are pending or failed when it starts,
      each once, by created_at and then rowid. */
  lemma SendOrderIsExact(ops: seq<PendingOp>)
    ensures Ordered(ops, SendOrder(ops))
    ensures forall i: nat :: i in SendOrder(ops) <==> i < |ops| && Sendable(ops[i])
    ensures forall a, b | 0 <= a < b < |SendOrder(ops)| :: SendOrder(ops)[a] != SendOrder(ops)[b]
  {
    ReadOrderIsSorted(ops, |ops|);
    FilterIsSubsequence(ops, ReadOrder(ops, |ops|));
    var order := SendOrder(ops);
    forall a, b | 0 <= a < b < |order|
      ensures order[a] != order[b]
    {
      assert Before(ops, order[a], order[b]);
      TextLessIsTotal(ops[order[a]].createdAt, ops[order[b]].createdAt);
    }
  }

  ghost predicate UniqueIds(ops: seq<PendingOp>) {
    forall i, j | 0 <= i < j < |ops| :: ops[i].id != ops[j].id
  }

  lemma ToSendMembers(ops: seq<PendingOp>)
    ensures forall op :: op in ToSend(ops) <==> op in ops && Sendable(op)
    ensures UniqueIds(ops) ==> UniqueIds(ToSend(ops))
  {
    SendOrderIsExact(ops);
    var order := SendOrder(ops);
    forall op | op in ops && Sendable(op)
      ensures op in ToSend(ops)
    {
      var i :| 0 <= i < |ops| && ops[i] == op;
      assert (i as nat) in order;
      var a :| 0 <= a < |order| && order[a] == i;
      assert ToSend(ops)[a] == op;
    }
    forall op | op in ToSend(ops)
      ensures op in ops && Sendable(op)
    {
      var a :| 0 <= a < |order| && ops[order[a]] == op;
      assert order[a] in order;
    }
  }

  /** While the clock does not run backwards … */
  ghost predicate ClockForward(ops: seq<PendingOp>) {
    forall i, j | 0 <= i < j < |ops| :: !TextLess(ops[j].createdAt, ops[i].createdAt)
  }

  /** … a push run sends in the order of enqueueing. */
  lemma SendOrderIsFifo(ops: seq<PendingOp>)
    requires ClockForward(ops)
    ensures forall a, b | 0 <= a < b < |SendOrder(ops)| :: SendOrder(ops)[a] < SendOrder(ops)[b]
  {
    SendOrderIsExact(ops);
    var order := SendOrder(ops);
    forall a, b | 0 <= a < b < |order|
      ensures order[a] < order[b]
    {
      assert Before(ops, order[a], order[b]);
      TextLessIsTotal(ops[order[a]].createdAt, ops[order[b]].createdAt);
    }
  }
}
