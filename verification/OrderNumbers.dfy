/** alembic/versions/o8h9i0j1k2l3_orders_unique_order_number.py: give duplicated
    order numbers a suffix, then require (restaurant, order number) to be unique. */
module OrderNumbers {
  import opened Digits
  import opened RowNumber

  datatype Order = Order(restaurantId: int, number: string, createdAt: int)

  /** The orders table by primary key. */
  type Orders = map<int, Order>

  predicate IsDigit(c: char) {
    '0' <= c <= '9'
  }

  /** An integer as PostgreSQL's `||` renders it. */
  function Decimal(n: nat): (s: string)
    ensures s != [] && forall c | c in s :: IsDigit(c)
  {
    if n < 10 then ['0' + n as char] else Decimal(n / 10) + ['0' + (n % 10) as char]
  }

  const MARK := "-DUP"

  function Suffixed(number: string, k: nat): string {
    number + MARK + Decimal(k)
  }

  function Partition(orders: Orders, restaurantId: int, number: string): set<SortKey> {
    set id | id in orders && orders[id].restaurantId == restaurantId && orders[id].number == number ::
      SortKey(orders[id].createdAt, id)
  }

  function RowNumberOf(orders: Orders, id: int): nat
    requires id in orders
  {
    Number(Partition(orders, orders[id].restaurantId, orders[id].number), SortKey(orders[id].createdAt, id))
  }

  /** The UPDATE: rows ranked after the first of their partition get the suffix. */
  function Disambiguated(orders: Orders): Orders {
    map id | id in orders ::
      var rn := RowNumberOf(orders, id);
      if rn > 1 then orders[id].(number := Suffixed(orders[id].number, rn)) else orders[id]
  }

  /** `uq_orders_restaurant_order_number`. */
  ghost predicate UniqueNumbers(orders: Orders) {
    forall a, b | a in orders && b in orders && a != b ::
      !(orders[a].restaurantId == orders[b].restaurantId && orders[a].number == orders[b].number)
  }

  /** Some order already bears a number that the migration is about to hand out. */
  ghost predicate NumberTaken(orders: Orders) {
    exists a, b, k: nat | a in orders && b in orders ::
      && orders[a].restaurantId == orders[b].restaurantId
      && 2 <= k <= |Partition(orders, orders[b].restaurantId, orders[b].number)|
      && orders[a].number == Suffixed(orders[b].number, k)
  }

  // ---- the suffix can be read back -------------------------------------------

  lemma {:induction false} DecimalIsInjective(m: nat, n: nat)
    requires Decimal(m) == Decimal(n)
    ensures m == n
  {
    var a, b := Decimal(m), Decimal(n);
    if m >= 10 && n >= 10 {
      assert a[..|a| - 1] == Decimal(m / 10) && b[..|b| - 1] == Decimal(n / 10);
      DecimalIsInjective(m / 10, n / 10);
      assert a[|a| - 1] == '0' + (m % 10) as char && b[|b| - 1] == '0' + (n % 10) as char;
    }
  }

  lemma SuffixIsInjective(n1: string, k1: nat, n2: string, k2: nat)
    requires Suffixed(n1, k1) == Suffixed(n2, k2)
    ensures n1 == n2 && k1 == k2
  {
    DigitsFromTheEnd(n1, k1, n2, k2);
    DigitsFromTheEnd(n2, k2, n1, k1);
    var s := Suffixed(n1, k1);
    var d := |Decimal(k1)|;
    assert s[|s| - d..] == Decimal(k1) && s[|s| - d..] == Decimal(k2);
    DecimalIsInjective(k1, k2);
    assert s[..|s| - d - |MARK|] == n1 && s[..|s| - d - |MARK|] == n2;
  }

  /** The digits cannot reach into the other's mark, whose last letter is no digit. */
  lemma DigitsFromTheEnd(n1: string, k1: nat, n2: string, k2: nat)
    requires Suffixed(n1, k1) == Suffixed(n2, k2)
    ensures |Decimal(k1)| <= |Decimal(k2)|
  {
    var s := Suffixed(n1, k1);
    var p := |s| - |Decimal(k2)| - 1;
    assert s[p] == Suffixed(n2, k2)[|n2| + 3] == 'P';
    assert |Decimal(k1)| > |Decimal(k2)| ==> s[p] == Decimal(k1)[p - |n1| - |MARK|];
    assert |Decimal(k1)| > |Decimal(k2)| ==> s[p] in Decimal(k1);
    assert !IsDigit('P');
  }

  lemma SuffixChanges(number: string, k: nat)
    ensures Suffixed(number, k) != number
  {
    assert |Suffixed(number, k)| > |number|;
  }

  // ---- the constraint ----------------------------------------------------------

  lemma KeyOf(orders: Orders, id: int)
    requires id in orders
    ensures SortKey(orders[id].createdAt, id) in Partition(orders, orders[id].restaurantId, orders[id].number)
  {
  }

  lemma DistinctBeforehand(orders: Orders, a: int, b: int)
    requires a in orders && b in orders && a != b && orders[a].restaurantId == orders[b].restaurantId
    requires orders[a].number == orders[b].number
    ensures RowNumberOf(orders, a) != RowNumberOf(orders, b)
  {
    KeyOf(orders, a);
    KeyOf(orders, b);
    if RowNumberOf(orders, a) == RowNumberOf(orders, b) {
      NumberIsInjective(Partition(orders, orders[a].restaurantId, orders[a].number),
                        SortKey(orders[a].createdAt, a), SortKey(orders[b].createdAt, b));
    }
  }

  lemma RankInRange(orders: Orders, id: int)
    requires id in orders
    ensures 1 <= RowNumberOf(orders, id) <= |Partition(orders, orders[id].restaurantId, orders[id].number)|
  {
    KeyOf(orders, id);
    NumberInRange(Partition(orders, orders[id].restaurantId, orders[id].number), SortKey(orders[id].createdAt, id));
  }

  lemma StaysUnique(orders: Orders, a: int, b: int)
    requires a in orders && b in orders && a != b && orders[a].restaurantId == orders[b].restaurantId
    requires Disambiguated(orders)[a].number == Disambiguated(orders)[b].number
    ensures NumberTaken(orders)
  {
    var ra, rb := RowNumberOf(orders, a), RowNumberOf(orders, b);
    RankInRange(orders, a);
    RankInRange(orders, b);
    if orders[a].number == orders[b].number {
      DistinctBeforehand(orders, a, b);
    }
    if ra > 1 && rb > 1 {
      SuffixIsInjective(orders[a].number, ra, orders[b].number, rb);
    } else if ra > 1 {
      assert orders[b].number == Suffixed(orders[a].number, ra);
    } else if rb > 1 {
      assert orders[a].number == Suffixed(orders[b].number, rb);
    }
  }

  lemma TakenMeansClash(orders: Orders)
    requires NumberTaken(orders)
    ensures !UniqueNumbers(Disambiguated(orders))
  {
    var a, b, k: nat :|
      && a in orders && b in orders && orders[a].restaurantId == orders[b].restaurantId
      && 2 <= k <= |Partition(orders, orders[b].restaurantId, orders[b].number)|
      && orders[a].number == Suffixed(orders[b].number, k);
    // The first row that bears the taken number keeps it …
    var taken := Partition(orders, orders[a].restaurantId, orders[a].number);
    KeyOf(orders, a);
    var first := NumberIsOnto(taken, 1);
    // … and the k-th row of the other partition is given it.
    var kth := NumberIsOnto(Partition(orders, orders[b].restaurantId, orders[b].number), k);
    SuffixChanges(orders[b].number, k);
    var after := Disambiguated(orders);
    assert after[first.id].number == orders[a].number && after[kth.id].number == orders[a].number;
    assert first.id != kth.id;
  }

  /** The constraint holds after the migration exactly when no order already bore a
      number that it hands out. */
  lemma ConstraintHoldsIff(orders: Orders)
    ensures UniqueNumbers(Disambiguated(orders)) <==> !NumberTaken(orders)
  {
    if NumberTaken(orders) {
      TakenMeansClash(orders);
    }
    var after := Disambiguated(orders);
    if a, b :| a in after && b in after && a != b
               && after[a].restaurantId == after[b].restaurantId && after[a].number == after[b].number {
      StaysUnique(orders, a, b);
    }
  }

  /** By creation time, and then by id. */
  predicate IsEarlier(orders: Orders, a: int, b: int)
    requires a in orders && b in orders
  {
    orders[a].createdAt < orders[b].createdAt || (orders[a].createdAt == orders[b].createdAt && a < b)
  }

  /** No row is lost or moved; the earliest row of each number keeps it, and every
      later one still shows the number it had. */
  lemma NothingLost(orders: Orders, id: int)
    requires id in orders
    ensures var after := Disambiguated(orders);
            && after.Keys == orders.Keys
            && after[id] == orders[id].(number := after[id].number)
            && orders[id].number <= after[id].number
            && (after[id].number == orders[id].number <==>
                  forall other | other in orders && orders[other].restaurantId == orders[id].restaurantId
                                 && orders[other].number == orders[id].number ::
                    !IsEarlier(orders, other, id))
  {
    var key := SortKey(orders[id].createdAt, id);
    var mine := Partition(orders, orders[id].restaurantId, orders[id].number);
    KeyOf(orders, id);
    RankInRange(orders, id);
    if other :| other in mine && Precedes(other, key) {
      NumberIsMonotone(mine, other, key);
      NumberInRange(mine, other);
      SuffixChanges(orders[id].number, RowNumberOf(orders, id));
      assert orders[other.id].number == orders[id].number;
    } else {
      assert UpTo(mine, key) == {key};
      forall other | other in orders && orders[other].restaurantId == orders[id].restaurantId
                     && orders[other].number == orders[id].number
        ensures !IsEarlier(orders, other, id)
      {
        KeyOf(orders, other);
      }
    }
  }

  /** A database on which the migration fails: A, A, A-DUP2. */
  lemma TakenExample()
    ensures var orders: Orders :=
              map[1 := Order(7, "A", 10), 2 := Order(7, "A", 20), 3 := Order(7, "A-DUP2", 5)];
            !UniqueNumbers(Disambiguated(orders))
  {
    var orders: Orders := map[1 := Order(7, "A", 10), 2 := Order(7, "A", 20), 3 := Order(7, "A-DUP2", 5)];
    var two := {SortKey(10, 1), SortKey(20, 2)};
    KeyOf(orders, 1);
    KeyOf(orders, 2);
    SubsetSize(two, Partition(orders, 7, "A"));
    assert Decimal(2) == "2";
    assert orders[3].number == Suffixed(orders[1].number, 2);
    ConstraintHoldsIff(orders);
  }

  // ---- what the suffix says --------------------------------------------------------------------

  lemma {:induction false} DecimalReads(n: nat)
    ensures ReadDecimal(Decimal(n)) == n
  {
    var s := Decimal(n);
    if n >= 10 {
      assert s[..|s| - 1] == Decimal(n / 10);
      DecimalReads(n / 10);
    } else {
      assert s[..0] == "" && ReadDecimal("") == 0;
    }
  }

  /** The orders of the restaurant that bore the number before this one. */
  ghost function EarlierCopies(orders: Orders, id: int): set<int>
    requires id in orders
  {
    set other | other in orders && orders[other].restaurantId == orders[id].restaurantId
                && orders[other].number == orders[id].number && IsEarlier(orders, other, id)
  }

  ghost function IdsOf(keys: set<SortKey>): set<int> {
    set k | k in keys :: k.id
  }

  lemma {:induction false} IdsAreAsMany(keys: set<SortKey>)
    requires forall k, l | k in keys && l in keys && k.id == l.id :: k == l
    ensures |IdsOf(keys)| == |keys|
    decreases |keys|
  {
    if key :| key in keys {
      IdsAreAsMany(keys - {key});
      assert IdsOf(keys) == IdsOf(keys - {key}) + {key.id};
      assert key.id !in IdsOf(keys - {key});
    }
  }

  /** A number that has changed shows which copy of it the order is: the digits after the mark
      read one more than the number of earlier copies. */
  lemma SuffixIsRank(orders: Orders, id: int)
    requires id in orders && EarlierCopies(orders, id) != {}
    ensures exists digits :: Disambiguated(orders)[id].number == orders[id].number + "-DUP" + digits
                             && (forall c | c in digits :: '0' <= c <= '9')
                             && ReadDecimal(digits) == 1 + |EarlierCopies(orders, id)|
  {
    var key := SortKey(orders[id].createdAt, id);
    var mine := Partition(orders, orders[id].restaurantId, orders[id].number);
    var rn := RowNumberOf(orders, id);
    KeyOf(orders, id);
    NumberCountsEarlier(mine, key);
    IdsAreAsMany(Earlier(mine, key));
    forall other ensures other in EarlierCopies(orders, id) <==> other in IdsOf(Earlier(mine, key)) {
      if other in EarlierCopies(orders, id) {
        assert SortKey(orders[other].createdAt, other) in Earlier(mine, key);
      }
    }
    assert EarlierCopies(orders, id) == IdsOf(Earlier(mine, key));
    DecimalReads(rn);
    assert |EarlierCopies(orders, id)| > 0;
    assert Disambiguated(orders)[id].number == orders[id].number + "-DUP" + Decimal(rn);
  }

  // ---- the column's width --------------------------------------------------------------

  const WIDTH := 32

  /** Every number fits the column; an UPDATE to one that does not is an error. */
  predicate Fit(orders: Orders) {
    forall id | id in orders :: |orders[id].number| <= WIDTH
  }

  ghost predicate MigrationSucceeds(orders: Orders) {
    Fit(Disambiguated(orders)) && UniqueNumbers(Disambiguated(orders))
  }

  /** The number occurs more than once, and is too long for the suffix of its last copy. */
  predicate TooLong(orders: Orders, id: int)
    requires id in orders
  {
    var copies := |Partition(orders, orders[id].restaurantId, orders[id].number)|;
    copies > 1 && |Suffixed(orders[id].number, copies)| > WIDTH
  }

  lemma {:induction false} DecimalGrows(m: nat, n: nat)
    requires m <= n
    ensures |Decimal(m)| <= |Decimal(n)|
  {
    if m >= 10 {
      DecimalGrows(m / 10, n / 10);
    }
  }

  /** The last copy gets the longest suffix. */
  lemma LongestSuffix(orders: Orders, id: int)
    requires id in orders && Fit(orders)
    ensures |Disambiguated(orders)[id].number| > WIDTH ==> TooLong(orders, id)
    ensures TooLong(orders, id) ==> exists last | last in orders :: |Disambiguated(orders)[last].number| > WIDTH
  {
    var partition := Partition(orders, orders[id].restaurantId, orders[id].number);
    RankInRange(orders, id);
    DecimalGrows(RowNumberOf(orders, id), |partition|);
    if TooLong(orders, id) {
      KeyOf(orders, id);
      var last := NumberIsOnto(partition, |partition|);
      assert |Disambiguated(orders)[last.id].number| > WIDTH;
    }
  }

  /** The migration goes through exactly when no order already bore a number that it hands
      out and no repeated number is too long for its suffix. */
  lemma MigrationSucceedsIff(orders: Orders)
    requires forall id | id in orders :: |orders[id].number| <= 32
    ensures MigrationSucceeds(orders) <==> !NumberTaken(orders) && forall id | id in orders :: !TooLong(orders, id)
    ensures MigrationSucceeds(orders) ==> forall id | id in orders :: |Disambiguated(orders)[id].number| <= 32
  {
    ConstraintHoldsIff(orders);
    forall id | id in orders
      ensures |Disambiguated(orders)[id].number| > WIDTH ==> TooLong(orders, id)
      ensures TooLong(orders, id) ==> !Fit(Disambiguated(orders))
    {
      LongestSuffix(orders, id);
    }
  }
}
