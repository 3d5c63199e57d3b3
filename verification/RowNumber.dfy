/** `row_number() OVER (PARTITION BY … ORDER BY at ASC, id ASC)` within one
    partition, given as the set of its rows' sort keys. */
module RowNumber {

  datatype SortKey = SortKey(at: int, id: int)

  predicate Precedes(a: SortKey, b: SortKey) {
    a.at < b.at || (a.at == b.at && a.id < b.id)
  }

  function UpTo(partition: set<SortKey>, k: SortKey): set<SortKey> {
    set x | x in partition && !Precedes(k, x)
  }

  function Number(partition: set<SortKey>, k: SortKey): nat {
    |UpTo(partition, k)|
  }

  lemma SubsetSize<T>(a: set<T>, b: set<T>)
    requires a <= b
    ensures |a| <= |b|
    ensures |a| == |b| ==> a == b
  {
    assert b == a + (b - a);
    assert |b| == |a| + |b - a|;
  }

  lemma NumberInRange(partition: set<SortKey>, k: SortKey)
    requires k in partition
    ensures 1 <= Number(partition, k) <= |partition|
  {
    SubsetSize(UpTo(partition, k), partition);
    SubsetSize({k}, UpTo(partition, k));
  }

  lemma NumberIsMonotone(partition: set<SortKey>, a: SortKey, b: SortKey)
    requires a in partition && b in partition && (a.at < b.at || (a.at == b.at && a.id < b.id))
    ensures Number(partition, a) < Number(partition, b)
  {
    SubsetSize(UpTo(partition, a), UpTo(partition, b));
    assert b in UpTo(partition, b) && b !in UpTo(partition, a);
  }

  lemma NumberIsInjective(partition: set<SortKey>, a: SortKey, b: SortKey)
    requires a in partition && b in partition && Number(partition, a) == Number(partition, b)
    ensures a == b
  {
    if Precedes(a, b) {
      NumberIsMonotone(partition, a, b);
    } else if Precedes(b, a) {
      NumberIsMonotone(partition, b, a);
    }
  }

  lemma {:induction false} LastKey(partition: set<SortKey>) returns (last: SortKey)
    requires partition != {}
    ensures last in partition && forall x | x in partition :: !Precedes(last, x)
    decreases |partition|
  {
    last :| last in partition;
    if partition != {last} {
      var first := last;
      last := LastKey(partition - {first});
      if Precedes(last, first) { last := first; }
      assert forall x | x in partition :: x == first || x in partition - {first};
    }
  }

  ghost function Earlier(partition: set<SortKey>, k: SortKey): set<SortKey> {
    set x | x in partition && (x.at < k.at || (x.at == k.at && x.id < k.id))
  }

  /** A row's number is one more than the number of rows before it, by time and then id. */
  lemma NumberCountsEarlier(partition: set<SortKey>, k: SortKey)
    requires k in partition
    ensures Number(partition, k) == 1 + |Earlier(partition, k)|
  {
    assert UpTo(partition, k) == Earlier(partition, k) + {k};
  }

  /** Every number from 1 to the partition's size is given out. */
  lemma {:induction false} NumberIsOnto(partition: set<SortKey>, n: nat) returns (k: SortKey)
    requires 1 <= n <= |partition|
    ensures k in partition && Number(partition, k) == n
    decreases |partition|
  {
    var last := LastKey(partition);
    if n == |partition| {
      k := last;
      assert UpTo(partition, last) == partition;
    } else {
      k := NumberIsOnto(partition - {last}, n);
      assert UpTo(partition, k) == UpTo(partition - {last}, k);
    }
  }
}
