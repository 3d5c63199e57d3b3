/** The clamped pager (frontend/src/components/ListPager.tsx:32-46). */
module ListPager {
  datatype Paged<T> = Paged(rows: seq<T>, page: nat, pageCount: nat, first: nat, last: int, total: nat)

  function Slice<T>(items: seq<T>, from: nat, to: nat): seq<T>
    requires from <= to
  {
    items[if from < |items| then from else |items| .. if to < |items| then to else |items|]
  }

  function PageCount(n: nat, size: nat): nat
    requires size >= 1
  {
    var pages := (n + size - 1) / size;
    if pages < 1 then 1 else pages
  }

  function UsePaged<T>(items: seq<T>, size: nat, page: nat): Paged<T>
    requires size >= 1
  {
    var pageCount := PageCount(|items|, size);
    var safe := if page < pageCount - 1 then page else pageCount - 1;
    var first := safe * size + 1;
    var rows := Slice(items, first - 1, first - 1 + size);
    Paged(rows, safe, pageCount, first, first + |rows| - 1, |items|)
  }

  lemma PageCountCovers(n: nat, size: nat)
    requires size >= 1
    ensures n <= PageCount(n, size) * size
    ensures n > 0 ==> (PageCount(n, size) - 1) * size < n
  {
    var pages := (n + size - 1) / size;
    assert pages * size <= n + size - 1 < pages * size + size by {
      assert n + size - 1 == (n + size - 1) / size * size + (n + size - 1) % size;
    }
    assert (pages - 1) * size == pages * size - size;
  }

  lemma Product(a: nat, b: nat, size: nat)
    requires a <= b
    ensures a * size <= b * size && (a + 1) * size == a * size + size
  {
    assert (b - a) * size == b * size - a * size;
  }

  lemma PageStart(n: nat, size: nat, page: nat)
    requires size >= 1 && page < PageCount(n, size)
    ensures n > 0 ==> page * size < n
    ensures page < PageCount(n, size) - 1 ==> page * size + size <= n
    ensures page == PageCount(n, size) - 1 ==> n <= page * size + size
  {
    var lastPage := PageCount(n, size) - 1;
    PageCountCovers(n, size);
    Product(page, lastPage, size);
    Product(lastPage, lastPage, size);
    if page < lastPage {
      Product(page + 1, lastPage, size);
    }
  }

  lemma SliceIs<T>(items: seq<T>, from: nat, size: nat)
    ensures from <= |items| ==> var rows := Slice(items, from, from + size);
              && rows == items[from..from + |rows|] && from + |rows| <= |items|
              && |rows| == if from + size <= |items| then size else |items| - from
  {
  }

  /** Whatever page is held while the list grows and shrinks, the page shown exists, its
      rows are exactly the positions first..last, and it is empty only with the list. */
  lemma PageIsInRange<T>(items: seq<T>, size: nat, page: nat)
    requires size >= 1
    ensures var p := UsePaged(items, size, page);
            && p.page < p.pageCount && p.page <= page && (page < p.pageCount ==> p.page == page)
            && p.last <= |items| && (items != [] ==> 1 <= p.first <= p.last)
            && p.rows == (if items == [] then [] else items[p.first - 1..p.last])
            && (|p.rows| == size || p.page == p.pageCount - 1)
            && p.total == |items| <= p.pageCount * size && (p.pageCount - 1) * size < (if items == [] then 1 else |items|)
  {
    var shown := UsePaged(items, size, page).page;
    PageStart(|items|, size, shown);
    PageCountCovers(|items|, size);
    SliceIs(items, shown * size, size);
    if items == [] {
      assert PageCount(0, size) == 1;
    }
  }

  function Pages<T>(items: seq<T>, size: nat, n: nat): seq<T>
    requires size >= 1
  {
    if n == 0 then [] else Pages(items, size, n - 1) + UsePaged(items, size, n - 1).rows
  }

  lemma SlicesJoin<T>(items: seq<T>, a: nat, b: nat)
    requires a <= b
    ensures Slice(items, 0, a) + Slice(items, a, b) == Slice(items, 0, b)
  {
  }

  lemma {:induction false} PagesArePrefix<T>(items: seq<T>, size: nat, n: nat)
    requires size >= 1 && n <= PageCount(|items|, size)
    ensures Pages(items, size, n) == Slice(items, 0, n * size)
  {
    if n > 0 {
      PagesArePrefix(items, size, n - 1);
      Product(n - 1, n - 1, size);
      assert UsePaged(items, size, n - 1).page == n - 1;
      SlicesJoin(items, (n - 1) * size, n * size);
    }
  }

  /** Reading the pages one after the other reads the list: nothing is skipped, and
      nothing is shown twice. */
  lemma PagesAreTheList<T>(items: seq<T>, size: nat)
    requires size >= 1
    ensures Pages(items, size, PageCount(|items|, size)) == items
  {
    PagesArePrefix(items, size, PageCount(|items|, size));
    PageCountCovers(|items|, size);
  }
}
