/** Offset pagination: what a caller sees who walks the pages of a list that does not change meanwhile. */
module Pagination {

  datatype Window = Window(skip: nat, take: nat)

  function ToSkipTake(page: nat, pageSize: nat): Window
    requires page >= 1
  {
    Window((page - 1) * pageSize, pageSize)
  }

  /** `Math.max(1, Math.ceil(total / pageSize))` */
  function TotalPages(total: nat, pageSize: nat): nat
    requires pageSize >= 1
  {
    var ceiling := (total + pageSize - 1) / pageSize;
    if ceiling > 1 then ceiling else 1
  }

  /** The rows a query with this window returns. */
  function Rows<T>(list: seq<T>, window: Window): seq<T> {
    if window.skip >= |list| then []
    else if window.skip + window.take >= |list| then list[window.skip..]
    else list[window.skip..window.skip + window.take]
  }

  function PageRows<T>(list: seq<T>, page: nat, pageSize: nat): seq<T>
    requires page >= 1
  {
    Rows(list, ToSkipTake(page, pageSize))
  }

  /** Pages 1 to `n`, one after the other. */
  function Walk<T>(list: seq<T>, n: nat, pageSize: nat): seq<T> {
    if n == 0 then [] else Walk(list, n - 1, pageSize) + PageRows(list, n, pageSize)
  }

  lemma Multiples(a: nat, b: nat, k: nat)
    requires a <= b
    ensures a * k <= b * k
    ensures (b + 1) * k == b * k + k
  {
    assert b * k == a * k + (b - a) * k;
  }

  lemma {:induction false} WalkIsPrefix<T>(list: seq<T>, n: nat, pageSize: nat)
    ensures Walk(list, n, pageSize) == if n * pageSize <= |list| then list[..n * pageSize] else list
  {
    if n > 0 {
      WalkIsPrefix(list, n - 1, pageSize);
      Multiples(n - 1, n - 1, pageSize);
      WindowExtendsPrefix(list, (n - 1) * pageSize, pageSize);
    }
  }

  lemma WindowExtendsPrefix<T>(list: seq<T>, skip: nat, take: nat)
    ensures (if skip <= |list| then list[..skip] else list) + Rows(list, Window(skip, take))
         == if skip + take <= |list| then list[..skip + take] else list
  {
  }

  /** `totalPages` pages are enough, and none of them is one too many. */
  lemma TotalPagesMeaning(total: nat, pageSize: nat)
    requires pageSize >= 1
    ensures TotalPages(total, pageSize) >= 1
    ensures TotalPages(total, pageSize) * pageSize >= total
    ensures TotalPages(total, pageSize) > 1 ==> (TotalPages(total, pageSize) - 1) * pageSize < total
  {
    var q := (total + pageSize - 1) / pageSize;
    assert q * pageSize + (total + pageSize - 1) % pageSize == total + pageSize - 1;
    if q >= 1 {
      Multiples(q - 1, q - 1, pageSize);
    }
    if q <= 1 {
      Multiples(q, 1, pageSize);
    }
  }

  /**
   * The pages cut the list into consecutive pieces: nothing is missing, repeated or out of
   * order. No page after the last holds anything, every page before the last is full, and the
   * last is empty only when the list is.
   */
  lemma PagesPartition<T>(list: seq<T>, pageSize: nat)
    requires pageSize >= 1
    ensures Walk(list, TotalPages(|list|, pageSize), pageSize) == list
    ensures forall page :: page > TotalPages(|list|, pageSize) ==> PageRows(list, page, pageSize) == []
    ensures forall page :: 1 <= page < TotalPages(|list|, pageSize) ==> |PageRows(list, page, pageSize)| == pageSize
    ensures PageRows(list, TotalPages(|list|, pageSize), pageSize) == [] <==> list == []
  {
    hide TotalPages, Walk;
    var last := TotalPages(|list|, pageSize);
    TotalPagesMeaning(|list|, pageSize);
    WalkIsPrefix(list, last, pageSize);
    forall page | page > last
      ensures PageRows(list, page, pageSize) == []
    {
      Multiples(last, page - 1, pageSize);
    }
    forall page | 1 <= page < last
      ensures |PageRows(list, page, pageSize)| == pageSize
    {
      Multiples(page, last - 1, pageSize);
      Multiples(page - 1, page - 1, pageSize);
    }
    Multiples(0, last - 1, pageSize);
  }
}
