/**
 * The page navigation under the transaction list: the "Showing start to end
 * of count" range, the pages the Previous and Next buttons go to, and when
 * they are disabled. Nothing is shown when there is at most one page.
 */
module Pagination {
  import opened Wrappers
  import opened Transactions
  import opened StoreViews

  /** What the controls display and where their buttons lead. */
  datatype Controls = Controls(
    start: int,
    end: int,
    previousTarget: int,
    nextTarget: int,
    previousDisabled: bool,
    nextDisabled: bool)

  function Max(a: int, b: int): int
  {
    if a >= b then a else b
  }

  /** `PaginationControls`: nothing for a single page, otherwise the range and the two buttons. */
  function Render(currentPage: int, totalPages: int, filteredCount: int, pageSize: int): (r: Option<Controls>)
    ensures r.None? <==> totalPages <= 1
  {
    if totalPages <= 1 then None
    else
      Some(Controls(
        (currentPage - 1) * pageSize + 1,
        Min(currentPage * pageSize, filteredCount),
        Max(1, currentPage - 1),
        Min(totalPages, currentPage + 1),
        currentPage == 1,
        currentPage == totalPages))
  }

  /**
   * Previous never leads below page 1 nor past the current page; Next never
   * leads past the last page nor, from a page in range, back. Each button is
   * disabled exactly when it would stay on the current page.
   */
  lemma ButtonTargets(currentPage: int, totalPages: int, filteredCount: int, pageSize: int)
    requires totalPages > 1 && 1 <= currentPage <= totalPages
    ensures var c := Render(currentPage, totalPages, filteredCount, pageSize).value;
      && 1 <= c.previousTarget <= currentPage
      && currentPage <= c.nextTarget <= totalPages
      && (c.previousDisabled <==> c.previousTarget == currentPage)
      && (c.nextDisabled <==> c.nextTarget == currentPage)
  {
  }

  /**
   * On a page in range, with the page count the ceiling of count over page
   * size, the range runs from 1 at least to the count at most, start before
   * end, and spans at most one page.
   */
  lemma RangeBounds(currentPage: int, totalPages: int, filteredCount: int, pageSize: int)
    requires pageSize >= 1 && totalPages > 1 && 1 <= currentPage <= totalPages
    requires (totalPages - 1) * pageSize < filteredCount <= totalPages * pageSize
    ensures var c := Render(currentPage, totalPages, filteredCount, pageSize).value;
      1 <= c.start <= c.end <= filteredCount && c.end - c.start + 1 <= pageSize
  {
    var c := Render(currentPage, totalPages, filteredCount, pageSize).value;
    assert (currentPage - 1) * pageSize <= (totalPages - 1) * pageSize by {
      MultiplyMonotone(currentPage - 1, totalPages - 1, pageSize);
    }
    assert c.start == (currentPage - 1) * pageSize + 1;
    assert currentPage * pageSize == (currentPage - 1) * pageSize + pageSize;
  }

  lemma MultiplyMonotone(a: int, b: int, k: nat)
    requires a <= b
    ensures a * k <= b * k
  {
  }

  /**
   * With the store's page size and page count, the range names exactly the
   * transactions the store's page slice holds: positions start to end,
   * counted from 1.
   */
  lemma RangeIsPageSlice(s: seq<Transaction>, currentPage: int)
    requires TotalPages(|s|) > 1 && 1 <= currentPage <= TotalPages(|s|)
    ensures var c := Render(currentPage, TotalPages(|s|), |s|, TransactionsPerPage).value;
      && 1 <= c.start <= c.end <= |s|
      && PageSlice(s, currentPage) == s[c.start - 1..c.end]
      && |PageSlice(s, currentPage)| == c.end - c.start + 1
  {
    RangeBounds(currentPage, TotalPages(|s|), |s|, TransactionsPerPage);
    PageSliceContents(s, currentPage);
  }
}
