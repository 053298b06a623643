/**
  Server-side pagination of the bookmark list: the fixed page size, the page
  count derived from the total, the inclusive index window a page fetch asks
  for, and the clamps of the Prev and Next buttons.
 */
module Pagination {

  const PageSize: int := 20

  /** `Math.ceil(totalCount / PAGE_SIZE)`: the least number of pages whose
      capacity covers the total. */
  function TotalPages(totalCount: int): (pages: int)
    ensures pages * PageSize >= totalCount
    ensures (pages - 1) * PageSize < totalCount
    ensures totalCount >= 0 ==> pages >= 0
    ensures totalCount > 0 ==> pages >= 1
  {
    (totalCount + PageSize - 1) / PageSize
  }

  /** The two bounds above pin the page count down: it is exactly the ceiling. */
  lemma TotalPagesIsCeiling(totalCount: int, pages: int)
    ensures pages == TotalPages(totalCount)
        <==> pages * PageSize >= totalCount && (pages - 1) * PageSize < totalCount
  {
  }

  /** The inclusive index range `[from, to]` a fetch requests (`.range(from, to)`). */
  datatype Window = Window(from: int, to: int)

  predicate InWindow(i: int, w: Window) {
    w.from <= i <= w.to
  }

  /** The window of page `pageToLoad`: the page's block of `PageSize` indices. */
  function FetchWindow(pageToLoad: int): (w: Window)
    ensures w.to - w.from + 1 == PageSize
    ensures w.from % PageSize == 0 && w.from / PageSize == pageToLoad
  {
    var from := pageToLoad * PageSize;
    Window(from, from + PageSize - 1)
  }

  /** Consecutive pages ask for adjacent windows: no index is skipped. */
  lemma AdjacentWindows(pageToLoad: int)
    ensures FetchWindow(pageToLoad).to + 1 == FetchWindow(pageToLoad + 1).from
  {
  }

  /** Every index lies in the window of exactly one page, `i / PageSize`, so
      windows of different pages never overlap. */
  lemma WindowOfIndex(i: int, pageToLoad: int)
    ensures InWindow(i, FetchWindow(pageToLoad)) <==> pageToLoad == i / PageSize
  {
  }

  /** A page at or after 0 starts inside the record range exactly when it is one
      of the `TotalPages` pages the controls offer. */
  lemma PageHasRecords(totalCount: int, pageToLoad: int)
    requires pageToLoad >= 0
    ensures FetchWindow(pageToLoad).from < totalCount <==> pageToLoad < TotalPages(totalCount)
  {
  }

  /** `Math.max(0, p - 1)`, the Prev button's update. */
  function PrevPage(page: int): (r: int)
    ensures r >= 0 && r >= page - 1
    ensures r == 0 || r == page - 1
  {
    if page - 1 > 0 then page - 1 else 0
  }

  /** `Math.min(totalPages - 1, p + 1)`, the Next button's update. */
  function NextPage(page: int, totalPages: int): (r: int)
    ensures r <= totalPages - 1 && r <= page + 1
    ensures r == totalPages - 1 || r == page + 1
  {
    if totalPages - 1 < page + 1 then totalPages - 1 else page + 1
  }

  /** Prev keeps a page that is in range in range, and steps back by one unless
      it is already on the first page. */
  lemma PrevStaysInRange(page: int, totalPages: int)
    requires 0 <= page < totalPages
    ensures 0 <= PrevPage(page) < totalPages
    ensures page > 0 ==> PrevPage(page) == page - 1
    ensures page == 0 ==> PrevPage(page) == 0
  {
  }

  /** Next keeps a page that is in range in range, and steps forward by one
      unless it is already on the last page. */
  lemma NextStaysInRange(page: int, totalPages: int)
    requires 0 <= page < totalPages
    ensures 0 <= NextPage(page, totalPages) < totalPages
    ensures page < totalPages - 1 ==> NextPage(page, totalPages) == page + 1
    ensures page == totalPages - 1 ==> NextPage(page, totalPages) == page
  {
  }
}
