/** The client's pagination hook: two state cells, the current page and
    the number of pages, with guarded moves that keep the page inside
    `1..totalPages`, and raw setters that do not. */
module UsePagination {

  /** The page in range: the invariant the guarded moves keep. */
  predicate InRange(page: int, totalPages: int) {
    1 <= page <= totalPages
  }

  /** `hasNext`. */
  predicate HasNextPage(page: int, totalPages: int) {
    page < totalPages
  }

  /** `hasPrev`. */
  predicate HasPrevPage(page: int) {
    page > 1
  }

  /** The page after `nextPage`: one further when there is a next page. */
  function NextOf(page: int, totalPages: int): (r: int)
    ensures r == page || r == page + 1
    ensures r == page + 1 <==> HasNextPage(page, totalPages)
    ensures InRange(page, totalPages) ==> InRange(r, totalPages)
  {
    if HasNextPage(page, totalPages) then page + 1 else page
  }

  /** The page after `prevPage`: one back when there is a previous page. */
  function PrevOf(page: int): (r: int)
    ensures r == page || r == page - 1
    ensures r == page - 1 <==> HasPrevPage(page)
    ensures r >= 1 ==> page >= 1
    ensures forall t :: InRange(page, t) ==> InRange(r, t)
  {
    if HasPrevPage(page) then page - 1 else page
  }

  /** The page after `goToPage(n)`: `n` when it is a page, else unchanged. */
  function GoTo(page: int, totalPages: int, n: int): (r: int)
    ensures InRange(n, totalPages) ==> r == n
    ensures !InRange(n, totalPages) ==> r == page
    ensures InRange(page, totalPages) ==> InRange(r, totalPages)
  {
    if InRange(n, totalPages) then n else page
  }

  /** Stepping forward and then back returns to the start, whenever there
      was a next page. */
  lemma NextThenPrev(page: int, totalPages: int)
    requires InRange(page, totalPages) && HasNextPage(page, totalPages)
    ensures PrevOf(NextOf(page, totalPages)) == page
  {
  }

  /** Stepping back and then forward returns to the start, whenever there
      was a previous page. */
  lemma PrevThenNext(page: int, totalPages: int)
    requires InRange(page, totalPages) && HasPrevPage(page)
    ensures NextOf(PrevOf(page), totalPages) == page
  {
  }

  /** `k` steps forward from a page in range reach `min(page + k, totalPages)`. */
  function NextTimes(page: int, totalPages: int, k: nat): int {
    if k == 0 then page else NextOf(NextTimes(page, totalPages, k - 1), totalPages)
  }

  lemma {:induction false} NextTimesStopsAtLast(page: int, totalPages: int, k: nat)
    requires InRange(page, totalPages)
    ensures NextTimes(page, totalPages, k) == if page + k <= totalPages then page + k else totalPages
  {
    if k > 0 {
      NextTimesStopsAtLast(page, totalPages, k - 1);
    }
  }

  /** Going to a page twice is going to it once. */
  lemma GoToIdempotent(page: int, totalPages: int, n: int)
    ensures GoTo(GoTo(page, totalPages, n), totalPages, n) == GoTo(page, totalPages, n)
  {
  }

  class PaginationState {
    var page: int
    var totalPages: int

    ghost predicate Valid()
      reads this
    {
      InRange(page, totalPages)
    }

    /** `usePagination(initialPage = 1)`: the page starts where asked (page 1
        by default), with one page in total; it is in range only when it
        starts at 1. */
    constructor (initialPage: int := 1)
      ensures page == initialPage && totalPages == 1
      ensures Valid() <==> initialPage == 1
    {
      page := initialPage;
      totalPages := 1;
    }

    function HasNext(): bool
      reads this
    {
      HasNextPage(page, totalPages)
    }

    function HasPrev(): bool
      reads this
    {
      HasPrevPage(page)
    }

    method NextPage()
      modifies this
      ensures page == NextOf(old(page), old(totalPages)) && totalPages == old(totalPages)
      ensures old(Valid()) ==> Valid()
    {
      if HasNext() {
        page := page + 1;
      }
    }

    method PrevPage()
      modifies this
      ensures page == PrevOf(old(page)) && totalPages == old(totalPages)
      ensures old(Valid()) ==> Valid()
    {
      if HasPrev() {
        page := page - 1;
      }
    }

    method GoToPage(pageNumber: int)
      modifies this
      ensures page == GoTo(old(page), old(totalPages), pageNumber) && totalPages == old(totalPages)
      ensures old(Valid()) ==> Valid()
    {
      if pageNumber >= 1 && pageNumber <= totalPages {
        page := pageNumber;
      }
    }

    /** `reset`: back to the first page; the total is untouched, so the
        result is in range exactly when there is at least one page. */
    method Reset()
      modifies this
      ensures page == 1 && totalPages == old(totalPages)
      ensures Valid() <==> totalPages >= 1
      ensures old(Valid()) ==> Valid()
    {
      page := 1;
    }

    /** The exposed `setPage`: any value, unchecked. */
    method SetPage(n: int)
      modifies this
      ensures page == n && totalPages == old(totalPages)
      ensures Valid() <==> InRange(n, totalPages)
    {
      page := n;
    }

    /** The exposed `setTotalPages`: the page is not clamped, so shrinking
        the total below the current page leaves the state out of range. */
    method SetTotalPages(n: int)
      modifies this
      ensures totalPages == n && page == old(page)
      ensures old(Valid()) ==> (Valid() <==> old(page) <= n)
    {
      totalPages := n;
    }
  }
}
