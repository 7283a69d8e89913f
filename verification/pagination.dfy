/**
 * Pagination arithmetic shared by the order manager (page size 10) and the
 * menu manager (page size 9): the page-number window with ellipses, the
 * page-change guard, adopting a fetched page, the "showing X to Y of Z"
 * range, and the step back after deleting the last row of a page.
 */
module Pagination {
  import opened Common

  const OrderPageSize: nat := 10
  const MenuPageSize: nat := 9

  function Min(a: int, b: int): int { if a <= b then a else b }
  function Max(a: int, b: int): int { if a >= b then a else b }

  // ---------------------------------------------------------------------------
  // The page-number window
  // ---------------------------------------------------------------------------

  /** A button of the window: a page number, or the `'...'` marker. */
  datatype PageEntry = Page(n: int) | Ellipsis

  /** The buttons `lo, lo + 1, …, hi` (none when `hi < lo`). */
  function Pages(lo: int, hi: int): (r: seq<PageEntry>)
    ensures |r| == if lo <= hi then hi - lo + 1 else 0
    ensures forall i :: 0 <= i < |r| ==> r[i] == Page(lo + i)
    decreases hi - lo
  {
    if lo > hi then [] else [Page(lo)] + Pages(lo + 1, hi)
  }

  /** The first and last page of the run around the current page. */
  function RunStart(current: int): int { Max(2, current - 1) }
  function RunEnd(current: int, total: int): int { Min(total - 1, current + 1) }

  /**
   * The buttons of the `Pagination` component: every page when there are at
   * most five, otherwise the first page, the current page with its
   * neighbours, and the last page, with `'...'` over each gap.
   */
  function PageWindow(current: int, total: int): (r: seq<PageEntry>)
    ensures total >= 1 ==> |r| >= 1 && r[0] == Page(1) && r[|r| - 1] == Page(total)
    ensures forall i :: 0 <= i < |r| && r[i].Page? ==> 1 <= r[i].n <= total
    ensures total <= 5 ==> Ellipsis !in r
  {
    if total <= 5 then Pages(1, total)
    else
      [Page(1)]
      + (if current > 3 then [Ellipsis] else [])
      + Pages(RunStart(current), RunEnd(current, total))
      + (if current < total - 2 then [Ellipsis] else [])
      + [Page(total)]
  }

  /** Page `p` has a button in the window `w`. */
  predicate Listed(w: seq<PageEntry>, p: int) {
    exists i :: 0 <= i < |w| && w[i] == Page(p)
  }

  /** The numbered buttons of `w` strictly increase from left to right. */
  predicate Increasing(w: seq<PageEntry>) {
    forall i, j :: 0 <= i < j < |w| && w[i].Page? && w[j].Page? ==> w[i].n < w[j].n
  }

  /** With at most five pages the window is exactly `1..total`, empty when there are none. */
  lemma SmallWindow(current: int, total: int)
    requires total <= 5
    ensures var w := PageWindow(current, total);
            && |w| == Max(total, 0)
            && (forall i :: 0 <= i < |w| ==> w[i] == Page(i + 1))
            && Increasing(w)
  {
  }

  /** Where the parts of a large window sit: `1`, an optional `'...'`, the run, an optional `'...'`, `total`. */
  lemma {:induction false} LargeWindowLayout(current: int, total: int)
    requires 5 < total && 1 <= current <= total
    ensures var w := PageWindow(current, total);
            var lo, hi := RunStart(current), RunEnd(current, total);
            var a := if current > 3 then 2 else 1;
            var b := a + hi - lo + 1;
            && 2 <= lo <= hi <= total - 1 && hi - lo <= 2
            && (current > 3 <==> lo > 2)
            && (current < total - 2 <==> hi < total - 1)
            && |w| == b + (if current < total - 2 then 1 else 0) + 1
            && w[0] == Page(1) && w[|w| - 1] == Page(total)
            && (forall i :: a <= i < b ==> w[i] == Page(lo + i - a))
            && (forall i :: 0 < i < a ==> w[i] == Ellipsis)
            && (forall i :: b <= i < |w| - 1 ==> w[i] == Ellipsis)
  {
    var lo, hi := RunStart(current), RunEnd(current, total);
    var lead: seq<PageEntry> := if current > 3 then [Ellipsis] else [];
    var trail: seq<PageEntry> := if current < total - 2 then [Ellipsis] else [];
    var mid := Pages(lo, hi);
    var w := PageWindow(current, total);
    assert w == [Page(1)] + lead + mid + trail + [Page(total)];
    var a := 1 + |lead|;
    assert forall i :: a <= i < a + |mid| ==> w[i] == mid[i - a];
  }

  /** A large window starts at 1, ends at `total`, has 3 to 7 buttons, and its numbers increase within `1..total`. */
  lemma LargeWindowShape(current: int, total: int)
    requires 5 < total && 1 <= current <= total
    ensures var w := PageWindow(current, total);
            && 3 <= |w| <= 7
            && w[0] == Page(1) && w[|w| - 1] == Page(total)
            && Increasing(w)
            && (forall i :: 0 <= i < |w| && w[i].Page? ==> 1 <= w[i].n <= total)
  {
    LargeWindowLayout(current, total);
  }

  /** A large window lists exactly the first, the last, the current page and the current page's neighbours. */
  lemma LargeWindowListed(current: int, total: int, p: int)
    requires 5 < total && 1 <= current <= total && 1 <= p <= total
    ensures Listed(PageWindow(current, total), p) <==>
            p == 1 || p == total || current - 1 <= p <= current + 1
  {
    LargeWindowLayout(current, total);
    var w := PageWindow(current, total);
    var lo := RunStart(current);
    var a := if current > 3 then 2 else 1;
    if p == 1 {
      assert w[0] == Page(p);
    } else if p == total {
      assert w[|w| - 1] == Page(p);
    } else if current - 1 <= p <= current + 1 {
      assert w[a + p - lo] == Page(p);
    }
  }

  /**
   * In a large window the leading `'...'` appears iff `current > 3` and the
   * trailing one iff `current < total - 2`; neighbouring numbers are
   * consecutive, and a `'...'` always stands for at least one hidden page.
   */
  lemma LargeWindowGaps(current: int, total: int)
    requires 5 < total && 1 <= current <= total
    ensures var w := PageWindow(current, total);
            && (w[1] == Ellipsis <==> current > 3)
            && (w[|w| - 2] == Ellipsis <==> current < total - 2)
            && (forall i :: 0 <= i < |w| - 1 && w[i].Page? && w[i + 1].Page? ==>
                  w[i + 1].n == w[i].n + 1)
            && (forall i :: 0 < i < |w| - 1 && w[i] == Ellipsis ==>
                  w[i - 1].Page? && w[i + 1].Page? && w[i + 1].n - w[i - 1].n >= 2)
  {
    LargeWindowLayout(current, total);
    NeighboursConsecutive(current, total);
    EllipsisHidesPages(current, total);
  }

  /** Numbered buttons side by side in a large window are consecutive pages. */
  lemma NeighboursConsecutive(current: int, total: int)
    requires 5 < total && 1 <= current <= total
    ensures var w := PageWindow(current, total);
            forall i :: 0 <= i < |w| - 1 && w[i].Page? && w[i + 1].Page? ==> w[i + 1].n == w[i].n + 1
  {
    LargeWindowLayout(current, total);
    var w := PageWindow(current, total);
    var lo, hi := RunStart(current), RunEnd(current, total);
    var a := if current > 3 then 2 else 1;
    var b := a + hi - lo + 1;
    forall i | 0 <= i < |w| - 1 && w[i].Page? && w[i + 1].Page?
      ensures w[i + 1].n == w[i].n + 1
    {
      if i == 0 {
        assert a == 1 && w[1] == Page(lo);
      } else if i + 1 < b {
        assert w[i] == Page(lo + i - a) && w[i + 1] == Page(lo + i + 1 - a);
      } else {
        assert i == b - 1 && w[i] == Page(hi) && i + 1 == |w| - 1;
      }
    }
  }

  /** Each `'...'` of a large window sits between numbered buttons at least two pages apart. */
  lemma EllipsisHidesPages(current: int, total: int)
    requires 5 < total && 1 <= current <= total
    ensures var w := PageWindow(current, total);
            forall i :: 0 < i < |w| - 1 && w[i] == Ellipsis ==>
              w[i - 1].Page? && w[i + 1].Page? && w[i + 1].n - w[i - 1].n >= 2
  {
    LargeWindowLayout(current, total);
    var w := PageWindow(current, total);
    var lo, hi := RunStart(current), RunEnd(current, total);
    var a := if current > 3 then 2 else 1;
    var b := a + hi - lo + 1;
    forall i | 0 < i < |w| - 1 && w[i] == Ellipsis
      ensures w[i - 1].Page? && w[i + 1].Page? && w[i + 1].n - w[i - 1].n >= 2
    {
      if i < a {
        assert i == 1 && w[0] == Page(1) && w[2] == Page(lo);
      } else {
        assert i == b && w[b - 1] == Page(hi) && w[b + 1] == Page(total);
      }
    }
  }

  // ---------------------------------------------------------------------------
  // Moving between pages
  // ---------------------------------------------------------------------------

  /** `handlePageChange`: the page to fetch, or nothing before mount or outside `1..total`. */
  function ChangePage(mounted: bool, newPage: int, total: int): (r: Option<int>)
    ensures r.Some? <==> mounted && 1 <= newPage <= total
    ensures r.Some? ==> r.value == newPage
  {
    if !mounted then None
    else if newPage < 1 || newPage > total then None
    else Some(newPage)
  }

  /** After mount, every numbered button of the window is a page the guard lets through. */
  lemma WindowPagesAccepted(current: int, total: int, i: int)
    requires 1 <= current <= total
    requires 0 <= i < |PageWindow(current, total)| && PageWindow(current, total)[i].Page?
    ensures ChangePage(true, PageWindow(current, total)[i].n, total) == Some(PageWindow(current, total)[i].n)
  {
    if total > 5 {
      LargeWindowShape(current, total);
    }
  }

  /** The previous/next arrows never leave `1..total`: at either end the guard refuses. */
  lemma ArrowsStayInRange(mounted: bool, current: int, total: int)
    requires 1 <= current <= total
    ensures current == 1 ==> ChangePage(mounted, current - 1, total).None?
    ensures current == total ==> ChangePage(mounted, current + 1, total).None?
  {
  }

  // ---------------------------------------------------------------------------
  // Adopting a fetched page
  // ---------------------------------------------------------------------------

  /** `Math.ceil(count / size)` for a non-negative count and a positive size. */
  function CeilDiv(count: nat, size: nat): (r: nat)
    requires size > 0
    ensures r * size >= count
    ensures r > 0 ==> (r - 1) * size < count
  {
    (count + size - 1) / size
  }

  /** What the list page keeps of the last fetch. */
  datatype PageState<T> = PageState(items: seq<T>, totalItems: nat, totalPages: nat, currentPage: int)

  /**
   * An already-decoded list response: a bare array, a paginated object
   * `{count, results: [...]}`, any other body, or a failed request (a non-OK
   * status or a thrown error).
   */
  datatype Response<T> = PlainList(list: seq<T>) | Paginated(count: nat, results: seq<T>) | Unexpected | RequestFailed

  /**
   * `fetchOrders(page)` / `fetchMenus(page)` once the body is known: a bare
   * array is a single page; a paginated body gives `ceil(count / size)`
   * pages and makes the requested page current; anything else empties the
   * list, leaving the current page as it was.
   */
  function ApplyResponse<T>(st: PageState<T>, resp: Response<T>, requested: int, size: nat): (r: PageState<T>)
    requires size > 0
    ensures resp.PlainList? ==> r == PageState(resp.list, |resp.list|, 1, 1)
    ensures resp.Paginated? ==>
              && r.items == resp.results && r.totalItems == resp.count && r.currentPage == requested
              && r.totalPages * size >= resp.count
              && (r.totalPages > 0 ==> (r.totalPages - 1) * size < resp.count)
    ensures (resp.Unexpected? || resp.RequestFailed?) ==>
              r == PageState([], 0, 1, st.currentPage)
  {
    match resp
    case PlainList(list) => PageState(list, |list|, 1, 1)
    case Paginated(count, results) => PageState(results, count, CeilDiv(count, size), requested)
    case _ => PageState([], 0, 1, st.currentPage)
  }

  /** A paginated response has no pages exactly when its count is zero. */
  lemma NoPagesIffNoItems<T>(st: PageState<T>, count: nat, results: seq<T>, requested: int, size: nat)
    requires size > 0
    ensures ApplyResponse(st, Paginated(count, results), requested, size).totalPages == 0 <==> count == 0
  {
  }

  // ---------------------------------------------------------------------------
  // "Showing X to Y of Z"
  // ---------------------------------------------------------------------------

  /** The row numbers the footer reports for the current page, or nothing when there are no rows. */
  function ShowingRange(current: int, size: nat, totalItems: nat): (r: Option<(int, int)>)
    ensures r.None? <==> totalItems == 0
    ensures r.Some? ==> r.value.0 == (current - 1) * size + 1
    ensures r.Some? ==> r.value.1 <= totalItems && r.value.1 <= current * size
    ensures r.Some? ==> r.value.1 == totalItems || r.value.1 == current * size
  {
    if totalItems > 0 then Some(((current - 1) * size + 1, Min(current * size, totalItems))) else None
  }

  /**
   * Within the page count the footer ranges are non-empty, hold at most one
   * page of rows, tile the rows without gap or overlap, and the last one ends
   * at the total.
   */
  lemma ShowingRangesTile(current: int, size: nat, totalItems: nat)
    requires size > 0 && totalItems > 0
    requires 1 <= current <= CeilDiv(totalItems, size)
    ensures var r := ShowingRange(current, size, totalItems).value;
            && 1 <= r.0 <= r.1 && r.1 - r.0 < size
            && (current < CeilDiv(totalItems, size) ==>
                  ShowingRange(current + 1, size, totalItems).value.0 == r.1 + 1)
            && (current == CeilDiv(totalItems, size) ==> r.1 == totalItems)
  {
    var pages := CeilDiv(totalItems, size);
    var start := (current - 1) * size;
    assert current * size == start + size;
    MulMonotone(current - 1, pages - 1, size);
    MulMonotone(0, current - 1, size);
    if current < pages {
      MulMonotone(current, pages - 1, size);
    }
  }

  /** Multiplying by a non-negative factor keeps the order. */
  lemma MulMonotone(a: int, b: int, k: nat)
    requires a <= b
    ensures a * k <= b * k
  {
    assert b * k - a * k == (b - a) * k;
  }

  // ---------------------------------------------------------------------------
  // Step back after a delete
  // ---------------------------------------------------------------------------

  /** The page refetched after deleting a row when `rowsOnPage` rows were shown. */
  function PageAfterDelete(rowsOnPage: nat, current: int): (r: int)
    ensures r == current - 1 <==> rowsOnPage == 1 && current > 1
    ensures r != current - 1 ==> r == current
    ensures current >= 1 ==> r >= 1
  {
    if rowsOnPage == 1 && current > 1 then current - 1 else current
  }

  /** Multiplying by a non-negative factor keeps order. */
  lemma MulMono(a: int, b: int, k: int)
    requires a <= b && k >= 0
    ensures a * k <= b * k
  {
    assert b * k - a * k == (b - a) * k;
  }

  /** The number of rows shown on page `current`. */
  function RowsOnPage(current: int, size: nat, totalItems: nat): int {
    Min(current * size, totalItems) - (current - 1) * size
  }

  /**
   * The page refetched after a delete still exists once the row is gone:
   * deleting the only row of a later page steps back onto the new last page,
   * and otherwise the current page keeps at least one row (unless the list
   * became empty, when page 1 is refetched).
   */
  lemma {:induction false} DeleteLandsOnExistingPage(totalItems: nat, size: nat, current: int)
    requires size > 0 && totalItems > 0
    requires 1 <= current <= CeilDiv(totalItems, size)
    ensures var target := PageAfterDelete(RowsOnPage(current, size, totalItems), current);
            && 1 <= target
            && (target <= CeilDiv(totalItems - 1, size) || (totalItems == 1 && target == 1))
  {
    var pages := CeilDiv(totalItems, size);
    MulMono(current - 1, pages - 1, size);
    var rows := RowsOnPage(current, size, totalItems);
    var after := CeilDiv(totalItems - 1, size);
    RowsAfterDelete(totalItems, size, current, rows, after);
  }

  /**
   * The arithmetic behind `DeleteLandsOnExistingPage`, with the page counts
   * given only by the bounds `CeilDiv` guarantees.
   */
  lemma RowsAfterDelete(n: nat, s: nat, c: int, rows: int, after: nat)
    requires s > 0 && n > 0 && c >= 1
    requires (c - 1) * s < n
    requires rows == Min(c * s, n) - (c - 1) * s
    requires after * s >= n - 1
    requires after > 0 ==> (after - 1) * s < n - 1
    ensures var target := PageAfterDelete(rows, c);
            && 1 <= target
            && (target <= after || (n == 1 && target == 1))
  {
    var below := (c - 1) * s;
    assert c * s == below + s;
    var target := PageAfterDelete(rows, c);
    if target == c - 1 {
      // The only row of page `c` is row `below + 1`, so `n - 1 >= below`.
      assert n - 1 >= below;
      MulCancel(after, c - 1, s);
    } else if n > 1 {
      assert rows >= 2 || c == 1;
      assert n - 1 > below;
      MulCancel(after, c, s);
    } else {
      assert below == 0;
      if c > 1 {
        MulMono(1, c - 1, s);
      }
    }
  }

  /** A product with a positive factor keeps strict order. */
  lemma MulStrict(a: int, b: int, k: int)
    requires a < b && k > 0
    ensures a * k < b * k
  {
    assert b * k - a * k == (b - a) * k;
  }

  /** If `a * k` exceeds `(b - 1) * k` for a positive `k`, then `a >= b`. */
  lemma MulCancel(a: int, b: int, k: int)
    requires k > 0 && a * k > (b - 1) * k
    ensures a >= b
  {
    if a < b {
      MulMono(a, b - 1, k);
    }
  }

  /** `menu-management` draws the pager only when there is more than one page. */
  predicate ShowsPager(totalPages: int) {
    totalPages > 1
  }

  /** The pager appears exactly when there are more rows than fit on one page. */
  lemma PagerIffMoreThanOnePage(count: nat, size: nat)
    requires size > 0
    ensures ShowsPager(CeilDiv(count, size)) <==> count > size
  {
    var p := CeilDiv(count, size);
    if p > 1 {
      MulMono(1, p - 1, size);
    } else {
      MulMono(p, 1, size);
    }
  }
}
