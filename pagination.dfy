/**
  The pager under the manga grid: nothing for one page or fewer; otherwise a
  "previous" button, a window of at most five consecutive page numbers around
  the current page, a "1" button and an ellipsis before the window when it does
  not start at the first page, an ellipsis and a last-page button after it when
  it does not end at the last page, and a "next" button.
*/
module Pagination {
  import opened Wrappers

  const MaxPagesToShow := 5

  function Max(a: int, b: int): int { if a >= b then a else b }
  function Min(a: int, b: int): int { if a <= b then a else b }

  // ---------------------------------------------------------------------------
  // the window

  /** The first page number of the window, in closed form. */
  function WindowStart(current: int, total: int): int
  {
    Max(1, Min(current - 2, total - 4))
  }

  /** The last page number of the window, in closed form. */
  function WindowEnd(current: int, total: int): int
  {
    Min(total, Max(1, current - 2) + 4)
  }

  /**
    The window as the component computes it: centred on the current page,
    cut at the last page, and moved back when it came out short.
  */
  method Window(current: int, total: int) returns (startPage: int, endPage: int)
    ensures startPage == WindowStart(current, total) && endPage == WindowEnd(current, total)
  {
    startPage := Max(1, current - MaxPagesToShow / 2);
    endPage := Min(total, startPage + MaxPagesToShow - 1);
    if endPage - startPage + 1 < MaxPagesToShow {
      startPage := Max(1, endPage - MaxPagesToShow + 1);
    }
  }

  /**
    With at least one page, the window lies within the pages, holds
    `min(5, total)` numbers, and holds the current page when that is a page.
  */
  lemma WindowBounds(current: int, total: int)
    requires total >= 1
    ensures 1 <= WindowStart(current, total) <= WindowEnd(current, total) <= total
    ensures WindowEnd(current, total) - WindowStart(current, total) + 1 == Min(MaxPagesToShow, total)
    ensures 1 <= current <= total ==> WindowStart(current, total) <= current <= WindowEnd(current, total)
  {
  }

  // ---------------------------------------------------------------------------
  // the rendered pager

  /** A numbered button; `current` is the highlighted one. */
  datatype PageButton = PageButton(page: int, disabled: bool, current: bool)

  /** What the pager shows, left to right. */
  datatype Layout = Layout(
    previousDisabled: bool,
    firstButton: bool,
    firstDisabled: bool,
    leadingEllipsis: bool,
    numbers: seq<PageButton>,
    trailingEllipsis: bool,
    lastButton: bool,
    lastDisabled: bool,
    nextDisabled: bool)

  /** The numbered buttons `from..to`, each disabled while loading or when it is the current page. */
  function Buttons(from: int, to: int, current: int, isLoading: bool): (r: seq<PageButton>)
    requires from <= to + 1
    ensures |r| == to - from + 1
  {
    seq(to - from + 1, k requires 0 <= k < to - from + 1 =>
      PageButton(from + k, isLoading || current == from + k, current == from + k))
  }

  /** The pager for more than one page. */
  function LayoutOf(current: int, total: int, isLoading: bool): Layout
    requires total > 1
  {
    WindowBounds(current, total);
    var s, e := WindowStart(current, total), WindowEnd(current, total);
    Layout(
      isLoading || current == 1,
      s > 1,
      isLoading,
      s > 1 && s > 2,
      Buttons(s, e, current, isLoading),
      e < total && e < total - 1,
      e < total,
      isLoading,
      isLoading || current == total)
  }

  /** The component: nothing for one page or fewer, otherwise the buttons pushed one by one. */
  method Render(current: int, total: int, isLoading: bool) returns (view: Option<Layout>)
    ensures view.None? <==> total <= 1
    ensures view.Some? ==> total > 1 && view.value == LayoutOf(current, total, isLoading)
  {
    if total <= 1 {
      return None;
    }
    var startPage, endPage := Window(current, total);
    WindowBounds(current, total);
    var numbers: seq<PageButton> := [];
    for i := startPage to endPage + 1
      invariant numbers == Buttons(startPage, i - 1, current, isLoading)
    {
      numbers := numbers + [PageButton(i, isLoading || current == i, current == i)];
    }
    view := Some(Layout(
      isLoading || current == 1,
      startPage > 1,
      isLoading,
      startPage > 1 && startPage > 2,
      numbers,
      endPage < total && endPage < total - 1,
      endPage < total,
      isLoading,
      isLoading || current == total));
  }

  // ---------------------------------------------------------------------------
  // the handlers

  /** `handlePrevious`: the page it asks for, if any. */
  function Previous(current: int, isLoading: bool): Option<int>
  {
    if current > 1 && !isLoading then Some(current - 1) else None
  }

  /** `handleNext`: the page it asks for, if any. */
  function Next(current: int, total: int, isLoading: bool): Option<int>
  {
    if current < total && !isLoading then Some(current + 1) else None
  }

  /** A numbered, first-page or last-page button's `onClick`: `!isLoading && onPageChange(page)`. */
  function Click(page: int, isLoading: bool): Option<int>
  {
    if !isLoading then Some(page) else None
  }

  // ---------------------------------------------------------------------------
  // what the pager promises

  /**
    The numbered buttons are the pages `startPage..endPage` in ascending
    order, `min(5, total)` of them; a button is disabled exactly while loading
    or when it is the current page, and the current page has one button when it
    is a page at all.
  */
  lemma NumberedButtons(current: int, total: int, isLoading: bool)
    requires total > 1
    ensures var n := LayoutOf(current, total, isLoading).numbers;
      && |n| == Min(MaxPagesToShow, total)
      && n[0].page == WindowStart(current, total)
      && (forall k :: 0 <= k < |n| - 1 ==> n[k + 1].page == n[k].page + 1)
      && (forall k :: 0 <= k < |n| ==> 1 <= n[k].page <= total)
      && (forall k :: 0 <= k < |n| ==> (n[k].current <==> n[k].page == current))
      && (forall k :: 0 <= k < |n| ==> (n[k].disabled <==> isLoading || n[k].current))
      && (1 <= current <= total ==> exists k :: 0 <= k < |n| && n[k].current)
  {
    WindowBounds(current, total);
    var n := LayoutOf(current, total, isLoading).numbers;
    if 1 <= current <= total {
      var k := current - WindowStart(current, total);
      assert n[k].current;
    }
  }

  /** The pages with a button of their own, left to right. */
  function VisiblePages(l: Layout, total: int): seq<int>
  {
    (if l.firstButton then [1] else [])
    + seq(|l.numbers|, k requires 0 <= k < |l.numbers| => l.numbers[k].page)
    + (if l.lastButton then [total] else [])
  }

  /**
    Every page can be reached: the buttons begin at page 1 and end at the last
    page, and next to the window an ellipsis stands exactly where pages are
    skipped. The first-page and last-page buttons are disabled exactly while
    loading, which is exactly when their handlers do nothing, and they never
    ask for the current page.
  */
  lemma EdgesAndEllipses(current: int, total: int, isLoading: bool)
    requires total > 1
    ensures var l := LayoutOf(current, total, isLoading);
      var v := VisiblePages(l, total);
      && |v| > 0 && v[0] == 1 && v[|v| - 1] == total
      && (l.firstButton <==> l.numbers[0].page > 1)
      && (l.leadingEllipsis <==> l.numbers[0].page > 2)
      && (l.lastButton <==> l.numbers[|l.numbers| - 1].page < total)
      && (l.trailingEllipsis <==> l.numbers[|l.numbers| - 1].page < total - 1)
      && (l.firstDisabled <==> isLoading) && (l.lastDisabled <==> isLoading)
      && (l.firstDisabled <==> Click(1, isLoading).None?)
      && (l.lastDisabled <==> Click(total, isLoading).None?)
      && (l.firstButton ==> current != 1)
      && (l.lastButton ==> current != total)
  {
    WindowBounds(current, total);
    var l := LayoutOf(current, total, isLoading);
    var v := VisiblePages(l, total);
    var mid := seq(|l.numbers|, k requires 0 <= k < |l.numbers| => l.numbers[k].page);
    assert l.numbers[0].page == WindowStart(current, total);
    assert l.numbers[|l.numbers| - 1].page == WindowEnd(current, total);
    if l.firstButton { assert v[0] == 1; } else { assert v[0] == mid[0]; }
    if l.lastButton { assert v[|v| - 1] == total; } else { assert v[|v| - 1] == mid[|mid| - 1]; }
  }

  /**
    "previous" is disabled exactly when its handler does nothing as long as
    the current page is at least 1, and "next" likewise as long as it is at
    most the last page; outside those bounds (a `currentPage` prop out of
    range) the button is enabled but inert. When they act they move one
    page, "next" within the pages and "previous" to page 1 at least, but past
    the last page when the current page was beyond it.
  */
  lemma HandlersMatchButtons(current: int, total: int, isLoading: bool)
    requires total > 1
    ensures (LayoutOf(current, total, isLoading).previousDisabled <==> Previous(current, isLoading).None?)
        <==> isLoading || current >= 1
    ensures (LayoutOf(current, total, isLoading).nextDisabled <==> Next(current, total, isLoading).None?)
        <==> isLoading || current <= total
    ensures Previous(current, isLoading).Some? ==> 1 <= Previous(current, isLoading).value == current - 1
    ensures Previous(current, isLoading).Some? ==> (Previous(current, isLoading).value <= total <==> current <= total + 1)
    ensures Next(current, total, isLoading).Some? ==> Next(current, total, isLoading).value == current + 1 <= total
  {
  }

  /**
    As written, a `currentPage` prop beyond the last page (99 with five
    pages) leaves "next" enabled although its handler does nothing, and
    "previous" asks for page 98; a `currentPage` below 1 leaves "previous"
    enabled and inert. The list page passes integer pages out of range
    only with an empty or failed load, when no pager is shown; a fractional
    page between the last two pages reaches the "next" half there.
  */
  lemma OutOfRangeButtons()
    ensures !LayoutOf(99, 5, false).nextDisabled && Next(99, 5, false).None?
    ensures Previous(99, false) == Some(98)
    ensures !LayoutOf(-3, 5, false).previousDisabled && Previous(-3, false).None?
  {
  }

  /**
    The pager with "previous" and "next" disabled by the same test as their
    handlers (`currentPage <= 1`, `currentPage >= totalPages`): for every
    current page a button is disabled exactly when it would do nothing, and
    for a current page within the pages it is the pager as written.
  */
  function GuardedLayoutOf(current: int, total: int, isLoading: bool): (r: Layout)
    requires total > 1
    ensures r.previousDisabled <==> Previous(current, isLoading).None?
    ensures r.nextDisabled <==> Next(current, total, isLoading).None?
    ensures r.numbers == LayoutOf(current, total, isLoading).numbers
    ensures 1 <= current <= total ==> r == LayoutOf(current, total, isLoading)
  {
    LayoutOf(current, total, isLoading).(previousDisabled := isLoading || current <= 1, nextDisabled := isLoading || current >= total)
  }

  /** A numbered button that is enabled asks for a page other than the current one, so the page change fires. */
  lemma EnabledButtonChangesPage(current: int, total: int, isLoading: bool, k: int)
    requires total > 1
    requires 0 <= k < |LayoutOf(current, total, isLoading).numbers|
    requires !LayoutOf(current, total, isLoading).numbers[k].disabled
    ensures Click(LayoutOf(current, total, isLoading).numbers[k].page, isLoading).Some?
    ensures Click(LayoutOf(current, total, isLoading).numbers[k].page, isLoading).value != current
  {
  }
}
