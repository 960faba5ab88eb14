/** The pagination control: the list of page buttons around the current page,
    with the first and last page always reachable and `...` standing for the
    pages left out, and the Previous / Next buttons. */
module Pagination {
  import opened Wrappers

  /** One entry of the control: a page button or an ellipsis. */
  datatype Item = Number(page: int) | Ellipsis

  const MaxPagesToShow := 5

  function Max(a: int, b: int): int { if a < b then b else a }
  function Min(a: int, b: int): int { if a < b then a else b }

  /** The consecutive pages shown around the current page, as (first, last).
      For a positive page count it holds exactly min(5, total) pages, all in
      [1, total], includes any current page in [1, total], and keeps the current
      page in the middle when it is at least two pages from either end. For no
      pages it is empty. */
  function Window(current: int, total: int): (int, int)
  {
    var start := Max(1, current - MaxPagesToShow / 2);
    var end := Min(total, start + MaxPagesToShow - 1);
    if end - start < MaxPagesToShow - 1 then (Max(1, end - MaxPagesToShow + 1), end)
    else (start, end)
  }

  lemma WindowBounds(current: int, total: int)
    ensures var w := Window(current, total);
      && 1 <= w.0
      && (total >= 1 ==> w.0 <= w.1 <= total && w.1 - w.0 + 1 == Min(MaxPagesToShow, total))
      && (total >= 1 && 1 <= current <= total ==> w.0 <= current <= w.1)
      && (3 <= current <= total - 2 ==> w == (current - 2, current + 2))
      && (total < 1 ==> w.1 < w.0)
  {
  }

  /** Pages lo, lo + 1, ..., hi. */
  function Range(lo: int, hi: int): (r: seq<Item>)
    ensures |r| == if lo <= hi then hi - lo + 1 else 0
    ensures forall k :: 0 <= k < |r| ==> r[k] == Number(lo + k)
    decreases hi - lo
  {
    if lo > hi then [] else [Number(lo)] + Range(lo + 1, hi)
  }

  /** A list that starts with `lead` and goes on with the pages from `lo`
      through `hi` is `lead + Range(lo, hi)`. */
  lemma Spliced(items: seq<Item>, lead: seq<Item>, lo: int, hi: int)
    requires |lead| <= |items| == |lead| + (if lo <= hi then hi - lo + 1 else 0)
    requires items[..|lead|] == lead
    requires forall k :: |lead| <= k < |items| ==> items[k] == Number(lo + k - |lead|)
    ensures items == lead + Range(lo, hi)
  {
  }

  /** Page 1 and an ellipsis before a window that does not reach them. */
  function Leading(start: int): seq<Item>
  {
    if start > 1 then [Number(1)] + (if start > 2 then [Ellipsis] else []) else []
  }

  /** An ellipsis and the last page after a window that does not reach them. */
  function Trailing(end: int, total: int): seq<Item>
  {
    if end < total then (if end < total - 1 then [Ellipsis] else []) + [Number(total)] else []
  }

  /** The entries `getPageNumbers` returns, written as one expression. */
  function Layout(current: int, total: int): seq<Item>
  {
    var (start, end) := Window(current, total);
    Leading(start) + Range(start, end) + Trailing(end, total)
  }

  /** The page numbers strictly increase from left to right. */
  predicate Increasing(items: seq<Item>)
  {
    forall i, j :: 0 <= i < j < |items| && items[i].Number? && items[j].Number? ==>
      items[i].page < items[j].page
  }

  /** Every page number lies in [1, total]. */
  predicate WithinPages(items: seq<Item>, total: int)
  {
    forall i :: 0 <= i < |items| && items[i].Number? ==> 1 <= items[i].page <= total
  }

  /** Every ellipsis sits between two page numbers that are not neighbours, and
      two page numbers side by side are neighbours: an ellipsis appears exactly
      where pages are left out. */
  predicate GapsMarked(items: seq<Item>)
  {
    && (forall i :: 0 <= i < |items| && items[i].Ellipsis? ==>
          0 < i < |items| - 1 && items[i - 1].Number? && items[i + 1].Number? &&
          items[i - 1].page + 1 < items[i + 1].page)
    && (forall i :: 0 <= i < |items| - 1 && items[i].Number? && items[i + 1].Number? ==>
          items[i + 1].page == items[i].page + 1)
  }

  lemma LayoutShape(current: int, total: int)
    ensures var (start, end) := Window(current, total);
      Layout(current, total) == Leading(start) + Range(start, end) + Trailing(end, total)
  {
  }

  /** The page numbers of the layout are strictly increasing and all lie in
      [1, total]. */
  lemma LayoutIncreasingWithinPages(current: int, total: int)
    ensures Increasing(Layout(current, total))
    ensures WithinPages(Layout(current, total), total)
  {
    var (start, end) := Window(current, total);
    var lead, mid, trail := Leading(start), Range(start, end), Trailing(end, total);
    var items := lead + mid + trail;
    assert items == Layout(current, total);
    forall i, j | 0 <= i < j < |items| && items[i].Number? && items[j].Number?
      ensures items[i].page < items[j].page
    {
      NumberBounds(current, total, i);
      NumberBounds(current, total, j);
    }
    forall i | 0 <= i < |items| && items[i].Number?
      ensures 1 <= items[i].page <= total
    {
      NumberBounds(current, total, i);
    }
  }

  /** Where each page number of the layout comes from: page 1 in front of the
      window, the window itself in order, the last page behind it. */
  lemma NumberBounds(current: int, total: int, i: int)
    requires 0 <= i < |Layout(current, total)|
    ensures var (start, end) := Window(current, total);
      var lead := Leading(start);
      var items := Layout(current, total);
      && (i < |lead| && items[i].Number? ==> i == 0 && items[i].page == 1 && 1 < start)
      && (|lead| <= i < |lead| + |Range(start, end)| ==> items[i] == Number(start + i - |lead|))
      && (|lead| + |Range(start, end)| <= i && items[i].Number? ==>
            i == |items| - 1 && items[i].page == total && end < total)
  {
  }

  /** For a positive page count the layout starts with page 1 and ends with the
      last page; for no pages it is empty. */
  lemma LayoutEnds(current: int, total: int)
    ensures total >= 1 ==>
      && |Layout(current, total)| >= 1
      && Layout(current, total)[0] == Number(1)
      && Layout(current, total)[|Layout(current, total)| - 1] == Number(total)
    ensures total < 1 ==> Layout(current, total) == []
  {
  }

  /** At most nine entries: page 1, an ellipsis, five pages, an ellipsis and
      the last page. */
  lemma LayoutLength(current: int, total: int)
    ensures |Layout(current, total)| <= 9
  {
  }

  /** Every page of the window is shown, so the current page is shown whenever
      it is a page that exists. */
  lemma LayoutShowsWindow(current: int, total: int)
    ensures var (start, end) := Window(current, total);
      forall k :: start <= k <= end ==> Number(k) in Layout(current, total)
    ensures 1 <= current <= total ==> Number(current) in Layout(current, total)
  {
    var (start, end) := Window(current, total);
    var lead, mid := Leading(start), Range(start, end);
    var items := Layout(current, total);
    forall k | start <= k <= end
      ensures Number(k) in items
    {
      assert items[|lead| + k - start] == mid[k - start];
    }
  }

  /** An ellipsis follows page 1 exactly when the window starts after page 2,
      and precedes the last page exactly when the window ends before the
      second-to-last page. */
  lemma LayoutEllipses(current: int, total: int)
    ensures var (start, end) := Window(current, total);
      var items := Layout(current, total);
      && ((|items| >= 2 && items[1] == Ellipsis) <==> start > 2)
      && ((|items| >= 2 && items[|items| - 2] == Ellipsis) <==> end < total - 1)
  {
  }

  /** Every ellipsis stands for at least one left-out page, and pages shown
      side by side are consecutive. */
  lemma LayoutGapsMarked(current: int, total: int)
    ensures GapsMarked(Layout(current, total))
  {
    var (start, end) := Window(current, total);
    var lead, mid, trail := Leading(start), Range(start, end), Trailing(end, total);
    var items := lead + mid + trail;
    assert items == Layout(current, total);
    forall i | 0 <= i < |items| && items[i].Ellipsis?
      ensures 0 < i < |items| - 1 && items[i - 1].Number? && items[i + 1].Number? &&
        items[i - 1].page + 1 < items[i + 1].page
    {
      if i < |lead| {
        assert i == 1 && items[2] == mid[0];
      } else {
        assert i == |lead| + |mid| && items[i - 1] == mid[|mid| - 1];
      }
    }
    forall i | 0 <= i < |items| - 1 && items[i].Number? && items[i + 1].Number?
      ensures items[i + 1].page == items[i].page + 1
    {
      NumberBounds(current, total, i);
      NumberBounds(current, total, i + 1);
    }
  }

  /** Everything the layout promises, gathered in one statement. */
  lemma LayoutProperties(current: int, total: int)
    ensures var items := Layout(current, total);
      && Increasing(items) && WithinPages(items, total) && GapsMarked(items)
      && |items| <= 9
      && (total < 1 ==> items == [])
      && (total >= 1 ==> items[0] == Number(1) && items[|items| - 1] == Number(total))
      && (1 <= current <= total ==> Number(current) in items)
  {
    LayoutIncreasingWithinPages(current, total);
    LayoutGapsMarked(current, total);
    LayoutLength(current, total);
    LayoutEnds(current, total);
    LayoutShowsWindow(current, total);
  }

  /** `getPageNumbers`: builds the entries by pushing onto an initially empty
      list, first page 1 and an ellipsis if the window does not reach them, then
      the window in a loop, then an ellipsis and the last page. */
  method GetPageNumbers(currentPage: int, totalPages: int) returns (pages: seq<Item>)
    ensures pages == Layout(currentPage, totalPages)
  {
    pages := [];
    var startPage := Max(1, currentPage - MaxPagesToShow / 2);
    var endPage := Min(totalPages, startPage + MaxPagesToShow - 1);
    if endPage - startPage < MaxPagesToShow - 1 {
      startPage := Max(1, endPage - MaxPagesToShow + 1);
    }
    if startPage > 1 {
      pages := pages + [Number(1)];
      if startPage > 2 {
        pages := pages + [Ellipsis];
      }
    }
    ghost var lead := pages;
    assert lead == Leading(startPage);

    var i := startPage;
    while i <= endPage
      invariant startPage <= i <= Max(startPage, endPage + 1)
      invariant |pages| == |lead| + (i - startPage)
      invariant pages[..|lead|] == lead
      invariant forall k :: |lead| <= k < |pages| ==> pages[k] == Number(startPage + k - |lead|)
    {
      pages := pages + [Number(i)];
      i := i + 1;
    }
    Spliced(pages, lead, startPage, endPage);
    ghost var body := pages;

    if endPage < totalPages {
      if endPage < totalPages - 1 {
        pages := pages + [Ellipsis];
      }
      pages := pages + [Number(totalPages)];
    }
    assert pages == body + Trailing(endPage, totalPages);
    assert (startPage, endPage) == Window(currentPage, totalPages);
    LayoutShape(currentPage, totalPages);
  }

  /** The buttons of the control; an ellipsis is a plain label, not a button. */
  datatype Control = Previous | Next | PageButton(item: Item)

  /** `disabled={currentPage === 1}`. */
  predicate PreviousDisabled(current: int) { current == 1 }

  /** `disabled={currentPage === totalPages}`. */
  predicate NextDisabled(current: int, total: int) { current == total }

  /** The page a click asks for, or `None` when the click does nothing: a
      disabled button does not fire, and an ellipsis has no handler. */
  function Click(control: Control, current: int, total: int): (target: Option<int>)
    ensures control == Previous ==> (target.None? <==> PreviousDisabled(current))
    ensures control == Next ==> (target.None? <==> NextDisabled(current, total))
    ensures control.PageButton? ==> (target.None? <==> control.item == Ellipsis)
    ensures target.Some? ==> target.value == match control
      case Previous => current - 1
      case Next => current + 1
      case PageButton(item) => item.page
  {
    match control
    case Previous => if PreviousDisabled(current) then None else Some(current - 1)
    case Next => if NextDisabled(current, total) then None else Some(current + 1)
    case PageButton(Number(p)) => Some(p)
    case PageButton(Ellipsis) => None
  }

  /** From a page that exists, every click on the control asks for a page that
      exists: Previous is off on the first page, Next on the last, and every
      page button shows a page in [1, total]. */
  lemma ClickStaysWithinPages(control: Control, current: int, total: int)
    requires 1 <= current <= total
    requires control.PageButton? ==> control.item in Layout(current, total)
    ensures var target := Click(control, current, total);
      target.Some? ==> 1 <= target.value <= total
  {
    if control.PageButton? && control.item.Number? {
      LayoutIncreasingWithinPages(current, total);
      var items := Layout(current, total);
      var i :| 0 <= i < |items| && items[i] == control.item;
    }
  }
}
