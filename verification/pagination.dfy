/**
 * The page selector (frontend/src/components/Pagination.tsx): the list of page buttons, with
 * '...' standing for skipped pages, and the previous/next buttons.
 */
module Pagination {
  import opened Wrappers

  datatype PageItem = Num(n: int) | Ellipsis

  /** How many pages either side of the current one are shown. */
  const Range: int := 2

  function Max(a: int, b: int): int { if a >= b then a else b }
  function Min(a: int, b: int): int { if a <= b then a else b }

  /** Two numbers side by side are consecutive pages. */
  predicate ConsecutiveNums(r: seq<PageItem>)
  {
    forall i :: 0 <= i < |r| - 1 && r[i].Num? && r[i + 1].Num? ==> r[i + 1].n == r[i].n + 1
  }

  /** An inner '...' sits between two numbers and stands for at least one skipped page. */
  predicate EllipsisSkips(r: seq<PageItem>)
  {
    forall i :: 0 < i < |r| - 1 && r[i].Ellipsis? ==>
      r[i - 1].Num? && r[i + 1].Num? && r[i - 1].n + 1 < r[i + 1].n
  }

  /** The shape of every rendered list: 1 first, the last page last, gaps marked by '...'. */
  predicate Shape(r: seq<PageItem>, totalPages: int)
  {
    |r| >= 2 && r[0] == Num(1) && r[|r| - 1] == Num(totalPages) &&
    ConsecutiveNums(r) && EllipsisSkips(r)
  }

  /**
   * Builds the button list; None when there is at most one page (nothing is rendered).
   * Up to seven pages are all listed; beyond that 1, the pages within two of the current one,
   * and the last page, with '...' where pages are skipped.
   */
  method PageList(page: int, totalPages: int) returns (r: Option<seq<PageItem>>)
    ensures r == PageItems(page, totalPages)
    ensures r.None? <==> totalPages <= 1
    ensures 2 <= totalPages <= 7 ==> r == Some(seq(totalPages, k => Num(k + 1)))
    ensures totalPages > 7 ==> r.Some? && Shape(r.value, totalPages) && |r.value| <= 9
    ensures totalPages > 7 ==> forall p :: 1 < p < totalPages ==>
              (Num(p) in r.value <==> page - Range <= p <= page + Range)
  {
    if totalPages <= 1 {
      return None;
    }
    var pages: seq<PageItem> := [];
    if totalPages <= 7 {
      var i := 1;
      while i <= totalPages
        invariant 1 <= i <= totalPages + 1
        invariant pages == seq(i - 1, k => Num(k + 1))
      {
        pages := pages + [Num(i)];
        i := i + 1;
      }
      return Some(pages);
    }
    var windowed := WindowedPages(page, totalPages);
    return Some(windowed);
  }

  /** The button list `PageList` builds. */
  function PageItems(page: int, totalPages: int): Option<seq<PageItem>>
  {
    if totalPages <= 1 then None
    else if totalPages <= 7 then Some(seq(totalPages, k => Num(k + 1)))
    else Some(Windowed(page, totalPages))
  }

  /** The start of the list for more than seven pages: 1, then '...' when page 2 is not in the window. */
  function Head(page: int): seq<PageItem>
  {
    if page - Range > 2 then [Num(1), Ellipsis] else [Num(1)]
  }

  /** The buttons `lo`, `lo + 1`, ..., `lo + n - 1`. */
  function Run(lo: int, n: nat): seq<PageItem>
  {
    seq(n, k => Num(lo + k))
  }

  /** The window lists exactly the pages from `lo` on. */
  lemma RunMembers(lo: int, n: nat)
    ensures forall p :: Num(p) in Run(lo, n) <==> lo <= p < lo + n
  {
    forall p | lo <= p < lo + n
      ensures Num(p) in Run(lo, n)
    {
      assert Run(lo, n)[p - lo] == Num(p);
    }
  }

  /** The start followed by the first `n` window buttons is well shaped. */
  lemma HeadRunShape(page: int, lo: int, n: nat)
    requires lo == Max(2, page - Range)
    ensures var r := Head(page) + Run(lo, n);
      r[0] == Num(1) && ConsecutiveNums(r) && EllipsisSkips(r) &&
      (n > 0 ==> r[|r| - 1] == Num(lo + n - 1))
  {
    var h := Head(page);
    var r := h + Run(lo, n);
    assert forall k :: |h| <= k < |r| ==> r[k] == Num(lo + k - |h|);
    assert forall i :: 0 <= i < |r| && r[i].Ellipsis? ==> i == 1 && |h| == 2;
  }

  /** How the window [lo, hi] sits between page 1 and the last page. */
  lemma WindowBounds(page: int, totalPages: int, lo: int, hi: int)
    requires totalPages > 7
    requires lo == Max(2, page - Range) && hi == Min(totalPages - 1, page + Range)
    ensures hi - lo + 1 <= 5
    ensures page - Range > 2 && page + Range < totalPages - 1 ==> lo <= hi
    ensures page + Range >= totalPages - 1 && lo <= hi ==> hi == totalPages - 1
    ensures page + Range >= totalPages - 1 && lo > hi ==> page - Range > 2
    ensures page + Range < totalPages - 1 && lo <= hi ==> hi + 1 < totalPages
  {
  }

  /** A page strictly between the first and the last is in the window exactly when it is within two of `page`. */
  lemma WindowMember(page: int, totalPages: int, lo: int, hi: int, p: int)
    requires lo == Max(2, page - Range) && hi == Min(totalPages - 1, page + Range)
    requires 1 < p < totalPages
    ensures lo <= p <= hi <==> page - Range <= p <= page + Range
  {
  }

  /** The end of the list for more than seven pages: '...' when page `totalPages - 1` is not in the window, then the last page. */
  function Tail(page: int, totalPages: int): seq<PageItem>
  {
    (if page + Range < totalPages - 1 then [Ellipsis] else []) + [Num(totalPages)]
  }

  /** Size of the window [max(2, page - 2), min(totalPages - 1, page + 2)]. */
  function WindowSize(page: int, totalPages: int): nat
  {
    Max(0, Min(totalPages - 1, page + Range) - Max(2, page - Range) + 1)
  }

  /** The list for more than seven pages, assembled from its three parts. */
  function Windowed(page: int, totalPages: int): seq<PageItem>
  {
    Head(page) + Run(Max(2, page - Range), WindowSize(page, totalPages)) + Tail(page, totalPages)
  }

  /** The assembled list has the shape of every rendered list and at most nine items. */
  lemma WindowedShape(page: int, totalPages: int)
    requires totalPages > 7
    ensures Shape(Windowed(page, totalPages), totalPages) && |Windowed(page, totalPages)| <= 9
  {
    var lo := Max(2, page - Range);
    var hi := Min(totalPages - 1, page + Range);
    var n := WindowSize(page, totalPages);
    WindowBounds(page, totalPages, lo, hi);
    HeadRunShape(page, lo, n);
    var body := Head(page) + Run(lo, n);
    assert |body| <= 7;
    if n == 0 {
      assert body == Head(page);
    }
    CloseShape(body, page, totalPages);
  }

  /** A start of the list that ends where the tail takes over becomes a full list of that shape. */
  lemma CloseShape(body: seq<PageItem>, page: int, totalPages: int)
    requires |body| >= 1 && body[0] == Num(1) && ConsecutiveNums(body) && EllipsisSkips(body)
    requires body[|body| - 1].Num? && page + Range < totalPages - 1 ==> body[|body| - 1].n + 1 < totalPages
    requires body[|body| - 1].Num? && page + Range >= totalPages - 1 ==> body[|body| - 1].n + 1 == totalPages
    requires body[|body| - 1].Ellipsis? ==>
               page + Range >= totalPages - 1 && |body| >= 2 && body[|body| - 2].Num? && body[|body| - 2].n + 1 < totalPages
    ensures Shape(body + Tail(page, totalPages), totalPages)
  {
    if page + Range < totalPages - 1 {
      PushEllipsis(body);
      PushNum(body + [Ellipsis], totalPages);
      assert body + Tail(page, totalPages) == body + [Ellipsis] + [Num(totalPages)];
    } else {
      PushNum(body, totalPages);
      assert body + Tail(page, totalPages) == body + [Num(totalPages)];
    }
  }

  /** A page strictly between the first and the last is listed exactly when it is within two of `page`. */
  lemma WindowedMembers(page: int, totalPages: int)
    requires totalPages > 7
    ensures forall p :: 1 < p < totalPages ==>
              (Num(p) in Windowed(page, totalPages) <==> page - Range <= p <= page + Range)
  {
    var lo := Max(2, page - Range);
    var hi := Min(totalPages - 1, page + Range);
    RunMembers(lo, WindowSize(page, totalPages));
    forall p | 1 < p < totalPages
      ensures Num(p) in Windowed(page, totalPages) <==> page - Range <= p <= page + Range
    {
      WindowMember(page, totalPages, lo, hi, p);
    }
  }

  /** The list for more than seven pages: 1, '...', the window around `page`, '...', the last page. */
  method WindowedPages(page: int, totalPages: int) returns (pages: seq<PageItem>)
    requires totalPages > 7
    ensures pages == Windowed(page, totalPages)
    ensures Shape(pages, totalPages) && |pages| <= 9
    ensures forall p :: 1 < p < totalPages ==> (Num(p) in pages <==> page - Range <= p <= page + Range)
  {
    pages := [Num(1)];
    if page - Range > 2 {
      pages := pages + [Ellipsis];
    }
    var lo := Max(2, page - Range);
    var hi := Min(totalPages - 1, page + Range);
    pages := PushWindow(pages, lo, hi);
    assert pages == Head(page) + Run(lo, WindowSize(page, totalPages));
    ghost var body := pages;
    if page + Range < totalPages - 1 {
      pages := pages + [Ellipsis];
    }
    pages := pages + [Num(totalPages)];
    assert pages == body + Tail(page, totalPages);
    WindowedShape(page, totalPages);
    WindowedMembers(page, totalPages);
  }

  /** Appends the window buttons `lo`, ..., `hi` (none when `lo > hi`). */
  method PushWindow(start: seq<PageItem>, lo: int, hi: int) returns (pages: seq<PageItem>)
    ensures pages == start + Run(lo, Max(0, hi - lo + 1))
  {
    pages := start;
    var i := lo;
    while i <= hi
      invariant lo <= i <= Max(lo, hi + 1)
      invariant pages == start + Run(lo, i - lo)
    {
      RunSnoc(lo, i - lo);
      pages := pages + [Num(i)];
      i := i + 1;
    }
  }

  /** One more window button goes at the end. */
  lemma RunSnoc(lo: int, n: nat)
    ensures Run(lo, n + 1) == Run(lo, n) + [Num(lo + n)]
  {
  }

  /** Appending a number keeps the shape when it follows the last number, or skips a page after '...'. */
  lemma PushNum(pages: seq<PageItem>, x: int)
    requires |pages| >= 1 && ConsecutiveNums(pages) && EllipsisSkips(pages)
    requires pages[|pages| - 1].Num? ==> x == pages[|pages| - 1].n + 1
    requires pages[|pages| - 1].Ellipsis? ==>
               |pages| >= 2 && pages[|pages| - 2].Num? && pages[|pages| - 2].n + 1 < x
    ensures ConsecutiveNums(pages + [Num(x)]) && EllipsisSkips(pages + [Num(x)])
  {
    PushNumConsecutive(pages, x);
    PushNumSkips(pages, x);
  }

  /** The number appended after a number follows it. */
  lemma PushNumConsecutive(pages: seq<PageItem>, x: int)
    requires |pages| >= 1 && ConsecutiveNums(pages)
    requires pages[|pages| - 1].Num? ==> x == pages[|pages| - 1].n + 1
    ensures ConsecutiveNums(pages + [Num(x)])
  {
    var r := pages + [Num(x)];
    forall i | 0 <= i < |r| - 1 && r[i].Num? && r[i + 1].Num?
      ensures r[i + 1].n == r[i].n + 1
    {
      if i < |pages| - 1 {
        assert r[i] == pages[i] && r[i + 1] == pages[i + 1];
      } else {
        assert r[i] == pages[|pages| - 1] && r[i + 1] == Num(x);
      }
    }
  }

  /** A trailing '...' sits between two numbers once a number skipping a page follows it. */
  lemma PushNumSkips(pages: seq<PageItem>, x: int)
    requires |pages| >= 1 && EllipsisSkips(pages)
    requires pages[|pages| - 1].Ellipsis? ==>
               |pages| >= 2 && pages[|pages| - 2].Num? && pages[|pages| - 2].n + 1 < x
    ensures EllipsisSkips(pages + [Num(x)])
  {
    var r := pages + [Num(x)];
    forall i | 0 < i < |r| - 1 && r[i].Ellipsis?
      ensures r[i - 1].Num? && r[i + 1].Num? && r[i - 1].n + 1 < r[i + 1].n
    {
      if i < |pages| - 1 {
        assert r[i - 1] == pages[i - 1] && r[i] == pages[i] && r[i + 1] == pages[i + 1];
      } else {
        assert r[i - 1] == pages[i - 1] && r[i] == pages[i] && r[i + 1] == Num(x);
      }
    }
  }

  /** Appending '...' after a number keeps the shape of the part built so far. */
  lemma PushEllipsis(pages: seq<PageItem>)
    requires |pages| >= 1 && ConsecutiveNums(pages) && EllipsisSkips(pages)
    requires pages[|pages| - 1].Num?
    ensures ConsecutiveNums(pages + [Ellipsis]) && EllipsisSkips(pages + [Ellipsis])
  {
  }

  /** In a list of that shape the page numbers strictly increase. */
  lemma {:induction false} ShapeIncreasing(r: seq<PageItem>, totalPages: int, i: int, j: int)
    requires Shape(r, totalPages)
    requires 0 <= i < j < |r| && r[i].Num? && r[j].Num?
    ensures r[i].n < r[j].n
    decreases j - i
  {
    if r[i + 1].Num? {
      if i + 1 < j {
        ShapeIncreasing(r, totalPages, i + 1, j);
      }
    } else {
      assert r[i + 2].Num?;
      if i + 2 < j {
        ShapeIncreasing(r, totalPages, i + 2, j);
      }
    }
  }

  /** Every listed page is a real page, and no two '...' are adjacent. */
  lemma ShapeBounds(r: seq<PageItem>, totalPages: int)
    requires Shape(r, totalPages)
    ensures forall i :: 0 <= i < |r| && r[i].Num? ==> 1 <= r[i].n <= totalPages
    ensures forall i :: 0 <= i < |r| - 1 ==> r[i].Num? || r[i + 1].Num?
  {
    forall i | 0 <= i < |r| && r[i].Num?
      ensures 1 <= r[i].n <= totalPages
    {
      if 0 < i {
        ShapeIncreasing(r, totalPages, 0, i);
      }
      if i < |r| - 1 {
        ShapeIncreasing(r, totalPages, i, |r| - 1);
      }
    }
  }

  /** The current page, when it is a real page, always has its own button. */
  lemma CurrentPageShown(page: int, totalPages: int)
    requires 1 <= page <= totalPages
    ensures totalPages >= 2 ==> PageItems(page, totalPages).Some? && Num(page) in PageItems(page, totalPages).value
  {
    if 2 <= totalPages <= 7 {
      assert PageItems(page, totalPages).value[page - 1] == Num(page);
    } else if totalPages > 7 {
      var r := Windowed(page, totalPages);
      WindowedShape(page, totalPages);
      WindowedMembers(page, totalPages);
      if page == 1 {
        assert r[0] == Num(1);
      } else if page == totalPages {
        assert r[|r| - 1] == Num(totalPages);
      }
    }
  }

  /** The previous button: disabled on the first page, otherwise goes one page back. */
  function PrevTarget(page: int): (target: Option<int>)
    ensures target.None? <==> page <= 1
    ensures target.Some? ==> target.value >= 1 && target.value + 1 == page
  {
    if page <= 1 then None else Some(page - 1)
  }

  /** The next button: disabled on the last page, otherwise goes one page on. */
  function NextTarget(page: int, totalPages: int): (target: Option<int>)
    ensures target.None? <==> page >= totalPages
    ensures target.Some? ==> target.value <= totalPages && target.value == page + 1
  {
    if page >= totalPages then None else Some(page + 1)
  }
}
