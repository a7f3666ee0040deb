/**
 * The page controls under the listing: Prev and Next, and the row of page numbers
 * with ellipses that `renderPageNumbers` builds.
 */
module Pagination {

  /** One entry of the page-number row: a page button or a `'...'` marker. */
  datatype PageEntry = Page(n: int) | Ellipsis

  /** Prev is disabled on the first page. */
  predicate PrevDisabled(currPage: int) {
    currPage == 1
  }

  /** Next is disabled on the last page. */
  predicate NextDisabled(currPage: int, noOfPages: int) {
    currPage == noOfPages
  }

  /** The update `handlePrev` applies: `Math.max(prev - 1, 1)`. */
  function HandlePrev(prev: int): (r: int)
    ensures r >= 1
    ensures prev > 1 ==> r == prev - 1
    ensures prev <= 1 ==> r == 1
    ensures r == prev <==> PrevDisabled(prev)
  {
    if prev - 1 > 1 then prev - 1 else 1
  }

  /** The update `handleNext` applies: `Math.min(prev + 1, noOfPages)`. */
  function HandleNext(prev: int, noOfPages: int): (r: int)
    ensures r <= noOfPages
    ensures prev < noOfPages ==> r == prev + 1
    ensures prev >= noOfPages ==> r == noOfPages
    ensures r == prev <==> NextDisabled(prev, noOfPages)
  {
    if prev + 1 < noOfPages then prev + 1 else noOfPages
  }

  /** From a page in range, Prev and Next stay in range; with no pages, Next goes to 0. */
  lemma NavigationStaysInRange(currPage: int, noOfPages: int)
    ensures 1 <= currPage <= noOfPages ==> 1 <= HandlePrev(currPage) <= noOfPages
    ensures 1 <= currPage <= noOfPages ==> 1 <= HandleNext(currPage, noOfPages) <= noOfPages
    ensures noOfPages == 0 && currPage >= 0 ==> HandleNext(currPage, noOfPages) == 0
  {
  }

  // ---------------------------------------------------------------------------------
  // The page-number row

  /** Buttons for pages `lo..hi`. */
  function PageRange(lo: int, hi: int): (r: seq<PageEntry>)
    ensures |r| == if lo <= hi then hi - lo + 1 else 0
    ensures forall i :: 0 <= i < |r| ==> r[i] == Page(lo + i)
    decreases hi - lo
  {
    if lo > hi then [] else [Page(lo)] + PageRange(lo + 1, hi)
  }

  /** Extending a range by one page appends that page's button. */
  lemma PageRangeExtend(lo: int, hi: int)
    requires lo <= hi + 1
    ensures PageRange(lo, hi + 1) == PageRange(lo, hi) + [Page(hi + 1)]
  {
    var a, b := PageRange(lo, hi + 1), PageRange(lo, hi) + [Page(hi + 1)];
    assert |a| == |b|;
    assert forall i :: 0 <= i < |a| ==> a[i] == b[i];
  }

  /** First page of the middle window when there are more than seven pages. */
  function WindowStart(noOfPages: int, currPage: int): int {
    if currPage <= 3 then 2
    else if currPage >= noOfPages - 2 then noOfPages - 3
    else currPage - 1
  }

  /** Last page of the middle window when there are more than seven pages. */
  function WindowEnd(noOfPages: int, currPage: int): int {
    if currPage <= 3 then 4
    else if currPage >= noOfPages - 2 then noOfPages - 1
    else currPage + 1
  }

  /**
   * The row, case by case: every page up to seven pages; beyond that the first page,
   * an ellipsis when page 2 is hidden, three pages around the current one, an ellipsis
   * when page `noOfPages - 1` is hidden, and the last page.
   */
  function PageRow(noOfPages: int, currPage: int): seq<PageEntry> {
    if noOfPages <= 7 then PageRange(1, noOfPages)
    else
      [Page(1)]
      + (if currPage > 3 then [Ellipsis] else [])
      + PageRange(WindowStart(noOfPages, currPage), WindowEnd(noOfPages, currPage))
      + (if currPage < noOfPages - 2 then [Ellipsis] else [])
      + [Page(noOfPages)]
  }

  /** `renderPageNumbers()`, without the markup: the loops that push the entries. */
  method RenderPageNumbers(noOfPages: int, currPage: int) returns (pageNumbers: seq<PageEntry>)
    ensures pageNumbers == PageRow(noOfPages, currPage)
  {
    pageNumbers := [];
    if noOfPages <= 7 {
      pageNumbers := PushPages(pageNumbers, 1, noOfPages);
    } else {
      pageNumbers := pageNumbers + [Page(1)];
      if currPage > 3 {
        pageNumbers := pageNumbers + [Ellipsis];
      }
      ghost var lead := if currPage > 3 then [Ellipsis] else [];
      assert pageNumbers == [Page(1)] + lead;
      var start := if 2 < currPage - 1 then currPage - 1 else 2;
      var end := if noOfPages - 1 < currPage + 1 then noOfPages - 1 else currPage + 1;
      if currPage <= 3 {
        end := 4;
      }
      if currPage >= noOfPages - 2 {
        start := noOfPages - 3;
      }
      assert start == WindowStart(noOfPages, currPage) && end == WindowEnd(noOfPages, currPage);
      pageNumbers := PushPages(pageNumbers, start, end);
      ghost var middle := pageNumbers;
      if currPage < noOfPages - 2 {
        pageNumbers := pageNumbers + [Ellipsis];
      }
      ghost var trail := if currPage < noOfPages - 2 then [Ellipsis] else [];
      assert pageNumbers == middle + trail;
      pageNumbers := pageNumbers + [Page(noOfPages)];
    }
  }

  /** One `for` loop of `renderPageNumbers()`: a button for each page from `lo` to `hi`. */
  method PushPages(row: seq<PageEntry>, lo: int, hi: int) returns (r: seq<PageEntry>)
    ensures r == row + PageRange(lo, hi)
  {
    r := row;
    var i := lo;
    while i <= hi
      invariant lo <= i <= (if hi < lo then lo else hi + 1)
      invariant r == row + PageRange(lo, i - 1)
    {
      PageRangeExtend(lo, i - 1);
      r := r + [Page(i)];
      i := i + 1;
    }
  }

  // ---------------------------------------------------------------------------------
  // Properties of the row

  /** Page numbers rise strictly from left to right, so none repeats. */
  predicate PagesIncrease(row: seq<PageEntry>) {
    forall i, j :: 0 <= i < j < |row| && row[i].Page? && row[j].Page? ==> row[i].n < row[j].n
  }

  predicate PagesWithin(row: seq<PageEntry>, noOfPages: int) {
    forall i :: 0 <= i < |row| && row[i].Page? ==> 1 <= row[i].n <= noOfPages
  }

  /**
   * Neighbouring buttons are consecutive pages, and an ellipsis stands between two
   * buttons that skip at least one page: every page is either shown or behind an ellipsis.
   */
  predicate EllipsesMarkGaps(row: seq<PageEntry>) {
    && (forall i :: 0 <= i < |row| - 1 && row[i].Page? && row[i + 1].Page? ==> row[i + 1].n == row[i].n + 1)
    && (forall i :: 0 < i < |row| - 1 && row[i].Ellipsis? ==>
          row[i - 1].Page? && row[i + 1].Page? && row[i + 1].n > row[i - 1].n + 1)
    && (|row| > 0 ==> row[0].Page? && row[|row| - 1].Page?)
  }

  /** With at most seven pages the row is exactly pages `1..noOfPages`, without ellipsis. */
  lemma SmallRowShowsEveryPage(noOfPages: int, currPage: int)
    requires noOfPages <= 7
    ensures |PageRow(noOfPages, currPage)| == if noOfPages < 0 then 0 else noOfPages
    ensures forall i :: 0 <= i < |PageRow(noOfPages, currPage)| ==> PageRow(noOfPages, currPage)[i] == Page(i + 1)
  {
  }

  /**
   * With more than seven pages: the row starts with page 1 and ends with the last page;
   * it shows exactly three middle pages, consecutive; the leading ellipsis appears iff
   * `currPage > 3` and the trailing one iff `currPage < noOfPages - 2`.
   */
  lemma {:induction false} LargeRowShape(noOfPages: int, currPage: int)
    requires noOfPages > 7
    ensures var row := PageRow(noOfPages, currPage);
      var lead := if currPage > 3 then 1 else 0;
      var trail := if currPage < noOfPages - 2 then 1 else 0;
      && |row| == 5 + lead + trail
      && row[0] == Page(1) && row[|row| - 1] == Page(noOfPages)
      && (row[1] == Ellipsis <==> currPage > 3)
      && (row[|row| - 2] == Ellipsis <==> currPage < noOfPages - 2)
      && row[1 + lead].Page? && row[2 + lead] == Page(row[1 + lead].n + 1) && row[3 + lead] == Page(row[1 + lead].n + 2)
  {
    var row := PageRow(noOfPages, currPage);
    var lead := if currPage > 3 then 1 else 0;
    var mid := PageRange(WindowStart(noOfPages, currPage), WindowEnd(noOfPages, currPage));
    assert |mid| == 3;
    assert row[1 + lead] == mid[0] && row[2 + lead] == mid[1] && row[3 + lead] == mid[2];
  }

  /** A current page in `2..noOfPages-1` is one of the three middle pages; pages 1 and `noOfPages` are always shown. */
  lemma CurrentPageInMiddleWindow(noOfPages: int, currPage: int)
    requires noOfPages > 7 && 1 < currPage < noOfPages
    ensures WindowStart(noOfPages, currPage) <= currPage <= WindowEnd(noOfPages, currPage)
    ensures WindowEnd(noOfPages, currPage) == WindowStart(noOfPages, currPage) + 2
  {
  }

  /** The row beyond seven pages, with the middle window starting at `s`. */
  function LargeRow(n: int, s: int, lead: bool, trail: bool): seq<PageEntry> {
    [Page(1)] + (if lead then [Ellipsis] else []) + [Page(s), Page(s + 1), Page(s + 2)]
    + (if trail then [Ellipsis] else []) + [Page(n)]
  }

  lemma LargeRowIs(noOfPages: int, currPage: int)
    requires noOfPages > 7
    ensures var s := WindowStart(noOfPages, currPage);
      && 2 <= s && s + 2 <= noOfPages - 1
      && (currPage > 3 <==> s > 2) && (currPage < noOfPages - 2 <==> s + 2 < noOfPages - 1)
      && PageRow(noOfPages, currPage) == LargeRow(noOfPages, s, currPage > 3, currPage < noOfPages - 2)
  {
    var s := WindowStart(noOfPages, currPage);
    assert PageRange(s, WindowEnd(noOfPages, currPage)) == [Page(s), Page(s + 1), Page(s + 2)];
  }

  lemma LargeRowFacts(n: int, s: int, lead: bool, trail: bool)
    requires 2 <= s && s + 2 <= n - 1
    ensures PagesIncrease(LargeRow(n, s, lead, trail)) && PagesWithin(LargeRow(n, s, lead, trail), n)
  {
    if lead && trail {
      assert LargeRow(n, s, lead, trail) == [Page(1), Ellipsis, Page(s), Page(s + 1), Page(s + 2), Ellipsis, Page(n)];
    } else if lead {
      assert LargeRow(n, s, lead, trail) == [Page(1), Ellipsis, Page(s), Page(s + 1), Page(s + 2), Page(n)];
    } else if trail {
      assert LargeRow(n, s, lead, trail) == [Page(1), Page(s), Page(s + 1), Page(s + 2), Ellipsis, Page(n)];
    } else {
      assert LargeRow(n, s, lead, trail) == [Page(1), Page(s), Page(s + 1), Page(s + 2), Page(n)];
    }
  }

  /** Page numbers in the row rise strictly from left to right. */
  lemma {:induction false} RowIncreases(noOfPages: int, currPage: int)
    ensures PagesIncrease(PageRow(noOfPages, currPage))
  {
    if noOfPages > 7 {
      var row := LargeRow(noOfPages, WindowStart(noOfPages, currPage), currPage > 3, currPage < noOfPages - 2);
      LargeRowIs(noOfPages, currPage);
      LargeRowFacts(noOfPages, WindowStart(noOfPages, currPage), currPage > 3, currPage < noOfPages - 2);
      assert PageRow(noOfPages, currPage) == row;
    }
  }

  /** Every page in the row is between 1 and `noOfPages`. */
  lemma {:induction false} RowWithin(noOfPages: int, currPage: int)
    ensures PagesWithin(PageRow(noOfPages, currPage), noOfPages)
  {
    if noOfPages > 7 {
      var row := LargeRow(noOfPages, WindowStart(noOfPages, currPage), currPage > 3, currPage < noOfPages - 2);
      LargeRowIs(noOfPages, currPage);
      LargeRowFacts(noOfPages, WindowStart(noOfPages, currPage), currPage > 3, currPage < noOfPages - 2);
      assert PageRow(noOfPages, currPage) == row;
    }
  }

  lemma LargeRowGaps(n: int, s: int, lead: bool, trail: bool)
    requires 2 <= s && s + 2 <= n - 1 && (lead <==> s > 2) && (trail <==> s + 2 < n - 1)
    ensures EllipsesMarkGaps(LargeRow(n, s, lead, trail))
  {
    var row := LargeRow(n, s, lead, trail);
    if lead && trail {
      assert row == [Page(1), Ellipsis, Page(s), Page(s + 1), Page(s + 2), Ellipsis, Page(n)];
      GapsOfSeven(row, s, n);
    } else if lead {
      assert row == [Page(1), Ellipsis, Page(s), Page(s + 1), Page(s + 2), Page(n)];
    } else if trail {
      assert row == [Page(1), Page(s), Page(s + 1), Page(s + 2), Ellipsis, Page(n)];
    } else {
      assert row == [Page(1), Page(s), Page(s + 1), Page(s + 2), Page(n)];
    }
  }

  lemma GapsOfSeven(row: seq<PageEntry>, s: int, n: int)
    requires 2 < s && s + 2 < n - 1
    requires row == [Page(1), Ellipsis, Page(s), Page(s + 1), Page(s + 2), Ellipsis, Page(n)]
    ensures EllipsesMarkGaps(row)
  {
  }

  /** Buttons next to each other are consecutive pages, and each ellipsis stands for skipped pages. */
  lemma {:induction false} RowMarksGaps(noOfPages: int, currPage: int)
    ensures EllipsesMarkGaps(PageRow(noOfPages, currPage))
  {
    if noOfPages > 7 {
      var row := LargeRow(noOfPages, WindowStart(noOfPages, currPage), currPage > 3, currPage < noOfPages - 2);
      LargeRowIs(noOfPages, currPage);
      LargeRowGaps(noOfPages, WindowStart(noOfPages, currPage), currPage > 3, currPage < noOfPages - 2);
      assert PageRow(noOfPages, currPage) == row;
    }
  }

  /** Whatever page is current, it is shown as a button when it is in range. */
  lemma CurrentPageShown(noOfPages: int, currPage: int)
    requires 1 <= currPage <= noOfPages
    ensures Page(currPage) in PageRow(noOfPages, currPage)
  {
    var row := PageRow(noOfPages, currPage);
    if noOfPages <= 7 {
      assert row[currPage - 1] == Page(currPage);
    } else if currPage == 1 {
      assert row[0] == Page(1);
    } else if currPage == noOfPages {
      assert row[|row| - 1] == Page(noOfPages);
    } else {
      LargeRowShape(noOfPages, currPage);
      var lead := if currPage > 3 then 1 else 0;
      var s := WindowStart(noOfPages, currPage);
      assert row[1 + lead] == Page(s);
      assert row[1 + lead + currPage - s] == Page(currPage);
    }
  }

  /**
   * A current page outside `1..noOfPages` has no button in the row: page 1 with no pages
   * at all, or a page left over after the listing shrank.
   */
  lemma CurrentPageShownOnlyInRange(noOfPages: int, currPage: int)
    requires currPage < 1 || currPage > noOfPages
    ensures Page(currPage) !in PageRow(noOfPages, currPage)
  {
    RowWithin(noOfPages, currPage);
  }
}
