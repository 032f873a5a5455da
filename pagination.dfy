/** The pagination strip (client/src/components/ui/pagination.tsx): the "Showing x to y of n"
    range, the page buttons with their ellipsis markers, and when Previous and Next are disabled. */
module Pagination {

  /** The marker for the gap after page 1. */
  const LeftGap := -1
  /** The marker for the gap before the last page. */
  const RightGap := -2

  function Min(a: int, b: int): int { if a <= b then a else b }
  function Max(a: int, b: int): int { if a >= b then a else b }

  /** The number of the first item shown. */
  function StartItem(currentPage: int, itemsPerPage: int): int {
    (currentPage - 1) * itemsPerPage + 1
  }

  /** The number of the last item shown. */
  function EndItem(currentPage: int, itemsPerPage: int, totalItems: int): int {
    Min(currentPage * itemsPerPage, totalItems)
  }

  /** On a page that holds at least one item, the range shown is non-empty, within the items,
      and no longer than a page. */
  lemma ShowingRange(currentPage: int, itemsPerPage: int, totalItems: int)
    requires 1 <= currentPage && 1 <= itemsPerPage
    requires (currentPage - 1) * itemsPerPage < totalItems
    ensures 1 <= StartItem(currentPage, itemsPerPage)
    ensures StartItem(currentPage, itemsPerPage) <= EndItem(currentPage, itemsPerPage, totalItems) <= totalItems
    ensures EndItem(currentPage, itemsPerPage, totalItems) - StartItem(currentPage, itemsPerPage) + 1 <= itemsPerPage
  {
    assert currentPage * itemsPerPage == (currentPage - 1) * itemsPerPage + itemsPerPage;
    assert (currentPage - 1) * itemsPerPage >= 0;
  }

  /** The pages `lo`, `lo + 1`, ..., `hi`. */
  function Run(lo: int, hi: int): (r: seq<int>)
    ensures |r| == (if hi < lo then 0 else hi - lo + 1)
    decreases hi - lo
  {
    if hi < lo then [] else Run(lo, hi - 1) + [hi]
  }

  /** The `i`-th page of a run is `lo + i`. */
  lemma {:induction false} RunIndex(lo: int, hi: int)
    ensures forall i :: 0 <= i < |Run(lo, hi)| ==> Run(lo, hi)[i] == lo + i
    decreases hi - lo
  {
    if lo <= hi {
      RunIndex(lo, hi - 1);
    }
  }

  /** The page list the component renders: every page when there are at most five; otherwise
      page 1, a gap marker when the current page is past 3, the current page and its neighbours
      (kept strictly inside the first and last page), a gap marker when the current page is more
      than two before the end, and the last page. */
  function Strip(currentPage: int, totalPages: int): seq<int> {
    if totalPages <= 5 then Run(1, totalPages)
    else
      [1]
      + (if currentPage > 3 then [LeftGap] else [])
      + Run(Max(2, currentPage - 1), Min(totalPages - 1, currentPage + 1))
      + (if currentPage < totalPages - 2 then [RightGap] else [])
      + [totalPages]
  }

  /** The list as the component builds it, by pushing onto an empty array. */
  method PageNumbers(currentPage: int, totalPages: int) returns (pages: seq<int>)
    ensures pages == Strip(currentPage, totalPages)
  {
    pages := [];
    if totalPages <= 5 {
      var i := 1;
      while i <= totalPages
        invariant 1 <= i <= Max(totalPages + 1, 1)
        invariant pages == Run(1, i - 1)
      {
        pages := pages + [i];
        i := i + 1;
      }
    } else {
      pages := pages + [1];
      if currentPage > 3 {
        pages := pages + [LeftGap];
      }
      var before := pages;
      assert before == [1] + (if currentPage > 3 then [LeftGap] else []);
      var start := Max(2, currentPage - 1);
      var end := Min(totalPages - 1, currentPage + 1);
      var i := start;
      while i <= end
        invariant start <= i <= Max(end + 1, start)
        invariant pages == before + Run(start, i - 1)
      {
        pages := pages + [i];
        i := i + 1;
      }
      var middle := pages;
      assert middle == before + Run(start, end);
      if currentPage < totalPages - 2 {
        pages := pages + [RightGap];
      }
      assert pages == middle + (if currentPage < totalPages - 2 then [RightGap] else []);
      pages := pages + [totalPages];
    }
  }

  /** At most five pages: all of them, in order, without markers. */
  lemma StripSmall(currentPage: int, totalPages: int)
    requires totalPages <= 5
    ensures var s := Strip(currentPage, totalPages);
      |s| == Max(totalPages, 0) && forall i :: 0 <= i < |s| ==> s[i] == i + 1
  {
    RunIndex(1, totalPages);
  }

  /** More than five pages: the first button is page 1 and the last is the last page, and each
      marker is shown exactly under its condition. */
  lemma StripLarge(currentPage: int, totalPages: int)
    requires totalPages > 5
    ensures var s := Strip(currentPage, totalPages);
      && |s| >= 2 && s[0] == 1 && s[|s| - 1] == totalPages
      && (LeftGap in s <==> currentPage > 3)
      && (RightGap in s <==> currentPage < totalPages - 2)
  {
    var s := Strip(currentPage, totalPages);
    var left := if currentPage > 3 then [LeftGap] else [];
    var mid := Run(Max(2, currentPage - 1), Min(totalPages - 1, currentPage + 1));
    var right := if currentPage < totalPages - 2 then [RightGap] else [];
    assert s == [1] + left + mid + right + [totalPages];
    RunIndex(Max(2, currentPage - 1), Min(totalPages - 1, currentPage + 1));
    assert LeftGap !in mid && RightGap !in mid;
    assert LeftGap in s <==> LeftGap in left;
    assert RightGap in s <==> RightGap in right;
  }

  /** The page buttons (the non-negative entries) of a strip for a current page in range. */
  ghost predicate WellFormedStrip(s: seq<int>, currentPage: int, totalPages: int) {
    && |s| <= 7
    && currentPage in s
    && (forall i :: 0 <= i < |s| ==> s[i] == LeftGap || s[i] == RightGap || 1 <= s[i] <= totalPages)
    // the buttons are strictly increasing
    && (forall i, j :: 0 <= i < j < |s| && s[i] > 0 && s[j] > 0 ==> s[i] < s[j])
    // two neighbouring buttons are consecutive pages: every gap carries a marker
    && (forall i :: 0 <= i < |s| - 1 && s[i] > 0 && s[i + 1] > 0 ==> s[i + 1] == s[i] + 1)
    // a marker always stands for at least one page left out
    && (forall i :: 0 < i < |s| - 1 && s[i] < 0 ==> s[i + 1] - s[i - 1] >= 2)
  }

  lemma StripWellFormed(currentPage: int, totalPages: int)
    requires 1 <= currentPage <= totalPages
    ensures WellFormedStrip(Strip(currentPage, totalPages), currentPage, totalPages)
  {
    if totalPages <= 5 {
      WellFormedAll(currentPage, totalPages);
    } else if currentPage <= 3 {
      WellFormedNearStart(currentPage, totalPages);
    } else if currentPage >= totalPages - 2 {
      WellFormedNearEnd(currentPage, totalPages);
    } else {
      WellFormedMiddle(currentPage, totalPages);
    }
  }

  lemma WellFormedAll(cp: int, tp: int)
    requires 1 <= cp <= tp <= 5
    ensures WellFormedStrip(Strip(cp, tp), cp, tp)
  {
    RunIndex(1, tp);
    assert Strip(cp, tp)[cp - 1] == cp;
  }

  lemma WellFormedNearStart(cp: int, tp: int)
    requires 1 <= cp <= 3 && 5 < tp
    ensures WellFormedStrip(Strip(cp, tp), cp, tp)
  {
    if cp == 1 {
      RunIndex(2, 2);
      assert Strip(cp, tp) == [1, 2, RightGap, tp];
      StartShape1(tp);
    } else if cp == 2 {
      RunIndex(2, 3);
      assert Strip(cp, tp) == [1, 2, 3, RightGap, tp];
      StartShape2(tp);
    } else {
      RunIndex(2, 4);
      assert Strip(cp, tp) == [1, 2, 3, 4, RightGap, tp];
      StartShape3(tp);
    }
  }

  lemma StartShape1(tp: int)
    requires 5 < tp
    ensures WellFormedStrip([1, 2, RightGap, tp], 1, tp)
  {
    var s := [1, 2, RightGap, tp];
    assert s[0] == 1;
    forall i | 0 <= i < |s| ensures s[i] == LeftGap || s[i] == RightGap || 1 <= s[i] <= tp {
      assert i == 0 || i == 1 || i == 2 || i == 3;
    }
    forall i, j | 0 <= i < j < |s| && s[i] > 0 && s[j] > 0 ensures s[i] < s[j] {
      assert (i == 0 || i == 1 || i == 3) && (j == 0 || j == 1 || j == 3);
    }
    forall i | 0 <= i < |s| - 1 && s[i] > 0 && s[i + 1] > 0 ensures s[i + 1] == s[i] + 1 {
      assert i == 0;
    }
    forall i | 0 < i < |s| - 1 && s[i] < 0 ensures s[i + 1] - s[i - 1] >= 2 {
      assert i == 2;
    }
  }

  lemma StartShape2(tp: int)
    requires 5 < tp
    ensures WellFormedStrip([1, 2, 3, RightGap, tp], 2, tp)
  {
    var s := [1, 2, 3, RightGap, tp];
    assert s[1] == 2;
    forall i | 0 <= i < |s| ensures s[i] == LeftGap || s[i] == RightGap || 1 <= s[i] <= tp {
      assert i == 0 || i == 1 || i == 2 || i == 3 || i == 4;
    }
    forall i, j | 0 <= i < j < |s| && s[i] > 0 && s[j] > 0 ensures s[i] < s[j] {
      assert (i == 0 || i == 1 || i == 2 || i == 4) && (j == 0 || j == 1 || j == 2 || j == 4);
    }
    forall i | 0 <= i < |s| - 1 && s[i] > 0 && s[i + 1] > 0 ensures s[i + 1] == s[i] + 1 {
      assert i == 0 || i == 1;
    }
    forall i | 0 < i < |s| - 1 && s[i] < 0 ensures s[i + 1] - s[i - 1] >= 2 {
      assert i == 3;
    }
  }

  lemma StartShape3(tp: int)
    requires 5 < tp
    ensures WellFormedStrip([1, 2, 3, 4, RightGap, tp], 3, tp)
  {
    var s := [1, 2, 3, 4, RightGap, tp];
    assert s[2] == 3;
    forall i | 0 <= i < |s| ensures s[i] == LeftGap || s[i] == RightGap || 1 <= s[i] <= tp {
      assert i == 0 || i == 1 || i == 2 || i == 3 || i == 4 || i == 5;
    }
    forall i, j | 0 <= i < j < |s| && s[i] > 0 && s[j] > 0 ensures s[i] < s[j] {
      assert (i == 0 || i == 1 || i == 2 || i == 3 || i == 5) && (j == 0 || j == 1 || j == 2 || j == 3 || j == 5);
    }
    forall i | 0 <= i < |s| - 1 && s[i] > 0 && s[i + 1] > 0 ensures s[i + 1] == s[i] + 1 {
      assert i == 0 || i == 1 || i == 2;
    }
    forall i | 0 < i < |s| - 1 && s[i] < 0 ensures s[i + 1] - s[i - 1] >= 2 {
      assert i == 4;
    }
  }

  lemma WellFormedNearEnd(cp: int, tp: int)
    requires 5 < tp && tp - 2 <= cp <= tp
    ensures WellFormedStrip(Strip(cp, tp), cp, tp)
  {
    if cp == tp {
      RunIndex(tp - 1, tp - 1);
      assert Strip(cp, tp) == [1, LeftGap, tp - 1, tp];
      EndShape1(tp);
    } else if cp == tp - 1 {
      RunIndex(tp - 2, tp - 1);
      assert Strip(cp, tp) == [1, LeftGap, tp - 2, tp - 1, tp];
      EndShape2(tp);
    } else {
      RunIndex(tp - 3, tp - 1);
      assert Strip(cp, tp) == [1, LeftGap, tp - 3, tp - 2, tp - 1, tp];
      EndShape3(tp);
    }
  }

  lemma EndShape1(tp: int)
    requires 5 < tp
    ensures WellFormedStrip([1, LeftGap, tp - 1, tp], tp, tp)
  {
    var s := [1, LeftGap, tp - 1, tp];
    assert s[3] == tp;
    forall i | 0 <= i < |s| ensures s[i] == LeftGap || s[i] == RightGap || 1 <= s[i] <= tp {
      assert i == 0 || i == 1 || i == 2 || i == 3;
    }
    forall i, j | 0 <= i < j < |s| && s[i] > 0 && s[j] > 0 ensures s[i] < s[j] {
      assert (i == 0 || i == 2 || i == 3) && (j == 0 || j == 2 || j == 3);
    }
    forall i | 0 <= i < |s| - 1 && s[i] > 0 && s[i + 1] > 0 ensures s[i + 1] == s[i] + 1 {
      assert i == 2;
    }
    forall i | 0 < i < |s| - 1 && s[i] < 0 ensures s[i + 1] - s[i - 1] >= 2 {
      assert i == 1;
    }
  }

  lemma EndShape2(tp: int)
    requires 5 < tp
    ensures WellFormedStrip([1, LeftGap, tp - 2, tp - 1, tp], tp - 1, tp)
  {
    var s := [1, LeftGap, tp - 2, tp - 1, tp];
    assert s[3] == tp - 1;
    forall i | 0 <= i < |s| ensures s[i] == LeftGap || s[i] == RightGap || 1 <= s[i] <= tp {
      assert i == 0 || i == 1 || i == 2 || i == 3 || i == 4;
    }
    forall i, j | 0 <= i < j < |s| && s[i] > 0 && s[j] > 0 ensures s[i] < s[j] {
      assert (i == 0 || i == 2 || i == 3 || i == 4) && (j == 0 || j == 2 || j == 3 || j == 4);
    }
    forall i | 0 <= i < |s| - 1 && s[i] > 0 && s[i + 1] > 0 ensures s[i + 1] == s[i] + 1 {
      assert i == 2 || i == 3;
    }
    forall i | 0 < i < |s| - 1 && s[i] < 0 ensures s[i + 1] - s[i - 1] >= 2 {
      assert i == 1;
    }
  }

  lemma EndShape3(tp: int)
    requires 5 < tp
    ensures WellFormedStrip([1, LeftGap, tp - 3, tp - 2, tp - 1, tp], tp - 2, tp)
  {
    var s := [1, LeftGap, tp - 3, tp - 2, tp - 1, tp];
    assert s[3] == tp - 2;
    forall i | 0 <= i < |s| ensures s[i] == LeftGap || s[i] == RightGap || 1 <= s[i] <= tp {
      assert i == 0 || i == 1 || i == 2 || i == 3 || i == 4 || i == 5;
    }
    forall i, j | 0 <= i < j < |s| && s[i] > 0 && s[j] > 0 ensures s[i] < s[j] {
      assert (i == 0 || i == 2 || i == 3 || i == 4 || i == 5) && (j == 0 || j == 2 || j == 3 || j == 4 || j == 5);
    }
    forall i | 0 <= i < |s| - 1 && s[i] > 0 && s[i + 1] > 0 ensures s[i + 1] == s[i] + 1 {
      assert i == 2 || i == 3 || i == 4;
    }
    forall i | 0 < i < |s| - 1 && s[i] < 0 ensures s[i + 1] - s[i - 1] >= 2 {
      assert i == 1;
    }
  }

  lemma WellFormedMiddle(cp: int, tp: int)
    requires 3 < cp < tp - 2
    ensures WellFormedStrip(Strip(cp, tp), cp, tp)
  {
    RunIndex(cp - 1, cp + 1);
    var s := [1, LeftGap, cp - 1, cp, cp + 1, RightGap, tp];
    assert Strip(cp, tp) == s;
    MiddleShape(cp, tp);
  }

  lemma MiddleShape(cp: int, tp: int)
    requires 3 < cp < tp - 2
    ensures WellFormedStrip([1, LeftGap, cp - 1, cp, cp + 1, RightGap, tp], cp, tp)
  {
    var s := [1, LeftGap, cp - 1, cp, cp + 1, RightGap, tp];
    assert s[3] == cp;
    forall i | 0 <= i < |s| ensures s[i] == LeftGap || s[i] == RightGap || 1 <= s[i] <= tp {
      assert i == 0 || i == 1 || i == 2 || i == 3 || i == 4 || i == 5 || i == 6;
    }
    forall i, j | 0 <= i < j < |s| && s[i] > 0 && s[j] > 0 ensures s[i] < s[j] {
      assert (i == 0 || i == 2 || i == 3 || i == 4 || i == 6) && (j == 0 || j == 2 || j == 3 || j == 4 || j == 6);
    }
    forall i | 0 <= i < |s| - 1 && s[i] > 0 && s[i + 1] > 0 ensures s[i + 1] == s[i] + 1 {
      assert i == 2 || i == 3;
    }
    forall i | 0 < i < |s| - 1 && s[i] < 0 ensures s[i + 1] - s[i - 1] >= 2 {
      assert i == 1 || i == 5;
    }
  }

  /** Previous is disabled on page 1 only. */
  predicate PreviousDisabled(currentPage: int) {
    currentPage == 1
  }

  /** Next is disabled on the last page only. */
  predicate NextDisabled(currentPage: int, totalPages: int) {
    currentPage == totalPages
  }

  /** From a page in range, an enabled Previous or Next leads to a page in range. */
  lemma StepStaysInRange(currentPage: int, totalPages: int)
    requires 1 <= currentPage <= totalPages
    ensures !PreviousDisabled(currentPage) ==> 1 <= currentPage - 1 <= totalPages
    ensures !NextDisabled(currentPage, totalPages) ==> 1 <= currentPage + 1 <= totalPages
    ensures PreviousDisabled(currentPage) ==> currentPage - 1 < 1
    ensures NextDisabled(currentPage, totalPages) ==> currentPage + 1 > totalPages
  {
  }
}
