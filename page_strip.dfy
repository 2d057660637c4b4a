/**
 * The page-number strip of the pagination bar and its "Showing a - b of n posts"
 * line (src/components/blog/Pagination.tsx).
 */
module PageStrip {
  import opened BlogTypes
  import opened Pagination

  /** One entry of the strip: a button for a page, or a `"..."` marker. */
  datatype PageItem = Num(n: int) | Ellipsis

  /** Up to this many pages are all shown, without markers. */
  const MaxVisible := 5

  /** Buttons for the pages lo, lo + 1, ..., hi; none when hi < lo. */
  function Run(lo: int, hi: int): seq<PageItem>
    decreases hi - lo
  {
    if hi < lo then [] else Run(lo, hi - 1) + [Num(hi)]
  }

  /**
   * The strip `getPageNumbers` builds: every page when there are at most five,
   * otherwise the first page, a marker when the current page is past 3, the
   * current page with its neighbours (kept off the first and last page), a
   * marker when the current page is before totalPages - 2, and the last page.
   */
  function Strip(currentPage: int, totalPages: int): seq<PageItem> {
    if totalPages <= MaxVisible then Run(1, totalPages)
    else [Num(1)] + Lead(currentPage) + Middle(currentPage, totalPages) + Trail(currentPage, totalPages) + [Num(totalPages)]
  }

  /** The marker after page 1, shown once the current page is past 3. */
  function Lead(currentPage: int): seq<PageItem> {
    if currentPage > 3 then [Ellipsis] else []
  }

  /** The current page and its neighbours, kept between page 2 and totalPages - 1. */
  function Middle(currentPage: int, totalPages: int): seq<PageItem> {
    Run(Max(2, currentPage - 1), Min(totalPages - 1, currentPage + 1))
  }

  /** The marker before the last page, shown while the current page is before totalPages - 2. */
  function Trail(currentPage: int, totalPages: int): seq<PageItem> {
    if currentPage < totalPages - 2 then [Ellipsis] else []
  }

  /** The k-th button of a run is page lo + k. */
  lemma {:induction false} RunShape(lo: int, hi: int)
    ensures |Run(lo, hi)| == Max(hi - lo + 1, 0)
    ensures forall k :: 0 <= k < |Run(lo, hi)| ==> Run(lo, hi)[k] == Num(lo + k)
    decreases hi - lo
  {
    if lo <= hi {
      RunShape(lo, hi - 1);
    }
  }

  /** `getPageNumbers`: pushes the entries one by one, with its two loops. */
  method GetPageNumbers(currentPage: int, totalPages: int) returns (pages: seq<PageItem>)
    ensures pages == Strip(currentPage, totalPages)
  {
    pages := [];
    if totalPages <= MaxVisible {
      var i := 1;
      while i <= totalPages
        invariant 1 <= i <= Max(totalPages, 0) + 1
        invariant pages == Run(1, i - 1)
      {
        pages := pages + [Num(i)];
        i := i + 1;
      }
      if totalPages <= 0 {
        assert pages == [] == Run(1, totalPages);
      }
    } else {
      pages := pages + [Num(1)];
      if currentPage > 3 {
        pages := pages + [Ellipsis];
      }
      ghost var head := pages;
      assert head == [Num(1)] + Lead(currentPage);
      var lo, hi := Max(2, currentPage - 1), Min(totalPages - 1, currentPage + 1);
      var i := lo;
      while i <= hi
        invariant lo <= i <= Max(hi + 1, lo)
        invariant pages == head + Run(lo, i - 1)
      {
        pages := pages + [Num(i)];
        i := i + 1;
      }
      if i == lo {
        assert pages == head == head + Middle(currentPage, totalPages);
      }
      ghost var body := pages;
      if currentPage < totalPages - 2 {
        pages := pages + [Ellipsis];
      }
      assert pages == body + Trail(currentPage, totalPages);
      pages := pages + [Num(totalPages)];
    }
  }

  /**
   * A well-spaced strip: it starts and ends with a button, two neighbouring
   * buttons are consecutive pages, and a marker always sits between two buttons
   * whose pages are not consecutive.
   */
  predicate Spaced(r: seq<PageItem>) {
    && |r| > 0 && r[0].Num? && r[|r| - 1].Num?
    && (forall i :: 0 <= i < |r| - 1 && r[i].Num? && r[i + 1].Num? ==> r[i + 1].n == r[i].n + 1)
    && (forall i :: 0 < i < |r| - 1 && r[i].Ellipsis? ==>
          r[i - 1].Num? && r[i + 1].Num? && r[i + 1].n > r[i - 1].n + 1)
  }

  /** The pages on the buttons of a strip strictly increase from left to right. */
  predicate Increasing(r: seq<PageItem>) {
    forall i, j :: 0 <= i < j < |r| && r[i].Num? && r[j].Num? ==> r[i].n < r[j].n
  }

  lemma RunMembership(lo: int, hi: int, x: PageItem)
    ensures x in Run(lo, hi) <==> x.Num? && lo <= x.n <= hi
  {
    RunShape(lo, hi);
    if x.Num? && lo <= x.n <= hi {
      assert Run(lo, hi)[x.n - lo] == x;
    }
  }

  lemma RunSpaced(lo: int, hi: int)
    requires lo <= hi
    ensures Spaced(Run(lo, hi))
  {
    RunShape(lo, hi);
  }

  /** Two well-spaced strips whose pages continue one another join into one. */
  lemma JoinAdjacent(a: seq<PageItem>, b: seq<PageItem>)
    requires Spaced(a) && Spaced(b)
    requires b[0].n == a[|a| - 1].n + 1
    ensures Spaced(a + b)
  {
    var r := a + b;
    forall i | 0 < i < |r| - 1 && r[i].Ellipsis?
      ensures r[i - 1].Num? && r[i + 1].Num? && r[i + 1].n > r[i - 1].n + 1
    {
      if i < |a| {
        assert a[i].Ellipsis?;
      } else {
        assert b[i - |a|].Ellipsis?;
      }
    }
  }

  /** Two well-spaced strips with pages missing between them join around a marker. */
  lemma JoinGap(a: seq<PageItem>, b: seq<PageItem>)
    requires Spaced(a) && Spaced(b)
    requires b[0].n > a[|a| - 1].n + 1
    ensures Spaced(a + [Ellipsis] + b)
  {
    var r := a + [Ellipsis] + b;
    forall i | 0 < i < |r| - 1 && r[i].Ellipsis?
      ensures r[i - 1].Num? && r[i + 1].Num? && r[i + 1].n > r[i - 1].n + 1
    {
      if i < |a| {
        assert a[i].Ellipsis?;
      } else if i > |a| {
        assert b[i - |a| - 1].Ellipsis?;
      }
    }
  }

  /** Walking left from a button in a well-spaced strip, the pages only decrease. */
  lemma {:induction false} SpacedAbove(r: seq<PageItem>, i: int, j: int)
    requires Spaced(r)
    requires 0 <= i < j < |r| && r[i].Num? && r[j].Num?
    ensures r[i].n < r[j].n
    decreases j
  {
    if r[j - 1].Num? {
      if j - 1 > i {
        SpacedAbove(r, i, j - 1);
      }
    } else {
      assert r[j - 2].Num? && r[j].n > r[j - 2].n + 1;
      if j - 2 > i {
        SpacedAbove(r, i, j - 2);
      }
    }
  }

  /** A well-spaced strip has strictly increasing pages. */
  lemma SpacedIncreasing(r: seq<PageItem>)
    requires Spaced(r)
    ensures Increasing(r)
  {
    forall i, j | 0 <= i < j < |r| && r[i].Num? && r[j].Num?
      ensures r[i].n < r[j].n
    {
      SpacedAbove(r, i, j);
    }
  }

  /** At most five pages: exactly the buttons 1, 2, ..., totalPages, and nothing when there are none. */
  lemma SmallStrip(currentPage: int, totalPages: int)
    requires totalPages <= MaxVisible
    ensures var r := Strip(currentPage, totalPages);
      && |r| == Max(totalPages, 0)
      && (forall i :: 0 <= i < |r| ==> r[i] == Num(i + 1))
      && (totalPages <= 0 ==> r == [])
  {
    RunShape(1, totalPages);
  }

  /** The strip never has more than seven entries; past five pages it runs from page 1 to the last page. */
  lemma StripBounds(currentPage: int, totalPages: int)
    ensures |Strip(currentPage, totalPages)| <= 7
    ensures totalPages > MaxVisible ==>
      var r := Strip(currentPage, totalPages);
      |r| >= 2 && r[0] == Num(1) && r[|r| - 1] == Num(totalPages)
  {
    if totalPages <= MaxVisible {
      RunShape(1, totalPages);
    } else {
      RunShape(Max(2, currentPage - 1), Min(totalPages - 1, currentPage + 1));
    }
  }

  /**
   * Past five pages, with the current page in range, the entry after page 1 is a
   * marker exactly when the current page is past 3, and the entry before the last
   * page is a marker exactly when the current page is before totalPages - 2.
   */
  lemma StripMarkers(currentPage: int, totalPages: int)
    requires MaxVisible < totalPages && 1 <= currentPage <= totalPages
    ensures var r := Strip(currentPage, totalPages);
      && |r| >= 3
      && (r[1] == Ellipsis <==> currentPage > 3)
      && (r[|r| - 2] == Ellipsis <==> currentPage < totalPages - 2)
  {
    var lo, hi := Max(2, currentPage - 1), Min(totalPages - 1, currentPage + 1);
    var mid := Middle(currentPage, totalPages);
    RunShape(lo, hi);
    assert |mid| > 0 && mid[0] == Num(lo) && mid[|mid| - 1] == Num(hi);
  }

  /**
   * With the current page in range the strip is well spaced: buttons for
   * consecutive pages stand side by side, and a marker sits between two buttons
   * exactly when pages are skipped; so the pages strictly increase.
   */
  lemma StripSpaced(currentPage: int, totalPages: int)
    requires 1 <= currentPage <= totalPages
    ensures Spaced(Strip(currentPage, totalPages))
    ensures Increasing(Strip(currentPage, totalPages))
  {
    var cp, tp := currentPage, totalPages;
    if tp <= MaxVisible {
      RunSpaced(1, tp);
    } else {
      var first, last := [Num(1)], [Num(tp)];
      var lo, hi := Max(2, cp - 1), Min(tp - 1, cp + 1);
      var mid := Middle(cp, tp);
      RunSpaced(lo, hi);
      RunShape(lo, hi);
      assert mid[0] == Num(lo) && mid[|mid| - 1] == Num(hi);
      var front := first + Lead(cp) + mid;
      if cp > 3 {
        JoinGap(first, mid);
      } else {
        assert first + Lead(cp) == first;
        JoinAdjacent(first, mid);
      }
      assert front[|front| - 1] == Num(hi);
      if cp < tp - 2 {
        JoinGap(front, last);
      } else {
        assert front + Trail(cp, tp) == front;
        JoinAdjacent(front, last);
      }
    }
    SpacedIncreasing(Strip(cp, tp));
  }

  /**
   * With the current page in range, the buttons shown are exactly: every page
   * when there are at most five, otherwise page 1, the last page, and the
   * current page with its two neighbours. In particular the current page is shown.
   */
  lemma StripShows(currentPage: int, totalPages: int, page: int)
    requires 1 <= currentPage <= totalPages
    ensures Num(page) in Strip(currentPage, totalPages) <==>
      && 1 <= page <= totalPages
      && (totalPages <= MaxVisible || page == 1 || page == totalPages
          || currentPage - 1 <= page <= currentPage + 1)
    ensures Num(currentPage) in Strip(currentPage, totalPages)
  {
    var cp, tp := currentPage, totalPages;
    if tp <= MaxVisible {
      RunMembership(1, tp, Num(page));
      RunMembership(1, tp, Num(cp));
    } else {
      var lo, hi := Max(2, cp - 1), Min(tp - 1, cp + 1);
      RunMembership(lo, hi, Num(page));
      RunMembership(lo, hi, Num(cp));
    }
  }

  /** "Showing start - end of n posts": the 1-based numbers of the first and last post on the page. */
  function DisplayRange(info: PaginationInfo): (int, int) {
    ((info.currentPage - 1) * info.postsPerPage + 1, Min(info.currentPage * info.postsPerPage, info.totalPosts))
  }

  /**
   * For a page `paginatePosts` produced from a non-empty list, the range shown
   * lies within 1..n and numbers exactly the posts of that page.
   */
  lemma DisplayRangeOfPage(posts: seq<Post>, page: int, postsPerPage: int)
    requires postsPerPage > 0 && |posts| > 0
    ensures var r := Paginate(posts, page, postsPerPage);
      var (start, end) := DisplayRange(r.pagination);
      && 1 <= start <= end <= |posts|
      && end - start + 1 == |r.posts|
      && r.posts == posts[start - 1 .. end]
  {
    var info := Paginate(posts, page, postsPerPage).pagination;
    MulMonotone(info.currentPage - 1, info.totalPages - 1, postsPerPage);
  }

  /**
   * With no posts the range computes to (1, 0). The listing pages render the
   * bar only when there is more than one page, so this line is never shown.
   */
  lemma DisplayRangeEmpty(page: int, postsPerPage: int)
    requires postsPerPage > 0
    ensures DisplayRange(Paginate([], page, postsPerPage).pagination) == (1, 0)
  {
  }
}
