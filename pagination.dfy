/** `paginatePosts` and its `PaginationInfo` (src/lib/blog/utils.ts:81-117). */
module Pagination {
  import opened BlogTypes

  datatype PaginationInfo = PaginationInfo(
    currentPage: int,
    totalPages: int,
    totalPosts: int,
    postsPerPage: int,
    hasNextPage: bool,
    hasPrevPage: bool)

  /** What `paginatePosts` returns: the posts of one page and the metadata. */
  datatype Paginated = Paginated(posts: seq<Post>, pagination: PaginationInfo)

  function Min(a: int, b: int): int { if a <= b then a else b }

  function Max(a: int, b: int): int { if a >= b then a else b }

  /** `Math.ceil(n / d)`: the least number of pages of size `d` that hold `n` posts. */
  function CeilDiv(n: nat, d: int): (r: nat)
    requires d > 0
    ensures r * d >= n
    ensures r == 0 || (r - 1) * d < n
  {
    var q := (n + d - 1) / d;
    assert q * d == n + d - 1 - (n + d - 1) % d;
    q
  }

  /** `s.slice(start, end)` for non-negative bounds: both are clamped to the length. */
  function Slice<T>(s: seq<T>, start: int, end: int): (r: seq<T>)
    requires 0 <= start && 0 <= end
    ensures start <= end <= |s| ==> r == s[start..end]
    ensures start <= |s| <= end ==> r == s[start..]
    ensures |s| <= start ==> r == []
  {
    var lo := Min(start, |s|);
    var hi := Max(lo, Min(end, |s|));
    s[lo..hi]
  }

  /** a <= b scales to a * d <= b * d for a positive factor d. */
  lemma MulMonotone(a: int, b: int, d: int)
    requires a <= b && d > 0
    ensures a * d <= b * d
  {
    assert b * d - a * d == (b - a) * d;
  }

  /**
   * `paginatePosts(posts, page, postsPerPage)`: the requested page is clamped
   * into [1, max(totalPages, 1)] and the posts of that page are sliced out.
   */
  function Paginate(posts: seq<Post>, page: int, postsPerPage: int): (r: Paginated)
    requires postsPerPage > 0
    ensures var info, n, pp := r.pagination, |posts|, postsPerPage;
      && info.totalPosts == n && info.postsPerPage == pp
      && info.totalPages * pp >= n && (info.totalPages == 0 || (info.totalPages - 1) * pp < n)
      && 1 <= info.currentPage <= Max(info.totalPages, 1)
      && (1 <= page <= Max(info.totalPages, 1) ==> info.currentPage == page)
      && (page < 1 ==> info.currentPage == 1)
      && (page > Max(info.totalPages, 1) ==> info.currentPage == Max(info.totalPages, 1))
      && 0 <= (info.currentPage - 1) * pp <= Min(info.currentPage * pp, n) <= n
      && r.posts == posts[(info.currentPage - 1) * pp .. Min(info.currentPage * pp, n)]
      && (info.hasNextPage <==> info.currentPage < info.totalPages)
      && (info.hasPrevPage <==> info.currentPage > 1)
  {
    var totalPosts := |posts|;
    var totalPages := CeilDiv(totalPosts, postsPerPage);
    var currentPage := Max(1, Min(page, if totalPages == 0 then 1 else totalPages));
    var startIndex := (currentPage - 1) * postsPerPage;
    var endIndex := startIndex + postsPerPage;
    MulMonotone(0, currentPage - 1, postsPerPage);
    MulMonotone(currentPage - 1, if totalPages == 0 then 0 else totalPages - 1, postsPerPage);
    Paginated(
      Slice(posts, startIndex, endIndex),
      PaginationInfo(currentPage, totalPages, totalPosts, postsPerPage,
        currentPage < totalPages, currentPage > 1))
  }

  /** A page never holds more than `postsPerPage` posts, and every page before the last is full. */
  lemma PageSize(posts: seq<Post>, page: int, postsPerPage: int)
    requires postsPerPage > 0
    ensures var r := Paginate(posts, page, postsPerPage);
      && |r.posts| <= postsPerPage
      && (r.pagination.currentPage < r.pagination.totalPages ==> |r.posts| == postsPerPage)
  {
    var info := Paginate(posts, page, postsPerPage).pagination;
    if info.currentPage < info.totalPages {
      MulMonotone(info.currentPage, info.totalPages - 1, postsPerPage);
    }
  }

  /** With no posts there are no pages: page 1 is shown, empty, with neither neighbour. */
  lemma EmptyInput(page: int, postsPerPage: int)
    requires postsPerPage > 0
    ensures var r := Paginate([], page, postsPerPage);
      && r.pagination.totalPages == 0 && r.pagination.currentPage == 1 && r.posts == []
      && !r.pagination.hasNextPage && !r.pagination.hasPrevPage
  {
  }

  /** The pages 1..k, one after the other. */
  function PagesUpTo(posts: seq<Post>, postsPerPage: int, k: nat): seq<Post>
    requires postsPerPage > 0
  {
    if k == 0 then [] else PagesUpTo(posts, postsPerPage, k - 1) + Paginate(posts, k, postsPerPage).posts
  }

  /** Page k, for k between 1 and totalPages, is the k-th run of postsPerPage posts. */
  lemma InRangePage(posts: seq<Post>, postsPerPage: int, k: int)
    requires postsPerPage > 0
    requires 1 <= k <= CeilDiv(|posts|, postsPerPage)
    ensures 0 <= (k - 1) * postsPerPage < |posts|
    ensures (k - 1) * postsPerPage <= Min(k * postsPerPage, |posts|)
    ensures Paginate(posts, k, postsPerPage).posts == posts[(k - 1) * postsPerPage .. Min(k * postsPerPage, |posts|)]
  {
    MulMonotone(k - 1, CeilDiv(|posts|, postsPerPage) - 1, postsPerPage);
    MulMonotone(0, k - 1, postsPerPage);
  }

  /** The first k pages are exactly the first min(k * postsPerPage, n) posts. */
  lemma {:induction false} PagesUpToPrefix(posts: seq<Post>, postsPerPage: int, k: nat)
    requires postsPerPage > 0
    requires k <= CeilDiv(|posts|, postsPerPage)
    ensures 0 <= Min(k * postsPerPage, |posts|) <= |posts|
    ensures PagesUpTo(posts, postsPerPage, k) == posts[..Min(k * postsPerPage, |posts|)]
  {
    MulMonotone(0, k, postsPerPage);
    if k > 0 {
      PagesUpToPrefix(posts, postsPerPage, k - 1);
      InRangePage(posts, postsPerPage, k);
      var lo, hi := (k - 1) * postsPerPage, Min(k * postsPerPage, |posts|);
      assert Min(lo, |posts|) == lo;
      assert PagesUpTo(posts, postsPerPage, k) == posts[..lo] + posts[lo..hi];
      assert posts[..lo] + posts[lo..hi] == posts[..hi];
    }
  }

  /** Concatenating pages 1..totalPages gives back the input: nothing lost, nothing repeated. */
  lemma PagesReassemble(posts: seq<Post>, postsPerPage: int)
    requires postsPerPage > 0
    ensures PagesUpTo(posts, postsPerPage, CeilDiv(|posts|, postsPerPage)) == posts
  {
    var tp := CeilDiv(|posts|, postsPerPage);
    PagesUpToPrefix(posts, postsPerPage, tp);
    assert posts[..|posts|] == posts;
  }

  /** Thirteen posts at six per page: page 3 holds the last post alone. */
  lemma ThirteenPostsPageThree(posts: seq<Post>)
    requires |posts| == 13
    ensures var r := Paginate(posts, 3, 6);
      && r.pagination.totalPages == 3 && r.pagination.currentPage == 3
      && r.posts == [posts[12]]
      && !r.pagination.hasNextPage && r.pagination.hasPrevPage
  {
    assert CeilDiv(13, 6) == 3;
  }
}
