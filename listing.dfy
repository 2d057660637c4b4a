/**
 * The blog listing page: the filter, search, sort and paginate pipeline, the
 * per-category counts, the URL-parameter updates and the handlers of the four
 * selections. Both versions of the page are covered: the database-backed one
 * (src/app/blog/BlogPageContent.tsx) and the one over the in-memory posts
 * (src/app/blog/page.tsx), whose search also looks at the tags.
 */
module Listing {
  import opened BlogTypes
  import Seqs
  import Text
  import opened Sorting
  import opened Pagination
  import Queries
  import BlogData

  /** Posts shown on one page of the listing. */
  const PostsPerPage := 6

  /** The sort option selected when the URL names none. */
  const DefaultSort := "newest"

  // ---------------------------------------------------------------------------
  // The two filters
  // ---------------------------------------------------------------------------

  /** The category filter: "All" keeps every post, any other name the posts filed under it. */
  function ByCategory(posts: seq<Post>, category: string): seq<Post> {
    if category == AllCategories then posts else Queries.InCategory(posts, category)
  }

  /**
   * The test of the listing's search: the lowercased query, untrimmed, occurs
   * in the lowercased title, excerpt or content, or, on the in-memory page, in
   * some lowercased tag.
   */
  predicate ListingMatches(p: Post, query: string, searchesTags: bool) {
    var q := Text.Lower(query);
    || Text.Contains(Text.Lower(p.title), q)
    || Text.Contains(Text.Lower(p.excerpt), q)
    || Text.Contains(Text.Lower(p.content), q)
    || (searchesTags && exists i :: 0 <= i < |p.tags| && Text.Contains(Text.Lower(p.tags[i]), q))
  }

  function ListingTest(query: string, searchesTags: bool): Post -> bool {
    (p: Post) => ListingMatches(p, query, searchesTags)
  }

  /** The search filter: a query that trims to nothing keeps every post. */
  function BySearch(posts: seq<Post>, query: string, searchesTags: bool): seq<Post> {
    if Text.IsBlank(query) then posts else Seqs.Filter(posts, ListingTest(query, searchesTags))
  }

  /** The posts that survive both filters, category first. */
  function Listed(posts: seq<Post>, category: string, query: string, searchesTags: bool): seq<Post> {
    BySearch(ByCategory(posts, category), query, searchesTags)
  }

  /** "All" keeps every post; any other category keeps exactly its posts, in their order. */
  lemma ByCategoryKeeps(posts: seq<Post>, category: string)
    ensures category == AllCategories ==> ByCategory(posts, category) == posts
    ensures forall p :: p in ByCategory(posts, category) <==>
      p in posts && (category == AllCategories || p.category == category)
    ensures Seqs.IsSubsequence(ByCategory(posts, category), posts)
  {
    if category == AllCategories {
      Seqs.IsSubsequenceReflexive(posts);
    } else {
      forall p
        ensures p in ByCategory(posts, category) <==> p in posts && p.category == category
      {
        Seqs.FilterMembership(posts, Queries.CategoryTest(category), p);
      }
      Seqs.FilterIsSubsequence(posts, Queries.CategoryTest(category));
    }
  }

  /**
   * A blank query keeps every post; any other query keeps exactly the posts it
   * matches, in their order.
   */
  lemma BySearchKeeps(posts: seq<Post>, query: string, searchesTags: bool)
    ensures Text.IsBlank(query) ==> BySearch(posts, query, searchesTags) == posts
    ensures forall p :: p in BySearch(posts, query, searchesTags) <==>
      p in posts && (Text.IsBlank(query) || ListingMatches(p, query, searchesTags))
    ensures Seqs.IsSubsequence(BySearch(posts, query, searchesTags), posts)
  {
    if Text.IsBlank(query) {
      Seqs.IsSubsequenceReflexive(posts);
    } else {
      forall p
        ensures p in BySearch(posts, query, searchesTags) <==> p in posts && ListingMatches(p, query, searchesTags)
      {
        Seqs.FilterMembership(posts, ListingTest(query, searchesTags), p);
      }
      Seqs.FilterIsSubsequence(posts, ListingTest(query, searchesTags));
    }
  }

  /**
   * The listed posts are an order-preserving selection of the input: exactly
   * the posts that pass both filters.
   */
  lemma ListedKeeps(posts: seq<Post>, category: string, query: string, searchesTags: bool)
    ensures forall p :: p in Listed(posts, category, query, searchesTags) <==>
      && p in posts
      && (category == AllCategories || p.category == category)
      && (Text.IsBlank(query) || ListingMatches(p, query, searchesTags))
    ensures Seqs.IsSubsequence(Listed(posts, category, query, searchesTags), posts)
  {
    ByCategoryKeeps(posts, category);
    BySearchKeeps(ByCategory(posts, category), query, searchesTags);
    if category == AllCategories {
      BySearchKeeps(posts, query, searchesTags);
    } else if Text.IsBlank(query) {
      ByCategoryKeeps(posts, category);
    } else {
      var f, g := Queries.CategoryTest(category), ListingTest(query, searchesTags);
      Seqs.FilterFuse(posts, f, g);
      Seqs.FilterIsSubsequence(posts, Seqs.Both(f, g));
    }
  }

  /** The category and search filters can be applied in either order. */
  lemma FiltersCommute(posts: seq<Post>, category: string, query: string, searchesTags: bool)
    ensures BySearch(ByCategory(posts, category), query, searchesTags)
         == ByCategory(BySearch(posts, query, searchesTags), category)
  {
    if category != AllCategories && !Text.IsBlank(query) {
      Seqs.FilterCommutes(posts, Queries.CategoryTest(category), ListingTest(query, searchesTags));
    }
  }

  /** Filtering a second time by the same selection changes nothing. */
  lemma FiltersIdempotent(posts: seq<Post>, category: string, query: string, searchesTags: bool)
    ensures ByCategory(ByCategory(posts, category), category) == ByCategory(posts, category)
    ensures BySearch(BySearch(posts, query, searchesTags), query, searchesTags) == BySearch(posts, query, searchesTags)
  {
    if category != AllCategories {
      Seqs.FilterIdempotent(posts, Queries.CategoryTest(category));
    }
    if !Text.IsBlank(query) {
      Seqs.FilterIdempotent(posts, ListingTest(query, searchesTags));
    }
  }

  /**
   * The in-memory page's search finds what `searchPosts` finds plus the posts
   * whose content matches; the database-backed page's search finds a subset.
   */
  lemma SearchVariants(p: Post, query: string)
    ensures ListingMatches(p, query, true) <==>
      Queries.SearchMatches(p, query) || Text.Contains(Text.Lower(p.content), Text.Lower(query))
    ensures ListingMatches(p, query, false) ==> ListingMatches(p, query, true)
  {
  }

  // ---------------------------------------------------------------------------
  // Posts per category
  // ---------------------------------------------------------------------------

  /** How many of the posts are filed under `category`. */
  function CountIn(posts: seq<Post>, category: string): nat {
    if posts == [] then 0
    else CountIn(posts[..|posts| - 1], category) + (if posts[|posts| - 1].category == category then 1 else 0)
  }

  /** A category counts posts exactly when some post is filed under it. */
  lemma {:induction false} CountInPositive(posts: seq<Post>, category: string)
    ensures CountIn(posts, category) > 0 <==> exists i :: 0 <= i < |posts| && posts[i].category == category
  {
    if posts != [] {
      var init := posts[..|posts| - 1];
      CountInPositive(init, category);
      if exists i :: 0 <= i < |init| && init[i].category == category {
        var i :| 0 <= i < |init| && init[i].category == category;
        assert posts[i].category == category;
      }
      if exists i :: 0 <= i < |posts| && posts[i].category == category {
        var i :| 0 <= i < |posts| && posts[i].category == category;
        if i < |init| {
          assert init[i].category == category;
        }
      }
    }
  }

  /**
   * `postCounts`: a record that starts as { All: number of posts } and gains one
   * for the category of each post in turn.
   */
  method PostCounts(posts: seq<Post>) returns (counts: map<string, int>)
    ensures AllCategories in counts && counts[AllCategories] == |posts| + CountIn(posts, AllCategories)
    ensures forall c :: c != AllCategories ==> (c in counts <==> CountIn(posts, c) > 0)
    ensures forall c :: c in counts && c != AllCategories ==> counts[c] == CountIn(posts, c)
  {
    counts := map[AllCategories := |posts|];
    var i := 0;
    while i < |posts|
      invariant 0 <= i <= |posts|
      invariant AllCategories in counts && counts[AllCategories] == |posts| + CountIn(posts[..i], AllCategories)
      invariant forall c :: c != AllCategories ==> (c in counts <==> CountIn(posts[..i], c) > 0)
      invariant forall c :: c in counts && c != AllCategories ==> counts[c] == CountIn(posts[..i], c)
    {
      var name := posts[i].category;
      counts := counts[name := (if name in counts then counts[name] else 0) + 1];
      assert posts[..i + 1][..i] == posts[..i];
      i := i + 1;
    }
    assert posts[..|posts|] == posts;
  }

  /** The counts of the given categories, added up. */
  function SumCounts(posts: seq<Post>, names: seq<string>): int {
    if names == [] then 0 else SumCounts(posts, names[..|names| - 1]) + CountIn(posts, names[|names| - 1])
  }

  /** How many times `name` occurs in `names`. */
  function Occurrences(names: seq<string>, name: string): nat {
    if names == [] then 0
    else Occurrences(names[..|names| - 1], name) + (if names[|names| - 1] == name then 1 else 0)
  }

  /** In a list without repeats a name occurs once if present, else not at all. */
  lemma {:induction false} OccurrencesDistinct(names: seq<string>, name: string)
    requires Seqs.Distinct(names)
    ensures Occurrences(names, name) == if name in names then 1 else 0
  {
    if names != [] {
      var init := names[..|names| - 1];
      assert Seqs.Distinct(init);
      OccurrencesDistinct(init, name);
      assert names == init + [names[|names| - 1]];
    }
  }

  /** One more post adds one to the sum for every occurrence of its category. */
  lemma {:induction false} SumCountsSnoc(posts: seq<Post>, x: Post, names: seq<string>)
    ensures SumCounts(posts + [x], names) == SumCounts(posts, names) + Occurrences(names, x.category)
  {
    assert (posts + [x])[..|posts|] == posts;
    if names != [] {
      SumCountsSnoc(posts, x, names[..|names| - 1]);
    }
  }

  /** Over a repeat-free list holding every post's category, the counts add up to the number of posts. */
  lemma {:induction false} SumCountsCovering(posts: seq<Post>, names: seq<string>)
    requires Seqs.Distinct(names)
    requires forall i :: 0 <= i < |posts| ==> posts[i].category in names
    ensures SumCounts(posts, names) == |posts|
  {
    if posts == [] {
      SumCountsEmpty(names);
    } else {
      var init, x := posts[..|posts| - 1], posts[|posts| - 1];
      SumCountsCovering(init, names);
      assert posts == init + [x];
      SumCountsSnoc(init, x, names);
      OccurrencesDistinct(names, x.category);
    }
  }

  lemma {:induction false} SumCountsEmpty(names: seq<string>)
    ensures SumCounts([], names) == 0
  {
    if names != [] {
      SumCountsEmpty(names[..|names| - 1]);
    }
  }

  /**
   * The counts of the categories after "All" in the category list add up to the
   * number of posts; when no post is filed under a category literally named
   * "All", that is also the count shown for "All".
   */
  lemma CategoryCountsSum(posts: seq<Post>)
    ensures SumCounts(posts, BlogData.CategoryList(posts)[1..]) == |posts|
    ensures (forall i :: 0 <= i < |posts| ==> posts[i].category != AllCategories) ==>
      |posts| + CountIn(posts, AllCategories) == |posts|
  {
    BlogData.CategoryListContents(posts);
    SumCountsCovering(posts, BlogData.CategoryList(posts)[1..]);
    CountInPositive(posts, AllCategories);
  }

  // ---------------------------------------------------------------------------
  // URL parameters
  // ---------------------------------------------------------------------------

  /** `value && value !== "All"`: the values `updateURL` writes into the URL. */
  predicate KeepsParam(value: string) {
    value != "" && value != AllCategories
  }

  /** One update: `params.set(key, value)` for a kept value, `params.delete(key)` otherwise. */
  function ApplyUpdate(params: map<string, string>, key: string, value: string): map<string, string> {
    if KeepsParam(value) then params[key := value] else params - {key}
  }

  /** The parameters after applying the updates in order. */
  function ApplyUpdates(params: map<string, string>, updates: seq<(string, string)>): map<string, string> {
    if updates == [] then params
    else
      var (key, value) := updates[|updates| - 1];
      ApplyUpdate(ApplyUpdates(params, updates[..|updates| - 1]), key, value)
  }

  /** The two updates a handler sends, one after the other. */
  lemma TwoUpdates(params: map<string, string>, k1: string, v1: string, k2: string, v2: string)
    ensures ApplyUpdates(params, [(k1, v1), (k2, v2)]) == ApplyUpdate(ApplyUpdate(params, k1, v1), k2, v2)
  {
    assert [(k1, v1), (k2, v2)][..1] == [(k1, v1)];
    assert [(k1, v1)][..0] == [];
    assert ApplyUpdates(params, [(k1, v1)]) == ApplyUpdate(params, k1, v1);
  }

  /** `updateURL`: walks the updates, setting or deleting one parameter each. */
  method UpdateUrl(params: map<string, string>, updates: seq<(string, string)>) returns (r: map<string, string>)
    ensures r == ApplyUpdates(params, updates)
  {
    r := params;
    var i := 0;
    while i < |updates|
      invariant 0 <= i <= |updates|
      invariant r == ApplyUpdates(params, updates[..i])
    {
      var (key, value) := updates[i];
      ghost var previous := r;
      if KeepsParam(value) {
        r := r[key := value];
      } else {
        r := r - {key};
      }
      assert r == ApplyUpdate(previous, key, value);
      assert updates[..i + 1][..i] == updates[..i];
      i := i + 1;
    }
    assert updates[..|updates|] == updates;
  }

  /** The keys an update list touches. */
  function UpdatedKeys(updates: seq<(string, string)>): seq<string> {
    seq(|updates|, i requires 0 <= i < |updates| => updates[i].0)
  }

  /**
   * With each key updated once, as in a record of updates: an updated key is
   * present exactly when its value is kept, and then holds that value; every
   * other parameter is untouched.
   */
  lemma {:induction false} UpdatesEffect(params: map<string, string>, updates: seq<(string, string)>)
    requires Seqs.Distinct(UpdatedKeys(updates))
    ensures var r := ApplyUpdates(params, updates);
      && (forall i :: 0 <= i < |updates| ==>
            (updates[i].0 in r <==> KeepsParam(updates[i].1))
            && (updates[i].0 in r ==> r[updates[i].0] == updates[i].1))
      && (forall k :: k !in UpdatedKeys(updates) ==>
            (k in r <==> k in params) && (k in r ==> r[k] == params[k]))
  {
    if updates != [] {
      var init := updates[..|updates| - 1];
      assert UpdatedKeys(init) == UpdatedKeys(updates)[..|updates| - 1];
      assert Seqs.Distinct(UpdatedKeys(init));
      UpdatesEffect(params, init);
      var before := ApplyUpdates(params, init);
      var r := ApplyUpdates(params, updates);
      var last := updates[|updates| - 1];
      forall i | 0 <= i < |updates| - 1
        ensures (updates[i].0 in r <==> KeepsParam(updates[i].1))
        ensures updates[i].0 in r ==> r[updates[i].0] == updates[i].1
      {
        assert UpdatedKeys(updates)[i] != UpdatedKeys(updates)[|updates| - 1];
        assert init[i] == updates[i];
      }
      forall k | k !in UpdatedKeys(updates)
        ensures (k in r <==> k in params) && (k in r ==> r[k] == params[k])
      {
        assert k != UpdatedKeys(updates)[|updates| - 1];
      }
    }
  }

  /** `searchParams.get(key) || fallback`: a missing or empty parameter reads as the fallback. */
  function ParamOr(params: map<string, string>, key: string, fallback: string): string {
    if key in params && params[key] != "" then params[key] else fallback
  }

  /** After a search for the literal text "All" the URL carries no search, so reloading it drops the query. */
  lemma SearchForAllNotKept(params: map<string, string>)
    ensures ParamOr(ApplyUpdates(params, [("search", AllCategories), ("page", "1")]), "search", "") == ""
  {
  }

  // ---------------------------------------------------------------------------
  // The page and its handlers
  // ---------------------------------------------------------------------------

  /**
   * The state of a listing page: the posts it lists, whether its search looks
   * at tags, the four selections, and the URL parameters the page shows.
   */
  class ListingPage {
    const posts: seq<Post>
    const searchesTags: bool
    var searchQuery: string
    var selectedCategory: string
    var sortBy: string
    var currentPage: int
    var url: map<string, string>

    /**
     * The initial selections come from the URL: missing or empty parameters
     * read as "", "All" and "newest"; the page number is parsed by the caller.
     */
    constructor (posts: seq<Post>, searchesTags: bool, params: map<string, string>, initialPage: int)
      ensures this.posts == posts && this.searchesTags == searchesTags
      ensures searchQuery == ParamOr(params, "search", "")
      ensures selectedCategory == ParamOr(params, "category", AllCategories)
      ensures sortBy == ParamOr(params, "sort", DefaultSort)
      ensures currentPage == initialPage && url == params
      ensures Synced()
    {
      this.posts := posts;
      this.searchesTags := searchesTags;
      searchQuery := ParamOr(params, "search", "");
      selectedCategory := ParamOr(params, "category", AllCategories);
      sortBy := ParamOr(params, "sort", DefaultSort);
      currentPage := initialPage;
      url := params;
    }

    /** Reloading the page from its URL would restore the same search, category and sort. */
    predicate Synced()
      reads this
    {
      && searchQuery == ParamOr(url, "search", "")
      && selectedCategory == ParamOr(url, "category", AllCategories)
      && sortBy == ParamOr(url, "sort", DefaultSort)
    }

    /** The URL's page parameter, "1" when missing, is the current page written out. */
    predicate PageSynced()
      reads this
    {
      ParamOr(url, "page", "1") == Text.IntString(currentPage)
    }

    /** `hasActiveFilters`: a non-empty search, a category other than "All" or a sort other than "newest". */
    predicate HasActiveFilters()
      reads this
    {
      searchQuery != "" || selectedCategory != AllCategories || sortBy != DefaultSort
    }

    /**
     * The memoised pipeline: the category filter, then the search filter, then
     * `sortPosts`, then `paginatePosts` with six posts per page.
     */
    method ComputePage() returns (r: Paginated)
      ensures r == Paginate(SortedBy(Listed(posts, selectedCategory, searchQuery, searchesTags), sortBy),
                            currentPage, PostsPerPage)
      ensures r.pagination.totalPosts == |Listed(posts, selectedCategory, searchQuery, searchesTags)|
      ensures |r.posts| <= PostsPerPage
      ensures forall p :: p in r.posts ==>
        && p in posts
        && (selectedCategory == AllCategories || p.category == selectedCategory)
        && (Text.IsBlank(searchQuery) || ListingMatches(p, searchQuery, searchesTags))
    {
      var filtered := posts;
      if selectedCategory != AllCategories {
        filtered := Seqs.Filter(filtered, Queries.CategoryTest(selectedCategory));
      }
      if !Text.IsBlank(searchQuery) {
        filtered := Seqs.Filter(filtered, ListingTest(searchQuery, searchesTags));
      }
      ghost var listed := filtered;
      assert listed == Listed(posts, selectedCategory, searchQuery, searchesTags);
      filtered := SortPosts(filtered, sortBy);
      r := Paginate(filtered, currentPage, PostsPerPage);
      PageSize(filtered, currentPage, PostsPerPage);
      ListedKeeps(posts, selectedCategory, searchQuery, searchesTags);
      forall p | p in r.posts
        ensures p in listed
      {
        assert p in filtered;
        assert p in multiset(filtered);
      }
    }

    /** `handleSearch`: a new query, back to page 1, and the URL updated to match. */
    method HandleSearch(query: string)
      modifies this
      ensures searchQuery == query && currentPage == 1
      ensures selectedCategory == old(selectedCategory) && sortBy == old(sortBy)
      ensures url == ApplyUpdates(old(url), [("search", query), ("page", "1")])
      ensures PageSynced()
      ensures old(Synced()) && query != AllCategories ==> Synced()
    {
      searchQuery := query;
      currentPage := 1;
      url := UpdateUrl(url, [("search", query), ("page", "1")]);
      TwoUpdates(old(url), "search", query, "page", "1");
      assert Text.IntString(1) == "1";
    }

    /** `handleCategoryChange`: a new category, back to page 1, and the URL updated to match. */
    method HandleCategoryChange(category: string)
      modifies this
      ensures selectedCategory == category && currentPage == 1
      ensures searchQuery == old(searchQuery) && sortBy == old(sortBy)
      ensures url == ApplyUpdates(old(url), [("category", category), ("page", "1")])
      ensures PageSynced()
      ensures old(Synced()) && category != "" ==> Synced()
    {
      selectedCategory := category;
      currentPage := 1;
      url := UpdateUrl(url, [("category", category), ("page", "1")]);
      TwoUpdates(old(url), "category", category, "page", "1");
      assert Text.IntString(1) == "1";
    }

    /** `handleSortChange`: a new sort option, back to page 1, and the URL updated to match. */
    method HandleSortChange(sort: string)
      modifies this
      ensures sortBy == sort && currentPage == 1
      ensures searchQuery == old(searchQuery) && selectedCategory == old(selectedCategory)
      ensures url == ApplyUpdates(old(url), [("sort", sort), ("page", "1")])
      ensures PageSynced()
      ensures old(Synced()) && KeepsParam(sort) ==> Synced()
    {
      sortBy := sort;
      currentPage := 1;
      url := UpdateUrl(url, [("sort", sort), ("page", "1")]);
      TwoUpdates(old(url), "sort", sort, "page", "1");
      assert Text.IntString(1) == "1";
    }

    /** `handlePageChange`: only the page changes, and the URL's page parameter with it. */
    method HandlePageChange(page: int)
      modifies this
      ensures currentPage == page
      ensures searchQuery == old(searchQuery) && selectedCategory == old(selectedCategory) && sortBy == old(sortBy)
      ensures url == ApplyUpdates(old(url), [("page", Text.IntString(page))])
      ensures PageSynced()
      ensures old(Synced()) ==> Synced()
    {
      currentPage := page;
      url := UpdateUrl(url, [("page", Text.IntString(page))]);
    }

    /** `clearFilters`: the default selections and the bare /blog URL. */
    method ClearFilters()
      modifies this
      ensures searchQuery == "" && selectedCategory == AllCategories && sortBy == DefaultSort && currentPage == 1
      ensures url == map[]
      ensures !HasActiveFilters() && Synced() && PageSynced()
    {
      searchQuery := "";
      selectedCategory := AllCategories;
      sortBy := DefaultSort;
      currentPage := 1;
      url := map[];
      assert Text.IntString(1) == "1";
    }
  }

  /**
   * The in-memory page first calls `getAllPosts()`, which sorts the shared
   * array newest first, and only then `getAllCategories()`; so the page lists
   * the sorted posts and the categories follow their newest-first order.
   */
  method LoadMockListing(store: Queries.MockStore, params: map<string, string>, initialPage: int)
    returns (page: ListingPage, categories: seq<string>)
    modifies store.posts
    ensures store.posts[..] == StableSort(old(store.posts[..]), Newest)
    ensures fresh(page) && page.posts == store.posts[..] && page.searchesTags
    ensures page.url == params && page.currentPage == initialPage
    ensures page.searchQuery == ParamOr(params, "search", "")
    ensures page.selectedCategory == ParamOr(params, "category", AllCategories)
    ensures page.sortBy == ParamOr(params, "sort", DefaultSort)
    ensures page.Synced()
    ensures categories == BlogData.CategoryList(StableSort(old(store.posts[..]), Newest))
  {
    var all := store.GetAllPosts();
    categories := store.GetAllCategories();
    page := new ListingPage(all[..], true, params, initialPage);
  }
}
