/**
 * The query helpers of src/lib/blog/utils.ts over the in-memory sample data.
 * They all read the one shared `mockBlogPosts` array, and `getAllPosts`
 * sorts that array in place, so later queries see the new order.
 */
module Queries {
  import opened BlogTypes
  import Seqs
  import Text
  import opened Sorting
  import BlogData

  /** Where `find` stops: the position of the first post with that slug, or the length. */
  function SlugIndex(posts: seq<Post>, slug: string): (i: nat)
    ensures i <= |posts|
    ensures forall j :: 0 <= j < i ==> posts[j].slug != slug
    ensures i < |posts| ==> posts[i].slug == slug
  {
    if posts == [] then 0
    else if posts[0].slug == slug then 0
    else 1 + SlugIndex(posts[1..], slug)
  }

  /** `posts.find(post => post.slug === slug)`: the first post with that slug, if any. */
  function FindBySlug(posts: seq<Post>, slug: string): (r: Option<Post>)
    ensures r.None? <==> forall i :: 0 <= i < |posts| ==> posts[i].slug != slug
    ensures r.Some? ==> r.value in posts && r.value.slug == slug
    ensures r.Some? ==> r.value == posts[SlugIndex(posts, slug)]
  {
    var i := SlugIndex(posts, slug);
    if i < |posts| then Some(posts[i]) else None
  }

  /** When slugs are unique, looking up the slug of any post finds that post. */
  lemma FindBySlugUnique(posts: seq<Post>, i: int)
    requires Seqs.Distinct(BlogData.Slugs(posts)) && 0 <= i < |posts|
    ensures FindBySlug(posts, posts[i].slug) == Some(posts[i])
  {
    var slugs, slug := BlogData.Slugs(posts), posts[i].slug;
    forall j | 0 <= j < i
      ensures posts[j].slug != slug
    {
      assert slugs[j] != slugs[i];
    }
    var k := SlugIndex(posts, slug);
    assert k == i;
  }

  /** Every sample post is found by its own slug. */
  lemma SampleLookup(i: int)
    requires 0 <= i < 8
    ensures FindBySlug(BlogData.MockBlogPosts, BlogData.MockBlogPosts[i].slug) == Some(BlogData.MockBlogPosts[i])
  {
    BlogData.SampleKeysDistinct();
    FindBySlugUnique(BlogData.MockBlogPosts, i);
  }

  predicate IsFeatured(p: Post) {
    p.featured
  }

  /** `posts.filter(post => post.featured)`. */
  function Featured(posts: seq<Post>): seq<Post> {
    Seqs.Filter(posts, IsFeatured)
  }

  /**
   * `getFeaturedPosts`: exactly the featured posts, each as often as in
   * the input, newest first, ties in input order.
   */
  lemma FeaturedNewestFirst(posts: seq<Post>)
    ensures var r := StableSort(Featured(posts), Newest);
      && (forall p :: p in r <==> p in posts && p.featured)
      && multiset(r) == multiset(Featured(posts))
      && InOrder(r, Newest)
  {
    var f := Featured(posts);
    StableSortPermutes(f, Newest);
    StableSortInOrder(f, Newest);
    var r := StableSort(f, Newest);
    forall p
      ensures p in r <==> p in posts && p.featured
    {
      Seqs.FilterMembership(posts, IsFeatured, p);
      assert p in r <==> p in multiset(r);
      assert p in f <==> p in multiset(f);
    }
  }

  /** The test `post.category === category`. */
  function CategoryTest(category: string): Post -> bool {
    (p: Post) => p.category == category
  }

  /** `posts.filter(post => post.category === category)`. */
  function InCategory(posts: seq<Post>, category: string): seq<Post> {
    Seqs.Filter(posts, CategoryTest(category))
  }

  /**
   * `getPostsByCategory` for a category other than "All": exactly the posts
   * of that category, newest first, ties in input order.
   */
  lemma CategoryNewestFirst(posts: seq<Post>, category: string)
    ensures var r := StableSort(InCategory(posts, category), Newest);
      && (forall p :: p in r <==> p in posts && p.category == category)
      && multiset(r) == multiset(InCategory(posts, category))
      && InOrder(r, Newest)
  {
    var f := InCategory(posts, category);
    StableSortPermutes(f, Newest);
    StableSortInOrder(f, Newest);
    var r := StableSort(f, Newest);
    forall p
      ensures p in r <==> p in posts && p.category == category
    {
      Seqs.FilterMembership(posts, CategoryTest(category), p);
      assert p in r <==> p in multiset(r);
      assert p in f <==> p in multiset(f);
    }
  }

  /**
   * The test of `searchPosts`: the lowercased query occurs in the lowercased
   * title, the lowercased excerpt or some lowercased tag. The content is not
   * searched.
   */
  predicate SearchMatches(p: Post, query: string) {
    var q := Text.Lower(query);
    Text.Contains(Text.Lower(p.title), q) || Text.Contains(Text.Lower(p.excerpt), q) ||
    exists i :: 0 <= i < |p.tags| && Text.Contains(Text.Lower(p.tags[i]), q)
  }

  function SearchTest(query: string): Post -> bool {
    (p: Post) => SearchMatches(p, query)
  }

  /** `searchPosts(query)` on the given posts. */
  function Search(posts: seq<Post>, query: string): seq<Post> {
    Seqs.Filter(posts, SearchTest(query))
  }

  /** The search keeps exactly the matching posts, in their array order. */
  lemma SearchKeepsMatches(posts: seq<Post>, query: string)
    ensures forall p :: p in Search(posts, query) <==> p in posts && SearchMatches(p, query)
    ensures Seqs.IsSubsequence(Search(posts, query), posts)
  {
    forall p
      ensures p in Search(posts, query) <==> p in posts && SearchMatches(p, query)
    {
      Seqs.FilterMembership(posts, SearchTest(query), p);
    }
    Seqs.FilterIsSubsequence(posts, SearchTest(query));
  }

  /** The empty query matches every post. */
  lemma SearchEmptyQuery(posts: seq<Post>)
    ensures Search(posts, "") == posts
  {
    forall i | 0 <= i < |posts|
      ensures SearchTest("")(posts[i])
    {
      Text.ContainsEmpty(Text.Lower(posts[i].title));
    }
    Seqs.FilterKeepsAll(posts, SearchTest(""));
  }

  /** Changing a post's content never changes whether the search finds it. */
  lemma SearchIgnoresContent(p: Post, content: string, query: string)
    ensures SearchMatches(p.(content := content), query) <==> SearchMatches(p, query)
  {
  }

  /** The search does not distinguish a query from its lowercase form. */
  lemma SearchCaseInsensitive(posts: seq<Post>, query: string)
    ensures Search(posts, Text.Lower(query)) == Search(posts, query)
  {
    Text.LowerIdempotent(query);
    Seqs.FilterCongruent(posts, SearchTest(Text.Lower(query)), SearchTest(query));
  }

  /** `posts.flatMap(post => post.tags)`. */
  function TagsOf(posts: seq<Post>): seq<string> {
    if posts == [] then [] else posts[0].tags + TagsOf(posts[1..])
  }

  lemma {:induction false} TagsOfMembership(posts: seq<Post>, t: string)
    ensures t in TagsOf(posts) <==> exists i :: 0 <= i < |posts| && t in posts[i].tags
  {
    if posts != [] {
      TagsOfMembership(posts[1..], t);
      if t in posts[0].tags {
        assert 0 < |posts| && t in posts[0].tags;
      }
      if exists i :: 0 <= i < |posts[1..]| && t in posts[1..][i].tags {
        var i :| 0 <= i < |posts[1..]| && t in posts[1..][i].tags;
        assert t in posts[i + 1].tags;
      }
      if exists i :: 0 <= i < |posts| && t in posts[i].tags {
        var i :| 0 <= i < |posts| && t in posts[i].tags;
        if i > 0 {
          assert t in posts[1..][i - 1].tags;
        }
      }
    }
  }

  /** `getAllTags()`: every tag once, in the order of first use. */
  function AllTags(posts: seq<Post>): seq<string> {
    Seqs.Dedupe(TagsOf(posts))
  }

  /** The tag list has no repetitions and names exactly the tags some post carries. */
  lemma AllTagsContents(posts: seq<Post>)
    ensures Seqs.Distinct(AllTags(posts))
    ensures forall t :: t in AllTags(posts) <==> exists i :: 0 <= i < |posts| && t in posts[i].tags
    ensures Seqs.InFirstOccurrenceOrder(AllTags(posts), TagsOf(posts))
  {
    Seqs.DedupeContents(TagsOf(posts));
    Seqs.DedupeFirstOccurrenceOrder(TagsOf(posts));
    forall t
      ensures t in AllTags(posts) <==> exists i :: 0 <= i < |posts| && t in posts[i].tags
    {
      Seqs.DedupeMembership(TagsOf(posts), t);
      TagsOfMembership(posts, t);
    }
  }

  /** The shared `mockBlogPosts` array and the helpers that read or reorder it. */
  class MockStore {
    const posts: array<Post>

    constructor (initial: seq<Post>)
      ensures posts[..] == initial && fresh(posts)
    {
      posts := new Post[|initial|](i requires 0 <= i < |initial| => initial[i]);
    }

    /**
     * `getAllPosts()`: sorts the shared array itself newest first and returns
     * that same array.
     */
    method GetAllPosts() returns (all: array<Post>)
      modifies posts
      ensures all == posts
      ensures posts[..] == StableSort(old(posts[..]), Newest)
    {
      SortInPlace(posts, Newest);
      all := posts;
    }

    /**
     * `getPostsByCategory(category)`: "All" is `getAllPosts()`, the shared
     * array itself; any other category gives a new array of its posts,
     * newest first, and leaves the shared array alone.
     */
    method GetPostsByCategory(category: string) returns (r: array<Post>)
      modifies posts
      ensures category == AllCategories ==> r == posts && posts[..] == StableSort(old(posts[..]), Newest)
      ensures category != AllCategories ==>
        fresh(r) && posts[..] == old(posts[..]) && r[..] == StableSort(InCategory(posts[..], category), Newest)
    {
      if category == AllCategories {
        r := GetAllPosts();
      } else {
        var matching := InCategory(posts[..], category);
        r := new Post[|matching|](i requires 0 <= i < |matching| => matching[i]);
        assert r[..] == matching;
        SortInPlace(r, Newest);
      }
    }

    /** `getPostBySlug(slug)`. */
    function GetPostBySlug(slug: string): Option<Post>
      reads posts
    {
      FindBySlug(posts[..], slug)
    }

    /** `getFeaturedPosts()`. */
    function GetFeaturedPosts(): seq<Post>
      reads posts
    {
      StableSort(Featured(posts[..]), Newest)
    }

    /** `searchPosts(query)`. */
    function SearchPosts(query: string): seq<Post>
      reads posts
    {
      Search(posts[..], query)
    }

    /** `getAllTags()`. */
    function GetAllTags(): seq<string>
      reads posts
    {
      AllTags(posts[..])
    }

    /** `getAllCategories()` on the shared array as it currently stands. */
    function GetAllCategories(): seq<string>
      reads posts
    {
      BlogData.CategoryList(posts[..])
    }
  }
}
