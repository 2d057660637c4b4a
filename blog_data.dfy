/**
 * The mock data module (src/lib/data/blogPosts.ts): the eight sample posts
 * and `getAllCategories`.
 */
module BlogData {
  import opened BlogTypes
  import Seqs
  import opened Sorting

  /** `posts.map(post => post.category)`. */
  function CategoriesOf(posts: seq<Post>): seq<string> {
    seq(|posts|, i requires 0 <= i < |posts| => posts[i].category)
  }

  /**
   * `getAllCategories()` on the posts in their current array order: "All",
   * then every category once, in the order of first occurrence.
   */
  function CategoryList(posts: seq<Post>): seq<string> {
    [AllCategories] + Seqs.Dedupe(CategoriesOf(posts))
  }

  /**
   * The list starts with "All"; the entries after it are pairwise distinct
   * and name exactly the posts' categories.
   */
  lemma CategoryListContents(posts: seq<Post>)
    ensures var r := CategoryList(posts);
      && |r| >= 1 && r[0] == AllCategories
      && Seqs.Distinct(r[1..])
      && (forall i :: 0 <= i < |posts| ==> posts[i].category in r[1..])
      && (forall c :: c in r[1..] ==> c in CategoriesOf(posts))
  {
    var cats := CategoriesOf(posts);
    var r := CategoryList(posts);
    assert r[1..] == Seqs.Dedupe(cats);
    Seqs.DedupeContents(cats);
    forall i | 0 <= i < |posts|
      ensures posts[i].category in r[1..]
    {
      assert cats[i] == posts[i].category;
    }
  }

  /** One entry after "All" per distinct category of the posts. */
  lemma CategoryListLength(posts: seq<Post>)
    ensures |CategoryList(posts)| == 1 + |set p | p in posts :: p.category|
  {
    var cats := CategoriesOf(posts);
    Seqs.DedupeLength(cats);
    assert (set x | x in cats) == (set p | p in posts :: p.category) by {
      forall x | x in cats
        ensures x in (set p | p in posts :: p.category)
      {
        var i :| 0 <= i < |cats| && cats[i] == x;
        assert posts[i] in posts;
      }
      forall x | x in (set p | p in posts :: p.category)
        ensures x in cats
      {
        var p :| p in posts && p.category == x;
        var i :| 0 <= i < |posts| && posts[i] == p;
        assert cats[i] == x;
      }
    }
  }

  /** The categories after "All" follow the order in which the posts first use them. */
  lemma CategoryListOrder(posts: seq<Post>)
    ensures Seqs.InFirstOccurrenceOrder(CategoryList(posts)[1..], CategoriesOf(posts))
  {
    assert CategoryList(posts)[1..] == Seqs.Dedupe(CategoriesOf(posts));
    Seqs.DedupeFirstOccurrenceOrder(CategoriesOf(posts));
  }

  /** One more post of the array adds its category at the end of the mapped list. */
  lemma CategoriesOfPrefix(posts: seq<Post>, k: int)
    requires 0 <= k < |posts|
    ensures CategoriesOf(posts[..k + 1]) == CategoriesOf(posts[..k]) + [posts[k].category]
  {
  }

  /** Adding a post at the end of the array appends its category unless the list has it already. */
  lemma CategoryListExtend(posts: seq<Post>, k: int)
    requires 0 <= k < |posts|
    ensures var before, c := CategoryList(posts[..k]), posts[k].category;
      CategoryList(posts[..k + 1]) == if c in before[1..] then before else before + [c]
  {
    var cats, c := CategoriesOf(posts[..k]), posts[k].category;
    CategoriesOfPrefix(posts, k);
    Seqs.DedupeSnoc(cats, c);
    var d := Seqs.Dedupe(cats);
    assert CategoryList(posts[..k]) == [AllCategories] + d;
    assert CategoryList(posts[..k + 1]) == [AllCategories] + Seqs.Dedupe(cats + [c]);
    assert ([AllCategories] + d)[1..] == d;
  }

  /** Midnight UTC of a day of January 2024, in milliseconds, as `new Date('2024-01-DD')` gives it. */
  function January2024(day: int): int {
    1704067200000 + (day - 1) * 86400000
  }

  const Writer := Author("author-1", "John Developer", "", "")

  function Sample(id: string, slug: string, title: string, category: string, tags: seq<string>,
                  day: int, readTime: int, views: int, featured: bool): Post
  {
    Post(id, slug, title, "", "", "", Writer, category, tags, January2024(day), readTime, views, featured)
  }

  const GettingStarted := Sample("1", "getting-started-nextjs", "Getting Started with Next.js 14",
    "Next.js", ["Next.js", "Tutorial", "Beginner"], 15, 5, 1250, true)
  const TypeScriptBasics := Sample("2", "typescript-basics", "TypeScript Basics Every Developer Should Know",
    "TypeScript", ["TypeScript", "Tutorial"], 12, 8, 890, false)
  const ReactHooks := Sample("3", "react-hooks-guide", "React Hooks: A Complete Guide",
    "React", ["React", "Hooks", "Tutorial"], 10, 10, 2100, true)
  const WebTrends := Sample("4", "web-development-trends-2024", "Web Development Trends in 2024",
    "Web Development", ["Trends", "2024", "Web Dev"], 8, 6, 1580, false)
  const ArrayMethods := Sample("5", "javascript-array-methods", "JavaScript Array Methods You Must Know",
    "JavaScript", ["JavaScript", "Arrays", "Tutorial"], 18, 7, 1420, false)
  const Flexbox := Sample("6", "css-flexbox-guide", "CSS Flexbox: Complete Visual Guide",
    "Web Development", ["CSS", "Flexbox", "Layout"], 20, 9, 2340, true)
  const GitCheatsheet := Sample("7", "git-commands-cheatsheet", "Git Commands Cheatsheet for Developers",
    "Tutorial", ["Git", "Version Control", "DevOps"], 22, 5, 1890, false)
  const AsyncAwait := Sample("8", "async-await-javascript", "Async/Await in JavaScript Explained",
    "JavaScript", ["JavaScript", "Async", "Promises"], 25, 8, 1650, true)

  /** `mockBlogPosts` in its declared order. */
  const MockBlogPosts: seq<Post> :=
    [GettingStarted, TypeScriptBasics, ReactHooks, WebTrends, ArrayMethods, Flexbox, GitCheatsheet, AsyncAwait]

  /** The ids of the posts, in array order. */
  function Ids(posts: seq<Post>): seq<string> {
    seq(|posts|, i requires 0 <= i < |posts| => posts[i].id)
  }

  /** The slugs of the posts, in array order. */
  function Slugs(posts: seq<Post>): seq<string> {
    seq(|posts|, i requires 0 <= i < |posts| => posts[i].slug)
  }

  const SampleIds: seq<string> := ["1", "2", "3", "4", "5", "6", "7", "8"]

  const SampleSlugs: seq<string> := ["getting-started-nextjs", "typescript-basics", "react-hooks-guide",
    "web-development-trends-2024", "javascript-array-methods", "css-flexbox-guide",
    "git-commands-cheatsheet", "async-await-javascript"]

  const SampleCategories: seq<string> := ["Next.js", "TypeScript", "React", "Web Development",
    "JavaScript", "Web Development", "Tutorial", "JavaScript"]

  const SampleDays: seq<int> := [15, 12, 10, 8, 18, 20, 22, 25]

  /** Post `k` of `ps` carries the id and slug of sample post `k`. */
  predicate KeyedLikeSample(ps: seq<Post>, k: int) {
    0 <= k < |ps| && k < 8 && ps[k].id == SampleIds[k] && ps[k].slug == SampleSlugs[k]
  }

  /** Post `k` of `ps` is filed under the category of sample post `k`. */
  predicate FiledLikeSample(ps: seq<Post>, k: int) {
    0 <= k < |ps| && k < 8 && ps[k].category == SampleCategories[k]
  }

  /** Post `k` of `ps` is dated like sample post `k`. */
  predicate DatedLikeSample(ps: seq<Post>, k: int) {
    0 <= k < |ps| && k < 8 && ps[k].publishedAt == January2024(SampleDays[k])
  }

  /** Post `k` of `ps` has the id, slug, category and date of sample post `k`. */
  predicate LikeSample(ps: seq<Post>, k: int) {
    KeyedLikeSample(ps, k) && FiledLikeSample(ps, k) && DatedLikeSample(ps, k)
  }

  /** Sample posts 1 to 4 (indices 0 to 3) have their declared id, slug, category and date. */
  lemma SampleFieldsFirstHalf()
    ensures forall k :: 0 <= k < 4 ==> LikeSample(MockBlogPosts, k)
  {
    forall k | 0 <= k < 4
      ensures LikeSample(MockBlogPosts, k)
    {
      if k == 0 {
      } else if k == 1 {
      } else if k == 2 {
      } else {
      }
    }
  }

  /** Sample posts 5 to 8 (indices 4 to 7) have their declared id, slug, category and date. */
  lemma SampleFieldsSecondHalf()
    ensures forall k :: 4 <= k < 8 ==> LikeSample(MockBlogPosts, k)
  {
    forall k | 4 <= k < 8
      ensures LikeSample(MockBlogPosts, k)
    {
      if k == 4 {
      } else if k == 5 {
      } else if k == 6 {
      } else {
      }
    }
  }

  /** The eight sample posts, read field by field. */
  lemma SampleFields()
    ensures |MockBlogPosts| == 8
    ensures forall k :: 0 <= k < 8 ==> KeyedLikeSample(MockBlogPosts, k)
    ensures forall k :: 0 <= k < 8 ==> FiledLikeSample(MockBlogPosts, k)
    ensures forall k :: 0 <= k < 8 ==> DatedLikeSample(MockBlogPosts, k)
  {
    SampleFieldsFirstHalf();
    SampleFieldsSecondHalf();
  }

  /** The ids "1" to "8" are pairwise distinct. */
  lemma SampleIdListDistinct()
    ensures Seqs.Distinct(SampleIds)
  {
    Seqs.DistinctSnoc(["1"], "2");
    Seqs.DistinctSnoc(["1", "2"], "3");
    Seqs.DistinctSnoc(["1", "2", "3"], "4");
    Seqs.DistinctSnoc(["1", "2", "3", "4"], "5");
    Seqs.DistinctSnoc(["1", "2", "3", "4", "5"], "6");
    Seqs.DistinctSnoc(["1", "2", "3", "4", "5", "6"], "7");
    Seqs.DistinctSnoc(["1", "2", "3", "4", "5", "6", "7"], "8");
  }

  /** The slugs of the first five sample posts are pairwise distinct. */
  lemma SampleSlugPrefixDistinct()
    ensures Seqs.Distinct(SampleSlugs[..5])
  {
    var s := SampleSlugs;
    assert s[..1] == [s[0]];
    Seqs.DistinctSnoc(s[..1], s[1]);
    assert s[..2] == s[..1] + [s[1]];
    Seqs.DistinctSnoc(s[..2], s[2]);
    assert s[..3] == s[..2] + [s[2]];
    Seqs.DistinctSnoc(s[..3], s[3]);
    assert s[..4] == s[..3] + [s[3]];
    Seqs.DistinctSnoc(s[..4], s[4]);
    assert s[..5] == s[..4] + [s[4]];
  }

  /** The slugs of all eight sample posts are pairwise distinct. */
  lemma SampleSlugListDistinct()
    ensures Seqs.Distinct(SampleSlugs)
  {
    var s := SampleSlugs;
    SampleSlugPrefixDistinct();
    Seqs.DistinctSnoc(s[..5], s[5]);
    assert s[..6] == s[..5] + [s[5]];
    Seqs.DistinctSnoc(s[..6], s[6]);
    assert s[..7] == s[..6] + [s[6]];
    Seqs.DistinctSnoc(s[..7], s[7]);
    assert s == s[..7] + [s[7]];
  }

  /** The sample data has eight posts with distinct ids and distinct slugs. */
  lemma SampleKeysDistinct()
    ensures |MockBlogPosts| == 8
    ensures Seqs.Distinct(Ids(MockBlogPosts))
    ensures Seqs.Distinct(Slugs(MockBlogPosts))
  {
    SampleFields();
    assert Ids(MockBlogPosts) == SampleIds;
    assert Slugs(MockBlogPosts) == SampleSlugs;
    SampleIdListDistinct();
    SampleSlugListDistinct();
  }

  /** The categories of the first four sample posts are already distinct: Next.js, TypeScript, React, Web Development. */
  lemma SampleCategoryDedupeHalf()
    ensures Seqs.Dedupe(SampleCategories[..4]) == ["Next.js", "TypeScript", "React", "Web Development"]
  {
    Seqs.DedupeSnoc([], "Next.js");
    assert [] + ["Next.js"] == ["Next.js"];
    Seqs.DedupeSnoc(["Next.js"], "TypeScript");
    Seqs.DedupeSnoc(["Next.js", "TypeScript"], "React");
    Seqs.DedupeSnoc(["Next.js", "TypeScript", "React"], "Web Development");
    assert SampleCategories[..4] == ["Next.js", "TypeScript", "React"] + ["Web Development"];
  }

  /**
   * The categories of the sample data in declared order: Next.js, TypeScript,
   * React, Web Development, JavaScript, Tutorial.
   */
  lemma SampleCategoryDedupe()
    ensures Seqs.Dedupe(SampleCategories)
      == ["Next.js", "TypeScript", "React", "Web Development", "JavaScript", "Tutorial"]
  {
    var c := SampleCategories;
    var d4 := ["Next.js", "TypeScript", "React", "Web Development"];
    SampleCategoryDedupeHalf();
    var c5 := c[..4] + ["JavaScript"];
    Seqs.DedupeSnoc(c[..4], "JavaScript");
    var d5 := d4 + ["JavaScript"];
    assert Seqs.Dedupe(c5) == d5;
    var c6 := c5 + ["Web Development"];
    Seqs.DedupeSnoc(c5, "Web Development");
    assert Seqs.Dedupe(c6) == d5;
    var c7 := c6 + ["Tutorial"];
    Seqs.DedupeSnoc(c6, "Tutorial");
    var d6 := d5 + ["Tutorial"];
    assert Seqs.Dedupe(c7) == d6;
    Seqs.DedupeSnoc(c7, "JavaScript");
    assert c == c7 + ["JavaScript"];
  }

  /** In declared order the categories come out as Next.js, TypeScript, React, Web Development, JavaScript, Tutorial. */
  lemma SampleCategoriesDeclaredOrder()
    ensures CategoryList(MockBlogPosts)
      == ["All", "Next.js", "TypeScript", "React", "Web Development", "JavaScript", "Tutorial"]
  {
    SampleFields();
    assert CategoriesOf(MockBlogPosts) == SampleCategories;
    SampleCategoryDedupe();
  }

  /** The first four sample posts are already in newest-first order. */
  lemma NewestFirstPrefix(ps: seq<Post>)
    requires |ps| == 8 && forall k :: 0 <= k < 8 ==> DatedLikeSample(ps, k)
    ensures StableSort(ps[..4], Newest) == ps[..4]
  {
    assert DatedLikeSample(ps, 0) && DatedLikeSample(ps, 1) && DatedLikeSample(ps, 2) && DatedLikeSample(ps, 3);
    assert ps[..0] == [];
    StableSortStep(ps, 0, Newest);
    assert StableSort(ps[..1], Newest) == ps[..1];
    StableSortStep(ps, 1, Newest);
    StableSortInOrder(ps[..1], Newest);
    InsertAtEnd(ps[1], ps[..1], Newest);
    assert ps[..1] + [ps[1]] == ps[..2];
    StableSortStep(ps, 2, Newest);
    StableSortInOrder(ps[..2], Newest);
    InsertAtEnd(ps[2], ps[..2], Newest);
    assert ps[..2] + [ps[2]] == ps[..3];
    StableSortStep(ps, 3, Newest);
    StableSortInOrder(ps[..3], Newest);
    InsertAtEnd(ps[3], ps[..3], Newest);
    assert ps[..3] + [ps[3]] == ps[..4];
  }

  /**
   * Sorting eight posts dated like the sample data newest first gives the
   * order 8, 7, 6, 5, 1, 2, 3, 4 (by sample position, counted from 1).
   */
  lemma NewestFirstOrder(ps: seq<Post>)
    requires |ps| == 8 && forall k :: 0 <= k < 8 ==> DatedLikeSample(ps, k)
    ensures StableSort(ps, Newest) == [ps[7]] + ([ps[6]] + ([ps[5]] + ([ps[4]] + ps[..4])))
  {
    assert DatedLikeSample(ps, 5) && DatedLikeSample(ps, 6) && DatedLikeSample(ps, 7);
    NewestFirstSix(ps);
    StableSortStepFront(ps, 6, Newest);
    StableSortStepFront(ps, 7, Newest);
    assert ps[..8] == ps;
  }

  /** The first six posts dated like the sample sort newest first as 6, 5, 1, 2, 3, 4. */
  lemma NewestFirstSix(ps: seq<Post>)
    requires |ps| == 8 && forall k :: 0 <= k < 8 ==> DatedLikeSample(ps, k)
    ensures StableSort(ps[..6], Newest) == [ps[5]] + ([ps[4]] + ps[..4])
  {
    assert DatedLikeSample(ps, 0) && DatedLikeSample(ps, 4) && DatedLikeSample(ps, 5);
    NewestFirstPrefix(ps);
    StableSortStepFront(ps, 4, Newest);
    StableSortStepFront(ps, 5, Newest);
  }

  /** The categories of the sample data, newest first. */
  const NewestFirstSampleCategories: seq<string> := ["JavaScript", "Tutorial", "Web Development",
    "JavaScript", "Next.js", "TypeScript", "React", "Web Development"]

  /** The categories of posts dated and filed like the sample, once arranged newest first. */
  lemma NewestFirstCategoriesOf(ps: seq<Post>)
    requires |ps| == 8 && forall k :: 0 <= k < 8 ==> FiledLikeSample(ps, k)
    ensures CategoriesOf([ps[7]] + ([ps[6]] + ([ps[5]] + ([ps[4]] + ps[..4])))) == NewestFirstSampleCategories
  {
    assert FiledLikeSample(ps, 0) && FiledLikeSample(ps, 1) && FiledLikeSample(ps, 2) && FiledLikeSample(ps, 3);
    assert FiledLikeSample(ps, 4) && FiledLikeSample(ps, 5) && FiledLikeSample(ps, 6) && FiledLikeSample(ps, 7);
  }

  /** The first four newest-first categories reduce to JavaScript, Tutorial, Web Development. */
  lemma NewestFirstDedupeHalf()
    ensures Seqs.Dedupe(NewestFirstSampleCategories[..4]) == ["JavaScript", "Tutorial", "Web Development"]
  {
    Seqs.DedupeSnoc([], "JavaScript");
    assert [] + ["JavaScript"] == ["JavaScript"];
    Seqs.DedupeSnoc(["JavaScript"], "Tutorial");
    Seqs.DedupeSnoc(["JavaScript", "Tutorial"], "Web Development");
    Seqs.DedupeSnoc(["JavaScript", "Tutorial", "Web Development"], "JavaScript");
    assert NewestFirstSampleCategories[..4] == ["JavaScript", "Tutorial", "Web Development"] + ["JavaScript"];
  }

  /** The newest-first categories reduce to JavaScript, Tutorial, Web Development, Next.js, TypeScript, React. */
  lemma NewestFirstDedupe()
    ensures Seqs.Dedupe(NewestFirstSampleCategories)
      == ["JavaScript", "Tutorial", "Web Development", "Next.js", "TypeScript", "React"]
  {
    var c := NewestFirstSampleCategories;
    var d3 := ["JavaScript", "Tutorial", "Web Development"];
    NewestFirstDedupeHalf();
    var c5 := c[..4] + ["Next.js"];
    Seqs.DedupeSnoc(c[..4], "Next.js");
    var d4 := d3 + ["Next.js"];
    assert Seqs.Dedupe(c5) == d4;
    var c6 := c5 + ["TypeScript"];
    Seqs.DedupeSnoc(c5, "TypeScript");
    var d5 := d4 + ["TypeScript"];
    assert Seqs.Dedupe(c6) == d5;
    var c7 := c6 + ["React"];
    Seqs.DedupeSnoc(c6, "React");
    var d6 := d5 + ["React"];
    assert Seqs.Dedupe(c7) == d6;
    Seqs.DedupeSnoc(c7, "Web Development");
    assert c == c7 + ["Web Development"];
  }

  /**
   * After the sample data is sorted newest first, the category list follows
   * that order: JavaScript, Tutorial, Web Development, Next.js, TypeScript, React.
   */
  lemma SampleCategoriesNewestFirst()
    ensures CategoryList(StableSort(MockBlogPosts, Newest))
      == ["All", "JavaScript", "Tutorial", "Web Development", "Next.js", "TypeScript", "React"]
  {
    SampleFields();
    NewestFirstOrder(MockBlogPosts);
    NewestFirstCategoriesOf(MockBlogPosts);
    NewestFirstDedupe();
  }
}
