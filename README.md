# Blog post query pipeline, in Dafny

This project models the post query pipeline of a Next.js blog and proves
properties of it. The pipeline runs behind the blog listing page:

- **Pagination arithmetic.** `paginatePosts` counts the pages, clamps the
  requested page and slices it out. `Pagination.Paginate` models it.
- **Sorting.** `sortPosts` copies the posts and sorts the copy stably, by one of
  four keys. `Sorting.SortPosts` models it as an insertion sort on an array,
  proved equal to the specification `Sorting.StableSort`.
- **Fixture helpers.** These work on the shared `mockBlogPosts` array: lookup by
  slug, the featured posts, the posts of a category, search and the tag list.
  `getAllPosts` sorts that shared array in place, so it is a class,
  `Queries.MockStore`, whose field is an `array`.
- **The category list.** `getAllCategories` returns "All" and then the
  distinct categories in order of first occurrence. It is modelled in
  `BlogData`, together with the eight-post fixture.
- **The page-number strip.** `getPageNumbers` builds the strip of the
  pagination bar, and the bar's "Showing a - b of n posts" line goes with it.
  Both are modelled in `PageStrip`.
- **The listing page.**
  - The category filter, then the search filter, then `sortPosts`, then
    `paginatePosts` with six posts per page.
  - The per-category post counts and the URL-parameter updates.
  - The handlers of the four selections: search, category, sort and page.

  `Listing.ListingPage` covers both versions of the page.
  - The database-backed one (`BlogPageContent.tsx`): its search looks at title,
    excerpt and content.
  - The one over the in-memory posts (`page.tsx`): its search also looks at the
    tags. The constant `searchesTags` tells the two apart.

The files, one module each:

| file | module | models |
|---|---|---|
| blog_types.dfy | BlogTypes | `Author`, `BlogPost` (as `Post`), the "All" sentinel |
| text.dfy | Text | `toLowerCase`, `includes`, `trim() == ""`, `toString` of a page number |
| seqs.dfy | Seqs | `filter`, subsequences, `new Set(...)` insertion order (`Dedupe`) |
| pagination.dfy | Pagination | `paginatePosts` |
| sorting.dfy | Sorting | the four comparators, stable sort, `sortPosts` |
| blog_data.dfy | BlogData | `getAllCategories`, the fixture |
| queries.dfy | Queries | `getAllPosts`, `getPostBySlug`, `getFeaturedPosts`, `getPostsByCategory`, `searchPosts`, `getAllTags` |
| page_strip.dfy | PageStrip | `getPageNumbers`, the display range |
| listing.dfy | Listing | the listing pipeline, `postCounts`, `updateURL`, the handlers, `hasActiveFilters` |

Two facts about the code that shape the model:

- With no posts, `paginatePosts` gives `totalPages` 0 and still clamps the
  current page to 1.
- `PaginationInfo` has no `prevPage`, `nextPage`, `startIndex` or `endIndex`
  fields. The pagination bar computes the 1-based display range itself, and it
  is modelled there as `PageStrip.DisplayRange`.

## Model

| member | source | states |
|---|---|---|
| Text.IntString | src/app/blog/BlogPageContent.tsx:225-227 | `page.toString()` is never empty and never "All", so `updateURL` always writes the page parameter |
| Text.LowerIdempotent | src/lib/blog/utils.ts:52-56 | lowercasing an already lowercased string changes nothing |
| Pagination.CeilDiv | src/lib/blog/utils.ts:99 | `Math.ceil(n / d)` is the least page count whose pages hold all n posts |
| Pagination.Slice | src/lib/blog/utils.ts:105 | `slice(start, end)` clamps both bounds to the length: an in-range slice, the tail, or nothing |
| Pagination.Paginate | src/lib/blog/utils.ts:93-117 | `totalPosts` and `postsPerPage` echo the inputs. `totalPages` is the ceiling of n / postsPerPage. `currentPage` lies in [1, max(totalPages, 1)]: it equals the requested page when that is in range, is 1 below the range and max(totalPages, 1) above it. The posts are exactly `posts[(cp-1)*pp .. min(cp*pp, n)]`. `hasNextPage` holds iff cp < totalPages, and `hasPrevPage` iff cp > 1 |
| Pagination.PageSize | src/lib/blog/utils.ts:102-105 | a page holds at most postsPerPage posts, and exactly that many on every page before the last |
| Pagination.EmptyInput | src/lib/blog/utils.ts:98-116 | with no posts: 0 pages, page 1, no posts shown, and both flags false |
| Pagination.InRangePage | src/lib/blog/utils.ts:100-105 | for k in 1..totalPages, page k is the k-th run of postsPerPage posts |
| Pagination.PagesUpToPrefix | src/lib/blog/utils.ts:102-105 | pages 1..k, concatenated, are the first min(k * postsPerPage, n) posts |
| Pagination.PagesReassemble | src/lib/blog/utils.ts:102-105 | pages 1..totalPages, concatenated, give back the input: nothing lost, nothing repeated |
| Pagination.ThirteenPostsPageThree | src/lib/blog/utils.ts:98-116 | 13 posts at 6 per page: page 3 of 3 holds only the last post, with a previous page and no next page |
| Sorting.SortKeyOf | src/lib/blog/utils.ts:127-137 | definition: the four cases of the `switch`, and `None` for the default branch; its use is stated in the row of `Sorting.SortPosts` |
| Sorting.Compare | src/lib/blog/utils.ts:128-135 | definition: the four comparators; their order laws are the rows of `Sorting.CompareTransitive` and `Sorting.CompareStrings*` |
| Sorting.CompareStringsAntisymmetric | src/lib/blog/utils.ts:135 | the title comparator is antisymmetric |
| Sorting.CompareStringsZero | src/lib/blog/utils.ts:135 | the title comparator returns 0 only for equal titles |
| Sorting.CompareStringsTransitive | src/lib/blog/utils.ts:135 | the title comparator is transitive |
| Sorting.CompareTransitive | src/lib/blog/utils.ts:128-135 | each of the four comparators is transitive, so each is a total preorder on posts |
| Sorting.StableSort | src/lib/blog/utils.ts:129-135 | definition: what the stable `sort` returns (also utils.ts:14-16); its properties are in the rows of `Sorting.StableSort*` and `Sorting.SortInPlace` |
| Sorting.StableSortPermutes | src/lib/blog/utils.ts:125-135 | sorting returns a permutation of its input |
| Sorting.StableSortInOrder | src/lib/blog/utils.ts:128-135 | the sorted posts are in comparator order |
| Sorting.StableSortKeyClass | src/lib/blog/utils.ts:128-135 | posts with equal keys keep their input order (the sort is stable) |
| Sorting.StableSortUnique | src/lib/blog/utils.ts:128-135 | every comparator-ordered arrangement that keeps the input order of equal keys is the stable sort, so the result is determined |
| Sorting.NewestReversesOldest | src/lib/blog/utils.ts:128-131 | when no two posts share a `publishedAt`, the "newest" order is exactly the "oldest" order reversed |
| Sorting.SortInPlace | src/lib/blog/utils.ts:129-135 | the in-place `sort` leaves the array holding the stable sort of its old contents |
| Sorting.SortedBy | src/lib/blog/utils.ts:124-139 | definition: what `sortPosts` returns; its properties are in the row of `Sorting.SortPosts` |
| Sorting.SortPosts | src/lib/blog/utils.ts:124-139 | the result is a permutation of the input. An unknown key gives the input order. "newest" gives non-increasing `publishedAt`, "oldest" non-decreasing `publishedAt`, "most-viewed" non-increasing `views`, and "alphabetical" non-decreasing titles. Equal keys keep their order. The caller's posts are a value, so they cannot change |
| BlogData.CategoriesOf | src/lib/data/blogPosts.ts:392 | definition: `posts.map(post => post.category)`; its properties are in the rows of `BlogData.CategoryList*` |
| BlogData.MockBlogPosts | src/lib/data/blogPosts.ts:10-388 | definition: the eight-post fixture; its properties are in the rows of `BlogData.Sample*` and `Queries.SampleLookup` |
| BlogData.CategoryList | src/lib/data/blogPosts.ts:391-394 | definition of `getAllCategories` over the current array; its properties are in the rows of `BlogData.CategoryList*` |
| BlogData.CategoryListContents | src/lib/data/blogPosts.ts:391-394 | the list starts with "All". The entries after it are pairwise distinct, and every post's category is among them. They are categories of posts only |
| BlogData.CategoryListLength | src/lib/data/blogPosts.ts:391-394 | the length is 1 plus the number of distinct categories |
| BlogData.CategoryListOrder | src/lib/data/blogPosts.ts:392-393 | the entries after "All" are in order of first occurrence in the current array order |
| BlogData.CategoryListExtend | src/lib/data/blogPosts.ts:392-393 | one more post appends its category to the list if that category is new, and otherwise changes nothing |
| BlogData.SampleFields | src/lib/data/blogPosts.ts:10-388 | the fixture has 8 posts, with the declared ids, slugs, categories and dates |
| BlogData.SampleKeysDistinct | src/lib/data/blogPosts.ts:10-388 | the 8 fixture posts have distinct ids and distinct slugs |
| BlogData.SampleCategoriesDeclaredOrder | src/lib/data/blogPosts.ts:10-394 | on the fixture in declared order the list is All, Next.js, TypeScript, React, Web Development, JavaScript, Tutorial |
| BlogData.NewestFirstOrder | src/lib/blog/utils.ts:13-17 | posts dated like the fixture sort newest first as posts 8, 7, 6, 5, 1, 2, 3, 4 |
| BlogData.SampleCategoriesNewestFirst | src/app/blog/page.tsx:36-37 | after the newest-first in-place sort the list is All, JavaScript, Tutorial, Web Development, Next.js, TypeScript, React |
| Queries.SlugIndex | src/lib/blog/utils.ts:23-25 | the position where `find` stops: no earlier post has the slug, and the post there has it unless the end was reached |
| Queries.FindBySlug | src/lib/blog/utils.ts:23-25 | nothing is found iff no post has the slug; otherwise what is found is the first post with that slug (the one at `SlugIndex`) |
| Queries.FindBySlugUnique | src/lib/blog/utils.ts:23-25 | when slugs are distinct, looking up a post's slug finds that very post |
| Queries.SampleLookup | src/lib/blog/utils.ts:23-25 | each of the 8 fixture posts is found by its own slug |
| Queries.Featured | src/lib/blog/utils.ts:32 | definition: the `filter` on `featured`; its properties are in the row of `Queries.FeaturedNewestFirst` |
| Queries.InCategory | src/lib/blog/utils.ts:44 | definition: the `filter` on the category name; its properties are in the rows of `Queries.CategoryNewestFirst` and `Listing.ByCategoryKeeps` |
| Queries.FeaturedNewestFirst | src/lib/blog/utils.ts:30-34 | `getFeaturedPosts` returns exactly the featured posts, each as often as in the input, newest first |
| Queries.CategoryNewestFirst | src/lib/blog/utils.ts:43-45 | a category other than "All" gives exactly that category's posts, newest first |
| Queries.SearchMatches | src/lib/blog/utils.ts:53-57 | definition: the test of `searchPosts`; its properties are in the rows of `Queries.Search*` and `Listing.SearchVariants` |
| Queries.Search | src/lib/blog/utils.ts:51-58 | definition of `searchPosts`; its properties are in the rows of `Queries.Search*` |
| Queries.SearchKeepsMatches | src/lib/blog/utils.ts:51-58 | `searchPosts` keeps, in array order, exactly the posts whose lowercased title, excerpt or some tag contains the lowercased query |
| Queries.SearchEmptyQuery | src/lib/blog/utils.ts:51-58 | an empty query keeps every post |
| Queries.SearchIgnoresContent | src/lib/blog/utils.ts:53-57 | changing a post's content never changes whether it matches |
| Queries.SearchCaseInsensitive | src/lib/blog/utils.ts:52 | searching for the lowercased query finds the same posts |
| Queries.TagsOf | src/lib/blog/utils.ts:75 | definition: the `flatMap` of the tags; its properties are in the row of `Queries.TagsOfMembership` |
| Queries.TagsOfMembership | src/lib/blog/utils.ts:75 | the flattened tag list holds exactly the tags of some post |
| Queries.AllTags | src/lib/blog/utils.ts:74-77 | definition of `getAllTags`; its properties are in the row of `Queries.AllTagsContents` |
| Queries.AllTagsContents | src/lib/blog/utils.ts:74-77 | `getAllTags` is repeat-free, holds exactly the tags of some post, and keeps first-occurrence order |
| Queries.MockStore.constructor | src/lib/data/blogPosts.ts:10 | the shared array holds the given posts |
| Queries.MockStore.GetAllPosts | src/lib/blog/utils.ts:13-17 | the shared array itself is reordered to its newest-first stable sort, and that same array is returned |
| Queries.MockStore.GetPostsByCategory | src/lib/blog/utils.ts:39-46 | "All" is `getAllPosts()`: the shared array, sorted in place. Any other category gives a new array with that category's posts newest first, and leaves the shared array unchanged |
| PageStrip.Strip | src/components/blog/Pagination.tsx:25-59 | definition: the strip `getPageNumbers` builds; its properties are in the rows of `PageStrip.GetPageNumbers`, `PageStrip.SmallStrip` and `PageStrip.Strip*` |
| PageStrip.GetPageNumbers | src/components/blog/Pagination.tsx:25-59 | the pushes and the two loops build exactly `Strip(currentPage, totalPages)` |
| PageStrip.SmallStrip | src/components/blog/Pagination.tsx:29-33 | with at most 5 pages the strip is exactly 1, 2, ..., totalPages, and empty when there are no pages |
| PageStrip.StripBounds | src/components/blog/Pagination.tsx:26-59 | the strip never has more than 7 entries. Past 5 pages its first entry is page 1 and its last is totalPages |
| PageStrip.StripMarkers | src/components/blog/Pagination.tsx:36-56 | past 5 pages, with the current page in range, a leading "..." appears iff currentPage > 3, and a trailing one iff currentPage < totalPages - 2 |
| PageStrip.StripSpaced | src/components/blog/Pagination.tsx:36-56 | with the current page in range, the page numbers strictly increase. Neighbouring numbers are consecutive, and a "..." sits between two numbers exactly when they are not consecutive |
| PageStrip.StripShows | src/components/blog/Pagination.tsx:36-56 | with the current page in range, a page is shown iff it is in 1..totalPages and either there are at most 5 pages, or it is page 1, the last page, or within one of the current page. So the current page is always shown |
| PageStrip.DisplayRange | src/components/blog/Pagination.tsx:68-69 | definition: the first and last post number of the "Showing" line; its properties are in the rows of `PageStrip.DisplayRange*` |
| PageStrip.DisplayRangeOfPage | src/components/blog/Pagination.tsx:68-69 | for a page of a non-empty list, 1 <= start <= end <= n, and posts start..end are exactly the posts on the page |
| PageStrip.DisplayRangeEmpty | src/components/blog/Pagination.tsx:68-69 | with no posts the range computes to (1, 0); the listing pages render the bar only when there is more than one page, so this line is never shown |
| Listing.ByCategory | src/app/blog/BlogPageContent.tsx:139-143 | definition of the category filter (also page.tsx:67-69); its properties are in the rows of `Listing.ByCategoryKeeps`, `Listing.FiltersCommute` and `Listing.FiltersIdempotent` |
| Listing.ListingMatches | src/app/blog/page.tsx:72-81 | definition of the search test, with the tag clause of page.tsx:79 switched by `searchesTags`; its properties are in the rows of `Listing.BySearchKeeps` and `Listing.SearchVariants` |
| Listing.BySearch | src/app/blog/BlogPageContent.tsx:147-155 | definition of the search filter; its properties are in the rows of `Listing.BySearchKeeps`, `Listing.FiltersCommute` and `Listing.FiltersIdempotent` |
| Listing.ByCategoryKeeps | src/app/blog/BlogPageContent.tsx:139-143 | "All" keeps every post. Any other category keeps exactly the posts filed under it, as an order-preserving subsequence |
| Listing.BySearchKeeps | src/app/blog/BlogPageContent.tsx:147-155 | a whitespace-only query filters nothing. Any other query keeps exactly the posts whose lowercased title, excerpt or content contains the lowercased, untrimmed query (on the in-memory page also a tag), in order |
| Listing.Listed | src/app/blog/BlogPageContent.tsx:135-155 | definition: the category filter, then the search filter; its properties are in the rows of `Listing.ListedKeeps` and `Listing.ListingPage.ComputePage` |
| Listing.ListedKeeps | src/app/blog/BlogPageContent.tsx:135-155 | the filtered posts are an order-preserving subsequence of the input: exactly the posts passing both filters |
| Listing.FiltersCommute | src/app/blog/BlogPageContent.tsx:135-155 | the category and search filters can be applied in either order |
| Listing.FiltersIdempotent | src/app/blog/BlogPageContent.tsx:135-155 | applying either filter a second time changes nothing |
| Listing.SearchVariants | src/app/blog/page.tsx:72-81 | the in-memory page's search matches iff `searchPosts` does or the content matches. The database-backed page's search matches only posts the in-memory one matches |
| Listing.CountIn | src/app/blog/BlogPageContent.tsx:186-189 | definition: the number of posts filed under a category; its properties are in the rows of `Listing.CountInPositive`, `Listing.PostCounts` and `Listing.CategoryCountsSum` |
| Listing.CountInPositive | src/app/blog/BlogPageContent.tsx:186-189 | a category has a positive count iff some post is filed under it |
| Listing.PostCounts | src/app/blog/BlogPageContent.tsx:180-192 | "All" maps to the number of posts, plus any posts filed under a category named "All". Every other name is a key iff some post has that category, and it maps to that category's post count |
| Listing.CategoryCountsSum | src/app/blog/BlogPageContent.tsx:180-192 | the counts of the categories in the category list add up to the number of posts. When no category is named "All", that number is also the "All" count |
| Listing.KeepsParam | src/app/blog/BlogPageContent.tsx:104 | definition: the test `value && value !== "All"`; its properties are in the rows of `Listing.UpdatesEffect` and `Listing.SearchForAllNotKept` |
| Listing.ApplyUpdate | src/app/blog/BlogPageContent.tsx:104-110 | definition: one step of the `forEach`; its properties are in the rows of `Listing.UpdateUrl` and `Listing.UpdatesEffect` |
| Listing.UpdateUrl | src/app/blog/BlogPageContent.tsx:98-111 | the loop applies the updates in order: it sets non-empty values other than "All" and deletes the rest |
| Listing.UpdatesEffect | src/app/blog/BlogPageContent.tsx:103-111 | with each key updated once: an updated key is present iff its value is non-empty and not "All", and then it holds that value. Keys not being updated are untouched |
| Listing.SearchForAllNotKept | src/app/blog/BlogPageContent.tsx:201-205 | a search for the text "All" leaves no search parameter in the URL |
| Listing.ParamOr | src/app/blog/BlogPageContent.tsx:73-81 | definition: the parameter's value when it is present and non-empty, otherwise the fallback; its use is stated in the row of `Listing.ListingPage.constructor` |
| Listing.ListingPage.constructor | src/app/blog/BlogPageContent.tsx:73-86 | the selections are read from the URL, with "", "All" and "newest" for missing or empty parameters, so the page starts in agreement with its URL |
| Listing.ListingPage.ComputePage | src/app/blog/BlogPageContent.tsx:133-170 | the shown page is `paginatePosts(sortPosts(filtered, sortBy), currentPage, 6)`, and `totalPosts` counts the filtered posts. At most 6 posts are shown, each from the input, in the selected category and matching a non-blank query |
| Listing.ListingPage.HandleSearch | src/app/blog/BlogPageContent.tsx:201-205 | sets the query and page 1, keeps the category and sort, and updates the URL. The page parameter then matches, and the URL still restores the selections unless the query is "All" |
| Listing.ListingPage.HandleCategoryChange | src/app/blog/BlogPageContent.tsx:209-213 | sets the category and page 1, keeps the search and sort, and updates the URL. The URL still restores the selections for any non-empty category |
| Listing.ListingPage.HandleSortChange | src/app/blog/BlogPageContent.tsx:217-221 | sets the sort and page 1, keeps the search and category, and updates the URL. The URL still restores the selections for any sort option |
| Listing.ListingPage.HandlePageChange | src/app/blog/BlogPageContent.tsx:225-230 | only the page changes, the URL's page parameter is that page written out, and the other selections are still restored by the URL |
| Listing.ListingPage.HasActiveFilters | src/app/blog/BlogPageContent.tsx:243-244 | definition of `hasActiveFilters`; its property is in the row of `Listing.ListingPage.ClearFilters` |
| Listing.ListingPage.ClearFilters | src/app/blog/BlogPageContent.tsx:234-244 | restores "", "All", "newest" and page 1 with the bare URL, after which `hasActiveFilters` is false |
| Listing.LoadMockListing | src/app/blog/page.tsx:36-37 | the in-memory page sorts the shared array newest first, lists the sorted posts, and builds the category list from the sorted order. Its search, category and sort come from the URL ("", "All" and "newest" when missing or empty), so it starts in agreement with its URL |

## Left out

- The database layer (`src/lib/blog/database.ts`) and the seed script (`prisma/seed.ts`) are foreign I/O through Prisma. The server pages that fetch from them are left out for the same reason.
- Rendering is not modelled. This covers the JSX of every page and component, and the prev/next buttons of the pagination bar, which only call `onPageChange`.
- React and browser runtime effects are not modelled: `useMemo` caching, `useTransition`, `router.push`, `window.scrollTo`. The URL the page shows is a field, `url`, that the handlers update. It stands for the URL after `router.push` has taken effect, and `clearFilters` empties it because it navigates to `/blog`.
- Listing.ListingPage.constructor: `parseInt` of the page parameter, including `NaN`, is not modelled. The caller passes the page as an integer.
- Dates are integer millisecond timestamps. Date parsing and `formatDate` (`Intl.DateTimeFormat`) are locale formatting and are not modelled.
- Sorting.CompareStrings: `localeCompare` is replaced by comparison by Unicode code point. That comparison is a total order, and the proofs rely only on its order laws. It differs from `localeCompare`: it puts every upper-case letter before every lower-case one ("Banana" before "apple"), and it does not follow UTF-16 code-unit order for characters beyond U+FFFF.
- Text.Lower: `toLowerCase` lowercases ASCII letters only.
- Text.IsBlank: `trim()` recognises the common white-space characters, not every Unicode space separator.
- Pagination.Paginate: `postsPerPage` must be positive. Every caller passes 6.
- Listing.ListingPage: the sort option is kept as the raw URL string, because the cast to `SortOption` is unchecked. An unknown value sorts nothing, as `sortPosts`' default branch does.
- Listing.UpdateUrl: `URLSearchParams` is a map from keys to single values. Repeated keys and the order of parameters in the query string are not modelled.
- Listing.PostCounts: category names inherited from `Object.prototype` are not modelled. `counts` is a plain object literal, so on the database-backed page a category named "constructor", "toString" or "valueOf" starts from the inherited function and gets a string as its count, and one named "__proto__" gets no key. The model counts every name as an ordinary key. The in-memory page's categories include none of these names.
- The database-backed page reads `post.category.name`. The model stores the category as its name.
- A post's `slug` and `readTime` are stored data. The code has no slug generator and no read-time estimator, so neither is modelled.
- BlogData.Sample: the fixture keeps each post's id, slug, title, category, tags, date, read time, views and featured flag. Its excerpt, content, cover image, author avatar and author bio are empty strings. No property proved about the fixture depends on them.
- The store's read-only helpers `GetPostBySlug`, `GetFeaturedPosts`, `SearchPosts`, `GetAllTags` and `GetAllCategories` apply the functions listed above to the array's current contents. Their properties are the rows of those functions.
- The stored `views` and `readTime` values are data. The view increment is a database update and is not modelled.
