/** The records the blog works on (src/types/blog.types.ts). */
module BlogTypes {

  datatype Option<+T> = None | Some(value: T)

  /** The author embedded in every post. */
  datatype Author = Author(id: string, name: string, avatar: string, bio: string)

  /**
   * A blog post. `publishedAt` is the publication instant in milliseconds
   * (what `Date.getTime()` returns); `category` is the category's name, which
   * the mock data stores directly and the database-backed page reads as
   * `post.category.name`.
   */
  datatype Post = Post(
    id: string,
    slug: string,
    title: string,
    excerpt: string,
    content: string,
    coverImage: string,
    author: Author,
    category: string,
    tags: seq<string>,
    publishedAt: int,
    readTime: int,
    views: int,
    featured: bool)

  /** The category sentinel that stands for "no category filter". */
  const AllCategories: string := "All"
}
