/** The records the route compiler reads and the page descriptors it hands
    to `actions.createPage`. */
module Routes {
  import opened Wrappers

  /** A node of `allCourseDetailsJson`: only its slug is queried. */
  datatype Course = Course(slug: string)

  /** A node of `allMarkdownRemark`: the queried frontmatter fields and the
      file the post was read from. Fields that a Markdown file may leave out
      are optional. */
  datatype Post = Post(
    slug: string,
    title: Option<string>,
    category: Option<string>,
    next: Option<string>,
    prev: Option<string>,
    tags: seq<string>,
    fileAbsolutePath: string)

  /** The rendering component a page is registered with. */
  datatype Template =
    | CourseTemplate  // src/templates/course/course-template.js
    | TagTemplate     // src/templates/tag.js
    | PostTemplate    // src/templates/post/post-template.js

  /** A resolved neighbour link, `{slug, canonical, title}`. */
  datatype Neighbour = Neighbour(slug: string, canonical: string, title: string)

  /** The `context` object passed to the component; `None` stands for a
      field left `undefined`. */
  datatype Context =
    | CourseContext(slug: string)
    | TagContext(tag: string)
    | PostContext(
        slug: string,
        canonical: string,
        category: Option<string>,
        next: Option<Neighbour>,
        prev: Option<Neighbour>)

  /** One `actions.createPage` call. */
  datatype Page = Page(path: string, template: Template, context: Context)

  datatype Direction = Next | Prev

  /** The `Error` thrown for a `next`/`prev` slug without a title. */
  datatype BuildError = MissingNeighbour(direction: Direction, target: string, referrer: string)

  /** The effect of running the page-creation hook: the pages registered, in
      call order, and the error that stopped it, if one did. */
  datatype Run = Run(created: seq<Page>, failure: Option<BuildError>)
}
