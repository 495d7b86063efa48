# Route compiler of a static blog, modelled in Dafny

This project models the build-time logic of a Gatsby blog. That logic turns
the loaded Markdown posts and course records into page registrations. It
also models the small pure computations on the pages that list tags and on
the component that links a post to its neighbours.

- **Page-creation hook** (`gatsby/create-pages.js`), module `RouteCompiler`:
  - one course page per course at `courses/<slug>`;
  - one tag page per distinct tag of the posts read from an `index.md` file,
    in first-seen order;
  - a slug→title table where the last write wins;
  - one post page per post. The page carries the canonical URL and the
    resolved `next`/`prev` neighbours. A dangling neighbour throws and stops
    the build, after the earlier pages have already been created.

  `CreatePages` returns a `Run`: the pages registered in call order and the
  error, if one was thrown. `Compile` turns this into a `Result`.
- **Tag listings** (`src/pages/blog/index.js`, `src/pages/tag.js`,
  `src/pages/tag.tsx`), module `TagIndex`. All three pages share one
  computation:
  - `rawTags` is every post's tags concatenated by a `reduce` with no initial
    value, so an empty post list throws;
  - `tags` is the first occurrences of `rawTags`, sorted;
  - the page shows one card or link per tag. A card also shows how many
    times its tag occurs.
- **Pagination** (`src/components/pagination/pagination.js`), module
  `Pagination`. It decides whether anything renders and which of the
  "first"/"last" modifiers apply. It also decides which links appear and in
  what order.

Supporting modules:

- `Seqs` holds `indexOf`, the two duplicate-removal idioms (proved equal),
  flattening and occurrence counts.
- `Strings` holds the suffix test and the character-code string order.
- `StringSort` holds the default `sort()` of strings. Its uniqueness lemma
  means the model does not depend on which sorting algorithm the engine uses.
- `SiteConfig` holds the constants of `config.js`.
- `Routes` holds the data model.

`utils.resolvePageUrl` lives in `src/utils/utils`, which is not part of this
model. It is a function-typed parameter, so no behaviour is assumed for it.
The one lemma that needs a property of it (`TagPathsDistinct`) states that
property, injectivity in the tag argument, as a precondition. The site URL is
a parameter too, because the hook reads it from the site metadata.

The code does not reject two pages registered at one path, and neither does
the model. `CoursePathsCollide` and `TagPathsDistinct` say when paths collide.
The course prefix is hard-coded as `courses/` in the hook. `CoursePages`
proves that it equals the configured `pages.courses` section plus `/`.

## Model

| member | source | states |
|---|---|---|
| Seqs.IndexOf | gatsby/create-pages.js:63 | `indexOf` returns -1 exactly when the element is absent, and otherwise the first index holding it |
| Seqs.OccurrencesIsMultiplicity | src/pages/blog/index.js:43-45 | `filter(sTag => sTag === tag).length` is the multiplicity of the tag in `rawTags` |
| Seqs.ReduceConcatIsFlatten | src/pages/blog/index.js:11-13 | the left `reduce` with `concat` is the in-order concatenation of all tag lists |
| Seqs.KeepFirst | src/pages/blog/index.js:14-15 | the `filter` with `index === indexOf(tag)` is duplicate-free, has exactly the elements of its input, and keeps them in order of first occurrence |
| Seqs.AppendDistinctIsKeepFirst | gatsby/create-pages.js:60-65 | pushing each element when `indexOf` is -1 gives the same list as the `filter`/`indexOf` idiom |
| Seqs.SumOccurrencesIsLength | src/pages/blog/index.js:43-45 | over a duplicate-free list covering every raw tag, the per-tag counts add up to the number of raw tags |
| StringSort.Sort | src/pages/blog/index.js:15 | the result is in ascending string order and is a permutation of the input |
| StringSort.SortedUnique | src/pages/blog/index.js:15 | two ascending permutations of the same strings are equal, so the result does not depend on the sorting algorithm |
| StringSort.SortDistinct | src/pages/tag.js:13-15 | sorting a duplicate-free list gives a strictly ascending, duplicate-free list |
| RouteCompiler.CoursePages | gatsby/create-pages.js:41-52 | exactly one course page per course, in input order, at the configured courses section plus `/` plus the slug, with context `{slug}` |
| RouteCompiler.CoursePathsCollide | gatsby/create-pages.js:43 | two course pages share a path exactly when their courses share a slug |
| RouteCompiler.IndexPosts | gatsby/create-pages.js:55-58 | `defaultPosts` keeps every post whose path ends in `index.md` and nothing else |
| RouteCompiler.AllTagsSpec | gatsby/create-pages.js:55-65 | `allTags` has no duplicates, holds a tag exactly when some `index.md` post has it, and lists tags in the order they are first met |
| RouteCompiler.TagPages | gatsby/create-pages.js:67-75 | exactly one tag page per `allTags` entry, in order, at `resolvePageUrl(pages.tag, tag)` with context `{tag}` |
| RouteCompiler.TagPathsDistinct | gatsby/create-pages.js:67-75 | if `resolvePageUrl` is injective in the tag, no two tag pages collide |
| RouteCompiler.TitlesLastWriteWins | gatsby/create-pages.js:77-80 | a slug is in `titles` exactly when some post (of any file) has it, and it maps to the title of the last such post |
| RouteCompiler.PostPage | gatsby/create-pages.js:82-129 | one post yields a page exactly when both its `next` and `prev` are falsy or have a truthy title |
| RouteCompiler.PostPageSpec | gatsby/create-pages.js:86-129 | the error names the dangling slug and the post, with `next` reported first; a page sits at the slug with canonical `siteUrl/slug` and the category; a truthy neighbour resolves to `{slug, canonical, title}` and a falsy one stays undefined |
| RouteCompiler.PostPages | gatsby/create-pages.js:82-130 | pages are created in post order until the first failing post; the run fails exactly when some post fails, and then holds precisely the pages of the posts before it |
| RouteCompiler.CompileSpec | gatsby/create-pages.js:40-130 | the build succeeds exactly when every post's links resolve, and then yields the course pages, the tag pages and one page per post, in that order |
| RouteCompiler.CompileFailure | gatsby/create-pages.js:88-114 | a failed build reports the first bad post, every earlier post is sound, and the error is about `next` exactly when `next` is the broken link |
| RouteCompiler.ResolvedNextIsLastTitle | gatsby/create-pages.js:88-100 | in a successful build, a post's page has `next` equal to the target slug, its canonical URL and the non-empty title of the last post with that slug |
| RouteCompiler.ResolvedPrevIsLastTitle | gatsby/create-pages.js:102-114 | the same for `prev` |
| RouteCompiler.DanglingNextFails | gatsby/create-pages.js:89-94 | a truthy `next` naming a slug no post has fails the build |
| RouteCompiler.ErrorMessageNamesBoth | gatsby/create-pages.js:91-93 | the thrown message contains both the missing slug and the referring post's slug |
| RouteCompiler.ScenarioNextResolves | gatsby/create-pages.js:95-99 | post `a` with `next: b` gets `{slug: b, canonical: siteUrl/b, title: "Post B"}` |
| RouteCompiler.ScenarioMissingFails | gatsby/create-pages.js:89-94 | post `a` with `next: missing` fails the build with an error about `missing` and `a` |
| RouteCompiler.ScenarioThreeTags | gatsby/create-pages.js:60-65 | tags `[x, y]` and `[y, z]` give exactly the tags `x, y, z` |
| TagIndex.RawTags | src/pages/blog/index.js:11-13 | `rawTags` fails exactly on an empty post list and is otherwise the concatenation of all tag lists |
| TagIndex.DistinctSorted | src/pages/blog/index.js:14-16 | `tags` is duplicate-free, has exactly the elements of `rawTags` and is strictly ascending |
| TagIndex.DistinctSortedUnique | src/pages/tag.tsx:46-48 | any strictly ascending list with the elements of `rawTags` is `tags` |
| TagIndex.CardsOf | src/pages/blog/index.js:26-48 | one card per tag in `tags` order, each with its link and its count of occurrences in `rawTags` |
| TagIndex.CardsSpec | src/pages/tag.js:28-47 | exactly one card per distinct tag, in ascending order, each showing its multiplicity, and the counts add up to the number of raw tags |
| TagIndex.BlogIndexCardsSpec | src/pages/blog/index.js:11-48 | the blog index fails exactly on no posts; otherwise one card per distinct tag, ascending, linking to `/` + `resolvePageUrl(tag)`, with counts summing to the number of raw tags |
| TagIndex.TagJsCardsSpec | src/pages/tag.js:10-47 | the same for the tag page, whose links are `resolvePageUrl(tag)` without a leading `/` |
| TagIndex.LinksOf | src/pages/tag.tsx:61-69 | one link per tag, in `tags` order, to `resolvePageUrl(pages.tag, tag)` |
| TagIndex.TagTsxLinksSpec | src/pages/tag.tsx:43-69 | the intended TypeScript tag page fails exactly on no posts and otherwise renders one link per distinct tag, ascending |
| TagIndex.TagTsxAsWrittenThrows | src/pages/tag.tsx:61-69 | as written, the page throws on an unbound `style` whenever any post has a tag |
| Pagination.Render | src/components/pagination/pagination.js:9-47 | nothing renders exactly when both neighbours are absent; "first" applies exactly when only `next` is present and "last" exactly when only `prev` is; the next link comes first and the prev link comes last, with their targets, rels and titles |
| Pagination.NextPrecedesPrev | src/components/pagination/pagination.js:21-45 | the next link always precedes the prev link |
| Pagination.PostPageNextLink | src/components/pagination/pagination.js:21-32 | on a compiled post page with a truthy `next`, the first link goes to `/` + that slug and shows the last title written for it |
| Pagination.PostPagePrevLink | src/components/pagination/pagination.js:34-45 | on a compiled post page with a truthy `prev`, the last link goes to `/` + that slug and shows the last title written for it |
| Pagination.PostPageHidesPagination | src/components/pagination/pagination.js:10-12 | a compiled post page renders no pagination exactly when neither its `next` nor its `prev` is truthy |

## Left out

- The GraphQL queries and the `actions.createPage` calls (`gatsby/create-pages.js:7-38`) are framework I/O. Inputs are sequences and the calls are the returned list of pages.
- `resolvePageUrl`, `resolveUrl` and `capitalize` live in `src/utils/utils`, which is not part of this model. `resolvePageUrl` is a parameter with no assumed behaviour.
- RouteCompiler.PostPage: `titles` is modelled as a map holding only the posts' slugs. In JavaScript it is a plain object, so a `next` such as `constructor` finds an inherited `Object.prototype` member, which is truthy. That case is not modelled.
- StringSort.Sort: strings are compared by Unicode code point. JavaScript compares UTF-16 code units, which orders characters above U+FFFF differently from those in U+E000..U+FFFF.
- Frontmatter values of the wrong type are not modelled (a `null` tag list, a non-string slug or title). Slugs and tags are strings; title, category, `next` and `prev` may be missing.
- TagIndex.CardsOf: the label's decimal rendering of the count ("N Posts") is left out; the count is kept as a number.
- The tag cards' image lookup and the `Config.tags[tag]` name and description lookup are left out. Both depend on image data and on the tag registry, and the lookups throw for unknown tags.
- React rendering, CSS class names, icons, `console.log`, SEO/Helmet, layout, Disqus and the page templates are left out. Pagination's modifier classes are booleans and its links are records.
- The configuration other than the page sections and the site URL is left out, as are `gatsby-config.js` plugins, typography, the social icons and the commented-out cookie consent component.

## Findings

| source | as written | input that shows it | evidently intended | confidence | as-written member | corrected member |
|---|---|---|---|---|---|---|
| src/pages/tag.tsx:64 | every `<Link>` reads `style.card`, but the import of `style` (line 7) is commented out, so the identifier is unbound and rendering the first link throws | any post list in which some post has a tag, e.g. one post tagged `scala` | one link per distinct tag, as `src/pages/tag.js` renders | medium, not executed | TagIndex.TagTsxAsWrittenThrows | TagIndex.TagTsxLinksSpec |

## Notes

The canonical URL is `${siteUrl}/${slug}`, with `siteUrl` taken from the site metadata. `gatsby-config.js:5` sets that URL with a trailing `/`, so the canonical URLs built there contain `//` before the slug. `config.js:2` has no trailing slash. The model keeps the site URL a parameter and builds the URL exactly as the code does.
