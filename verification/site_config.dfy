/** The static settings of `config.js` that the route logic reads. */
module SiteConfig {

  /** `siteUrl` of `config.js`. */
  const SiteUrl: string := "https://www.james-willett.com"

  /** `pages.tag`: the first argument of every tag-page URL. */
  const TagPage: string := "tag"

  /** `pages.courses`: the section the course pages belong to. */
  const CoursesPage: string := "courses"

  /** `pages.blog`. */
  const BlogPage: string := "blog"
}
