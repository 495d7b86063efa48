/** The `Pagination` component under every post: it reads the `next` and
    `prev` neighbours the route compiler put in the page context. */
module Pagination {
  import opened Wrappers
  import opened Routes
  import RouteCompiler

  datatype Rel = RelNext | RelPrev

  /** One rendered `<Link>`: its target, its `rel`, the caption above the
      title ("Next" or "Previous") and the neighbour's title. */
  datatype NavLink = NavLink(to: string, rel: Rel, caption: string, title: string)

  /** The rendered container: whether the `paginationFirst` and
      `paginationLast` modifier classes are set, and its links in order. */
  datatype Nav = Nav(first: bool, last: bool, links: seq<NavLink>)

  function LinkTo(n: Neighbour, rel: Rel): NavLink
  {
    NavLink("/" + n.slug, rel, if rel == RelNext then "Next" else "Previous", n.title)
  }

  /** A neighbour object is truthy exactly when it is present; `None` is
      the component returning `null`. */
  function Render(next: Option<Neighbour>, prev: Option<Neighbour>): (r: Option<Nav>)
    ensures r.None? <==> next.None? && prev.None?
    ensures r.Some? ==> (r.value.first <==> next.Some? && prev.None?)
    ensures r.Some? ==> (r.value.last <==> prev.Some? && next.None?)
    ensures r.Some? ==> !(r.value.first && r.value.last)
    ensures r.Some? ==> |r.value.links| == (if next.Some? then 1 else 0) + (if prev.Some? then 1 else 0)
    ensures r.Some? && next.Some? ==>
      r.value.links[0] == NavLink("/" + next.value.slug, RelNext, "Next", next.value.title)
    ensures r.Some? && prev.Some? ==>
      r.value.links[|r.value.links| - 1] == NavLink("/" + prev.value.slug, RelPrev, "Previous", prev.value.title)
  {
    if next.None? && prev.None? then None
    else
      var nextLinks := if next.Some? then [LinkTo(next.value, RelNext)] else [];
      var prevLinks := if prev.Some? then [LinkTo(prev.value, RelPrev)] else [];
      Some(Nav(next.Some? && prev.None?, next.None? && prev.Some?, nextLinks + prevLinks))
  }

  /** The next link, when there is one, comes before the prev link. */
  lemma NextPrecedesPrev(next: Option<Neighbour>, prev: Option<Neighbour>)
    requires Render(next, prev).Some?
    ensures var links := Render(next, prev).value.links;
      forall i, j :: 0 <= i < |links| && 0 <= j < |links| && links[i].rel == RelNext && links[j].rel == RelPrev ==> i < j
  {
  }

  /** End to end: on the page the route compiler built for a post with a
      truthy `next`, pagination renders a "next" link to `/` + that slug,
      titled with the title of the last post carrying that slug. */
  lemma PostPageNextLink(courses: seq<Course>, posts: seq<Post>, siteUrl: string,
                         resolvePageUrl: (string, string) -> string, i: nat)
    requires RouteCompiler.Compile(courses, posts, siteUrl, resolvePageUrl).Success?
    requires i < |posts| && RouteCompiler.Truthy(posts[i].next)
    ensures
      var pages := RouteCompiler.Compile(courses, posts, siteUrl, resolvePageUrl).value;
      var page := pages[|courses| + |RouteCompiler.AllTags(posts)| + i];
      var n := posts[i].next.value;
      && page.context.PostContext?
      && Render(page.context.next, page.context.prev).Some?
      && exists j :: 0 <= j < |posts| && posts[j].slug == n
           && (forall l :: j < l < |posts| ==> posts[l].slug != n)
           && RouteCompiler.Truthy(posts[j].title)
           && Render(page.context.next, page.context.prev).value.links[0]
                == NavLink("/" + n, RelNext, "Next", posts[j].title.value)
  {
    RouteCompiler.ResolvedNextIsLastTitle(courses, posts, siteUrl, resolvePageUrl, i);
  }

  /** The same for `prev`: a "prev" link that closes the link list. */
  lemma PostPagePrevLink(courses: seq<Course>, posts: seq<Post>, siteUrl: string,
                         resolvePageUrl: (string, string) -> string, i: nat)
    requires RouteCompiler.Compile(courses, posts, siteUrl, resolvePageUrl).Success?
    requires i < |posts| && RouteCompiler.Truthy(posts[i].prev)
    ensures
      var pages := RouteCompiler.Compile(courses, posts, siteUrl, resolvePageUrl).value;
      var page := pages[|courses| + |RouteCompiler.AllTags(posts)| + i];
      var n := posts[i].prev.value;
      && page.context.PostContext?
      && Render(page.context.next, page.context.prev).Some?
      && var links := Render(page.context.next, page.context.prev).value.links;
      exists j :: 0 <= j < |posts| && posts[j].slug == n
           && (forall l :: j < l < |posts| ==> posts[l].slug != n)
           && RouteCompiler.Truthy(posts[j].title)
           && links[|links| - 1] == NavLink("/" + n, RelPrev, "Previous", posts[j].title.value)
  {
    RouteCompiler.ResolvedPrevIsLastTitle(courses, posts, siteUrl, resolvePageUrl, i);
  }

  /** A compiled post shows no pagination exactly when neither its `next`
      nor its `prev` frontmatter field is truthy. */
  lemma PostPageHidesPagination(courses: seq<Course>, posts: seq<Post>, siteUrl: string,
                                resolvePageUrl: (string, string) -> string, i: nat)
    requires RouteCompiler.Compile(courses, posts, siteUrl, resolvePageUrl).Success?
    requires i < |posts|
    ensures
      var pages := RouteCompiler.Compile(courses, posts, siteUrl, resolvePageUrl).value;
      var page := pages[|courses| + |RouteCompiler.AllTags(posts)| + i];
      && page.context.PostContext?
      && (Render(page.context.next, page.context.prev).None?
          <==> !RouteCompiler.Truthy(posts[i].next) && !RouteCompiler.Truthy(posts[i].prev))
  {
    RouteCompiler.CompileSpec(courses, posts, siteUrl, resolvePageUrl);
    RouteCompiler.PostPageSpec(RouteCompiler.Titles(posts), siteUrl, posts[i]);
  }
}
