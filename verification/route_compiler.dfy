/** The build-time page-creation hook: course pages, tag pages, the slug to
    title table, and post pages with their resolved neighbours. */
module RouteCompiler {
  import opened Wrappers
  import opened Strings
  import opened Seqs
  import SiteConfig
  import opened Routes

  /** JavaScript truthiness of a string field that may be missing: `undefined`,
      `null` and `""` are all falsy. */
  predicate Truthy(v: Option<string>)
  {
    v.Some? && v.value != ""
  }

  /** The full URL of a slug, `${siteUrl}/${slug}`. */
  function Canonical(siteUrl: string, slug: string): string
  {
    siteUrl + "/" + slug
  }

  // ---------------------------------------------------------------- courses

  /** One page per course, in input order, under the hard-coded `courses/`
      prefix, which is the configured `pages.courses` section. */
  function CoursePages(courses: seq<Course>): (r: seq<Page>)
    ensures |r| == |courses|
    ensures forall i :: 0 <= i < |courses| ==>
      r[i] == Page(SiteConfig.CoursesPage + "/" + courses[i].slug, CourseTemplate, CourseContext(courses[i].slug))
  {
    if |courses| == 0 then []
    else [Page("courses/" + courses[0].slug, CourseTemplate, CourseContext(courses[0].slug))] + CoursePages(courses[1..])
  }

  /** Two course pages share a path exactly when their courses share a slug. */
  lemma CoursePathsCollide(courses: seq<Course>, i: nat, j: nat)
    requires i < |courses| && j < |courses|
    ensures CoursePages(courses)[i].path == CoursePages(courses)[j].path <==> courses[i].slug == courses[j].slug
  {
    var prefix := SiteConfig.CoursesPage + "/";
    var r := CoursePages(courses);
    assert r[i].path == prefix + courses[i].slug;
    assert r[j].path == prefix + courses[j].slug;
    if r[i].path == r[j].path {
      PrefixCancels(prefix, courses[i].slug, courses[j].slug);
    }
  }

  lemma PrefixCancels(p: string, a: string, b: string)
    requires p + a == p + b
    ensures a == b
  {
    assert a == (p + a)[|p|..];
    assert b == (p + b)[|p|..];
  }

  // ------------------------------------------------------------------- tags

  /** `fileAbsolutePath.match(/index\.md$/)` */
  predicate IsIndexFile(p: Post)
  {
    EndsWith(p.fileAbsolutePath, "index.md")
  }

  /** `defaultPosts`: the posts read from an `index.md`, in order. */
  function IndexPosts(posts: seq<Post>): (r: seq<Post>)
    ensures forall k :: 0 <= k < |r| ==> IsIndexFile(r[k]) && r[k] in posts
    ensures forall k :: 0 <= k < |posts| && IsIndexFile(posts[k]) ==> posts[k] in r
  {
    if |posts| == 0 then []
    else if IsIndexFile(posts[0]) then [posts[0]] + IndexPosts(posts[1..])
    else IndexPosts(posts[1..])
  }

  /** The nested `forEach` over `defaultPosts` and their tags, pushing each
      tag not yet in `allTags`. */
  function CollectTags(allTags: seq<string>, defaultPosts: seq<Post>): seq<string>
    decreases |defaultPosts|
  {
    if |defaultPosts| == 0 then allTags
    else CollectTags(AppendDistinct(allTags, defaultPosts[0].tags), defaultPosts[1..])
  }

  /** `allTags` as computed by the hook. */
  function AllTags(posts: seq<Post>): seq<string>
  {
    CollectTags([], IndexPosts(posts))
  }

  /** Reference definition: the tags of the `index.md` posts, one after the
      other, in post order. */
  function IndexTagStream(posts: seq<Post>): seq<string>
  {
    if |posts| == 0 then []
    else (if IsIndexFile(posts[0]) then posts[0].tags else []) + IndexTagStream(posts[1..])
  }

  /** Every post's tags, one after the other. */
  function TagStream(posts: seq<Post>): seq<string>
  {
    if |posts| == 0 then [] else posts[0].tags + TagStream(posts[1..])
  }

  lemma {:induction false} CollectTagsIsAppendDistinct(acc: seq<string>, ps: seq<Post>)
    ensures CollectTags(acc, ps) == AppendDistinct(acc, TagStream(ps))
    decreases |ps|
  {
    if |ps| > 0 {
      CollectTagsIsAppendDistinct(AppendDistinct(acc, ps[0].tags), ps[1..]);
      AppendDistinctConcat(acc, ps[0].tags, TagStream(ps[1..]));
    }
  }

  lemma {:induction false} IndexPostsTagStream(posts: seq<Post>)
    ensures TagStream(IndexPosts(posts)) == IndexTagStream(posts)
  {
    if |posts| > 0 {
      IndexPostsTagStream(posts[1..]);
      if IsIndexFile(posts[0]) {
        assert ([posts[0]] + IndexPosts(posts[1..]))[1..] == IndexPosts(posts[1..]);
      }
    }
  }

  lemma {:induction false} IndexTagStreamMembership(posts: seq<Post>, t: string)
    ensures t in IndexTagStream(posts) <==>
      exists k :: 0 <= k < |posts| && IsIndexFile(posts[k]) && t in posts[k].tags
  {
    if |posts| > 0 {
      IndexTagStreamMembership(posts[1..], t);
      if t in IndexTagStream(posts[1..]) {
        var k :| 0 <= k < |posts[1..]| && IsIndexFile(posts[1..][k]) && t in posts[1..][k].tags;
        assert posts[k + 1] == posts[1..][k];
      }
      forall k | 1 <= k < |posts| && IsIndexFile(posts[k]) && t in posts[k].tags
        ensures t in IndexTagStream(posts[1..])
      {
        assert posts[1..][k - 1] == posts[k];
      }
    }
  }

  /** `allTags` holds each tag of an `index.md` post exactly once, nothing
      else, in the order the tags are first met. */
  lemma AllTagsSpec(posts: seq<Post>)
    ensures AllTags(posts) == KeepFirst(IndexTagStream(posts))
    ensures NoDup(AllTags(posts))
    ensures forall t :: t in AllTags(posts) <==>
      exists k :: 0 <= k < |posts| && IsIndexFile(posts[k]) && t in posts[k].tags
    ensures forall k, l :: 0 <= k < l < |AllTags(posts)| ==>
      IndexOf(IndexTagStream(posts), AllTags(posts)[k]) < IndexOf(IndexTagStream(posts), AllTags(posts)[l])
  {
    var stream := IndexTagStream(posts);
    CollectTagsIsAppendDistinct([], IndexPosts(posts));
    IndexPostsTagStream(posts);
    AppendDistinctIsKeepFirst(stream);
    var all := AllTags(posts);
    forall t ensures t in all <==> exists k :: 0 <= k < |posts| && IsIndexFile(posts[k]) && t in posts[k].tags {
      IndexTagStreamMembership(posts, t);
      assert t in all <==> t in Elems(all);
      assert t in stream <==> t in Elems(stream);
    }
  }

  /** One page per tag, in `allTags` order, at `resolvePageUrl(pages.tag, tag)`. */
  function TagPages(allTags: seq<string>, resolvePageUrl: (string, string) -> string): (r: seq<Page>)
    ensures |r| == |allTags|
    ensures forall i :: 0 <= i < |allTags| ==>
      r[i] == Page(resolvePageUrl(SiteConfig.TagPage, allTags[i]), TagTemplate, TagContext(allTags[i]))
  {
    if |allTags| == 0 then []
    else
      var page := Page(resolvePageUrl(SiteConfig.TagPage, allTags[0]), TagTemplate, TagContext(allTags[0]));
      [page] + TagPages(allTags[1..], resolvePageUrl)
  }

  /** Tag pages never collide, provided `resolvePageUrl` keeps distinct tags
      apart in the tag section. */
  lemma TagPathsDistinct(posts: seq<Post>, resolvePageUrl: (string, string) -> string)
    requires forall a, b :: a != b ==> resolvePageUrl(SiteConfig.TagPage, a) != resolvePageUrl(SiteConfig.TagPage, b)
    ensures forall i, j :: 0 <= i < j < |AllTags(posts)| ==>
      TagPages(AllTags(posts), resolvePageUrl)[i].path != TagPages(AllTags(posts), resolvePageUrl)[j].path
  {
    AllTagsSpec(posts);
  }

  // ----------------------------------------------------------------- titles

  /** The `reduce` that fills `titles`, one assignment per post. */
  function TitlesFrom(titles: map<string, Option<string>>, posts: seq<Post>): map<string, Option<string>>
    decreases |posts|
  {
    if |posts| == 0 then titles
    else TitlesFrom(titles[posts[0].slug := posts[0].title], posts[1..])
  }

  /** `titles`: every post's slug mapped to its title. */
  function Titles(posts: seq<Post>): map<string, Option<string>>
  {
    TitlesFrom(map[], posts)
  }

  lemma {:induction false} TitlesFromSnoc(m: map<string, Option<string>>, posts: seq<Post>, p: Post)
    ensures TitlesFrom(m, posts + [p]) == TitlesFrom(m, posts)[p.slug := p.title]
    decreases |posts|
  {
    if |posts| > 0 {
      assert (posts + [p])[1..] == posts[1..] + [p];
      TitlesFromSnoc(m[posts[0].slug := posts[0].title], posts[1..], p);
    }
  }

  /** Last write wins: a slug is in `titles` exactly when some post carries
      it, and then maps to the title of the last post carrying it. */
  lemma {:induction false} TitlesLastWriteWins(posts: seq<Post>, s: string)
    ensures s in Titles(posts) <==> exists i :: 0 <= i < |posts| && posts[i].slug == s
    ensures s in Titles(posts) ==>
      exists i :: 0 <= i < |posts| && posts[i].slug == s
        && Titles(posts)[s] == posts[i].title
        && forall j :: i < j < |posts| ==> posts[j].slug != s
    decreases |posts|
  {
    if |posts| > 0 {
      var n := |posts| - 1;
      var init := posts[..n];
      assert posts == init + [posts[n]];
      TitlesFromSnoc(map[], init, posts[n]);
      TitlesLastWriteWins(init, s);
      if posts[n].slug != s {
        if s in Titles(posts) {
          var i :| 0 <= i < |init| && init[i].slug == s && Titles(init)[s] == init[i].title
            && forall j :: i < j < |init| ==> init[j].slug != s;
          assert posts[i] == init[i];
          assert forall j :: i < j < |posts| ==> posts[j].slug != s by {
            forall j | i < j < |posts| ensures posts[j].slug != s {
              if j < n { assert posts[j] == init[j]; }
            }
          }
        }
        forall i | 0 <= i < |posts| && posts[i].slug == s ensures s in Titles(init) {
          assert i < n && init[i] == posts[i];
        }
      }
    }
  }

  // ------------------------------------------------------------------ posts

  /** `titles[slug]` when it is truthy. */
  function Resolve(titles: map<string, Option<string>>, slug: string): Option<string>
  {
    if slug in titles && Truthy(titles[slug]) then Some(titles[slug].value) else None
  }

  /** A `next`/`prev` field passes the hook's check: it is falsy, or it
      names a slug whose title is truthy. */
  predicate LinkOk(titles: map<string, Option<string>>, link: Option<string>)
  {
    !Truthy(link) || Resolve(titles, link.value).Some?
  }

  predicate PostOk(titles: map<string, Option<string>>, p: Post)
  {
    LinkOk(titles, p.next) && LinkOk(titles, p.prev)
  }

  /** `nextPost`/`prevPost`: `undefined` for a falsy field, otherwise the
      neighbour object. */
  function NeighbourOf(titles: map<string, Option<string>>, siteUrl: string, link: Option<string>): Option<Neighbour>
    requires LinkOk(titles, link)
  {
    if Truthy(link) then
      Some(Neighbour(link.value, Canonical(siteUrl, link.value), Resolve(titles, link.value).value))
    else None
  }

  /** The body of the per-post `forEach`: `next` is checked, then `prev`,
      then the page is built. */
  function PostPage(titles: map<string, Option<string>>, siteUrl: string, p: Post): (r: Result<Page, BuildError>)
    ensures r.Success? <==> PostOk(titles, p)
  {
    if !LinkOk(titles, p.next) then Failure(MissingNeighbour(Next, p.next.value, p.slug))
    else if !LinkOk(titles, p.prev) then Failure(MissingNeighbour(Prev, p.prev.value, p.slug))
    else
      Success(Page(p.slug, PostTemplate,
        PostContext(p.slug, Canonical(siteUrl, p.slug), p.category,
          NeighbourOf(titles, siteUrl, p.next), NeighbourOf(titles, siteUrl, p.prev))))
  }

  /** What one post yields: an error naming the dangling slug and the post
      (`next` reported first), or its page at its slug with its canonical
      URL, its category, and each truthy neighbour resolved through
      `titles` while a falsy one stays undefined. */
  lemma PostPageSpec(titles: map<string, Option<string>>, siteUrl: string, p: Post)
    ensures var r := PostPage(titles, siteUrl, p);
      && (!LinkOk(titles, p.next) ==> r == Failure(MissingNeighbour(Next, p.next.value, p.slug)))
      && (LinkOk(titles, p.next) && !LinkOk(titles, p.prev) ==> r == Failure(MissingNeighbour(Prev, p.prev.value, p.slug)))
      && (r.Failure? ==>
            && Truthy(if r.error.direction == Next then p.next else p.prev)
            && (r.error.target !in titles || !Truthy(titles[r.error.target])))
    ensures var r := PostPage(titles, siteUrl, p);
      r.Success? ==>
        && r.value.path == p.slug
        && r.value.template == PostTemplate
        && r.value.context.PostContext?
        && r.value.context.slug == p.slug
        && r.value.context.canonical == siteUrl + "/" + p.slug
        && r.value.context.category == p.category
        && (r.value.context.next.Some? <==> Truthy(p.next))
        && (r.value.context.prev.Some? <==> Truthy(p.prev))
    ensures var r := PostPage(titles, siteUrl, p);
      r.Success? && Truthy(p.next) ==>
        && p.next.value in titles && Truthy(titles[p.next.value])
        && r.value.context.next.value == Neighbour(p.next.value, siteUrl + "/" + p.next.value, titles[p.next.value].value)
    ensures var r := PostPage(titles, siteUrl, p);
      r.Success? && Truthy(p.prev) ==>
        && p.prev.value in titles && Truthy(titles[p.prev.value])
        && r.value.context.prev.value == Neighbour(p.prev.value, siteUrl + "/" + p.prev.value, titles[p.prev.value].value)
  {
  }

  /** The per-post `forEach`: pages are created one by one until a post
      throws. */
  function PostPages(titles: map<string, Option<string>>, siteUrl: string, posts: seq<Post>): (r: Run)
    ensures r.failure.None? <==> forall i :: 0 <= i < |posts| ==> PostOk(titles, posts[i])
    ensures |r.created| <= |posts|
    ensures forall i :: 0 <= i < |r.created| ==> PostPage(titles, siteUrl, posts[i]) == Success(r.created[i])
    ensures r.failure.None? ==> |r.created| == |posts|
    ensures r.failure.Some? ==>
      && |r.created| < |posts|
      && PostPage(titles, siteUrl, posts[|r.created|]) == Failure(r.failure.value)
  {
    if |posts| == 0 then Run([], None)
    else match PostPage(titles, siteUrl, posts[0])
      case Failure(e) => Run([], Some(e))
      case Success(page) =>
        var rest := PostPages(titles, siteUrl, posts[1..]);
        assert forall i :: 1 <= i < |posts| ==> posts[i] == posts[1..][i - 1];
        Run([page] + rest.created, rest.failure)
  }

  // ------------------------------------------------------------- whole hook

  /** Running the hook: course pages, then tag pages, then post pages, with
      the post pass possibly stopping at a thrown error. */
  function CreatePages(courses: seq<Course>, posts: seq<Post>, siteUrl: string,
                       resolvePageUrl: (string, string) -> string): Run
  {
    var fixed := CoursePages(courses) + TagPages(AllTags(posts), resolvePageUrl);
    var postRun := PostPages(Titles(posts), siteUrl, posts);
    Run(fixed + postRun.created, postRun.failure)
  }

  /** The build's verdict: every created page, or the error that failed it. */
  function Compile(courses: seq<Course>, posts: seq<Post>, siteUrl: string,
                   resolvePageUrl: (string, string) -> string): Result<seq<Page>, BuildError>
  {
    var run := CreatePages(courses, posts, siteUrl, resolvePageUrl);
    if run.failure.None? then Success(run.created) else Failure(run.failure.value)
  }

  /** The build's shape: course pages, then tag pages, then post pages, and
      it fails exactly when some post has a dangling `next` or `prev`. */
  lemma CompileSpec(courses: seq<Course>, posts: seq<Post>, siteUrl: string,
                    resolvePageUrl: (string, string) -> string)
    ensures Compile(courses, posts, siteUrl, resolvePageUrl).Success?
      <==> forall i :: 0 <= i < |posts| ==> PostOk(Titles(posts), posts[i])
    ensures Compile(courses, posts, siteUrl, resolvePageUrl).Success? ==>
      var pages := Compile(courses, posts, siteUrl, resolvePageUrl).value;
      var nc, nt := |courses|, |AllTags(posts)|;
      && |pages| == nc + nt + |posts|
      && pages[..nc] == CoursePages(courses)
      && pages[nc..nc + nt] == TagPages(AllTags(posts), resolvePageUrl)
      && forall i :: 0 <= i < |posts| ==>
           PostPage(Titles(posts), siteUrl, posts[i]) == Success(pages[nc + nt + i])
  {
    var fixed := CoursePages(courses) + TagPages(AllTags(posts), resolvePageUrl);
    var postRun := PostPages(Titles(posts), siteUrl, posts);
    var all := fixed + postRun.created;
    assert all[..|courses|] == CoursePages(courses);
    assert all[|courses|..|fixed|] == TagPages(AllTags(posts), resolvePageUrl);
    assert forall i :: 0 <= i < |postRun.created| ==> all[|fixed| + i] == postRun.created[i];
  }

  /** A failed build names the first post whose link does not resolve, after
      every earlier post's page has been created; `next` is reported before
      `prev` for that post. */
  lemma CompileFailure(courses: seq<Course>, posts: seq<Post>, siteUrl: string,
                       resolvePageUrl: (string, string) -> string)
    requires Compile(courses, posts, siteUrl, resolvePageUrl).Failure?
    ensures
      var run := CreatePages(courses, posts, siteUrl, resolvePageUrl);
      var e := Compile(courses, posts, siteUrl, resolvePageUrl).error;
      var k := |run.created| - |courses| - |AllTags(posts)|;
      && 0 <= k < |posts|
      && (forall i :: 0 <= i < k ==> PostOk(Titles(posts), posts[i]))
      && !PostOk(Titles(posts), posts[k])
      && e.referrer == posts[k].slug
      && (e.direction == Next <==> !LinkOk(Titles(posts), posts[k].next))
      && e.target == (if e.direction == Next then posts[k].next else posts[k].prev).value
  {
    var postRun := PostPages(Titles(posts), siteUrl, posts);
    var k := |postRun.created|;
    forall i | 0 <= i < k ensures PostOk(Titles(posts), posts[i]) {
      assert PostPage(Titles(posts), siteUrl, posts[i]).Success?;
    }
    PostPageSpec(Titles(posts), siteUrl, posts[k]);
  }

  /** Neighbour resolution in terms of the posts themselves: in a successful
      build, a post's truthy `next` names a post, the last post with that
      slug has a non-empty title, and the page's `next` is that slug, its
      canonical URL and that title. */
  lemma ResolvedNextIsLastTitle(courses: seq<Course>, posts: seq<Post>, siteUrl: string,
                                resolvePageUrl: (string, string) -> string, i: nat)
    requires Compile(courses, posts, siteUrl, resolvePageUrl).Success?
    requires i < |posts| && Truthy(posts[i].next)
    ensures
      var n := posts[i].next.value;
      var pages := Compile(courses, posts, siteUrl, resolvePageUrl).value;
      var page := pages[|courses| + |AllTags(posts)| + i];
      exists j :: 0 <= j < |posts| && posts[j].slug == n
        && (forall l :: j < l < |posts| ==> posts[l].slug != n)
        && Truthy(posts[j].title)
        && page.context.PostContext?
        && page.context.next == Some(Neighbour(n, siteUrl + "/" + n, posts[j].title.value))
  {
    CompileSpec(courses, posts, siteUrl, resolvePageUrl);
    PostPageSpec(Titles(posts), siteUrl, posts[i]);
    TitlesLastWriteWins(posts, posts[i].next.value);
  }

  /** The same for `prev`. */
  lemma ResolvedPrevIsLastTitle(courses: seq<Course>, posts: seq<Post>, siteUrl: string,
                                resolvePageUrl: (string, string) -> string, i: nat)
    requires Compile(courses, posts, siteUrl, resolvePageUrl).Success?
    requires i < |posts| && Truthy(posts[i].prev)
    ensures
      var n := posts[i].prev.value;
      var pages := Compile(courses, posts, siteUrl, resolvePageUrl).value;
      var page := pages[|courses| + |AllTags(posts)| + i];
      exists j :: 0 <= j < |posts| && posts[j].slug == n
        && (forall l :: j < l < |posts| ==> posts[l].slug != n)
        && Truthy(posts[j].title)
        && page.context.PostContext?
        && page.context.prev == Some(Neighbour(n, siteUrl + "/" + n, posts[j].title.value))
  {
    CompileSpec(courses, posts, siteUrl, resolvePageUrl);
    PostPageSpec(Titles(posts), siteUrl, posts[i]);
    TitlesLastWriteWins(posts, posts[i].prev.value);
  }

  /** A dangling link in terms of the posts: the build fails whenever some
      post's truthy `next` names a slug no post carries. */
  lemma DanglingNextFails(courses: seq<Course>, posts: seq<Post>, siteUrl: string,
                          resolvePageUrl: (string, string) -> string, i: nat)
    requires i < |posts| && Truthy(posts[i].next)
    requires forall j :: 0 <= j < |posts| ==> posts[j].slug != posts[i].next.value
    ensures Compile(courses, posts, siteUrl, resolvePageUrl).Failure?
  {
    TitlesLastWriteWins(posts, posts[i].next.value);
    assert !PostOk(Titles(posts), posts[i]);
    CompileSpec(courses, posts, siteUrl, resolvePageUrl);
  }

  // ----------------------------------------------------------------- errors

  /** The text of the thrown `Error`. */
  function ErrorMessage(e: BuildError): string
  {
    "Could not find " + (if e.direction == Next then "next" else "prev")
      + " article with slug " + e.target + " for article " + e.referrer + "."
  }

  /** The message names both the missing slug and the post that refers to it. */
  lemma ErrorMessageNamesBoth(e: BuildError)
    ensures Contains(ErrorMessage(e), e.target)
    ensures Contains(ErrorMessage(e), e.referrer)
  {
    var msg := ErrorMessage(e);
    var head := "Could not find " + (if e.direction == Next then "next" else "prev") + " article with slug ";
    var mid := " for article ";
    assert msg == head + e.target + mid + e.referrer + ".";
    assert OccursAt(msg, e.target, |head|);
    var k := |head| + |e.target| + |mid|;
    assert OccursAt(msg, e.referrer, k);
  }

  // -------------------------------------------------------------- scenarios

  /** A post linking forward to a titled post gets that post's slug,
      canonical URL and title as its `next`. */
  lemma ScenarioNextResolves(siteUrl: string)
    ensures
      var a := Post("a", Some("Post A"), None, Some("b"), None, [], "content/a/index.md");
      var b := Post("b", Some("Post B"), None, None, None, [], "content/b/index.md");
      var r := PostPages(Titles([a, b]), siteUrl, [a, b]);
      && r.failure.None?
      && r.created[0].context.next == Some(Neighbour("b", siteUrl + "/b", "Post B"))
  {
    var a := Post("a", Some("Post A"), None, Some("b"), None, [], "content/a/index.md");
    var b := Post("b", Some("Post B"), None, None, None, [], "content/b/index.md");
    assert [a, b][1..] == [b] && [b][1..] == [];
    var m1 := map["a" := Some("Post A")];
    var m2 := m1["b" := Some("Post B")];
    assert TitlesFrom(m2, []) == m2;
    assert TitlesFrom(m1, [b]) == m2;
    assert Titles([a, b]) == m2;
    assert Resolve(m2, "b") == Some("Post B");
    assert a.next.value == "b";
    assert Canonical(siteUrl, "b") == siteUrl + "/b" by {
      assert "/" + "b" == "/b";
    }
    assert NeighbourOf(m2, siteUrl, a.next) == Some(Neighbour("b", siteUrl + "/b", "Post B"));
    assert PostPages(Titles([a, b]), siteUrl, [a, b]).created[0] == PostPage(Titles([a, b]), siteUrl, a).value;
  }

  /** A post linking forward to a slug no post has fails the build with an
      error naming both slugs. */
  lemma ScenarioMissingFails(courses: seq<Course>, siteUrl: string, resolvePageUrl: (string, string) -> string)
    ensures
      var a := Post("a", Some("Post A"), None, Some("missing"), None, [], "content/a/index.md");
      Compile(courses, [a], siteUrl, resolvePageUrl) == Failure(MissingNeighbour(Next, "missing", "a"))
  {
    var a := Post("a", Some("Post A"), None, Some("missing"), None, [], "content/a/index.md");
    TitlesLastWriteWins([a], "missing");
  }

  /** Tags ["x", "y"] and ["y", "z"] give exactly the tag pages x, y, z. */
  lemma ScenarioThreeTags()
    ensures
      var p1 := Post("p1", None, None, None, None, ["x", "y"], "content/p1/index.md");
      var p2 := Post("p2", None, None, None, None, ["y", "z"], "content/p2/index.md");
      AllTags([p1, p2]) == ["x", "y", "z"]
  {
    var p1 := Post("p1", None, None, None, None, ["x", "y"], "content/p1/index.md");
    var p2 := Post("p2", None, None, None, None, ["y", "z"], "content/p2/index.md");
    assert IsIndexFile(p1) && IsIndexFile(p2);
    assert [p1, p2][1..] == [p2] && [p2][1..] == [];
    assert IndexPosts([p2]) == [p2];
    assert IndexPosts([p1, p2]) == [p1, p2];
  }
}
