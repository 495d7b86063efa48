/** The tag listing shared by `src/pages/blog/index.js`, `src/pages/tag.js`
    and `src/pages/tag.tsx`: every post's tags are concatenated into
    `rawTags`, reduced to `tags` (first occurrences, sorted), and one entry
    is rendered per tag. */
module TagIndex {
  import opened Wrappers
  import opened Strings
  import opened Seqs
  import opened StringSort
  import SiteConfig

  /** What can be thrown while rendering a listing. */
  datatype IndexError =
    | EmptyReduce                    // `reduce` of an empty array with no initial value
    | UndefinedVariable(name: string) // reading an identifier that was never bound

  /** `posts.map(edge => edge.node.frontmatter.tags)
             .reduce((prev, curr) => prev.concat(curr))` */
  function RawTags(tagLists: seq<seq<string>>): (r: Result<seq<string>, IndexError>)
    ensures r.Failure? <==> |tagLists| == 0
    ensures r.Failure? ==> r.error == EmptyReduce
    ensures r.Success? ==> r.value == Flatten(tagLists)
  {
    if |tagLists| == 0 then Failure(EmptyReduce)
    else
      ReduceConcatIsFlatten(tagLists[0], tagLists[1..]);
      Success(ReduceConcat(tagLists[0], tagLists[1..]))
  }

  /** `rawTags.filter((tag, index) => index === rawTags.indexOf(tag)).sort()` */
  function DistinctSorted(raw: seq<string>): (r: seq<string>)
    ensures NoDup(r)
    ensures Elems(r) == Elems(raw)
    ensures forall i, j :: 0 <= i < j < |r| ==> Below(r[i], r[j])
  {
    var d := KeepFirst(raw);
    SortDistinct(d);
    assert Elems(Sort(d)) == Elems(d) by {
      forall x ensures x in Elems(Sort(d)) <==> x in Elems(d) {
        assert x in Sort(d) <==> x in multiset(Sort(d));
        assert x in d <==> x in multiset(d);
      }
    }
    Sort(d)
  }

  /** `tags` is the only strictly ascending list of the distinct raw tags. */
  lemma DistinctSortedUnique(raw: seq<string>, t: seq<string>)
    requires Elems(t) == Elems(raw)
    requires forall i, j :: 0 <= i < j < |t| ==> Below(t[i], t[j])
    ensures t == DistinctSorted(raw)
  {
    var r := DistinctSorted(raw);
    StrictIsSortedDistinct(t);
    StrictIsSortedDistinct(r);
    NoDupMultiplicity(t);
    NoDupMultiplicity(r);
    forall x ensures multiset(t)[x] == multiset(r)[x] {
      assert x in t <==> x in Elems(t);
      assert x in r <==> x in Elems(r);
    }
    assert multiset(t) == multiset(r);
    SortedUnique(t, r);
  }

  lemma StrictIsSortedDistinct(t: seq<string>)
    requires forall i, j :: 0 <= i < j < |t| ==> Below(t[i], t[j])
    ensures Sorted(t) && NoDup(t)
  {
    forall i, j | 0 <= i < j < |t| ensures t[i] != t[j] {
      BelowIrreflexive(t[i]);
    }
  }

  /** One rendered tag card: its tag, its link target and the number shown
      in its `<label>` (rendered as "<count> Posts"). */
  datatype TagCard = TagCard(tag: string, to: string, count: nat)

  /** `tags.map(tag => ...)` for the card pages: one card per tag, counting
      `rawTags.filter(sTag => sTag === tag).length`. */
  function CardsOf(tags: seq<string>, raw: seq<string>, linkOf: string -> string): (r: seq<TagCard>)
    ensures |r| == |tags|
    ensures forall i :: 0 <= i < |tags| ==> r[i].tag == tags[i] && r[i].to == linkOf(tags[i])
    ensures forall i :: 0 <= i < |tags| ==> r[i].count == Occurrences(raw, tags[i])
  {
    if |tags| == 0 then []
    else [TagCard(tags[0], linkOf(tags[0]), Occurrences(raw, tags[0]))] + CardsOf(tags[1..], raw, linkOf)
  }

  /** The sum of the numbers shown on the cards. */
  function TotalCount(cards: seq<TagCard>): nat
  {
    if |cards| == 0 then 0 else cards[0].count + TotalCount(cards[1..])
  }

  lemma {:induction false} TotalCountOfCards(tags: seq<string>, raw: seq<string>, linkOf: string -> string)
    ensures TotalCount(CardsOf(tags, raw, linkOf)) == SumOccurrences(tags, raw)
  {
    if |tags| > 0 {
      TotalCountOfCards(tags[1..], raw, linkOf);
    }
  }

  /** The cards of a listing: exactly one per distinct tag, in ascending
      order, each counting its tag's occurrences; the counts add up to the
      number of raw tags. */
  lemma CardsSpec(raw: seq<string>, linkOf: string -> string)
    ensures var cards := CardsOf(DistinctSorted(raw), raw, linkOf);
      && (forall t :: t in raw <==> exists i :: 0 <= i < |cards| && cards[i].tag == t)
      && (forall i, j :: 0 <= i < j < |cards| ==> Below(cards[i].tag, cards[j].tag))
      && (forall i :: 0 <= i < |cards| ==> cards[i].count == multiset(raw)[cards[i].tag])
      && TotalCount(cards) == |raw|
  {
    var tags := DistinctSorted(raw);
    var cards := CardsOf(tags, raw, linkOf);
    forall t ensures t in raw <==> exists i :: 0 <= i < |cards| && cards[i].tag == t {
      assert t in raw <==> t in Elems(raw);
      assert t in tags <==> t in Elems(tags);
      if t in tags {
        var i :| 0 <= i < |tags| && tags[i] == t;
        assert cards[i].tag == t;
      }
    }
    forall i | 0 <= i < |cards| ensures cards[i].count == multiset(raw)[cards[i].tag] {
      OccurrencesIsMultiplicity(raw, tags[i]);
    }
    TotalCountOfCards(tags, raw, linkOf);
    forall x | x in raw ensures x in tags {
      assert x in Elems(raw);
    }
    SumOccurrencesIsLength(tags, raw);
  }

  // ----------------------------------------------------- src/pages/blog/index.js

  /** The cards of the blog index page, linking to `/${resolvePageUrl(tagPage, tag)}`. */
  function BlogIndexCards(tagLists: seq<seq<string>>, resolvePageUrl: (string, string) -> string)
    : Result<seq<TagCard>, IndexError>
  {
    match RawTags(tagLists)
    case Failure(e) => Failure(e)
    case Success(raw) =>
      Success(CardsOf(DistinctSorted(raw), raw, (tag: string) => "/" + resolvePageUrl(SiteConfig.TagPage, tag)))
  }

  lemma BlogIndexCardsSpec(tagLists: seq<seq<string>>, resolvePageUrl: (string, string) -> string)
    ensures BlogIndexCards(tagLists, resolvePageUrl) == Failure(EmptyReduce) <==> |tagLists| == 0
    ensures BlogIndexCards(tagLists, resolvePageUrl).Success? ==>
      var cards := BlogIndexCards(tagLists, resolvePageUrl).value;
      var raw := Flatten(tagLists);
      && (forall t :: t in raw <==> exists i :: 0 <= i < |cards| && cards[i].tag == t)
      && (forall i, j :: 0 <= i < j < |cards| ==> Below(cards[i].tag, cards[j].tag))
      && (forall i :: 0 <= i < |cards| ==> cards[i].to == "/" + resolvePageUrl(SiteConfig.TagPage, cards[i].tag))
      && (forall i :: 0 <= i < |cards| ==> cards[i].count == multiset(raw)[cards[i].tag])
      && TotalCount(cards) == |raw|
  {
    if |tagLists| > 0 {
      CardsSpec(Flatten(tagLists), (tag: string) => "/" + resolvePageUrl(SiteConfig.TagPage, tag));
    }
  }

  // ------------------------------------------------------------ src/pages/tag.js

  /** The cards of the JavaScript tag page, linking to `resolvePageUrl(tagPage, tag)`. */
  function TagJsCards(tagLists: seq<seq<string>>, resolvePageUrl: (string, string) -> string)
    : Result<seq<TagCard>, IndexError>
  {
    match RawTags(tagLists)
    case Failure(e) => Failure(e)
    case Success(raw) =>
      Success(CardsOf(DistinctSorted(raw), raw, (tag: string) => resolvePageUrl(SiteConfig.TagPage, tag)))
  }

  lemma TagJsCardsSpec(tagLists: seq<seq<string>>, resolvePageUrl: (string, string) -> string)
    ensures TagJsCards(tagLists, resolvePageUrl) == Failure(EmptyReduce) <==> |tagLists| == 0
    ensures TagJsCards(tagLists, resolvePageUrl).Success? ==>
      var cards := TagJsCards(tagLists, resolvePageUrl).value;
      var raw := Flatten(tagLists);
      && (forall t :: t in raw <==> exists i :: 0 <= i < |cards| && cards[i].tag == t)
      && (forall i, j :: 0 <= i < j < |cards| ==> Below(cards[i].tag, cards[j].tag))
      && (forall i :: 0 <= i < |cards| ==> cards[i].to == resolvePageUrl(SiteConfig.TagPage, cards[i].tag))
      && (forall i :: 0 <= i < |cards| ==> cards[i].count == multiset(raw)[cards[i].tag])
      && TotalCount(cards) == |raw|
  {
    if |tagLists| > 0 {
      CardsSpec(Flatten(tagLists), (tag: string) => resolvePageUrl(SiteConfig.TagPage, tag));
    }
  }

  // ----------------------------------------------------------- src/pages/tag.tsx

  /** One `<Link>` of the TypeScript tag page. */
  datatype TagLink = TagLink(tag: string, to: string)

  function LinksOf(tags: seq<string>, resolvePageUrl: (string, string) -> string): (r: seq<TagLink>)
    ensures |r| == |tags|
    ensures forall i :: 0 <= i < |tags| ==> r[i] == TagLink(tags[i], resolvePageUrl(SiteConfig.TagPage, tags[i]))
  {
    if |tags| == 0 then []
    else [TagLink(tags[0], resolvePageUrl(SiteConfig.TagPage, tags[0]))] + LinksOf(tags[1..], resolvePageUrl)
  }

  /** The page as written: each `<Link>` reads `style.card`, but the import
      that would bind `style` is commented out, so rendering the first link
      throws. */
  function TagTsxLinksAsWritten(tagLists: seq<seq<string>>, resolvePageUrl: (string, string) -> string)
    : Result<seq<TagLink>, IndexError>
  {
    match RawTags(tagLists)
    case Failure(e) => Failure(e)
    case Success(raw) =>
      if |DistinctSorted(raw)| == 0 then Success([]) else Failure(UndefinedVariable("style"))
  }

  /** Any post with a tag makes the page as written throw. */
  lemma TagTsxAsWrittenThrows(tagLists: seq<seq<string>>, resolvePageUrl: (string, string) -> string)
    requires |Flatten(tagLists)| > 0
    ensures TagTsxLinksAsWritten(tagLists, resolvePageUrl) == Failure(UndefinedVariable("style"))
  {
    var raw := Flatten(tagLists);
    assert raw[0] in Elems(raw);
    assert |tagLists| > 0;
  }

  /** The page as intended: one link per tag. */
  function TagTsxLinks(tagLists: seq<seq<string>>, resolvePageUrl: (string, string) -> string)
    : Result<seq<TagLink>, IndexError>
  {
    match RawTags(tagLists)
    case Failure(e) => Failure(e)
    case Success(raw) => Success(LinksOf(DistinctSorted(raw), resolvePageUrl))
  }

  lemma TagTsxLinksSpec(tagLists: seq<seq<string>>, resolvePageUrl: (string, string) -> string)
    ensures TagTsxLinks(tagLists, resolvePageUrl) == Failure(EmptyReduce) <==> |tagLists| == 0
    ensures TagTsxLinks(tagLists, resolvePageUrl).Success? ==>
      var links := TagTsxLinks(tagLists, resolvePageUrl).value;
      var raw := Flatten(tagLists);
      && (forall t :: t in raw <==> exists i :: 0 <= i < |links| && links[i].tag == t)
      && (forall i, j :: 0 <= i < j < |links| ==> Below(links[i].tag, links[j].tag))
      && (forall i :: 0 <= i < |links| ==> links[i].to == resolvePageUrl(SiteConfig.TagPage, links[i].tag))
  {
    if |tagLists| > 0 {
      var raw := Flatten(tagLists);
      var tags := DistinctSorted(raw);
      var links := LinksOf(tags, resolvePageUrl);
      forall t ensures t in raw <==> exists i :: 0 <= i < |links| && links[i].tag == t {
        assert t in raw <==> t in Elems(raw);
        assert t in tags <==> t in Elems(tags);
        if t in tags {
          var i :| 0 <= i < |tags| && tags[i] == t;
          assert links[i].tag == t;
        }
      }
    }
  }
}
