/** Structure discovery for one fetched page: the two-stage cascade that
    looks for repeated content blocks, followed by link harvesting and
    pagination detection, which run whatever the cascade found. */
module Analysis {
  import opened Wrappers
  import opened Text
  import opened Dom

  /** Stage 2 looks for `div`s whose class mentions one of these. */
  const ContainerKeywords: seq<string> := ["post", "item", "entry", "content", "documento"]
  /** The heading tags searched for a sample title. */
  const HeadingTags: seq<string> := ["h1", "h2", "h3", "h4"]
  /** Marker of a PDF link, matched against the lower-cased href. */
  const PdfMarker: string := ".pdf"
  /** The site's host name; an internal link mentions it. */
  const SiteHost: string := "supereduc.cl"
  /** Internal links that mention any of these are skipped. */
  const SkipMarkers: seq<string> := ["wp-content", "wp-admin", "categoria-normativa"]
  /** A pagination block has a class mentioning this. */
  const PaginationMarker: string := "pag"

  /** The class filter `lambda x: x and any(k in str(x).lower() for k in keywords)`:
      an absent class never matches. The attribute is kept as one string;
      no keyword contains white space, so matching the whole string is the
      same as matching its space-separated tokens one by one. */
  predicate ClassMentions(cls: Option<string>, keywords: seq<string>) {
    cls.Some? && ContainsAny(Lower(cls.value), keywords)
  }

  predicate IsArticle(n: Node) {
    n.tag == "article"
  }

  predicate IsHeading(n: Node) {
    n.tag in HeadingTags
  }

  /** `find_all('a', href=True)`: an anchor carrying an href, even an empty one. */
  predicate IsHrefAnchor(n: Node) {
    n.tag == "a" && n.href.Some?
  }

  predicate IsContainer(n: Node) {
    n.tag == "div" && ClassMentions(n.cls, ContainerKeywords)
  }

  predicate IsPagination(n: Node) {
    (n.tag == "nav" || n.tag == "div") && ClassMentions(n.cls, [PaginationMarker])
  }

  /** `a.get('href', '')`. */
  function HrefOf(n: Node): string {
    n.href.GetOr("")
  }

  /** The PDF test is case-insensitive. */
  predicate IsPdfLink(n: Node) {
    Contains(Lower(HrefOf(n)), PdfMarker)
  }

  /** The internal-link test is case-sensitive. */
  predicate IsInternalLink(n: Node) {
    Contains(HrefOf(n), SiteHost) && !ContainsAny(HrefOf(n), SkipMarkers)
  }

  /** What the cascade found. `Articles` records the number of `article`
      elements, the first one, the first heading inside it and the href of
      the first linking anchor inside it. `Containers` records the number of
      keyword-classed `div`s, which may be zero. */
  datatype Stage =
    | Articles(count: nat, first: Node, sampleTitle: Option<Node>, sampleLink: Option<string>)
    | Containers(count: nat)

  /** The structural report of one page. */
  datatype Report = Report(
    stage: Stage,
    allLinks: seq<Node>,
    pdfLinks: seq<Node>,
    internalLinks: seq<Node>,
    paginationCount: nat)
  {
    predicate PaginationDetected() {
      paginationCount > 0
    }
  }

  /** Some descendant of `doc` satisfies `p`. */
  ghost predicate Present(doc: Node, p: Node -> bool) {
    exists i :: 0 <= i < |Descendants(doc)| && p(Descendants(doc)[i])
  }

  /** Strategy 1, or strategy 2 when the document has no `article`. */
  function Cascade(doc: Node): (r: Stage)
    ensures r.Articles? <==> Present(doc, IsArticle)
    ensures r.Articles? ==> r.count >= 1 && r.count == CountIn(doc.children, IsArticle)
    ensures r.Articles? ==>
      exists j :: IsFirstMatch(Descendants(doc), IsArticle, j) && Descendants(doc)[j] == r.first
    ensures r.Articles? ==>
      (r.sampleTitle.None? <==> !Present(r.first, IsHeading))
    ensures r.Articles? && r.sampleTitle.Some? ==>
      exists j :: IsFirstMatch(Descendants(r.first), IsHeading, j)
               && Descendants(r.first)[j] == r.sampleTitle.value
    ensures r.Articles? ==>
      (r.sampleLink.None? <==> !Present(r.first, IsHrefAnchor))
    ensures r.Articles? && r.sampleLink.Some? ==>
      exists j :: IsFirstMatch(Descendants(r.first), IsHrefAnchor, j)
               && Descendants(r.first)[j].href == r.sampleLink
    ensures r.Containers? ==> r.count == CountIn(doc.children, IsContainer)
    ensures r.Containers? ==> (r.count == 0 <==> !Present(doc, IsContainer))
  {
    var articles := FindAll(doc, IsArticle);
    FindAllAgreesWithCountAndFind(doc, IsArticle);
    if |articles| > 0 then
      var first := articles[0];
      var title := Find(first, IsHeading);
      var link := Find(first, IsHrefAnchor);
      assert IsArticle(articles[0]);
      assert first in Descendants(doc);
      Articles(|articles|, first, title, if link.Some? then link.value.href else None)
    else
      var containers := FindAll(doc, IsContainer);
      FindAllAgreesWithCountAndFind(doc, IsContainer);
      assert |containers| == 0 <==> !Present(doc, IsContainer) by {
        if |containers| > 0 {
          assert containers[0] in containers;
        }
      }
      Containers(|containers|)
  }

  /** `explore_page_structure` once the page is parsed, without its output. */
  function Analyze(doc: Node): (r: Report)
    ensures r.stage == Cascade(doc)
    ensures forall x :: x in r.allLinks <==> x in Descendants(doc) && IsHrefAnchor(x)
    ensures IsSubseq(r.allLinks, Descendants(doc))
    ensures |r.allLinks| == CountIn(doc.children, IsHrefAnchor)
    ensures forall x :: x in r.pdfLinks <==> x in r.allLinks && IsPdfLink(x)
    ensures IsSubseq(r.pdfLinks, r.allLinks) && |r.pdfLinks| <= |r.allLinks|
    ensures forall x :: x in r.internalLinks <==> x in r.allLinks && IsInternalLink(x)
    ensures IsSubseq(r.internalLinks, r.allLinks) && |r.internalLinks| <= |r.allLinks|
    ensures r.paginationCount == CountIn(doc.children, IsPagination)
    ensures r.PaginationDetected() <==> Present(doc, IsPagination)
  {
    var allLinks := FindAll(doc, IsHrefAnchor);
    var pagination := FindAll(doc, IsPagination);
    assert |pagination| > 0 <==> Present(doc, IsPagination) by {
      if |pagination| > 0 {
        assert pagination[0] in pagination;
      }
    }
    Report(
      Cascade(doc),
      allLinks,
      Filter(allLinks, IsPdfLink),
      Filter(allLinks, IsInternalLink),
      |pagination|)
  }

  /** The harvest keeps every occurrence: an anchor that appears several
      times in the document (the same PDF linked from an icon and from a
      title, say) appears as often among all links, and as often again among
      the PDF or internal links when it is one. */
  lemma AnalyzeKeepsEveryLink(doc: Node)
    ensures var r := Analyze(doc);
      forall x :: multiset(r.allLinks)[x] == if IsHrefAnchor(x) then multiset(Descendants(doc))[x] else 0
    ensures var r := Analyze(doc);
      forall x :: multiset(r.pdfLinks)[x] == if IsPdfLink(x) then multiset(r.allLinks)[x] else 0
    ensures var r := Analyze(doc);
      forall x :: multiset(r.internalLinks)[x] == if IsInternalLink(x) then multiset(r.allLinks)[x] else 0
  {
    var links := FindAll(doc, IsHrefAnchor);
    FilterKeepsEveryOccurrence(Descendants(doc), IsHrefAnchor);
    FilterKeepsEveryOccurrence(links, IsPdfLink);
    FilterKeepsEveryOccurrence(links, IsInternalLink);
  }
}
