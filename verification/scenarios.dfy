/** Behaviours of the analysis and of the run summary on small documents and
    runs of a given shape. */
module Scenarios {
  import opened Wrappers
  import opened Text
  import opened Dom
  import opened Analysis
  import opened Run

  function Anchor(href: string): Node {
    Node("a", None, Some(href), [])
  }

  function Document(children: seq<Node>): Node {
    Node("[document]", None, None, children)
  }

  /** The PDF test ignores case: `.pdf` written in any mix of cases, anywhere
      in the href, makes a PDF link. */
  lemma {:induction false} PdfMarkerInAnyCase(before: string, marker: string, after: string)
    requires Lower(marker) == PdfMarker
    ensures IsPdfLink(Anchor(before + marker + after))
  {
    LowerConcat(before + marker, after);
    LowerConcat(before, marker);
    OccursBetween(Lower(before), PdfMarker, Lower(after));
  }

  /** So `/a.PDF` is a PDF link. */
  lemma UpperCasePdfIsPdf()
    ensures IsPdfLink(Anchor("/a.PDF"))
  {
  }

  /** `/b.html` is not a PDF link. */
  lemma HtmlIsNotPdf()
    ensures !IsPdfLink(Anchor("/b.html"))
  {
    assert Lower("/b.html") == "/b.html";
    assert PdfMarker[1] == 'p' && 'p' !in "/b.html";
    MissingCharRulesOut(Lower("/b.html"), PdfMarker, 1);
  }

  /** The PDF links of a page of three links are picked in document order:
      with the first and third links PDF links and the second not, the result
      is the first and the third. */
  lemma PdfFilterKeepsOrder(l1: Node, l2: Node, l3: Node)
    requires IsHrefAnchor(l1) && IsHrefAnchor(l2) && IsHrefAnchor(l3)
    requires l1.children == [] && l2.children == [] && l3.children == []
    requires IsPdfLink(l1) && !IsPdfLink(l2) && IsPdfLink(l3)
    ensures Analyze(Document([l1, l2, l3])).allLinks == [l1, l2, l3]
    ensures Analyze(Document([l1, l2, l3])).pdfLinks == [l1, l3]
  {
    var links := [l1, l2, l3];
    FlattenLeaves(links);
    assert Descendants(Document(links)) == links;
    assert links == [l1] + ([l2] + ([l3] + []));
    assert FindAll(Document(links), IsHrefAnchor) == links by {
      FilterCons(l3, [], IsHrefAnchor);
      FilterCons(l2, [l3], IsHrefAnchor);
      FilterCons(l1, [l2, l3], IsHrefAnchor);
    }
    assert Filter(links, IsPdfLink) == [l1, l3] by {
      FilterCons(l3, [], IsPdfLink);
      FilterCons(l2, [l3], IsPdfLink);
      FilterCons(l1, [l2, l3], IsPdfLink);
    }
  }

  /** A link that mentions one of the skipped paths is never internal,
      whatever else it contains. */
  lemma {:induction false} SkippedPathIsNotInternal(before: string, k: int, after: string)
    requires 0 <= k < |SkipMarkers|
    ensures !IsInternalLink(Anchor(before + SkipMarkers[k] + after))
  {
    OccursBetween(before, SkipMarkers[k], after);
  }

  /** The host test is case-sensitive: an upper-case host is not internal. */
  lemma InternalHostIsCaseSensitive()
    ensures !IsInternalLink(Anchor("https://www.SUPEREDUC.CL/oficio-1/"))
  {
    var upper := "https://www.SUPEREDUC.CL/oficio-1/";
    assert SiteHost[3] == 'e' && 'e' !in upper;
    MissingCharRulesOut(upper, SiteHost, 3);
  }

  /** Any `nav` or `div` whose class mentions "pag" in any case is taken
      for pagination, so the match is broad. */
  lemma {:induction false} PagInClassIsPagination(tag: string, before: string, marker: string, after: string)
    requires tag == "nav" || tag == "div"
    requires Lower(marker) == PaginationMarker
    ensures IsPagination(Node(tag, Some(before + marker + after), None, []))
  {
    LowerConcat(before + marker, after);
    LowerConcat(before, marker);
    OccursBetween(Lower(before), PaginationMarker, Lower(after));
  }

  /** In particular a `div` of class `page-content` is pagination. */
  lemma PageContentIsPagination()
    ensures IsPagination(Node("div", Some("page-content"), None, []))
  {
    assert "page-content" == "" + "pag" + "e-content";
    PagInClassIsPagination("div", "", "pag", "e-content");
  }

  /** A `div` whose class mentions a container keyword, written in any mix
      of cases and at any position, is a keyword container: the whole class
      is lower-cased before the keywords are looked for. */
  lemma {:induction false} KeywordInClassIsContainer(before: string, marker: string, k: int, after: string)
    requires 0 <= k < |ContainerKeywords|
    requires Lower(marker) == ContainerKeywords[k]
    ensures IsContainer(Node("div", Some(before + marker + after), None, []))
  {
    LowerConcat(before + marker, after);
    LowerConcat(before, marker);
    OccursBetween(Lower(before), ContainerKeywords[k], Lower(after));
  }

  /** The shape of the precedence example: the document order is the
      container, the article, then the article's two children. */
  lemma PrecedenceExampleOrder(container: Node, article: Node, heading: Node, link: Node)
    requires container.children == []
    requires article.children == [heading, link]
    requires heading.children == [] && link.children == []
    ensures Descendants(article) == [heading, link]
    ensures Descendants(Document([container, article])) == [container, article, heading, link]
  {
    FlattenLeaves([heading, link]);
    FlattenLeaves([]);
    assert Flatten([article]) == [article] + [heading, link] + [] by {
      assert [article][1..] == [];
    }
    assert [container, article][1..] == [article];
  }

  /** In the precedence example exactly one element is an article. */
  lemma PrecedenceExampleArticles(container: Node, article: Node, heading: Node, link: Node)
    requires IsContainer(container) && IsArticle(article) && IsHeading(heading) && IsHrefAnchor(link)
    ensures Filter([container, article, heading, link], IsArticle) == [article]
  {
    assert [container, article, heading, link] == [container] + ([article] + ([heading] + ([link] + [])));
    assert !IsArticle(container) && !IsArticle(heading) && !IsArticle(link);
    FilterCons(link, [], IsArticle);
    FilterCons(heading, [link], IsArticle);
    FilterCons(article, [heading, link], IsArticle);
    FilterCons(container, [article, heading, link], IsArticle);
  }

  /** An article wins over a keyword container that comes before it; the
      samples are the article's heading and its link. */
  lemma ArticleTakesPrecedence(container: Node, article: Node, heading: Node, link: Node)
    requires IsContainer(container) && container.children == []
    requires IsArticle(article) && article.children == [heading, link]
    requires IsHeading(heading) && heading.children == []
    requires IsHrefAnchor(link) && link.children == []
    ensures Cascade(Document([container, article]))
         == Articles(1, article, Some(heading), link.href)
  {
    var doc := Document([container, article]);
    PrecedenceExampleOrder(container, article, heading, link);
    PrecedenceExampleArticles(container, article, heading, link);
    assert FindAll(doc, IsArticle) == [article];
    assert Find(article, IsHeading) == Some(heading) by {
      assert FindIn([heading, link], IsHeading) == Some(heading);
    }
    assert Find(article, IsHrefAnchor) == Some(link) by {
      assert !IsHrefAnchor(heading);
      assert [heading, link][1..] == [link];
      assert FindIn([link], IsHrefAnchor) == Some(link);
      assert FindIn([heading, link], IsHrefAnchor) == Some(link);
    }
  }

  /** A page with no article and no keyword container is not an error: it
      gets stage 2 with a container count of 0, and its links are still
      harvested. */
  lemma NoStructureCountsNoContainers(doc: Node)
    requires !Present(doc, IsArticle) && !Present(doc, IsContainer)
    ensures Analyze(doc).stage == Containers(0)
    ensures |Analyze(doc).allLinks| == CountIn(doc.children, IsHrefAnchor)
  {
  }

  /** For instance a page made of one PDF link yields that link among all
      links and among the PDF links, with an empty container count. */
  lemma LinksWithoutStructure(l: Node)
    requires IsHrefAnchor(l) && l.children == []
    requires IsPdfLink(l)
    ensures Analyze(Document([l])).stage == Containers(0)
    ensures Analyze(Document([l])).allLinks == [l]
    ensures Analyze(Document([l])).pdfLinks == [l]
  {
  }

  /** Five categories, three answering 200 and two raising connection errors:
      three successes and two errors. */
  lemma FiveCategoryRun(t: seq<Target>, page: Node)
    requires |t| == 5 && DistinctCategories(t)
    ensures var os := [Response(200, page), Raised(RequestFailed), Response(200, page),
                       Raised(RequestFailed), Response(200, page)];
            CountSuccesses(RunAll(t, os)) == 3
  {
    var os := [Response(200, page), Raised(RequestFailed), Response(200, page),
               Raised(RequestFailed), Response(200, page)];
    assert Count200(os) == 3 by {
      assert Count200(os[5..]) == 0;
      assert os[4..][1..] == os[5..];
      assert Count200(os[4..]) == 1;
      assert os[3..][1..] == os[4..];
      assert Count200(os[3..]) == 1;
      assert os[2..][1..] == os[3..];
      assert Count200(os[2..]) == 2;
      assert os[1..][1..] == os[2..];
      assert Count200(os[1..]) == 2;
      assert os[0..] == os;
    }
    SuccessesAre200Responses(t, os);
  }
}
