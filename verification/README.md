# supereduc-monitor page-structure explorer, modelled in Dafny

The repository's `scraper.py` probes the listing pages of the Chilean
Superintendencia de Educación's regulatory categories (circulares, oficios,
dictámenes, jurisprudencia, resoluciones) and reports what HTML structure it
finds there, so that a later scraper can be written. Under its printing lies
a small pure component, and that is what this project models and proves
things about:

- **Fetch gate.** A response with a status other than 200, or any exception
  raised while exploring, gives "no result". A 200 response is analysed and
  always gives a result.
- **Page analysis.** This is a two-stage cascade. When the page has
  `<article>` elements, the analysis counts them. It also takes the first
  `h1`–`h4` and the first linking `<a>` inside the first article as samples.
  Otherwise it counts the `div`s whose lower-cased class mentions `post`,
  `item`, `entry`, `content` or `documento`. After the cascade, whichever
  stage fired, it does three more things:
  - it harvests every `<a>` that has an `href`;
  - it picks out the PDF links, whose lower-cased href contains `.pdf`, and
    the internal links, whose href contains `supereduc.cl` and none of
    `wp-content`, `wp-admin` or `categoria-normativa`;
  - it detects pagination, meaning some `nav` or `div` whose lower-cased
    class contains `pag`.
- **Run summary.** There is one result per category, in table order. The
  number of successes is counted, and errors are the table size minus the
  successes.

Modules (one file each):

| file | module | contents |
|---|---|---|
| wrappers.dfy | `Wrappers` | `Option` |
| text.dfy | `Text` | ASCII lower-casing, substring search (`in`), `any(k in s ...)` |
| dom.dfy | `Dom` | the element tree, document order, `find_all`, `find`, counting, order-preserving filters and subsequences |
| analysis.dfy | `Analysis` | the keyword constants, the element predicates, the cascade (`Cascade`) and the report (`Analyze`) |
| run.dfy | `Run` | fetch outcomes, the gate (`Explore`), one result per category (`RunAll`), the summary counts |
| scenarios.dfy | `Scenarios` | the behaviours the page analysis is meant to show, stated for documents and runs of a given shape |

The parsed document is an immutable tree
`Node(tag, cls: Option<string>, href: Option<string>, children)`.
- `find_all` on an element gives its descendants in document order, without
  the element itself, filtered by a predicate.
- `find` gives the first of them. It is defined separately, by a
  depth-first walk that stops at the first match. The proof shows that it
  returns the head of `find_all`.
- The number of matches is also computed directly on the tree (`CountIn`),
  and the proof shows that it equals the length of `find_all`.

Class matching follows the source's filter
`lambda x: x and any(k in str(x).lower() ...)`. An absent class never
matches. The class attribute is kept as one string. For each class token,
BeautifulSoup calls the filter on each token first. Only when no token
matches does it call the filter on the space-joined attribute. No keyword
contains white space, so a keyword occurs in the joined string exactly when
it occurs in some token, and testing the whole string gives the same answer.

## Model

| member | source | states |
|---|---|---|
| Run.Explore | scraper.py:22-33 | A result exists exactly when the fetch produced a response with status 200. Exceptions and other statuses give none. A 200 response always yields the analysis of its document. |
| Analysis.Cascade | scraper.py:35-64 | The kind is Article iff the document has an `article` descendant. Then the count is the number of `article` elements (at least 1), and `first` is the first article in document order. The sample title is absent iff the first article has no `h1`–`h4` descendant; otherwise it is the first such heading in document order. The sample link is absent iff the first article has no `a` with an href; otherwise it is the href of the first such anchor. With no article, the count is the number of keyword-classed `div`s. It is 0 exactly when there are none, and that is not an error. |
| Analysis.Analyze | scraper.py:66-100 | The stage is the cascade's result. All links are exactly the `a`-with-href descendants, in document order (a subsequence of the document), and their number is the tree count of such anchors, as `len(all_links)` prints it. PDF links are exactly those links whose lower-cased href contains `.pdf`, in order, and no more numerous than all links. Internal links are exactly those links whose href contains `supereduc.cl` and no skipped path, in order. The pagination count is the tree count of `nav`/`div` elements whose lower-cased class contains `pag`, and pagination is detected iff there is one. None of these depends on which stage fired. |
| Analysis.AnalyzeKeepsEveryLink | scraper.py:67-77 | No occurrence is lost or duplicated. Each anchor value occurs among all links as often as it occurs among the descendants, when it has an href. It occurs among the PDF links, and among the internal links, as often as among all links when it passes that test, and not at all otherwise. So `len(pdf_links)` and `len(internal_links)` are fixed, not merely bounded. |
| Text.Lower | scraper.py:56 | The result has the input's length. Each character is the input's character, lowered when it is an ASCII capital. The result has no capital left. |
| Text.LowerIdempotent | scraper.py:56 | Lower-casing an already lower-cased string changes nothing. |
| Text.LowerKeepsLowerCaseOccurrences | scraper.py:72 | A lower-case needle found in a string is still found, at the same place, after the string is lower-cased. |
| Text.Contains | scraper.py:72-74 | The scan answers true exactly when the needle occurs at some index of the string (Python's `in` on strings). |
| Text.ContainsAny | scraper.py:55-57 | True exactly when some keyword of the list occurs in the string (the `any(...)` over keywords). |
| Dom.Filter | scraper.py:72-74 | The list comprehension with `if`: an element is kept iff it is in the input and satisfies the test. The result is a subsequence of the input, so order is kept, and it is no longer than the input. |
| Dom.FilterKeepsEveryOccurrence | scraper.py:72-74 | The comprehension keeps every occurrence of a passing element and drops every occurrence of the others. The count of each value in the result is its count in the input, or 0 when it fails the test. |
| Dom.SubseqBounds | scraper.py:72-74 | A subsequence is no longer than the list it comes from, and every element of it occurs in that list. |
| Dom.FilterConcat | scraper.py:72-74 | Filtering two lists joined end to end is filtering each and joining the results. |
| Dom.FindAll | scraper.py:36 | `find_all` returns exactly the matching descendants, as a subsequence of document order. Its length is the number of matching elements counted directly on the tree. |
| Dom.FindIn | scraper.py:47-48 | The depth-first search that stops at the first match returns the first match of the flattened document order. |
| Dom.Find | scraper.py:47-48 | `find` returns a matching descendant with no match before it in document order. It returns None exactly when no descendant matches. |
| Dom.CountIn | scraper.py:38 | Counting matches directly on the tree gives the length of the flattened, filtered list. |
| Dom.FindAllAgreesWithCountAndFind | scraper.py:36-48 | `len(find_all(...))` is the tree count, and `find` is the head of `find_all` (None when that is empty). |
| Dom.FlattenConcat | scraper.py:36 | The document order of two sibling lists is the order of the first followed by the order of the second. |
| Run.RunAll | scraper.py:119-126 | There is one result per category, in table order, with the category's name. A result is a success iff its fetch was a 200 response. The results' categories are pairwise distinct. |
| Run.CountSuccesses | scraper.py:132 | The number of successes is at most the number of results. It equals that number iff every result succeeded, and it is 0 iff none did. |
| Run.Summarize | scraper.py:132-134 | The summary's `successful` is the success count. `successful + errors` is the number of configured categories, and there are no errors iff every category succeeded. |
| Run.SuccessesAre200Responses | scraper.py:119-134 | A run's success count is the number of its fetches that returned status 200. One category's failure affects no other. |
| Scenarios.PdfMarkerInAnyCase | scraper.py:72 | `.pdf` written in any mix of cases, anywhere in an href, makes the link a PDF link. |
| Scenarios.UpperCasePdfIsPdf | scraper.py:72 | `/a.PDF` is a PDF link. |
| Scenarios.HtmlIsNotPdf | scraper.py:72 | `/b.html` is not a PDF link. |
| Scenarios.PdfFilterKeepsOrder | scraper.py:67-72 | Take a page of three links where the first and third are PDF links and the second is not. All three are harvested, and the PDF links are the first and the third, in that order. |
| Scenarios.SkippedPathIsNotInternal | scraper.py:73-74 | An href that mentions `wp-content`, `wp-admin` or `categoria-normativa` anywhere is never internal. |
| Scenarios.InternalHostIsCaseSensitive | scraper.py:73 | An href with the host in capitals (`SUPEREDUC.CL`) is not internal: the host test does not ignore case. |
| Scenarios.PagInClassIsPagination | scraper.py:96 | Any `nav` or `div` whose class mentions `pag` in any case and at any position counts as pagination. |
| Scenarios.PageContentIsPagination | scraper.py:96 | A `div` of class `page-content` counts as pagination: the match is as broad as a substring test. |
| Scenarios.KeywordInClassIsContainer | scraper.py:55-57 | A `div` whose class mentions a container keyword, written in any mix of cases and at any position, is a keyword container. So `Main Post` and `Post` match. |
| Scenarios.ArticleTakesPrecedence | scraper.py:36-51 | The page has a keyword-classed `div` before an `article`, and the article holds a heading and a link. The result is kind Article with count 1. The samples are that heading and that link's href. |
| Scenarios.NoStructureCountsNoContainers | scraper.py:53-69 | Any page with no article and no keyword container gets stage 2 with a container count of 0, not an error. Its links are still harvested, all of them. |
| Scenarios.LinksWithoutStructure | scraper.py:53-72 | A page made of one PDF link gets a container count of 0. That link is among all links and among the PDF links. |
| Scenarios.FiveCategoryRun | scraper.py:119-134 | In five categories, three answer 200 and two raise connection errors. Three successes are counted. |

## Left out

- Network I/O is left out: `requests.get`, its User-Agent header and its 15-second timeout. What one fetch produced is an input to the model, either a status with a parsed document or an exception.
- HTML parsing by BeautifulSoup is left out, because it is a foreign library. The element tree is given. Text and comment nodes are not represented, and tag names are taken as already lower-cased, as the parser produces them.
- `explore_page_structure` returns the parsed document; the statistics it finds exist only in its printed lines. The model returns them instead as a `Report` (the stage, the three link lists and the pagination count). The `Report` stands in for those printed statistics, and `Some` versus `None` stands in for the returned document versus `None`.
- All console output is left out, because it is reporting only. This covers `prettify()[:800]`, the `[:5]`, `[:3]` and `[:80]` display cuts, the emoji status lines and the final per-category list.
- Link and heading text (`get_text(strip=True)`) is left out, because its white-space rules belong to BeautifulSoup. The sample title is kept as the heading element itself.
- The `datetime.now()` timestamps are left out: they are nondeterministic and carry no behaviour.
- The exception classes are left out. Timeout, request errors and any other exception are tags of one `Raised` outcome, and all of them give "no result".
- Run.Explore: always gives a result for a 200 response. In the source, an exception raised while printing would also end in "no result", for example a console unable to encode a character. Printing is not modelled, so that path is not either.
- Text.Lower: lowers ASCII capitals only, where Python's `str.lower()` follows Unicode. The only non-ASCII characters whose lower-case form contains an ASCII letter are U+0130 (to `i` plus a combining dot) and U+212A KELVIN SIGN (to `k`). No needle used here (`.pdf`, `post`, `item`, `entry`, `content`, `documento`, `pag`) contains `k`. Each one containing `i` has a letter right after the `i`, never a combining dot. So every containment answer the analysis depends on is unchanged.
- The category table is a Python dict. It is modelled as a sequence of targets with pairwise distinct categories, iterated in insertion order as a dict is.
- Facts about the code that bound what the model covers:
  - there is no minimum-size check on a 200 response: any 200 is analysed;
  - there is no delay before a fetch and no retry after a failed one;
  - no sample date and no page title are extracted;
  - the container keyword list has exactly five entries: `post`, `item`, `entry`, `content`, `documento`;
  - stage 2 looks at `div` elements only, not at list items;
  - there is no separate "nothing found" kind: a page with neither articles nor keyword containers is stage 2 with a count of 0;
  - the timeout is 15 seconds, and only a User-Agent header is sent.
