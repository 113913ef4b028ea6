/** The field extractors of the paper page. The browser and the HTML parser
    are oracles: `Dom` bundles what the extractors ask of them, over an
    abstract browser state `B` and abstract parsed elements `E`. Every
    extractor either returns its field or raises, as a `Result`. */
module Extractors {
  import opened Wrappers
  import opened PySplit
  import opened PostProcess
  import opened Comprehensions

  /** A value in a BeautifulSoup `attrs` filter: an exact attribute value,
      or `True` (the attribute is present with any value). */
  datatype AttrFilter = Is(value: string) | Present

  /** The arguments of a BeautifulSoup `find` / `find_all` call. */
  datatype Query = Query(tag: string, attrs: map<string, AttrFilter>)

  /** The browser and parser operations the extractors use.
      - `present(b, xpath)`: `WebDriverWait(driver, 10).until(
        presence_of_element_located((By.XPATH, xpath)))` returns rather
        than timing out;
      - `click(b, xpath)`: wait until the element is clickable, move the
        pointer to it and click it; the resulting state, or `None` when
        one of these steps raised;
      - `soup(b)`: `BeautifulSoup(driver.page_source, 'html.parser')`;
      - `find` / `findAll`: `element.find(...)` / `element.find_all(...)`;
      - `text(e)`: `e.text`; `href(e)`: `e.get('href')`;
      - `urljoin(base, href)`: `urllib.parse.urljoin`. */
  datatype Dom<!B, !E> = Dom(
    present: (B, string) -> bool,
    click: (B, string) -> Option<B>,
    soup: B -> E,
    find: (E, Query) -> Option<E>,
    findAll: (E, Query) -> seq<E>,
    text: E -> string,
    href: E -> Option<string>,
    urljoin: (string, Option<string>) -> string
  )

  const BaseUrl: string := "https://www.semanticscholar.org/"

  // The XPath locators the extractors wait for or click.
  const CitedPapersPath: string := "//div[@id=\"cited-papers\"]"
  const AuthorExpandPath: string :=
    "//button[@data-test-id=\"author-list-expand\" and @aria-expanded=\"false\"]"
  const CorpusIdPath: string := "//li[@data-test-id=\"corpus-id\"]"
  const TitlePath: string := "//h1[@data-test-id=\"paper-detail-title\"]"
  const AbstractTogglePath: string :=
    "//button[@aria-label=\"Expand truncated text\" and @data-test-id=\"text-truncator-toggle\"]"
  const YearPath: string := "//span[@data-test-id=\"paper-year\"]"
  const CitingNavPath: string := "//a[@data-heap-nav=\"citing-papers\"]"
  const CitedNavPath: string := "//a[@data-heap-nav=\"cited-papers\"]"
  const RelatedListPath: string := "//div[@data-test-id=\"related-papers-list\"]"

  // The BeautifulSoup queries.
  const CitedPapersDiv: Query := Query("div", map["id" := Is("cited-papers")])
  const CitationTitle: Query := Query("a", map["data-heap-id" := Is("citation_title")])
  const AuthorItem: Query :=
    Query("span", map["data-heap-id" := Is("heap_author_list_item"), "data-test-id" := Is("author-list")])
  const CorpusIdItem: Query := Query("li", map["data-test-id" := Is("corpus-id")])
  const TitleHeading: Query := Query("h1", map["data-test-id" := Is("paper-detail-title")])
  const AbstractText: Query := Query("div", map["data-test-id" := Is("abstract-text")])
  const PaperYear: Query := Query("span", map["data-test-id" := Is("paper-year")])
  const CitingNav: Query := Query("a", map["data-heap-nav" := Is("citing-papers")])
  const RelatedList: Query := Query("div", map["data-test-id" := Is("related-papers-list")])
  const PaperCard: Query := Query("div", map["data-paper-id" := Present])
  const AnyA: Query := Query("a", map[])
  const AnyDiv: Query := Query("div", map[])
  const AnySpan: Query := Query("span", map[])
  const AnyH3: Query := Query("h3", map[])

  /** The nested elements from an author item to its name. */
  const AuthorNamePath: seq<Query> := [AnyA, AnySpan, AnySpan]
  /** The nested elements from a related-paper card to its title. */
  const RelatedTitlePath: seq<Query> := [AnyDiv, AnyDiv, AnyA, AnyH3, AnySpan, AnySpan]

  /** A presence wait: times out when the locator never appears. */
  function Wait<B, E>(dom: Dom<B, E>, b: B, xpath: string): (r: Result<bool, PyError>)
    ensures r.Success? <==> dom.present(b, xpath)
    ensures r.Failure? ==> r.error == TimedOut
  {
    if dom.present(b, xpath) then Success(true) else Failure(TimedOut)
  }

  /** `e.find(q)`, where using a result of `None` raises
      `AttributeError`. */
  function FindElem<B, E>(dom: Dom<B, E>, e: E, q: Query): (r: Result<E, PyError>)
    ensures r.Success? <==> dom.find(e, q).Some?
    ensures r.Success? ==> r.value == dom.find(e, q).value
    ensures r.Failure? ==> r.error == NoneAttribute
  {
    match dom.find(e, q)
    case None => Failure(NoneAttribute)
    case Some(found) => Success(found)
  }

  /** Follow `e.find(q1).find(q2)...`: raises `AttributeError` at the first
      query that finds nothing. */
  function Chain<B, E>(dom: Dom<B, E>, e: E, path: seq<Query>): (r: Result<E, PyError>)
    ensures r.Failure? ==> r.error == NoneAttribute
    ensures |path| > 0 && dom.find(e, path[0]).None? ==> r.Failure?
    decreases |path|
  {
    if |path| == 0 then Success(e)
    else
      match dom.find(e, path[0])
      case None => Failure(NoneAttribute)
      case Some(child) => Chain(dom, child, path[1..])
  }

  /** A chain of one query is a single `find`. */
  lemma ChainOne<B, E>(dom: Dom<B, E>, e: E, q: Query)
    ensures Chain(dom, e, [q]) == FindElem(dom, e, q)
  {
  }

  /** Following `p + q` is following `p` and then `q` from where `p`
      ended: a break anywhere in `p` fails the whole chain. */
  lemma {:induction false} ChainAppend<B, E>(dom: Dom<B, E>, e: E, p: seq<Query>, q: seq<Query>)
    ensures Chain(dom, e, p + q) ==
      if Chain(dom, e, p).Failure? then Failure(NoneAttribute)
      else Chain(dom, Chain(dom, e, p).value, q)
    decreases |p|
  {
    if |p| == 0 {
      assert p + q == q;
    } else {
      assert (p + q)[0] == p[0];
      assert (p + q)[1..] == p[1..] + q;
      match dom.find(e, p[0]) {
        case None =>
        case Some(child) => ChainAppend(dom, child, p[1..], q);
      }
    }
  }

  /** `e.find(q1)...find(qn).text`. */
  function TextAt<B, E>(dom: Dom<B, E>, e: E, path: seq<Query>): (r: Result<string, PyError>)
    ensures r.Success? <==> Chain(dom, e, path).Success?
    ensures r.Success? ==> r.value == dom.text(Chain(dom, e, path).value)
  {
    var x :- Chain(dom, e, path);
    Success(dom.text(x))
  }

  /** The state after a guarded expand click: a click that raised is
      swallowed and leaves the page as it was. */
  function Expanded<B, E>(dom: Dom<B, E>, b: B, xpath: string): (b': B)
    ensures dom.click(b, xpath).None? ==> b' == b
    ensures dom.click(b, xpath).Some? ==> b' == dom.click(b, xpath).value
  {
    match dom.click(b, xpath)
    case None => b
    case Some(clicked) => clicked
  }

  /** The citation-title anchors inside the cited-papers section, if the
      section is there. */
  function CitationAnchors<B, E>(dom: Dom<B, E>, b: B): (r: Result<seq<E>, PyError>)
    ensures r.Success? <==> dom.present(b, CitedPapersPath) && dom.find(dom.soup(b), CitedPapersDiv).Some?
    ensures r.Success? ==> r.value == dom.findAll(dom.find(dom.soup(b), CitedPapersDiv).value, CitationTitle)
  {
    var _ :- Wait(dom, b, CitedPapersPath);
    var section :- FindElem(dom, dom.soup(b), CitedPapersDiv);
    Success(dom.findAll(section, CitationTitle))
  }

  /** `get_all_references`: the absolute URL of every cited paper, one per
      citation-title anchor, in page order. */
  function GetAllReferences<B, E>(dom: Dom<B, E>, b: B): (r: Result<seq<string>, PyError>)
    ensures r.Success? <==> CitationAnchors(dom, b).Success?
    ensures r.Success? ==>
      var anchors := CitationAnchors(dom, b).value;
      && |r.value| == |anchors|
      && forall k :: 0 <= k < |anchors| ==> r.value[k] == dom.urljoin(BaseUrl, dom.href(anchors[k]))
  {
    var anchors :- CitationAnchors(dom, b);
    Success(seq(|anchors|, k requires 0 <= k < |anchors| => dom.urljoin(BaseUrl, dom.href(anchors[k]))))
  }

  /** `paper.find('h3').text`. */
  function HeadingText<B, E>(dom: Dom<B, E>, a: E): (r: Result<string, PyError>)
    ensures r.Success? <==> dom.find(a, AnyH3).Some?
    ensures r.Success? ==> r.value == dom.text(dom.find(a, AnyH3).value)
  {
    var h :- FindElem(dom, a, AnyH3);
    Success(dom.text(h))
  }

  /** `get_all_reference_titles`: the `h3` text of every citation-title
      anchor, in page order; raises if one anchor has no `h3`. */
  function GetAllReferenceTitles<B, E>(dom: Dom<B, E>, b: B): (r: Result<seq<string>, PyError>)
    ensures r.Success? <==>
      && CitationAnchors(dom, b).Success?
      && forall k :: 0 <= k < |CitationAnchors(dom, b).value| ==>
           dom.find(CitationAnchors(dom, b).value[k], AnyH3).Some?
    ensures r.Success? ==>
      var anchors := CitationAnchors(dom, b).value;
      && |r.value| == |anchors|
      && forall k :: 0 <= k < |anchors| ==> r.value[k] == dom.text(dom.find(anchors[k], AnyH3).value)
  {
    var anchors :- CitationAnchors(dom, b);
    MapAll(anchors, a => HeadingText(dom, a))
  }

  /** The author-list items that contain a link, in page order. */
  function LinkedItems<B, E>(dom: Dom<B, E>, b: B): (items: seq<E>)
    ensures items == Filter(dom.findAll(dom.soup(b), AuthorItem), item => dom.find(item, AnyA).Some?)
    ensures |items| <= |dom.findAll(dom.soup(b), AuthorItem)|
    ensures forall k :: 0 <= k < |items| ==> dom.find(items[k], AnyA).Some?
  {
    Filter(dom.findAll(dom.soup(b), AuthorItem), item => dom.find(item, AnyA).Some?)
  }

  /** The author names on the page as it is, without clicking. */
  function AuthorsOnPage<B, E>(dom: Dom<B, E>, b: B): (r: Result<seq<string>, PyError>)
    ensures r.Success? <==>
      forall k :: 0 <= k < |LinkedItems(dom, b)| ==> Chain(dom, LinkedItems(dom, b)[k], AuthorNamePath).Success?
    ensures r.Failure? ==> r.error == NoneAttribute
    ensures r.Success? ==>
      && |r.value| == |LinkedItems(dom, b)|
      && |r.value| <= |dom.findAll(dom.soup(b), AuthorItem)|
      && forall k :: 0 <= k < |r.value| ==>
           r.value[k] == dom.text(Chain(dom, LinkedItems(dom, b)[k], AuthorNamePath).value)
  {
    MapAll(LinkedItems(dom, b), item => TextAt(dom, item, AuthorNamePath))
  }

  /** `extract_authors`: try to expand the author list, then read the
      name of every author item that has a link. */
  function ExtractAuthors<B, E>(dom: Dom<B, E>, b: B): (r: Result<seq<string>, PyError>)
    ensures r.Failure? ==> r.error == NoneAttribute
    ensures dom.click(b, AuthorExpandPath).None? ==> r == AuthorsOnPage(dom, b)
    ensures dom.click(b, AuthorExpandPath).Some? ==> r == AuthorsOnPage(dom, dom.click(b, AuthorExpandPath).value)
    ensures r.Success? ==>
      |r.value| <= |dom.findAll(dom.soup(Expanded(dom, b, AuthorExpandPath)), AuthorItem)|
  {
    AuthorsOnPage(dom, Expanded(dom, b, AuthorExpandPath))
  }

  /** `extract_id`: the corpus id after "Corpus ID: ". */
  function ExtractId<B, E>(dom: Dom<B, E>, b: B): (r: Result<string, PyError>)
    ensures r.Success? <==>
      && dom.present(b, CorpusIdPath)
      && dom.find(dom.soup(b), CorpusIdItem).Some?
      && !Free(dom.text(dom.find(dom.soup(b), CorpusIdItem).value), IdSep)
    ensures r.Success? ==> r == CorpusId(dom.text(dom.find(dom.soup(b), CorpusIdItem).value))
  {
    var _ :- Wait(dom, b, CorpusIdPath);
    var item :- FindElem(dom, dom.soup(b), CorpusIdItem);
    var line := dom.text(item);
    CorpusId(line)
  }

  /** `extract_title`: the text of the title heading. */
  function ExtractTitle<B, E>(dom: Dom<B, E>, b: B): (r: Result<string, PyError>)
    ensures r.Success? <==> dom.present(b, TitlePath) && dom.find(dom.soup(b), TitleHeading).Some?
    ensures r.Success? ==> r.value == dom.text(dom.find(dom.soup(b), TitleHeading).value)
  {
    var _ :- Wait(dom, b, TitlePath);
    var heading :- FindElem(dom, dom.soup(b), TitleHeading);
    Success(dom.text(heading))
  }

  /** `extract_abstract`: try to expand the truncated abstract, then read
      its inner span. There is no presence wait. */
  function ExtractAbstract<B, E>(dom: Dom<B, E>, b: B): (r: Result<string, PyError>)
    ensures r.Failure? ==> r.error == NoneAttribute
    ensures var page := dom.soup(Expanded(dom, b, AbstractTogglePath));
      && (r.Success? <==> Chain(dom, page, [AbstractText, AnyDiv, AnySpan]).Success?)
      && (r.Success? ==> r.value == dom.text(Chain(dom, page, [AbstractText, AnyDiv, AnySpan]).value))
  {
    TextAt(dom, dom.soup(Expanded(dom, b, AbstractTogglePath)), [AbstractText, AnyDiv, AnySpan])
  }

  /** `extract_publication_year`: the last space-separated word of the
      year span's inner text. */
  function ExtractPublicationYear<B, E>(dom: Dom<B, E>, b: B): (r: Result<string, PyError>)
    ensures r.Success? <==>
      dom.present(b, YearPath) && Chain(dom, dom.soup(b), [PaperYear, AnySpan, AnySpan]).Success?
    ensures r.Success? ==>
      var t := dom.text(Chain(dom, dom.soup(b), [PaperYear, AnySpan, AnySpan]).value);
      && ' ' !in r.value
      && |r.value| <= |t| && r.value == t[|t| - |r.value|..]
      && (|r.value| < |t| ==> t[|t| - |r.value| - 1] == ' ')
  {
    var _ :- Wait(dom, b, YearPath);
    var t :- TextAt(dom, dom.soup(b), [PaperYear, AnySpan, AnySpan]);
    Success(Year(t))
  }

  /** The first space-separated word of the citing-papers link's span. */
  function CitingCount<B, E>(dom: Dom<B, E>, b: B): (r: Result<string, PyError>)
    ensures r.Success? <==> Chain(dom, dom.soup(b), [CitingNav, AnySpan]).Success?
    ensures r.Success? ==>
      var t := dom.text(Chain(dom, dom.soup(b), [CitingNav, AnySpan]).value);
      && ' ' !in r.value
      && |r.value| <= |t| && r.value == t[..|r.value|]
      && (|r.value| < |t| ==> t[|r.value|] == ' ')
  {
    var t :- TextAt(dom, dom.soup(b), [CitingNav, AnySpan]);
    Success(Count(t))
  }

  /** `extract_citation_count`: waits for the citing-papers link and reads
      its count. */
  function ExtractCitationCount<B, E>(dom: Dom<B, E>, b: B): (r: Result<string, PyError>)
    ensures r.Success? <==> dom.present(b, CitingNavPath) && CitingCount(dom, b).Success?
    ensures r.Success? ==> r == CitingCount(dom, b)
  {
    var _ :- Wait(dom, b, CitingNavPath);
    CitingCount(dom, b)
  }

  /** `extract_references_count`: waits for the cited-papers link but
      then reads the citing-papers link, exactly as the citation count
      does. */
  function ExtractReferencesCount<B, E>(dom: Dom<B, E>, b: B): (r: Result<string, PyError>)
    ensures r.Success? <==> dom.present(b, CitedNavPath) && CitingCount(dom, b).Success?
    ensures r.Success? ==> r == CitingCount(dom, b)
  {
    var _ :- Wait(dom, b, CitedNavPath);
    CitingCount(dom, b)
  }

  /** `extract_related_papers`: the title of every card with a paper id in
      the related-papers list, in page order; raises if one card lacks the
      nested title elements. */
  function ExtractRelatedPapers<B, E>(dom: Dom<B, E>, b: B): (r: Result<seq<string>, PyError>)
    ensures r.Success? <==>
      && dom.present(b, RelatedListPath)
      && dom.find(dom.soup(b), RelatedList).Some?
      && var cards := dom.findAll(dom.find(dom.soup(b), RelatedList).value, PaperCard);
         forall k :: 0 <= k < |cards| ==> TextAt(dom, cards[k], RelatedTitlePath).Success?
    ensures r.Success? ==>
      var cards := dom.findAll(dom.find(dom.soup(b), RelatedList).value, PaperCard);
      && |r.value| == |cards|
      && forall k :: 0 <= k < |cards| ==>
           TextAt(dom, cards[k], RelatedTitlePath).Success?
           && r.value[k] == TextAt(dom, cards[k], RelatedTitlePath).value
  {
    var _ :- Wait(dom, b, RelatedListPath);
    var list :- FindElem(dom, dom.soup(b), RelatedList);
    MapAll(dom.findAll(list, PaperCard), card => TextAt(dom, card, RelatedTitlePath))
  }

  /** Whenever both count extractors succeed on a page, the reference count
      is the citation count: both read the citing-papers link. */
  lemma ReferenceCountIsCitationCount<B, E>(dom: Dom<B, E>, b: B)
    requires ExtractCitationCount(dom, b).Success? && ExtractReferencesCount(dom, b).Success?
    ensures ExtractReferencesCount(dom, b).value == ExtractCitationCount(dom, b).value
  {
  }
}
