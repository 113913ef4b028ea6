/** The fault-tolerant record aggregator: `default_on_err` and `extract`,
    which runs the nine field extractors in turn and replaces each one's
    failure by that field's default. */
module Aggregate {
  import opened Wrappers
  import opened Extractors

  /** A value stored under a key of the record: a string or a list of
      strings. */
  datatype Value = Str(s: string) | List(items: seq<string>)

  /** The nine fields of a record. */
  datatype Key =
    | IdKey | TitleKey | AbstractKey | YearKey | AuthorsKey | RelatedKey
    | CitationCountKey | ReferenceCountKey | ReferencesKey

  /** The dictionary key each field is stored under. */
  function KeyName(k: Key): string {
    match k
    case IdKey => "id"
    case TitleKey => "title"
    case AbstractKey => "abstract"
    case YearKey => "publication year"
    case AuthorsKey => "authors"
    case RelatedKey => "related papers"
    case CitationCountKey => "citation count"
    case ReferenceCountKey => "reference count"
    case ReferencesKey => "references"
  }

  /** The field stored under a dictionary key, if any. */
  function KeyNamed(name: string): (k: Option<Key>)
    ensures k.Some? ==> KeyName(k.value) == name
  {
    if name == "id" then Some(IdKey)
    else if name == "title" then Some(TitleKey)
    else if name == "abstract" then Some(AbstractKey)
    else if name == "publication year" then Some(YearKey)
    else if name == "authors" then Some(AuthorsKey)
    else if name == "related papers" then Some(RelatedKey)
    else if name == "citation count" then Some(CitationCountKey)
    else if name == "reference count" then Some(ReferenceCountKey)
    else if name == "references" then Some(ReferencesKey)
    else None
  }

  /** Every field is found again from its dictionary key, so distinct
      fields are stored under distinct keys. */
  lemma KeyNamesDistinct(k: Key, k': Key)
    ensures KeyNamed(KeyName(k)) == Some(k)
    ensures KeyName(k) == KeyName(k') ==> k == k'
  {
    match k
    case IdKey =>
    case TitleKey => assert KeyName(k)[0] == 't';
    case AbstractKey => assert KeyName(k)[0] == 'a';
    case YearKey => assert KeyName(k)[0] == 'p';
    case AuthorsKey => assert KeyName(k)[1] == 'u';
    case RelatedKey => assert KeyName(k)[2] == 'l';
    case CitationCountKey => assert KeyName(k)[0] == 'c';
    case ReferenceCountKey => assert KeyName(k)[9] == ' ';
    case ReferencesKey => assert |KeyName(k)| == 10;
  }

  /** The dictionary `extract` returns, by field. */
  type Record = map<Key, Value>

  /** All nine fields. */
  const Keys: set<Key> :=
    {IdKey, TitleKey, AbstractKey, YearKey, AuthorsKey, RelatedKey,
     CitationCountKey, ReferenceCountKey, ReferencesKey}

  /** `default_on_err(function, arg, default_value)`: the function's result
      when it returns, the default when it raises; it never raises itself. */
  function DefaultOnErr<A, T>(f: A -> Result<T, PyError>, arg: A, default: T): (v: T)
    ensures f(arg).Success? ==> v == f(arg).value
    ensures f(arg).Failure? ==> v == default
  {
    match f(arg)
    case Success(value) => value
    case Failure(_) => default
  }

  /** A list-valued extractor's result as a record value. */
  function Listed(r: Result<seq<string>, PyError>): (v: Result<Value, PyError>)
    ensures v.Success? <==> r.Success?
    ensures v.Success? ==> v.value == List(r.value)
  {
    var items :- r;
    Success(List(items))
  }

  /** The page once `extract_abstract` has tried its expand click. */
  function AfterAbstract<B, E>(dom: Dom<B, E>, b: B): (b': B)
    ensures dom.click(b, AbstractTogglePath).None? ==> b' == b
    ensures dom.click(b, AbstractTogglePath).Some? ==> b' == dom.click(b, AbstractTogglePath).value
  {
    Expanded(dom, b, AbstractTogglePath)
  }

  /** The page once `extract_authors` has also tried its expand click. */
  function AfterAuthors<B, E>(dom: Dom<B, E>, b: B): (b': B)
    ensures dom.click(b, AbstractTogglePath).None? && dom.click(b, AuthorExpandPath).None? ==> b' == b
    ensures var b1 := AfterAbstract(dom, b);
      && (dom.click(b1, AuthorExpandPath).Some? ==> b' == dom.click(b1, AuthorExpandPath).value)
      && (dom.click(b1, AuthorExpandPath).None? ==> b' == b1)
  {
    Expanded(dom, AfterAbstract(dom, b), AuthorExpandPath)
  }

  /** The nine extractors `extract` calls, and how the two that click
      change the page. */
  datatype Readers<!B> = Readers(
    id: B -> Result<string, PyError>,
    title: B -> Result<string, PyError>,
    summary: B -> Result<string, PyError>,
    year: B -> Result<string, PyError>,
    authors: B -> Result<seq<string>, PyError>,
    related: B -> Result<seq<string>, PyError>,
    citations: B -> Result<string, PyError>,
    references: B -> Result<string, PyError>,
    titles: B -> Result<seq<string>, PyError>,
    abstractClick: B -> B,
    authorsClick: B -> B)

  /** A field's value: its extractor's value when it returns, the
      field's default when it raises. The first three fields read the page
      as loaded, the year and the authors read it after the abstract's
      click, and the last four after the author list's click. */
  function Field<B>(rd: Readers<B>, b: B, k: Key): (v: Value)
    ensures k == IdKey ==> v == Str(rd.id(b).GetOr(""))
    ensures k == TitleKey ==> v == Str(rd.title(b).GetOr(""))
    ensures k == AbstractKey ==> v == Str(rd.summary(b).GetOr(""))
    ensures var b1 := rd.abstractClick(b);
      && (k == YearKey ==> v == Str(rd.year(b1).GetOr("")))
      && (k == AuthorsKey ==> v == List(rd.authors(b1).GetOr([])))
    ensures var b2 := rd.authorsClick(rd.abstractClick(b));
      && (k == RelatedKey ==> v == if rd.related(b2).Success? then List(rd.related(b2).value) else Str(""))
      && (k == CitationCountKey ==> v == Str(rd.citations(b2).GetOr("")))
      && (k == ReferenceCountKey ==> v == Str(rd.references(b2).GetOr("")))
      && (k == ReferencesKey ==> v == if rd.titles(b2).Success? then List(rd.titles(b2).value) else Str(""))
  {
    var b1 := rd.abstractClick(b);
    var b2 := rd.authorsClick(b1);
    match k
    case IdKey => Str(DefaultOnErr(rd.id, b, ""))
    case TitleKey => Str(DefaultOnErr(rd.title, b, ""))
    case AbstractKey => Str(DefaultOnErr(rd.summary, b, ""))
    case YearKey => Str(DefaultOnErr(rd.year, b1, ""))
    case AuthorsKey => List(DefaultOnErr(rd.authors, b1, []))
    case RelatedKey => DefaultOnErr(page => Listed(rd.related(page)), b2, Str(""))
    case CitationCountKey => Str(DefaultOnErr(rd.citations, b2, ""))
    case ReferenceCountKey => Str(DefaultOnErr(rd.references, b2, ""))
    case ReferencesKey => DefaultOnErr(page => Listed(rd.titles(page)), b2, Str(""))
  }

  /** The dictionary literal of `extract`: every one of the nine fields,
      each read by its extractor. */
  function Assemble<B>(rd: Readers<B>, b: B): (r: Record)
    ensures r.Keys == Keys
    ensures forall k :: k in r ==> r[k] == Field(rd, b, k)
  {
    map k | k in Keys :: Field(rd, b, k)
  }

  /** The extractors of this scraper, on a page described by `dom`. */
  function PageReaders<B, E>(dom: Dom<B, E>): Readers<B>
  {
    Readers(
      page => ExtractId(dom, page),
      page => ExtractTitle(dom, page),
      page => ExtractAbstract(dom, page),
      page => ExtractPublicationYear(dom, page),
      page => ExtractAuthors(dom, page),
      page => ExtractRelatedPapers(dom, page),
      page => ExtractCitationCount(dom, page),
      page => ExtractReferencesCount(dom, page),
      page => GetAllReferenceTitles(dom, page),
      page => Expanded(dom, page, AbstractTogglePath),
      page => Expanded(dom, page, AuthorExpandPath))
  }

  /** `extract`: the record of the page `b`. */
  function Extract<B, E>(dom: Dom<B, E>, b: B): (r: Record)
    ensures r.Keys == Keys
  {
    Assemble(PageReaders(dom), b)
  }

  /** The fields read from the freshly loaded page hold their extractor's
      value when it returns and `''` when it raises. */
  lemma LoadedPageFields<B, E>(dom: Dom<B, E>, b: B)
    ensures var r := Extract(dom, b);
      && (ExtractId(dom, b).Success? ==> r[IdKey] == Str(ExtractId(dom, b).value))
      && (ExtractId(dom, b).Failure? ==> r[IdKey] == Str(""))
      && (ExtractTitle(dom, b).Success? ==> r[TitleKey] == Str(ExtractTitle(dom, b).value))
      && (ExtractTitle(dom, b).Failure? ==> r[TitleKey] == Str(""))
      && (ExtractAbstract(dom, b).Success? ==> r[AbstractKey] == Str(ExtractAbstract(dom, b).value))
      && (ExtractAbstract(dom, b).Failure? ==> r[AbstractKey] == Str(""))
  {
  }

  /** The year and the authors, read after the abstract's expand click,
      hold their extractor's value when it returns; otherwise the year is
      `''` and the authors `[]`. */
  lemma AfterAbstractFields<B, E>(dom: Dom<B, E>, b: B)
    ensures var r := Extract(dom, b);
      var page := AfterAbstract(dom, b);
      && (ExtractPublicationYear(dom, page).Success? ==> r[YearKey] == Str(ExtractPublicationYear(dom, page).value))
      && (ExtractPublicationYear(dom, page).Failure? ==> r[YearKey] == Str(""))
      && (ExtractAuthors(dom, page).Success? ==> r[AuthorsKey] == List(ExtractAuthors(dom, page).value))
      && (ExtractAuthors(dom, page).Failure? ==> r[AuthorsKey] == List([]))
  {
  }

  /** The last four fields, read after the author-list click, hold their
      extractor's value when it returns and `''` when it raises: the
      related papers and the references too, which are lists only on
      success. */
  lemma AfterAuthorsFields<B, E>(dom: Dom<B, E>, b: B)
    ensures var r := Extract(dom, b);
      var page := AfterAuthors(dom, b);
      && (ExtractRelatedPapers(dom, page).Success? ==> r[RelatedKey] == List(ExtractRelatedPapers(dom, page).value))
      && (ExtractRelatedPapers(dom, page).Failure? ==> r[RelatedKey] == Str(""))
      && (ExtractCitationCount(dom, page).Success? ==> r[CitationCountKey] == Str(ExtractCitationCount(dom, page).value))
      && (ExtractCitationCount(dom, page).Failure? ==> r[CitationCountKey] == Str(""))
      && (ExtractReferencesCount(dom, page).Success? ==> r[ReferenceCountKey] == Str(ExtractReferencesCount(dom, page).value))
      && (ExtractReferencesCount(dom, page).Failure? ==> r[ReferenceCountKey] == Str(""))
      && (GetAllReferenceTitles(dom, page).Success? ==> r[ReferencesKey] == List(GetAllReferenceTitles(dom, page).value))
      && (GetAllReferenceTitles(dom, page).Failure? ==> r[ReferencesKey] == Str(""))
  {
  }

  /** A record has nine entries, one per field. */
  lemma NineKeys<B, E>(dom: Dom<B, E>, b: B)
    ensures |Extract(dom, b)| == 9
  {
    assert |Keys| == 9;
  }

  /** In every record the reference count equals the citation count
      unless one of the two fell back to `''`. */
  lemma CountsAgreeOrDefault<B, E>(dom: Dom<B, E>, b: B)
    ensures var r := Extract(dom, b);
      r[ReferenceCountKey] == r[CitationCountKey] || r[ReferenceCountKey] == Str("") || r[CitationCountKey] == Str("")
  {
    var page := AfterAuthors(dom, b);
    if ExtractCitationCount(dom, page).Success? && ExtractReferencesCount(dom, page).Success? {
      ReferenceCountIsCitationCount(dom, page);
    }
  }

  /** The authors entry is always a list and never holds more names than
      the page has author items. */
  lemma AuthorsBounded<B, E>(dom: Dom<B, E>, b: B)
    ensures var r := Extract(dom, b);
      && r[AuthorsKey].List?
      && |r[AuthorsKey].items| <= |dom.findAll(dom.soup(AfterAuthors(dom, b)), AuthorItem)|
  {
  }

  /** When the page keeps its state through both expand clicks (both
      raised), the reference titles `extract` stores line up one to one
      with the reference links the crawl queued from the freshly loaded
      page. */
  lemma TitlesAlignWithLinks<B, E>(dom: Dom<B, E>, b: B)
    requires dom.click(b, AbstractTogglePath).None? && dom.click(b, AuthorExpandPath).None?
    requires GetAllReferenceTitles(dom, AfterAuthors(dom, b)).Success?
    ensures GetAllReferences(dom, b).Success?
    ensures |GetAllReferences(dom, b).value| == |Extract(dom, b)[ReferencesKey].items|
  {
    AfterAuthorsFields(dom, b);
  }
}
