# Citation-graph scraper, modelled in Dafny

The scraper crawls an academic paper site breadth first. For each researcher
it seeds a first-in first-out queue with paper URLs and pops at most 200 of
them. Each popped page that loads contributes two things:

- the links of the papers it cites, appended at the tail of the queue;
- one record of nine fields, built by `extract`.

There is no visited set, so a paper reached twice is crawled twice. Every
field extractor may fail. `default_on_err` turns each failure into that
field's default, so a record always has all nine fields.

The model has seven modules:

- `Wrappers` (`wrappers.dfy`): `Option` and `Result`. `PyError` names the
  three ways an extractor raises: a wait that times out, an attribute read
  on `None`, and an index out of range.
- `PySplit` (`py_split.dfy`): Python's `str.split` with a non-empty
  separator. It is a left-to-right scan for the leftmost occurrence.
  `sep.join` undoes it.
- `PostProcess` (`post_process.dfy`): the string rules applied to element
  texts. These are `split(': ')[1]` for the corpus id, `split(' ')[-1]` for
  the year, and `split(' ')[0]` for the two counts.
- `Comprehensions` (`comprehensions.dfy`): the list comprehensions of the
  extractors. One filters and one maps; a map in which one item raises makes
  the whole comprehension raise.
- `Extractors` (`extractors.dfy`): the nine extractors and
  `get_all_references`.
  - The browser and the parsed page are an oracle `Dom`. It says which
    locators are present, what `find`, `find_all`, `.text` and `href`
    return, where `urljoin` leads, and which page state a click leads to.
  - The queries, XPath locators and base URL are the source's own
    constants.
- `Aggregate` (`aggregate.dfy`): `default_on_err` and `extract`.
  - The record is a map from the nine fields to a string or a list of
    strings.
  - The fields are read in the order of the dictionary literal. The
    abstract's expand click happens before the year is read, and the author
    list's click happens before the last four fields are read.
- `Crawl` (`crawl.dfy`): the per-researcher loop of `main`, as a method over
  a `seq` queue, proved against a step function `Step`/`Run`. Also the outer
  loop over researchers. The crawl is stated for any URL type and any record
  type. `PageVisit` instantiates it with this scraper's loader and `extract`.

Two behaviours of the code look unintended; the model follows the code as
written:

- `extract_references_count` waits for the cited-papers link but reads the
  citing-papers link (main.py:93-95). The model reads the citing-papers link,
  and `Extractors.ReferenceCountIsCitationCount` proves the consequence.
- `related papers` and `references` default to `''`, not to an empty list
  (main.py:121, main.py:124). The record value is therefore a string in that
  case.

## Model

| member | source | states |
|---|---|---|
| PySplit.Find | main.py:57 | the index found is an occurrence of the separator and no earlier index is one; no index means the separator does not occur |
| PySplit.Split | main.py:57 | there is at least one piece; the first piece holds no occurrence of the separator; joining the pieces with the separator gives back the string |
| PySplit.SplitPiecesFree | main.py:83 | no piece of a split contains the separator |
| PySplit.FirstPiece | main.py:89 | the first piece is a prefix of the string; it is the whole string when there is one piece, and it is followed by the separator otherwise |
| PySplit.SplitFree | main.py:89 | a string without the separator splits into itself alone |
| PySplit.SplitJoin | main.py:83 | for a one-character separator, splitting the join of separator-free pieces gives back the pieces |
| PySplit.JoinLast | main.py:83 | a join is the join of all pieces but the last, then the separator, then the last piece |
| PySplit.FreeChar | main.py:83 | a one-character separator does not occur exactly when the character is absent |
| PostProcess.CorpusId | main.py:57 | `split(': ')[1]` succeeds exactly when `': '` occurs, and raises an index error otherwise; the id is what follows the first `': '` up to the next `': '` or the end of the text |
| PostProcess.Splits | main.py:57 | a split has a second piece exactly when the separator occurs |
| PostProcess.SecondSegment | main.py:57 | the second piece starts right after the leftmost occurrence and runs to the next occurrence or the end |
| PostProcess.Year | main.py:83 | `split(' ')[-1]` is the longest space-free suffix of the text: it holds no space, and it is the whole text or is preceded by a space |
| PostProcess.YearIdempotent | main.py:83 | applying the year rule to a year changes nothing |
| PostProcess.Count | main.py:89 | `split(' ')[0]` is the longest space-free prefix of the text: it holds no space, and it is the whole text or is followed by a space |
| PostProcess.CountIdempotent | main.py:95 | applying the count rule to a count changes nothing |
| PostProcess.CountOfLabel | main.py:95 | a space-free count followed by a space and any words gives back the count |
| Comprehensions.Filter | main.py:51 | the kept items all pass the test, are items of the input, and include every input item that passes; there are never more kept items than input items |
| Comprehensions.FilterAppend | main.py:51 | filtering distributes over concatenation, so the kept items keep their relative order |
| Comprehensions.FilterAll | main.py:51 | when every item passes, the filter keeps the list as it is |
| Comprehensions.MapAll | main.py:104 | the comprehension succeeds exactly when the function succeeds on every item, giving one result per item in order; otherwise it raises the error of the first failing item |
| Extractors.Wait | main.py:28 | a presence wait succeeds exactly when the locator is present, and times out otherwise |
| Extractors.FindElem | main.py:57 | `find` followed by an attribute read succeeds exactly when an element is found; otherwise it raises an attribute error on `None` |
| Extractors.Chain | main.py:77 | a chain of `find` calls fails with an attribute error, and fails whenever its first query finds nothing |
| Extractors.ChainOne | main.py:57 | a chain of one query is a single `find` |
| Extractors.ChainAppend | main.py:83 | following two chains in a row is following the first and then the second from the element it reached; a break anywhere in the first fails the whole chain |
| Extractors.TextAt | main.py:77 | the text at the end of a chain is read exactly when the chain succeeds |
| Extractors.Expanded | main.py:42-48 | a click that raised is swallowed and leaves the page as it was; otherwise the page becomes the clicked one |
| Extractors.CitationAnchors | main.py:28-31 | the citation-title anchors are read exactly when the cited-papers marker is present and the section is found |
| Extractors.GetAllReferences | main.py:26-31 | one absolute URL per citation-title anchor, in page order, each joined to the base URL |
| Extractors.HeadingText | main.py:37 | an anchor's `h3` text is read exactly when it has an `h3` |
| Extractors.GetAllReferenceTitles | main.py:34-37 | one title per citation-title anchor, in page order; raises when an anchor has no `h3` |
| Extractors.LinkedItems | main.py:50-51 | the kept author items are exactly those of the author items that contain a link, in page order (so `Comprehensions.Filter` and `Comprehensions.FilterAppend` apply); there are no more of them than author items |
| Extractors.AuthorsOnPage | main.py:49-51 | one name per linked author item, in order, at most one per author item; raises an attribute error when one kept item lacks its nested spans |
| Extractors.ExtractAuthors | main.py:40-51 | the names are read from the page the expand click reached, or from the page as it was when the click raised; only attribute errors are raised; the names are at most the author items of the expanded page |
| Extractors.ExtractId | main.py:54-57 | succeeds exactly when the corpus-id marker and item are present and its text contains `': '`, and then yields the id rule's result |
| Extractors.ExtractTitle | main.py:60-64 | succeeds exactly when the title marker and heading are present, and yields the heading's text |
| Extractors.ExtractAbstract | main.py:67-77 | after the guarded expand click, succeeds exactly when the abstract's nested span is found, and yields that span's text; only attribute errors are raised |
| Extractors.ExtractPublicationYear | main.py:80-83 | succeeds exactly when the year marker and nested spans are present; the year is the part of the span's text after its last space (the whole text when there is none) |
| Extractors.CitingCount | main.py:89 | the count is read exactly when the citing-papers link has a span; it is the part of that span's text before its first space (the whole text when there is none) |
| Extractors.ExtractCitationCount | main.py:86-89 | succeeds exactly when the citing-papers marker is present and its count can be read, and yields that count |
| Extractors.ExtractReferencesCount | main.py:92-95 | succeeds exactly when the cited-papers marker is present and the citing-papers count can be read, and yields the citing-papers count |
| Extractors.ExtractRelatedPapers | main.py:98-104 | succeeds exactly when the list is present and every paper card has its nested title; then one title per card, in order |
| Extractors.ReferenceCountIsCitationCount | main.py:86-95 | when both count extractors succeed on a page, the reference count equals the citation count |
| Aggregate.KeyName | main.py:116-124 | the dictionary key of each field; `Aggregate.KeyNamesDistinct` states that the nine keys are distinct |
| Aggregate.KeyNamed | main.py:115-125 | a dictionary key that names a field names exactly that field |
| Aggregate.KeyNamesDistinct | main.py:115-125 | every field is found again from its dictionary key, so the nine keys are distinct |
| Aggregate.DefaultOnErr | main.py:107-111 | the function's value when it returns, the default when it raises; it never raises |
| Aggregate.Listed | main.py:121 | a list-valued extractor's result becomes a list value exactly when it succeeds |
| Aggregate.AfterAbstract | main.py:118 | the page after the abstract's guarded expand click: the clicked page, or the page as it was when the click raised |
| Aggregate.AfterAuthors | main.py:118-120 | the page after both guarded expand clicks, the abstract's first: the author click's page when it succeeds; the page the abstract click left when the author click raised; the page as it was when both raised |
| Aggregate.Field | main.py:116-124 | each field holds its extractor's value or its default (`[]` for the authors, `''` for every other field); each extractor reads the page after the clicks of the extractors before it |
| Aggregate.Assemble | main.py:115-125 | the record has exactly the nine fields, and each holds that field's value |
| Aggregate.PageReaders | main.py:116-124 | the nine extractors `extract` calls and the two clicks; `Aggregate.LoadedPageFields`, `Aggregate.AfterAbstractFields` and `Aggregate.AfterAuthorsFields` state which page each field is read from |
| Aggregate.Extract | main.py:114-125 | `extract` always returns a record with exactly the nine fields |
| Aggregate.LoadedPageFields | main.py:116-118 | the id, title and abstract hold their extractor's value, or `''` when it raised |
| Aggregate.AfterAbstractFields | main.py:119-120 | the year holds its value or `''`, and the authors their list or `[]`, both read after the abstract's click |
| Aggregate.AfterAuthorsFields | main.py:121-124 | the last four fields hold their extractor's value or `''`, read after the author list's click; the related papers and references are lists only on success |
| Aggregate.NineKeys | main.py:115-125 | a record has nine entries |
| Aggregate.CountsAgreeOrDefault | main.py:122-123 | in every record, the reference count equals the citation count unless one of them fell back to `''` |
| Aggregate.AuthorsBounded | main.py:120 | the authors entry is always a list, with no more names than the page has author items |
| Aggregate.TitlesAlignWithLinks | main.py:144 | when both expand clicks raised and the reference titles can be read, the reference links the crawl queues from the freshly loaded page can be read too, and there are as many links as titles in the record |
| Crawl.Step | main.py:138-148 | one iteration on a non-empty queue; `Crawl.StepShape` and `Crawl.StepOutcome` state what it does |
| Crawl.StepShape | main.py:138-148 | one iteration pops exactly one URL; what was popped followed by the queue grows by exactly the page's links; at most one record is added |
| Crawl.StepOutcome | main.py:141-146 | an iteration pops exactly the head; a failed load adds no link and no record; a successful load queues its links after the rest, in order, and adds exactly one record |
| Crawl.PoppedOneMore | main.py:145-146 | popping one more page extends the links found and the records by that page's |
| Crawl.StepQueue | main.py:141-145 | an iteration keeps the URLs popped followed by the queue equal to the seeds followed by every link found |
| Crawl.StepFifo | main.py:141-146 | an iteration keeps the queue discipline and keeps the records equal to those of the popped pages that loaded |
| Crawl.RunFifo | main.py:137-146 | any number of iterations keeps the queue discipline |
| Crawl.StepQueued | main.py:138-141 | an iteration pops only a URL that was queued: the i-th pop comes after fewer than the seeds plus the links found by the first i pops |
| Crawl.RunQueued | main.py:137-141 | any number of iterations pops only URLs that were queued, so no pop happens on an empty queue |
| Crawl.Run | main.py:137-139 | `for _ in range(200)` with its `break` on an empty queue; `Crawl.RunBudget`, `Crawl.RunFifo` and `Crawl.RunQueued` state what it does |
| Crawl.RunBudget | main.py:137-146 | n iterations pop at most n URLs, and fewer only when the queue ran empty; records and pops only grow; each pop adds at most one record |
| Crawl.Crawled | main.py:133-148 | the state one researcher's crawl ends in; `Crawl.CrawlSummary` states what it holds |
| Crawl.CrawlSummary | main.py:133-148 | at most 200 pops, fewer only when the queue ran empty; no more records than pops; first-in first-out order with repeats kept; the records are those of the popped pages that loaded; each pop took a URL that was queued, so nothing is popped from an empty queue and empty seeds give no pops |
| Crawl.Crawl | main.py:133-148 | the loop computes the records of the crawl; there are at most 200; empty seeds give no records |
| Crawl.CrawlAll | main.py:132-149 | one independent crawl per researcher, each from a fresh queue and record list |
| Crawl.SelfLinkRun | main.py:141-146 | a page that links only to itself is popped and recorded on every iteration |
| Crawl.SelfLinkCrawled | main.py:137-146 | a page that links only to itself yields 200 copies of its record, because nothing is deduplicated |
| Crawl.SkipFailedLoad | main.py:142-148 | when a page fails to load it is popped and skipped, and the crawl goes on with the next URL |
| Crawl.PageVisit | main.py:143-146 | a load that raised is a failed visit; a loaded page's links are the reference links, or none when they cannot be read, and its record is `extract`'s |
| Crawl.RecordsAll | main.py:146 | every record of the popped pages satisfies what every loaded page's record satisfies |
| Crawl.CrawledRecordsComplete | main.py:146 | every record the scraper collects has exactly the nine fields |

## Left out

- `get_and_scroll_down` (main.py:14-23) is not modelled. Its loop stops on
  page heights the browser reports, and it sleeps. Loading a URL is an oracle
  `load` that returns the page reached, or nothing when loading raised. The
  oracle always answers, while the scroll loop (main.py:17-23) might never
  end.
- The page is a snapshot that changes only through the two expand clicks.
  In the program each extractor reads `driver.page_source` afresh, later
  than the one before it, while sections may still be rendering. The lemmas
  `Extractors.ReferenceCountIsCitationCount`,
  `Aggregate.CountsAgreeOrDefault` and `Aggregate.TitlesAlignWithLinks`
  rely on this: they compare two reads of one page state.
- `Extractors.Expanded` makes a raised click leave the page as it was, even
  though `move_to_element(...).perform()` has already run (main.py:45-46).
  `Extractors.ExtractAuthors`, `Extractors.ExtractAbstract` and
  `Aggregate.AfterAuthors` rely on this.
- Which page a URL leads to is a function of the URL alone. The model does
  not capture that the one browser session carries state from page to page
  and across researchers.
- The Selenium waits, clicks, `ActionChains` and page source are the oracle
  `Dom`. Timeouts are outcomes of that oracle, not of a clock.
- BeautifulSoup's `find`, `find_all` and `.text` are oracle accessors. A bs4
  element is treated as always truthy, so `if result.find('a')` keeps
  exactly the items where a link is found.
- `urljoin` (section 5.2 of RFC 3986) is an uninterpreted function of the
  oracle.
- Reading the seed files, stripping their lines, `json.dump` of the records,
  `tqdm` progress and `sleep` are I/O and timing. The crawl takes the seed
  list as a parameter and returns the records.
- A record is a map from the nine fields, so it has no key order. The
  dictionary literal's insertion order (main.py:115-125), which `json.dump`
  writes, is not modelled.
- The list of five researchers is a parameter of `Crawl.CrawlAll`, not a
  constant.
- An exception other than those raised by the load cannot escape the loop
  body. `default_on_err` catches every failure of `get_all_references` and
  of `extract`'s fields, so the model has no such path.
- Python's `str.split` with no argument, or with an empty separator, is not
  used by the source and is not modelled.
