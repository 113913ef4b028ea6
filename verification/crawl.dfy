/** The per-researcher crawl of `main`: a first-in first-out queue of
    paper URLs, seeded from the researcher's list, popped at most 200
    times. A page that loads contributes its reference links at the tail
    of the queue and one record; a page that fails to load contributes
    nothing. There is no visited set, so a URL reached twice is crawled
    twice. The crawl never looks inside a URL, so it is stated for any URL
    type `U` and any record type `R`. */
module Crawl {
  import opened Wrappers
  import opened Extractors
  import opened Aggregate

  /** The number of iterations of the crawl loop, `range(200)`. */
  const Cap: nat := 200

  /** What one iteration learns from a URL: either loading it raised, or
      it loaded and yields the links to queue and the record `extract`
      builds. */
  datatype Visit<U, R> = LoadFailed | Loaded(links: seq<U>, record: R)

  /** The links an iteration appends to the queue. */
  function NewLinks<U, R>(v: Visit<U, R>): seq<U> {
    if v.Loaded? then v.links else []
  }

  /** The records an iteration appends: one when the page loaded. */
  function NewRecords<U, R>(v: Visit<U, R>): seq<R> {
    if v.Loaded? then [v.record] else []
  }

  /** The crawl's state: the queue, the records so far, and (for the
      proofs only) the URLs popped so far, in order. */
  datatype State<U, R> = State(queue: seq<U>, papers: seq<R>, popped: seq<U>)

  /** One iteration on a non-empty queue: pop the head, visit it, append
      its links to the queue and its record to the papers. */
  function Step<U, R>(s: State<U, R>, visit: U -> Visit<U, R>): State<U, R>
    requires |s.queue| > 0
  {
    var top := s.queue[0];
    State(s.queue[1..] + NewLinks(visit(top)), s.papers + NewRecords(visit(top)), s.popped + [top])
  }

  /** An iteration moves one URL from the queue to the popped list and
      appends the links it found after the queue; it adds at most one
      record. */
  lemma StepShape<U, R>(s: State<U, R>, visit: U -> Visit<U, R>)
    requires |s.queue| > 0
    ensures var t := Step(s, visit);
      && t.popped + t.queue == s.popped + s.queue + NewLinks(visit(s.queue[0]))
      && |t.popped| == |s.popped| + 1
      && |s.papers| <= |t.papers| <= |s.papers| + 1
  {
  }

  /** Every iteration pops exactly the head. A load that raised leaves
      the rest of the queue and the records as they were; a load that
      returned queues its links after the rest, in their order, and adds
      exactly its one record. */
  lemma StepOutcome<U, R>(s: State<U, R>, visit: U -> Visit<U, R>)
    requires |s.queue| > 0
    ensures var t := Step(s, visit);
      var top := s.queue[0];
      && t.popped == s.popped + [top]
      && (visit(top).LoadFailed? ==> t.queue == s.queue[1..] && t.papers == s.papers)
      && (visit(top).Loaded? ==>
            && t.queue == s.queue[1..] + visit(top).links
            && t.papers == s.papers + [visit(top).record])
  {
  }

  /** At most `fuel` more iterations, stopping as soon as the queue is
      empty at the start of one. */
  function Run<U, R>(s: State<U, R>, visit: U -> Visit<U, R>, fuel: nat): State<U, R>
    decreases fuel
  {
    if fuel == 0 || |s.queue| == 0 then s
    else Run(Step(s, visit), visit, fuel - 1)
  }

  /** The state the crawl of `seeds` ends in. */
  function Crawled<U, R>(seeds: seq<U>, visit: U -> Visit<U, R>): State<U, R> {
    Run(State(seeds, [], []), visit, Cap)
  }

  /** The links found on the pages `popped`, in the order they were
      popped. */
  function Discovered<U, R>(popped: seq<U>, visit: U -> Visit<U, R>): seq<U>
    decreases |popped|
  {
    if |popped| == 0 then []
    else Discovered(popped[..|popped| - 1], visit) + NewLinks(visit(popped[|popped| - 1]))
  }

  /** The records of the pages `popped` that loaded, in the order they
      were popped. */
  function Records<U, R>(popped: seq<U>, visit: U -> Visit<U, R>): seq<R>
    decreases |popped|
  {
    if |popped| == 0 then []
    else Records(popped[..|popped| - 1], visit) + NewRecords(visit(popped[|popped| - 1]))
  }

  /** The queue discipline: what has been popped followed by what is still
      queued is exactly the seeds followed by every link found so far, and
      the records are those of the popped pages that loaded. */
  ghost predicate Fifo<U, R>(seeds: seq<U>, s: State<U, R>, visit: U -> Visit<U, R>) {
    && s.popped + s.queue == seeds + Discovered(s.popped, visit)
    && s.papers == Records(s.popped, visit)
  }

  /** Popping one more URL extends the links found and the records by
      that page's. */
  lemma PoppedOneMore<U, R>(popped: seq<U>, u: U, visit: U -> Visit<U, R>)
    ensures Discovered(popped + [u], visit) == Discovered(popped, visit) + NewLinks(visit(u))
    ensures Records(popped + [u], visit) == Records(popped, visit) + NewRecords(visit(u))
  {
    assert (popped + [u])[..|popped|] == popped;
  }

  /** Moving the head of `q` to the end of `p` leaves `p + q` as it was. */
  lemma MoveHead<T>(p: seq<T>, q: seq<T>, l: seq<T>)
    requires |q| > 0
    ensures p + [q[0]] + (q[1..] + l) == p + q + l
  {
    assert [q[0]] + q[1..] == q;
  }

  /** An iteration keeps what has been popped followed by what is queued
      equal to the seeds followed by the links found. */
  lemma StepQueue<U, R>(seeds: seq<U>, s: State<U, R>, visit: U -> Visit<U, R>)
    requires |s.queue| > 0
    requires s.popped + s.queue == seeds + Discovered(s.popped, visit)
    ensures var t := Step(s, visit);
      t.popped + t.queue == seeds + Discovered(t.popped, visit)
  {
    var links := NewLinks(visit(s.queue[0]));
    PoppedOneMore(s.popped, s.queue[0], visit);
    MoveHead(s.popped, s.queue, links);
    assert seeds + Discovered(s.popped, visit) + links == seeds + (Discovered(s.popped, visit) + links);
  }

  /** An iteration keeps the queue discipline. */
  lemma StepFifo<U, R>(seeds: seq<U>, s: State<U, R>, visit: U -> Visit<U, R>)
    requires |s.queue| > 0
    requires Fifo(seeds, s, visit)
    ensures Fifo(seeds, Step(s, visit), visit)
  {
    StepQueue(seeds, s, visit);
    PoppedOneMore(s.popped, s.queue[0], visit);
  }

  /** Any number of iterations keeps the queue discipline. */
  lemma {:induction false} RunFifo<U, R>(seeds: seq<U>, s: State<U, R>, visit: U -> Visit<U, R>, fuel: nat)
    requires Fifo(seeds, s, visit)
    ensures Fifo(seeds, Run(s, visit, fuel), visit)
    decreases fuel
  {
    if fuel > 0 && |s.queue| > 0 {
      StepFifo(seeds, s, visit);
      RunFifo(seeds, Step(s, visit), visit, fuel - 1);
    }
  }

  /** Every pop took a URL that was queued at the time: before the `i`-th
      pop, the seeds and the links found so far outnumber the pops. */
  ghost predicate Queued<U, R>(seeds: seq<U>, popped: seq<U>, visit: U -> Visit<U, R>) {
    forall i :: 0 <= i < |popped| ==> i < |seeds| + |Discovered(popped[..i], visit)|
  }

  /** An iteration only pops from a non-empty queue. */
  lemma StepQueued<U, R>(seeds: seq<U>, s: State<U, R>, visit: U -> Visit<U, R>)
    requires |s.queue| > 0
    requires Fifo(seeds, s, visit)
    requires Queued(seeds, s.popped, visit)
    ensures Queued(seeds, Step(s, visit).popped, visit)
  {
    var popped := Step(s, visit).popped;
    assert popped == s.popped + [s.queue[0]];
    assert |s.popped| + |s.queue| == |seeds| + |Discovered(s.popped, visit)|;
    forall i | 0 <= i < |popped|
      ensures i < |seeds| + |Discovered(popped[..i], visit)|
    {
      assert popped[..i] == s.popped[..i];
      if i == |s.popped| {
        assert s.popped[..i] == s.popped;
      }
    }
  }

  /** Any number of iterations only pops from a non-empty queue. */
  lemma {:induction false} RunQueued<U, R>(seeds: seq<U>, s: State<U, R>, visit: U -> Visit<U, R>, fuel: nat)
    requires Fifo(seeds, s, visit)
    requires Queued(seeds, s.popped, visit)
    ensures Queued(seeds, Run(s, visit, fuel).popped, visit)
    decreases fuel
  {
    if fuel > 0 && |s.queue| > 0 {
      StepQueued(seeds, s, visit);
      StepFifo(seeds, s, visit);
      RunQueued(seeds, Step(s, visit), visit, fuel - 1);
    }
  }

  /** `fuel` iterations pop at most `fuel` URLs, and fewer only when the
      queue ran empty; every iteration adds at most one record; and the
      records and the pops so far are kept as they were. */
  lemma {:induction false} RunBudget<U, R>(s: State<U, R>, visit: U -> Visit<U, R>, fuel: nat)
    ensures var t := Run(s, visit, fuel);
      && |s.popped| <= |t.popped| <= |s.popped| + fuel
      && (|t.popped| < |s.popped| + fuel ==> t.queue == [])
      && t.popped[..|s.popped|] == s.popped
      && |s.papers| <= |t.papers|
      && t.papers[..|s.papers|] == s.papers
      && |t.papers| - |s.papers| <= |t.popped| - |s.popped|
    decreases fuel
  {
    if fuel > 0 && |s.queue| > 0 {
      var s' := Step(s, visit);
      RunBudget(s', visit, fuel - 1);
      var t := Run(s', visit, fuel - 1);
      assert t.popped[..|s.popped|] == t.popped[..|s'.popped|][..|s.popped|];
      assert t.papers[..|s.papers|] == t.papers[..|s'.papers|][..|s.papers|];
    }
  }

  /** The whole crawl of a researcher: at most 200 pops, fewer only when
      the queue ran empty, at most one record per pop, URLs popped in
      first-in first-out order with repeats kept, and the records those of
      the popped pages that loaded. */
  lemma CrawlSummary<U, R>(seeds: seq<U>, visit: U -> Visit<U, R>)
    ensures var t := Crawled(seeds, visit);
      && |t.popped| <= Cap
      && (|t.popped| < Cap ==> t.queue == [])
      && |t.papers| <= |t.popped|
      && t.popped + t.queue == seeds + Discovered(t.popped, visit)
      && t.papers == Records(t.popped, visit)
      && Queued(seeds, t.popped, visit)
      && (|seeds| == 0 ==> t.popped == [])
  {
    RunBudget(State(seeds, [], []), visit, Cap);
    RunFifo(seeds, State(seeds, [], []), visit, Cap);
    RunQueued(seeds, State(seeds, [], []), visit, Cap);
  }

  /** `main`'s loop for one researcher: `for _ in range(200)`, stopping
      when the queue is empty, popping the head, loading it, and on
      success extending the queue by its links and appending its record;
      a load that raises is skipped. */
  method Crawl<U, R>(seeds: seq<U>, visit: U -> Visit<U, R>) returns (papers: seq<R>)
    ensures papers == Crawled(seeds, visit).papers
    ensures |papers| <= Cap
    ensures |seeds| == 0 ==> papers == []
  {
    var queue := seeds;
    papers := [];
    ghost var popped: seq<U> := [];
    for i := 0 to Cap
      invariant Run(State(queue, papers, popped), visit, Cap - i) == Crawled(seeds, visit)
    {
      if |queue| == 0 {
        break;
      }
      ghost var before := State(queue, papers, popped);
      var top := queue[0];
      queue := queue[1..];
      popped := popped + [top];
      match visit(top) {
        case LoadFailed =>
        case Loaded(references, record) =>
          queue := queue + references;
          papers := papers + [record];
      }
      assert State(queue, papers, popped) == Step(before, visit);
      assert Run(before, visit, Cap - i) == Run(Step(before, visit), visit, Cap - (i + 1));
    }
    CrawlSummary(seeds, visit);
  }

  /** `main`'s outer loop: one independent crawl per researcher, each with
      a fresh queue and record list. */
  method CrawlAll<U, R>(seedLists: seq<seq<U>>, visit: U -> Visit<U, R>) returns (outputs: seq<seq<R>>)
    ensures |outputs| == |seedLists|
    ensures forall k :: 0 <= k < |seedLists| ==> outputs[k] == Crawled(seedLists[k], visit).papers
  {
    outputs := [];
    for k := 0 to |seedLists|
      invariant |outputs| == k
      invariant forall j :: 0 <= j < k ==> outputs[j] == Crawled(seedLists[j], visit).papers
    {
      var papers := Crawl(seedLists[k], visit);
      ghost var before := outputs;
      outputs := outputs + [papers];
      forall j | 0 <= j < k + 1
        ensures outputs[j] == Crawled(seedLists[j], visit).papers
      {
        if j < k {
          assert outputs[j] == before[j];
        }
      }
    }
  }


  /** A page that links only to itself is crawled on every iteration: with
      no visited set, every pop queues it again. */
  lemma {:induction false} SelfLinkRun<U, R>(a: U, r: R, visit: U -> Visit<U, R>, papers: seq<R>, popped: seq<U>, fuel: nat)
    requires visit(a) == Loaded([a], r)
    ensures Run(State([a], papers, popped), visit, fuel)
         == State([a], papers + seq(fuel, _ => r), popped + seq(fuel, _ => a))
    decreases fuel
  {
    if fuel > 0 {
      assert Step(State([a], papers, popped), visit) == State([a], papers + [r], popped + [a]);
      SelfLinkRun(a, r, visit, papers + [r], popped + [a], fuel - 1);
      assert papers + [r] + seq(fuel - 1, _ => r) == papers + seq(fuel, _ => r);
      assert popped + [a] + seq(fuel - 1, _ => a) == popped + seq(fuel, _ => a);
    }
  }

  /** The self-linking page yields 200 copies of its record. */
  lemma SelfLinkCrawled<U, R>(a: U, r: R, visit: U -> Visit<U, R>)
    requires visit(a) == Loaded([a], r)
    ensures Crawled([a], visit).papers == seq(Cap, _ => r)
  {
    SelfLinkRun(a, r, visit, [], [], Cap);
  }

  /** A page `a` linking to `b` and `c`, where `b` fails to load and `c`
      loads without links: the crawl pops `a`, `b`, `c` in that order,
      records `a` and `c`, and stops with an empty queue. */
  lemma SkipFailedLoad<U, R>(a: U, b: U, c: U, ra: R, rc: R, visit: U -> Visit<U, R>)
    requires visit(a) == Loaded([b, c], ra)
    requires visit(b) == LoadFailed
    requires visit(c) == Loaded([], rc)
    ensures Crawled([a], visit) == State([], [ra, rc], [a, b, c])
  {
    var s1 := Step(State([a], [], []), visit);
    assert s1 == State([b, c], [ra], [a]);
    var s2 := Step(s1, visit);
    assert s2 == State([c], [ra], [a, b]);
    var s3 := Step(s2, visit);
    assert s3 == State([], [ra, rc], [a, b, c]);
    assert Run(s3, visit, Cap - 3) == s3;
    assert Run(s2, visit, Cap - 2) == s3;
    assert Run(s1, visit, Cap - 1) == s3;
  }

  /** The visit of one URL in this scraper: `load` says which page
      `driver.get` reaches, or that loading raised. A loaded page yields
      `default_on_err(get_all_references, driver, [])` as its links (none
      when they cannot be read) and `extract(driver)` as its record. */
  function PageVisit<B, E>(dom: Dom<B, E>, load: string -> Option<B>, url: string): (v: Visit<string, Record>)
    ensures load(url).None? <==> v.LoadFailed?
    ensures v.Loaded? && GetAllReferences(dom, load(url).value).Success? ==>
      v.links == GetAllReferences(dom, load(url).value).value
    ensures v.Loaded? && GetAllReferences(dom, load(url).value).Failure? ==> v.links == []
    ensures v.Loaded? ==> v.record == Extract(dom, load(url).value)
  {
    match load(url)
    case None => LoadFailed
    case Some(page) =>
      var references := DefaultOnErr(p => GetAllReferences(dom, p), page, []);
      Loaded(references, Extract(dom, page))
  }

  /** The records of the popped pages all satisfy what every loaded page's
      record satisfies. */
  lemma {:induction false} RecordsAll<U, R>(popped: seq<U>, visit: U -> Visit<U, R>, ok: R -> bool)
    requires forall u :: visit(u).Loaded? ==> ok(visit(u).record)
    ensures forall k :: 0 <= k < |Records(popped, visit)| ==> ok(Records(popped, visit)[k])
    decreases |popped|
  {
    if |popped| > 0 {
      RecordsAll(popped[..|popped| - 1], visit, ok);
    }
  }

  /** Every record the scraper crawls has exactly the nine keys. */
  lemma CrawledRecordsComplete<B, E>(dom: Dom<B, E>, load: string -> Option<B>, seeds: seq<string>)
    ensures var papers := Crawled(seeds, url => PageVisit(dom, load, url)).papers;
      forall k :: 0 <= k < |papers| ==> papers[k].Keys == Keys
  {
    var visit := url => PageVisit(dom, load, url);
    CrawlSummary(seeds, visit);
    RecordsAll(Crawled(seeds, visit).popped, visit, (r: Record) => r.Keys == Keys);
  }
}
