/**
 * The crawler over a fetcher that goes through the page cache: a chain of calls whose lookups show one
 * archive is a chain of calls of that archive.
 */
module CachedCrawl {
  import opened Basics
  import opened RawPosts
  import opened CrawlModel
  import opened CrawlTurns
  import opened PageCache
  import CrawlChain
  import Crawler

  type Parser = Body -> Option<seq<RawPost>>

  /** The clock readings of one fetch, and what the source would answer then. */
  datatype Reading = Reading(nowGet: Instant, upstream: Option<Body>, nowPut: Instant)

  /** The cache a crawler sits on. */
  datatype Setup = Setup(ttl: int, sortId: int, parse: Parser)

  function CallFor(e: Setup, page: nat, r: Reading): Call {
    Call(e.sortId, page, r.nowGet, r.upstream, r.nowPut)
  }

  /** A fetched body, parsed. */
  function Parsed(e: Setup, body: Option<Body>, page: nat): Result<seq<RawPost>, CrawlError> {
    match body
    case None => Err(FetchFailed(page))
    case Some(b) =>
      match e.parse(b)
      case None => Err(ParseFailed(page))
      case Some(rows) => Ok(rows)
  }

  /** The outcome of a call, and the fetches it made; no outcome when it was abandoned before a fetch. */
  datatype Run = Run(res: Option<Result<Response, CrawlError>>, fetches: seq<Call>)

  /** The page walk after the fetches in `past`, with one reading for each fetch still to come. */
  function CachedWalk(e: Setup, k: Task, past: seq<Call>, w: Walk, env: seq<Reading>): Run
    requires |w.posts| < k.budget
    decreases |env|
  {
    if env == [] then Run(None, [])
    else
      var c := CallFor(e, w.at.page, env[0]);
      match TurnOn(k, w, Parsed(e, Served(Trace(e.ttl, past), c), w.at.page))
      case Stops(res) => Run(Some(res), [c])
      case GoesOn(next) => Behind([c], CachedWalk(e, k, past + [c], next, env[1..]))
  }

  /** The outcome with the fetches that came before. */
  function Behind(fetches: seq<Call>, run: Run): Run {
    Run(run.res, fetches + run.fetches)
  }

  /** The walk as a loop over a real cache. */
  method WalkThroughCache(cache: Cache, e: Setup, k: Task, skip: nat, env: seq<Reading>, ghost past: seq<Call>)
      returns (res: Option<Result<Response, CrawlError>>, ghost fetches: seq<Call>)
    requires k.budget >= 1 && cache.ttl == e.ttl && cache.items == Trace(e.ttl, past)
    modifies cache
    ensures Run(res, fetches) == CachedWalk(e, k, past, Walk(Position(k.from, skip, 0), []), env)
    ensures cache.items == Trace(e.ttl, past + fetches)
  {
    ghost var goal := CachedWalk(e, k, past, Walk(Position(k.from, skip, 0), []), env);
    var posts: seq<RawPost> := [];
    var page: nat, left: nat, consecutiveEmpty: nat := k.from, skip, 0;
    fetches := [];
    assert past + [] == past && [] + goal.fetches == goal.fetches && env[0..] == env;
    for i := 0 to |env|
      invariant |posts| < k.budget && cache.items == Trace(e.ttl, past + fetches)
      invariant goal == Behind(fetches, CachedWalk(e, k, past + fetches,
                                                   Walk(Position(page, left, consecutiveEmpty), posts), env[i..]))
    {
      var c := CallFor(e, page, env[i]);
      ghost var before := fetches;
      TraceGrows(e.ttl, past, fetches, c);
      var body := cache.Fetch(c);
      fetches := fetches + [c];
      var stop;
      posts, consecutiveEmpty, stop := Crawler.VisitPage(k, Parsed(e, body, page), page, left, consecutiveEmpty, posts);
      if stop.Some? {
        BehindBehind(before, c, Run(stop, []));
        return stop, fetches;
      }
      BehindBehind(before, c, CachedWalk(e, k, past + fetches, Walk(Position(page + 1, 0, consecutiveEmpty), posts),
                                         env[i + 1..]));
      page, left := page + 1, 0;
      assert env[i..][1..] == env[i + 1..];
    }
    assert fetches + [] == fetches;
    res := None;
  }

  lemma BehindBehind(x: seq<Call>, c: Call, run: Run)
    ensures Behind(x, Behind([c], run)) == Behind(x + [c], run)
    ensures Behind(x, Run(run.res, [c])) == Run(run.res, x + [c])
  {
    assert x + ([c] + run.fetches) == (x + [c]) + run.fetches;
  }

  lemma TraceGrows(ttl: int, past: seq<Call>, fetches: seq<Call>, c: Call)
    ensures past + (fetches + [c]) == (past + fetches) + [c]
    ensures Trace(ttl, past + (fetches + [c])) == AfterFetch(Trace(ttl, past + fetches), ttl, c)
  {
    assert past + (fetches + [c]) == (past + fetches) + [c];
    assert ((past + fetches) + [c])[..|past + fetches|] == past + fetches;
  }

  // ----- what the walk is shown -----

  /** What lookup n shows the crawler of its page: the rows of the body it is served, if that parses. */
  function ShownAt(e: Setup, calls: seq<Call>, n: nat): Option<seq<RawPost>>
    requires n < |calls|
  {
    match ServedAt(e.ttl, calls, n)
    case None => None
    case Some(b) => e.parse(b)
  }

  /** Lookup n is for a page of this setup. */
  predicate Here(e: Setup, c: Call) {
    c.sortId == e.sortId && c.page >= 0
  }

  /** Every page that lookups from number m on show is the page of this archive. */
  ghost predicate Shows(e: Setup, calls: seq<Call>, m: nat, a: Archive) {
    forall n :: m <= n < |calls| && Here(e, calls[n]) && ShownAt(e, calls, n).Some? ==>
      ShownAt(e, calls, n).value == PageAt(a, calls[n].page)
  }

  /** What a fetch gives the crawler: the page of the archive, or a failure of the source or of the body. */
  lemma FetchIsShown(e: Setup, past: seq<Call>, c: Call, later: seq<Call>, a: Archive)
    requires Shows(e, past + [c] + later, |past|, a) && Here(e, c)
    ensures var got := Parsed(e, Served(Trace(e.ttl, past), c), c.page);
            got in {Err(FetchFailed(c.page)), Err(ParseFailed(c.page)), Ok(PageAt(a, c.page))}
  {
    var calls, n := past + [c] + later, |past|;
    assert calls[..n] == past && calls[n] == c;
    assert Here(e, calls[n]) && ShownAt(e, calls, n).Some? ==> ShownAt(e, calls, n).value == PageAt(a, calls[n].page);
  }

  /** What is shown up to a lookup does not depend on the calls after it. */
  lemma ShownBefore(e: Setup, calls: seq<Call>, more: seq<Call>, n: nat)
    requires n < |calls|
    ensures (calls + more)[n] == calls[n] && ShownAt(e, calls + more, n) == ShownAt(e, calls, n)
  {
    assert (calls + more)[..n] == calls[..n];
  }

  lemma ShowsPart(e: Setup, calls: seq<Call>, more: seq<Call>, m: nat, a: Archive)
    requires Shows(e, calls + more, m, a)
    ensures Shows(e, calls, m, a)
    ensures m <= |calls| ==> Shows(e, calls + more, |calls|, a)
  {
    forall n | m <= n < |calls| && Here(e, calls[n]) && ShownAt(e, calls, n).Some?
      ensures ShownAt(e, calls, n).value == PageAt(a, calls[n].page)
    {
      ShownBefore(e, calls, more, n);
    }
  }

  // ----- one walk -----

  /** The fetches of a walk are for its pages, one after the other. */
  ghost predicate PageByPage(e: Setup, fetches: seq<Call>, from: nat) {
    forall i :: 0 <= i < |fetches| ==> fetches[i].sortId == e.sortId && fetches[i].page == from + i
  }

  /** The upstream that stands for what a walk met: the archive, with the page that failed, if one did. */
  ghost predicate Stands(up: Upstream, a: Archive, from: nat) {
    up.archive == a && forall p :: p in up.fetchFails + up.parseFails ==> p >= from
  }

  lemma ConsPages(e: Setup, c: Call, fetches: seq<Call>, from: nat)
    requires c.sortId == e.sortId && c.page == from && PageByPage(e, fetches, from + 1)
    ensures PageByPage(e, [c] + fetches, from)
  {
  }

  /** A turn on a page that the archive shows, or on a failure. */
  ghost predicate TurnsOn(k: Task, a: Archive, start: Position, w: Walk, turn: Turn)
    requires k.budget >= 1
  {
    turn in {Stops(Err(FetchFailed(w.at.page))), Stops(Err(ParseFailed(w.at.page)))} || Leads(k, a, start, w, turn)
  }

  lemma TurnIsShown(e: Setup, k: Task, past: seq<Call>, start: Position, w: Walk, c: Call, later: seq<Call>, a: Archive)
    requires UnderWay(k, w) && StandsAt(k, a, start, w)
    requires Shows(e, past + [c] + later, |past|, a) && c.sortId == e.sortId && c.page == w.at.page
    ensures TurnsOn(k, a, start, w, TurnOn(k, w, Parsed(e, Served(Trace(e.ttl, past), c), w.at.page)))
  {
    FetchIsShown(e, past, c, later, a);
    TurnLeads(k, a, start, w);
  }

  /** What a stop on such a turn returns is what the page walk of some upstream returns. */
  lemma StopIsShown(k: Task, start: Position, w: Walk, a: Archive, res: Result<Response, CrawlError>)
      returns (up: Upstream)
    requires UnderWay(k, w) && StandsAt(k, a, start, w) && TurnsOn(k, a, start, w, Stops(res))
    ensures Stands(up, a, w.at.page)
    ensures res == Guarded(up, k.from, Goal(k, a, start)) && PagesFetched(res, k.from) == w.at.page - k.from + 1
  {
    if res == Err(FetchFailed(w.at.page)) {
      up := Upstream(a, {w.at.page}, {});
      FailingTurnAnswers(k, up, start, w);
    } else if res == Err(ParseFailed(w.at.page)) {
      up := Upstream(a, {}, {w.at.page});
      FailingTurnAnswers(k, up, start, w);
    } else {
      up := Upstream(a, {}, {});
      HeldPagesAnswer(up, k.from, Goal(k, a, start));
    }
  }

  /** What the walk returns, if it was not abandoned, is what the page walk of that upstream returns. */
  ghost predicate RunsOn(e: Setup, k: Task, start: Position, w: Walk, a: Archive, run: Run, up: Upstream)
    requires k.budget >= 1
  {
    && Stands(up, a, w.at.page)
    && PageByPage(e, run.fetches, w.at.page)
    && (run.res.Some? ==>
          && run.res.value == Guarded(up, k.from, Goal(k, a, start))
          && PagesFetched(run.res.value, k.from) == w.at.page - k.from + |run.fetches|)
  }

  lemma RunsOnFrom(e: Setup, k: Task, start: Position, w: Walk, next: Walk, a: Archive, c: Call, rest: Run,
                   up: Upstream)
    requires k.budget >= 1 && next.at.page == w.at.page + 1 && c.sortId == e.sortId && c.page == w.at.page
    requires RunsOn(e, k, start, next, a, rest, up)
    ensures RunsOn(e, k, start, w, a, Behind([c], rest), up)
  {
    ConsPages(e, c, rest.fetches, w.at.page);
  }

  /** What the walk through the cache returns is what the page walk of one upstream with the archive returns. */
  lemma {:induction false} WalkIsShown(e: Setup, k: Task, past: seq<Call>, start: Position, w: Walk, env: seq<Reading>,
                                       a: Archive, run: Run) returns (up: Upstream)
    requires UnderWay(k, w) && StandsAt(k, a, start, w)
    requires run == CachedWalk(e, k, past, w, env) && Shows(e, past + run.fetches, |past|, a)
    ensures RunsOn(e, k, start, w, a, run, up)
    decreases |env|
  {
    up := Upstream(a, {}, {});
    if env != [] {
      var c := CallFor(e, w.at.page, env[0]);
      var turn := TurnOn(k, w, Parsed(e, Served(Trace(e.ttl, past), c), w.at.page));
      assert past + run.fetches == past + [c] + run.fetches[1..];
      TurnIsShown(e, k, past, start, w, c, run.fetches[1..], a);
      match turn
      case Stops(res) =>
        up := StopIsShown(k, start, w, a, res);
      case GoesOn(next) =>
        var rest := CachedWalk(e, k, past + [c], next, env[1..]);
        assert past + run.fetches == past + [c] + rest.fetches;
        ShowsLater(e, past + run.fetches, |past|, a);
        up := WalkIsShown(e, k, past + [c], start, next, env[1..], a, rest);
        RunsOnFrom(e, k, start, w, next, a, c, rest, up);
    }
  }

  lemma ShowsLater(e: Setup, calls: seq<Call>, m: nat, a: Archive)
    requires Shows(e, calls, m, a)
    ensures Shows(e, calls, m + 1, a)
  {
  }

  // ----- a whole call -----

  /** One crawl request, and the readings its fetches meet. */
  datatype Request = Request(pageSize: int, cutoff: Option<Instant>, env: seq<Reading>)

  function TaskOf(cfg: Config, c: Cursor, q: Request): Task {
    Task(EmptyRun(cfg.threshold), ClampPageSize(q.pageSize), q.cutoff, cfg.floorReason, Resume(c).page)
  }

  function CachedAnswer(e: Setup, cfg: Config, past: seq<Call>, cursor: string, q: Request): Run {
    match ParseCursor(cursor)
    case None => Run(Some(Err(MalformedCursor)), [])
    case Some(c) => CachedWalk(e, TaskOf(cfg, c, q), past, Walk(Resume(c), []), q.env)
  }

  /** A call through the cache, as it is written. */
  method CrawlThroughCache(cache: Cache, e: Setup, cfg: Config, cursor: string, q: Request, ghost past: seq<Call>)
      returns (res: Option<Result<Response, CrawlError>>, ghost fetches: seq<Call>)
    requires cache.ttl == e.ttl && cache.items == Trace(e.ttl, past)
    modifies cache
    ensures Run(res, fetches) == CachedAnswer(e, cfg, past, cursor, q)
    ensures cache.items == Trace(e.ttl, past + fetches)
  {
    var parsed := ParseCursor(cursor);
    if parsed.None? {
      assert past + [] == past;
      return Some(Err(MalformedCursor)), [];
    }
    res, fetches := WalkThroughCache(cache, e, TaskOf(cfg, parsed.value, q), Resume(parsed.value).skip, q.env, past);
  }

  /** The fetches of a call: one for each page from the first to the last, or to the one that failed. */
  ghost predicate FetchesPages(e: Setup, res: Result<Response, CrawlError>, fetches: seq<Call>, from: nat) {
    PageByPage(e, fetches, from) && |fetches| == PagesFetched(res, from)
  }

  /**
   * A call whose fetches show the pages of one archive fetches the pages from its start to its last
   * page once each, and returns what the crawler returns on an upstream that holds the archive and
   * fails where a fetch failed or its body did not parse.
   */
  lemma CallIsShown(e: Setup, cfg: Config, past: seq<Call>, cursor: string, q: Request, a: Archive)
      returns (up: Upstream)
    requires CachedAnswer(e, cfg, past, cursor, q).res.Some?
    requires Shows(e, past + CachedAnswer(e, cfg, past, cursor, q).fetches, |past|, a)
    ensures up.archive == a
    ensures var run := CachedAnswer(e, cfg, past, cursor, q);
            && run.res.value == Answer(cfg, up, q.pageSize, cursor, q.cutoff)
            && match ParseCursor(cursor)
               case None => run.fetches == []
               case Some(c) => FetchesPages(e, run.res.value, run.fetches, Resume(c).page)
  {
    up := Upstream(a, {}, {});
    if ParseCursor(cursor).Some? {
      var c := ParseCursor(cursor).value;
      var k := TaskOf(cfg, c, q);
      Starts(k, a, Resume(c));
      up := WalkIsShown(e, k, past, Resume(c), Walk(Resume(c), []), q.env, a, CachedAnswer(e, cfg, past, cursor, q));
      assert Goal(k, a, Resume(c)) == Clean(cfg, a, c, k.budget, q.cutoff);
    }
  }

  // ----- chains of calls -----

  /** All fetches so far, and what the caller holds who threads next_cursor and repeats what did not succeed. */
  datatype Session = Session(fetches: seq<Call>, trail: CrawlChain.Trail)

  function AskCached(e: Setup, cfg: Config, s: Session, q: Request): Session {
    if s.trail.done then s
    else
      var run := CachedAnswer(e, cfg, s.fetches, s.trail.cursor, q);
      var trail :=
        match run.res
        case None => s.trail
        case Some(Err(_)) => s.trail
        case Some(Ok(r)) => CrawlChain.Trail(s.trail.posts + r.posts, r.nextCursor, !r.hasMore);
      Session(s.fetches + run.fetches, trail)
  }

  function FollowCached(e: Setup, cfg: Config, past: seq<Call>, requests: seq<Request>): Session {
    if requests == [] then Session(past, CrawlChain.Trail([], "", false))
    else AskCached(e, cfg, FollowCached(e, cfg, past, requests[..|requests| - 1]), requests[|requests| - 1])
  }

  lemma {:induction false} FetchesGrow(e: Setup, cfg: Config, past: seq<Call>, requests: seq<Request>)
    ensures past <= FollowCached(e, cfg, past, requests).fetches
    decreases |requests|
  {
    if requests != [] {
      FetchesGrow(e, cfg, past, requests[..|requests| - 1]);
    }
  }

  /** A call on the archive that ends the same way; one that was abandoned is one whose first page fails. */
  lemma AskedCall(e: Setup, cfg: Config, s: Session, q: Request, a: Archive) returns (call: CrawlChain.Call)
    requires !s.trail.done ==> Shows(e, AskCached(e, cfg, s, q).fetches, |s.fetches|, a)
    ensures call.pageSize == q.pageSize && call.cutoff == q.cutoff
    ensures CrawlChain.Ask(cfg, a, s.trail, call) == AskCached(e, cfg, s, q).trail
  {
    call := CrawlChain.Call(q.pageSize, q.cutoff, {}, {});
    if !s.trail.done {
      var run := CachedAnswer(e, cfg, s.fetches, s.trail.cursor, q);
      if run.res.Some? {
        var up := CallIsShown(e, cfg, s.fetches, s.trail.cursor, q, a);
        call := CrawlChain.Call(q.pageSize, q.cutoff, up.fetchFails, up.parseFails);
      } else {
        var c := ParseCursor(s.trail.cursor).value;
        call := CrawlChain.Call(q.pageSize, q.cutoff, {Resume(c).page}, {});
        FirstPageFails(cfg, a, c, q);
      }
    }
  }

  lemma FirstPageFails(cfg: Config, a: Archive, c: Cursor, q: Request)
    ensures Guarded(Upstream(a, {Resume(c).page}, {}), Resume(c).page,
                    Clean(cfg, a, c, ClampPageSize(q.pageSize), q.cutoff)).Err?
  {
    var k := TaskOf(cfg, c, q);
    Starts(k, a, Resume(c));
    PageIsNeeded(k, a, Resume(c), Walk(Resume(c), []));
    assert Goal(k, a, Resume(c)) == Clean(cfg, a, c, k.budget, q.cutoff);
  }

  ghost predicate SameShape(requests: seq<Request>, calls: seq<CrawlChain.Call>) {
    && |calls| == |requests|
    && forall i :: 0 <= i < |calls| ==>
         calls[i].pageSize == requests[i].pageSize && calls[i].cutoff == requests[i].cutoff
  }

  lemma AskGrows(e: Setup, cfg: Config, s: Session, q: Request, m: nat, a: Archive)
    requires m <= |s.fetches| && Shows(e, AskCached(e, cfg, s, q).fetches, m, a)
    ensures Shows(e, s.fetches, m, a)
    ensures Shows(e, AskCached(e, cfg, s, q).fetches, |s.fetches|, a)
  {
    var more := AskCached(e, cfg, s, q).fetches[|s.fetches|..];
    assert AskCached(e, cfg, s, q).fetches == s.fetches + more;
    ShowsPart(e, s.fetches, more, m, a);
  }

  lemma ShapeGrows(requests: seq<Request>, before: seq<CrawlChain.Call>, calls: seq<CrawlChain.Call>)
    requires requests != [] && SameShape(requests[..|requests| - 1], before)
    requires |calls| == |before| + 1 && calls[..|before|] == before
    requires calls[|before|].pageSize == requests[|before|].pageSize
    requires calls[|before|].cutoff == requests[|before|].cutoff
    ensures SameShape(requests, calls)
  {
    forall i | 0 <= i < |before| ensures calls[i] == before[i] && requests[..|requests| - 1][i] == requests[i] {
      assert calls[..|before|][i] == calls[i];
    }
  }

  lemma ChainStep(e: Setup, cfg: Config, s: Session, q: Request, a: Archive, before: seq<CrawlChain.Call>)
      returns (calls: seq<CrawlChain.Call>)
    requires Shows(e, AskCached(e, cfg, s, q).fetches, |s.fetches|, a)
    requires s.trail == CrawlChain.Follow(cfg, a, before)
    ensures |calls| == |before| + 1 && calls[..|before|] == before
    ensures calls[|before|].pageSize == q.pageSize && calls[|before|].cutoff == q.cutoff
    ensures AskCached(e, cfg, s, q).trail == CrawlChain.Follow(cfg, a, calls)
  {
    var call := AskedCall(e, cfg, s, q, a);
    calls := before + [call];
    assert calls[..|calls| - 1] == before;
  }

  lemma SessionStep(e: Setup, cfg: Config, past: seq<Call>, requests: seq<Request>)
    requires requests != []
    ensures var n := |requests| - 1;
            && FollowCached(e, cfg, past, requests) == AskCached(e, cfg, FollowCached(e, cfg, past, requests[..n]),
                                                                 requests[n])
            && |past| <= |FollowCached(e, cfg, past, requests[..n]).fetches|
  {
    FetchesGrow(e, cfg, past, requests[..|requests| - 1]);
  }

  /**
   * A chain of crawls through the cache whose fetches show the pages of one archive, whatever fails or
   * is abandoned on the way, is a chain of crawls of that archive with the same page sizes and cutoffs.
   */
  lemma {:induction false} ChainIsShown(e: Setup, cfg: Config, past: seq<Call>, requests: seq<Request>, a: Archive,
                                        s: Session) returns (calls: seq<CrawlChain.Call>)
    requires s == FollowCached(e, cfg, past, requests) && Shows(e, s.fetches, |past|, a)
    ensures SameShape(requests, calls) && s.trail == CrawlChain.Follow(cfg, a, calls)
    decreases |requests|
  {
    if requests == [] {
      calls := [];
    } else {
      var n := |requests| - 1;
      var prev := FollowCached(e, cfg, past, requests[..n]);
      SessionStep(e, cfg, past, requests);
      AskGrows(e, cfg, prev, requests[n], |past|, a);
      var before := ChainIsShown(e, cfg, past, requests[..n], a, prev);
      calls := ChainStep(e, cfg, prev, requests[n], a, before);
      ShapeGrows(requests, before, calls);
    }
  }
}
