/** The page walk as it is written, proved to give the answers that CrawlModel specifies. */
module Crawler {
  import opened Basics
  import opened RawPosts
  import opened CrawlModel
  import opened CrawlTurns

  /** The turn that leaves the loop variables with these values, or returns. */
  function TurnOf(page: nat, posts: seq<RawPost>, empties: nat, stop: Option<Result<Response, CrawlError>>): Turn {
    if stop.Some? then Stops(stop.value) else GoesOn(Walk(Position(page + 1, 0, empties), posts))
  }

  /** Where the window ends, given that the first j rows are in it. */
  lemma WindowEnds(rest: seq<Located>, cutoff: Option<Instant>, j: nat)
    requires j < |rest| && j <= Kept(rest, cutoff)
    ensures OutOfWindow(rest[j].post.publishedAt, cutoff) <==> Kept(rest, cutoff) == j
  {
    KeptIsPrefix(rest, cutoff);
  }

  lemma OneMoreRow(rest: seq<Located>, given: seq<RawPost>, j: nat)
    requires j < |rest|
    ensures given + Posts(rest[..j]) + [rest[j].post] == given + Posts(rest[..j + 1])
  {
    assert rest[..j + 1] == rest[..j] + [rest[j]];
    assert Posts(rest[..j + 1]) == Posts(rest[..j]) + [rest[j].post];
  }

  lemma RowAt(rows: seq<RawPost>, page: nat, skip: nat, i: nat)
    requires skip <= i < |rows|
    ensures |Rows(rows, page, skip)| == |rows| - skip
    ensures Rows(rows, page, skip)[i - skip] == Located(page, i, rows[i])
  {
    RowsAre(rows, page, skip);
  }

  lemma RowCount(rows: seq<RawPost>, page: nat, skip: nat)
    ensures |Rows(rows, page, skip)| == |rows| - Min(skip, |rows|)
  {
    RowsAre(rows, page, skip);
  }

  /** The turn that stops at row j of those left of the page, the first one out of the window. */
  lemma BoundaryStop(k: Task, page: nat, skip: nat, given: seq<RawPost>, rows: seq<RawPost>, rest: seq<Located>, j: nat)
    requires rest == Rows(rows, page, skip) && j == Kept(rest, k.cutoff) < |rest| && |given| + j <= k.budget
    requires |given| < k.budget
    ensures RowsTurn(k, Walk(Position(page, skip, 0), given), rows)
         == Stop(k, page, given + Posts(rest[..j]), "", false, LookbackBoundary)
  {
  }

  /** The turn that stops with j rows taken and the budget filled. */
  lemma BudgetStop(k: Task, page: nat, skip: nat, given: seq<RawPost>, rows: seq<RawPost>, rest: seq<Located>, j: nat,
                   next: Cursor)
    requires rest == Rows(rows, page, skip) && |given| < k.budget == |given| + j && j <= |rest|
    requires if j < |rest| then j < Kept(rest, k.cutoff) else Kept(rest, k.cutoff) == j
    requires next == if j < |rest| then Cursor(page, skip + j) else Cursor(page, 0)
    ensures RowsTurn(k, Walk(Position(page, skip, 0), given), rows)
         == Stop(k, page, given + Posts(rest[..j]), FormatCursor(next), true, PageBudget)
  {
  }

  /** The turn that takes all rows and goes on. */
  lemma PageTaken(k: Task, page: nat, skip: nat, given: seq<RawPost>, rows: seq<RawPost>, rest: seq<Located>)
    requires rest == Rows(rows, page, skip) && Kept(rest, k.cutoff) == |rest| && |given| + |rest| < k.budget
    ensures RowsTurn(k, Walk(Position(page, skip, 0), given), rows)
         == GoesOn(Walk(Position(page + 1, 0, 0), given + Posts(rest)))
  {
  }

  /** The walk over the rows of a non-empty page, leaving out the leading ones the cursor counts. */
  method WalkRows(k: Task, rows: seq<RawPost>, page: nat, skip: nat, given: seq<RawPost>)
      returns (posts: seq<RawPost>, stop: Option<Result<Response, CrawlError>>)
    requires |given| < k.budget
    ensures TurnOf(page, posts, 0, stop) == RowsTurn(k, Walk(Position(page, skip, 0), given), rows)
  {
    ghost var rest := Rows(rows, page, skip);
    var pageStart, pagesFetched := Min(skip, |rows|), page - k.from + 1;
    ghost var j: nat := 0;
    RowCount(rows, page, skip);
    posts, stop := given, None;
    for i := pageStart to |rows|
      invariant i == pageStart + j && j <= Kept(rest, k.cutoff) && posts == given + Posts(rest[..j])
      invariant |posts| < k.budget
    {
      RowAt(rows, page, skip, i);
      WindowEnds(rest, k.cutoff, j);
      if OutOfWindow(rows[i].publishedAt, k.cutoff) {
        BoundaryStop(k, page, skip, given, rows, rest, j);
        stop := Some(Ok(Response(posts, "", false, LookbackBoundary, pagesFetched, page)));
        return;
      }
      OneMoreRow(rest, given, j);
      posts := posts + [rows[i]];
      j := j + 1;
      if |posts| < k.budget {
        continue;
      }
      var response := BudgetFilled(k, rows, page, skip, i, posts, given, rest, j);
      stop := Some(Ok(response));
      return;
    }
    assert rest[..|rest|] == rest;
    PageTaken(k, page, skip, given, rows, rest);
  }

  /** The decision once row i filled the budget: the next row of the page is looked at, the next page is not. */
  method BudgetFilled(k: Task, rows: seq<RawPost>, page: nat, skip: nat, i: nat, posts: seq<RawPost>,
                      ghost given: seq<RawPost>, ghost rest: seq<Located>, ghost j: nat)
      returns (response: Response)
    requires skip <= i < |rows| && |given| < k.budget == |posts| && rest == Rows(rows, page, skip)
    requires j == i - skip + 1 && j <= |rest| && j <= Kept(rest, k.cutoff) && posts == given + Posts(rest[..j])
    ensures Stops(Ok(response)) == RowsTurn(k, Walk(Position(page, skip, 0), given), rows)
  {
    var pagesFetched := page - k.from + 1;
    RowAt(rows, page, skip, i);
    if i + 1 < |rows| {
      RowAt(rows, page, skip, i + 1);
      WindowEnds(rest, k.cutoff, j);
      if OutOfWindow(rows[i + 1].publishedAt, k.cutoff) {
        BoundaryStop(k, page, skip, given, rows, rest, j);
        return Response(posts, "", false, LookbackBoundary, pagesFetched, page);
      }
      BudgetStop(k, page, skip, given, rows, rest, j, Cursor(page, i + 1));
      return Response(posts, FormatCursor(Cursor(page, i + 1)), true, PageBudget, pagesFetched, page);
    }
    BudgetStop(k, page, skip, given, rows, rest, j, Cursor(page, 0));
    return Response(posts, FormatCursor(Cursor(page, 0)), true, PageBudget, pagesFetched, page);
  }

  /** One turn of the loop on a fetched page: stop, or go on to the next one. */
  method VisitPage(k: Task, got: Result<seq<RawPost>, CrawlError>, page: nat, skip: nat, empties: nat,
                   given: seq<RawPost>)
      returns (posts: seq<RawPost>, consecutiveEmpty: nat, stop: Option<Result<Response, CrawlError>>)
    requires |given| < k.budget
    ensures TurnOf(page, posts, consecutiveEmpty, stop) == TurnOn(k, Walk(Position(page, skip, empties), given), got)
  {
    posts, consecutiveEmpty, stop := given, empties, None;
    if got.Err? {
      stop := Some(Err(got.error));
      return;
    }
    if |got.value| == 0 {
      consecutiveEmpty := consecutiveEmpty + 1;
      if consecutiveEmpty >= k.t {
        stop := Some(Ok(Response(posts, "", false, ArchiveFloor(k.reason), page - k.from + 1, page)));
      }
      return;
    }
    consecutiveEmpty := 0;
    posts, stop := WalkRows(k, got.value, page, skip, given);
  }

  /** The walk goes on from w, with no page behind it that failed. */
  ghost predicate Walking(k: Task, up: Upstream, start: Position, w: Walk) {
    UnderWay(k, w) && StandsAt(k, up.archive, start, w) && NoneFails(up, k.from, w.at.page)
  }

  /** The next page is closer to the end: a page of the archive is done, or one more empty page is counted. */
  predicate Closer(a: Archive, page: nat, empties: nat, next: nat) {
    PagesLeft(a, page + 1) < PagesLeft(a, page) || (PagesLeft(a, page + 1) == PagesLeft(a, page) && next == empties + 1)
  }

  /** What a turn means for the loop. */
  lemma TurnReached(k: Task, up: Upstream, start: Position, w: Walk, page: nat, posts: seq<RawPost>, empties: nat,
                    stop: Option<Result<Response, CrawlError>>)
    requires k.budget >= 1 && w.at.page == page && Reaches(k, up, start, w, TurnOf(page, posts, empties, stop))
    ensures stop.None? ==>
              Walking(k, up, start, Walk(Position(page + 1, 0, empties), posts))
              && Closer(up.archive, page, w.at.empties, empties)
    ensures stop.Some? ==>
              stop.value == Guarded(up, k.from, Goal(k, up.archive, start))
              && PagesFetched(stop.value, k.from) == page - k.from + 1
  {
  }

  /** One page of the walk, where it stands. */
  method NextPage(k: Task, up: Upstream, page: nat, skip: nat, empties: nat, given: seq<RawPost>, ghost start: Position,
                  ghost w: Walk)
      returns (posts: seq<RawPost>, consecutiveEmpty: nat, stop: Option<Result<Response, CrawlError>>)
    requires w == Walk(Position(page, skip, empties), given)
    requires Walking(k, up, start, w)
    ensures stop.None? ==>
              Walking(k, up, start, Walk(Position(page + 1, 0, consecutiveEmpty), posts))
              && Closer(up.archive, page, empties, consecutiveEmpty)
    ensures stop.Some? ==>
              stop.value == Guarded(up, k.from, Goal(k, up.archive, start))
              && PagesFetched(stop.value, k.from) == page - k.from + 1
  {
    FetchedTurnReaches(k, up, start, w);
    posts, consecutiveEmpty, stop := VisitPage(k, FetchPage(up, page), page, skip, empties, given);
    TurnReached(k, up, start, w, page, posts, consecutiveEmpty, stop);
  }

  /** The page walk of one request. */
  method WalkPages(k: Task, up: Upstream, skip: nat) returns (res: Result<Response, CrawlError>, pagesFetched: nat)
    requires k.t >= 1 && k.budget >= 1
    ensures res == Guarded(up, k.from, Goal(k, up.archive, Position(k.from, skip, 0)))
    ensures pagesFetched == PagesFetched(res, k.from)
  {
    ghost var start := Position(k.from, skip, 0);
    ghost var w := Walk(start, []);
    var posts: seq<RawPost> := [];
    var page: nat, left: nat, consecutiveEmpty: nat := k.from, skip, 0;
    pagesFetched := 0;
    Starts(k, up.archive, start);
    while consecutiveEmpty < k.t
      invariant w == Walk(Position(page, left, consecutiveEmpty), posts)
      invariant Walking(k, up, start, w) && pagesFetched == page - k.from
      decreases PagesLeft(up.archive, page), k.t - consecutiveEmpty
    {
      var stop;
      posts, consecutiveEmpty, stop := NextPage(k, up, page, left, consecutiveEmpty, posts, start, w);
      pagesFetched := pagesFetched + 1;
      if stop.Some? {
        return stop.value, pagesFetched;
      }
      page, left := page + 1, 0;
      w := Walk(Position(page, left, consecutiveEmpty), posts);
    }
  }

  /** The page walk from where a cursor resumes is the call. */
  lemma WalkAnswers(cfg: Config, up: Upstream, pageSize: int, cursor: string, c: Cursor, k: Task,
                    res: Result<Response, CrawlError>)
    requires ParseCursor(cursor) == Some(c)
    requires k == Task(EmptyRun(cfg.threshold), ClampPageSize(pageSize), k.cutoff, cfg.floorReason, Resume(c).page)
    requires res == Guarded(up, k.from, Goal(k, up.archive, Resume(c)))
    ensures res == Answer(cfg, up, pageSize, cursor, k.cutoff)
  {
    assert Goal(k, up.archive, Resume(c)) == Clean(cfg, up.archive, c, k.budget, k.cutoff);
  }

  /** One crawl request; `now` is the clock reading of the cutoff. */
  method Crawl(cfg: Config, up: Upstream, pageSize: int, cursor: string, lookback: int, now: Instant)
      returns (res: Result<Response, CrawlError>, pagesFetched: nat)
    ensures res == Answer(cfg, up, pageSize, cursor, Cutoff(now, lookback))
    ensures pagesFetched == if ParseCursor(cursor).None? then 0
            else PagesFetched(res, Resume(ParseCursor(cursor).value).page)
  {
    var parsed := ParseCursor(cursor);
    if parsed.None? {
      return Err(MalformedCursor), 0;
    }
    var cutoff := None;
    if lookback > 0 {
      cutoff := Some(now - lookback);
    }
    var page, skip := parsed.value.page, parsed.value.offset;
    if skip == 0 {
      page := page + 1;
    }
    var k := Task(EmptyRun(cfg.threshold), ClampPageSize(pageSize), cutoff, cfg.floorReason, page);
    res, pagesFetched := WalkPages(k, up, skip);
    WalkAnswers(cfg, up, pageSize, cursor, parsed.value, k, res);
  }
}
