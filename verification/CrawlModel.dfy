/**
 * The stateless crawl engine. One call walks the pages of an archive from an opaque cursor, up to a
 * budget of posts, the lookback boundary, or the archive floor. The method is the loop; Respond is
 * what the call must return, read off the flat stream of posts.
 */
module CrawlModel {
  import opened Basics
  import opened RawPosts
  import Decimal

  // ----- archives and streams -----

  /** The pages of a source by number; page 0 is never asked for from the empty cursor. */
  type Archive = seq<seq<RawPost>>

  function PageAt(a: Archive, page: nat): seq<RawPost> {
    if page < |a| then a[page] else []
  }

  /** A post with the page it is on and its row there. */
  datatype Located = Located(page: nat, row: nat, post: RawPost)

  function Rows(rows: seq<RawPost>, page: nat, from: nat): seq<Located>
    decreases |rows| - from
  {
    if from >= |rows| then [] else [Located(page, from, rows[from])] + Rows(rows, page, from + 1)
  }

  /** How many empty pages in a row confirm the archive floor. */
  function EmptyRun(threshold: int): (t: nat)
    ensures t >= 1
  {
    if threshold < 1 then 1 else threshold
  }

  /** Where a walk stands: the next page, leading rows to drop there, and the empty run so far. */
  datatype Position = Position(page: nat, skip: nat, empties: nat)

  function PagesLeft(a: Archive, page: nat): nat {
    if page < |a| then |a| - page else 0
  }

  /** The rows from a position down to the floor: the end of the first run of t empty pages. */
  function Stream(a: Archive, t: nat, at: Position): seq<Located>
    decreases PagesLeft(a, at.page), t - at.empties
  {
    var rows := PageAt(a, at.page);
    if rows == [] then
      if at.empties + 1 >= t then [] else Stream(a, t, Position(at.page + 1, 0, at.empties + 1))
    else Rows(rows, at.page, at.skip) + Stream(a, t, Position(at.page + 1, 0, 0))
  }

  /** The page that completes the run of t empty pages. */
  function FloorPage(a: Archive, t: nat, at: Position): nat
    decreases PagesLeft(a, at.page), t - at.empties
  {
    if PageAt(a, at.page) == [] then
      if at.empties + 1 >= t then at.page else FloorPage(a, t, Position(at.page + 1, 0, at.empties + 1))
    else FloorPage(a, t, Position(at.page + 1, 0, 0))
  }

  function Posts(s: seq<Located>): (r: seq<RawPost>)
    ensures |r| == |s|
  {
    seq(|s|, i requires 0 <= i < |s| => s[i].post)
  }

  // ----- the lookback window -----

  /** None is no limit. A post without a readable date is kept. */
  predicate OutOfWindow(publishedAt: Instant, cutoff: Option<Instant>) {
    cutoff.Some? && publishedAt != ZERO_TIME && publishedAt < cutoff.value
  }

  /** How many posts stand before the first one out of the window. */
  function Kept(s: seq<Located>, cutoff: Option<Instant>): (n: nat)
    ensures n <= |s|
  {
    if s == [] || OutOfWindow(s[0].post.publishedAt, cutoff) then 0 else 1 + Kept(s[1..], cutoff)
  }

  function Cutoff(now: Instant, lookback: int): Option<Instant> {
    if lookback > 0 then Some(now - lookback) else None
  }

  // ----- cursors -----

  const MAX_PAGE_SIZE: nat := 200

  function ClampPageSize(n: int): (size: nat)
    ensures 1 <= size <= MAX_PAGE_SIZE
  {
    if n < 1 then 1 else if n > MAX_PAGE_SIZE then MAX_PAGE_SIZE else n
  }

  datatype Cursor = Cursor(page: nat, offset: nat)

  function FormatCursor(c: Cursor): string {
    Decimal.Itoa(c.page) + ":" + Decimal.Itoa(c.offset)
  }

  function ParseCursor(s: string): Option<Cursor> {
    if s == "" then Some(Cursor(0, 0))
    else
      match Decimal.Cut(s, ':')
      case None => None
      case Some((p, o)) =>
        match (Decimal.Atoi(p), Decimal.Atoi(o))
        case (Some(page), Some(offset)) => if page < 0 || offset < 0 then None else Some(Cursor(page, offset))
        case _ => None
  }

  /** A cursor that fits the source's 64-bit integers. */
  predicate Fits(c: Cursor) {
    c.page <= MAX_INT64 && c.offset <= MAX_INT64
  }

  /** What a call hands out as a cursor, the next call reads back. */
  lemma CursorRoundTrip(c: Cursor)
    requires Fits(c)
    ensures FormatCursor(c) != "" && ParseCursor(FormatCursor(c)) == Some(c)
  {
    Decimal.ItoaReadsBack(c.page);
    Decimal.ItoaReadsBack(c.offset);
    Decimal.ItoaHas(c.page, ':');
    Decimal.CutAtFirst(Decimal.Itoa(c.page), ':', Decimal.Itoa(c.offset));
  }

  /** An offset resumes on its page; offset 0 means the page is used up. */
  function Resume(c: Cursor): Position {
    if c.offset == 0 then Position(c.page + 1, 0, 0) else Position(c.page, c.offset, 0)
  }

  /** The cursor parked after a row: mid-page it counts the rows returned, at the page's end it is 0. */
  function After(a: Archive, last: Located): Cursor {
    if last.row + 1 < |PageAt(a, last.page)| then Cursor(last.page, last.row + 1) else Cursor(last.page, 0)
  }

  // ----- what a call returns -----

  /** Why a call stopped; the floor has a name of the source's own. */
  datatype StopReason = PageBudget | LookbackBoundary | ArchiveFloor(name: string)

  datatype Response = Response(
    posts: seq<RawPost>, nextCursor: string, hasMore: bool, stopReason: StopReason, pagesFetched: int, lastPage: nat)

  datatype CrawlError = MalformedCursor | FetchFailed(page: nat) | ParseFailed(page: nat)

  predicate EndsPage(a: Archive, at: Located) {
    at.row + 1 >= |PageAt(a, at.page)|
  }

  /**
   * The budget filled and the walk knows no reason to stop: a further post of the same page is in
   * the window, or the next page has not been looked at.
   */
  predicate HasMore(a: Archive, s: seq<Located>, budget: nat, cutoff: Option<Instant>)
    requires budget >= 1
  {
    var kept := Kept(s, cutoff);
    kept > budget || (kept == budget && EndsPage(a, s[budget - 1]))
  }

  /** The answer to a call that starts at page `from` and has the rows s down to page `floor` ahead. */
  function Respond(a: Archive, s: seq<Located>, from: nat, floor: nat, budget: nat, cutoff: Option<Instant>,
                   floorReason: string): Response
    requires budget >= 1
  {
    var kept := Kept(s, cutoff);
    if HasMore(a, s, budget, cutoff) then
      var last := s[budget - 1];
      Response(Posts(s[..budget]), FormatCursor(After(a, last)), true, PageBudget, last.page - from + 1, last.page)
    else if kept < |s| then
      Response(Posts(s[..kept]), "", false, LookbackBoundary, s[kept].page - from + 1, s[kept].page)
    else
      Response(Posts(s), "", false, ArchiveFloor(floorReason), floor - from + 1, floor)
  }

  /** A source as one call meets it: its pages, and those that cannot be fetched or parsed. */
  datatype Upstream = Upstream(archive: Archive, fetchFails: set<nat>, parseFails: set<nat>)

  predicate Fails(up: Upstream, page: nat) {
    page in up.fetchFails || page in up.parseFails
  }

  function FirstFailing(up: Upstream, from: nat, to: nat): (p: Option<nat>)
    decreases to + 1 - from
  {
    if from > to then None
    else if Fails(up, from) then Some(from) else FirstFailing(up, from + 1, to)
  }

  function FailureAt(up: Upstream, page: nat): CrawlError {
    if page in up.fetchFails then FetchFailed(page) else ParseFailed(page)
  }

  datatype Config = Config(threshold: int, floorReason: string)

  function Ahead(cfg: Config, a: Archive, c: Cursor): seq<Located> {
    Stream(a, EmptyRun(cfg.threshold), Resume(c))
  }

  /** The answer when every page can be had. */
  function Clean(cfg: Config, a: Archive, c: Cursor, budget: nat, cutoff: Option<Instant>): Response
    requires budget >= 1
  {
    Respond(a, Ahead(cfg, a, c), Resume(c).page, FloorPage(a, EmptyRun(cfg.threshold), Resume(c)), budget, cutoff,
            cfg.floorReason)
  }

  function Guarded(up: Upstream, from: nat, clean: Response): Result<Response, CrawlError> {
    match FirstFailing(up, from, clean.lastPage)
    case Some(page) => Err(FailureAt(up, page))
    case None => Ok(clean)
  }

  /** The whole call: an error at the first page it needs and cannot have, otherwise the answer. */
  function Answer(cfg: Config, up: Upstream, pageSize: int, cursor: string, cutoff: Option<Instant>)
      : Result<Response, CrawlError>
  {
    match ParseCursor(cursor)
    case None => Err(MalformedCursor)
    case Some(c) =>
      Guarded(up, Resume(c).page, Clean(cfg, up.archive, c, ClampPageSize(pageSize), cutoff))
  }

  /** How many pages a call that starts at page `from` fetched: up to its last page, or to the one that failed. */
  function PagesFetched(res: Result<Response, CrawlError>, from: nat): int {
    match res
    case Ok(r) => r.pagesFetched
    case Err(MalformedCursor) => 0
    case Err(FetchFailed(page)) => page - from + 1
    case Err(ParseFailed(page)) => page - from + 1
  }

  // ----- lemmas about the parts -----

  /** The kept posts are in the window, and the first one that is not kept is out of it. */
  lemma {:induction false} KeptIsPrefix(s: seq<Located>, cutoff: Option<Instant>)
    ensures forall i :: 0 <= i < Kept(s, cutoff) ==> !OutOfWindow(s[i].post.publishedAt, cutoff)
    ensures Kept(s, cutoff) < |s| ==> OutOfWindow(s[Kept(s, cutoff)].post.publishedAt, cutoff)
    decreases |s|
  {
    if s != [] {
      KeptIsPrefix(s[1..], cutoff);
    }
  }

  lemma {:induction false} RowsAre(rows: seq<RawPost>, page: nat, from: nat)
    ensures |Rows(rows, page, from)| == if from <= |rows| then |rows| - from else 0
    ensures forall i :: 0 <= i < |Rows(rows, page, from)| ==>
              Rows(rows, page, from)[i] == Located(page, from + i, rows[from + i])
    decreases |rows| - from
  {
    if from < |rows| {
      RowsAre(rows, page, from + 1);
    }
  }

  ghost predicate PagesWithin(s: seq<Located>, lo: nat, hi: nat) {
    forall i :: 0 <= i < |s| ==> lo <= s[i].page <= hi
  }

  /** Rows come from the pages between the position and the floor. */
  lemma {:induction false} StreamPages(a: Archive, t: nat, at: Position)
    ensures at.page <= FloorPage(a, t, at)
    ensures PagesWithin(Stream(a, t, at), at.page, FloorPage(a, t, at))
    decreases PagesLeft(a, at.page), t - at.empties
  {
    var rows := PageAt(a, at.page);
    if rows == [] {
      if at.empties + 1 < t {
        StreamPages(a, t, Position(at.page + 1, 0, at.empties + 1));
      }
    } else {
      StreamPages(a, t, Position(at.page + 1, 0, 0));
      RowsAre(rows, at.page, at.skip);
    }
  }

  lemma {:induction false} FirstFailingIs(up: Upstream, from: nat, page: nat, to: nat)
    requires from <= page <= to + 1
    requires forall q: nat :: from <= q < page ==> !Fails(up, q)
    ensures page <= to && Fails(up, page) ==> FirstFailing(up, from, to) == Some(page)
    ensures page == to + 1 ==> FirstFailing(up, from, to) == None
    decreases page - from
  {
    if from < page {
      FirstFailingIs(up, from + 1, page, to);
    }
  }
}
