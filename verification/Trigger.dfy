/**
 * The polling trigger over the crawl service: a watermark, a pass that spans polls, and batches of
 * bounded size. Its clock and the dates it compares are whole milliseconds.
 */
module Trigger {
  import opened Basics
  import opened RawPosts
  import opened CrawlModel

  const MAX_PAGES_PER_POLL: nat := 25
  const MAX_BATCH_SIZE: nat := 1000

  /** Date.parse of a timestamp with nanoseconds: the rest below a millisecond is dropped. */
  function Millis(at: Instant): int {
    at / 1_000_000
  }

  function Clamp(n: int, low: nat, high: nat): (r: nat)
    requires low <= high
    ensures low <= r <= high
  {
    if n < low then low else if n > high then high else n
  }

  // ----- the persisted state -----

  /** The saved fields; None is the empty string. */
  datatype State = State(
    cursor: string, floor: Option<int>, lastSeen: Option<int>, passStartedAt: Option<int>, pendingLastSeen: Option<int>,
    resetStateApplied: bool)

  function ClearState(s: State): State {
    s.(cursor := "", floor := None, lastSeen := None, passStartedAt := None, pendingLastSeen := None)
  }

  /** The reset option clears the state once while it stays on. */
  function ApplyReset(s: State, reset: bool): State {
    if reset && !s.resetStateApplied then ClearState(s).(resetStateApplied := true)
    else if !reset then s.(resetStateApplied := false)
    else s
  }

  function StartPass(s: State, now: int, lookback: int): State {
    if s.passStartedAt.Some? then s
    else s.(passStartedAt := Some(now), pendingLastSeen := Some(now), cursor := "",
            floor := if s.lastSeen.Some? then s.lastSeen else Some(now - lookback))
  }

  function FinishPass(s: State): State {
    s.(lastSeen := s.pendingLastSeen, cursor := "", floor := None, passStartedAt := None, pendingLastSeen := None)
  }

  // ----- what a poll does -----

  /** Comparison with a date that is not set is false. */
  predicate NotAfter(at: Instant, bound: Option<int>) {
    bound.Some? && Millis(at) <= bound.value
  }

  /** The posts to emit of those listed, and whether one at or below the floor ended the scan. */
  function Sift(posts: seq<RawPost>, floor: Option<int>, start: Option<int>): (seq<RawPost>, bool) {
    if posts == [] then ([], false)
    else if NotAfter(posts[0].publishedAt, floor) then ([], true)
    else
      var (rest, hit) := Sift(posts[1..], floor, start);
      (if NotAfter(posts[0].publishedAt, start) then [posts[0]] + rest else rest, hit)
  }

  datatype Loop = Loop(cursor: string, posts: seq<RawPost>, finished: bool, thrown: bool)

  predicate LoopOver(l: Loop, batchSize: nat) {
    l.finished || l.thrown || |l.posts| >= batchSize
  }

  /** The crawl service as request number i of a poll meets it: a page size and a cursor, and no lookback. */
  type Service = (nat, int, string) -> Result<Response, CrawlError>

  /** The loop after a response. */
  function Absorb(l: Loop, r: Response, floor: Option<int>, start: Option<int>): Loop {
    var (kept, hit) := Sift(r.posts, floor, start);
    if hit || !r.hasMore || r.nextCursor == "" then l.(posts := l.posts + kept, finished := true)
    else l.(posts := l.posts + kept, cursor := r.nextCursor)
  }

  /** Request number i of the poll loop. */
  function Request(ask: Service, i: nat, floor: Option<int>, start: Option<int>, batchSize: nat, pageSize: nat,
                   l: Loop): Loop {
    match ask(i, Min(pageSize, batchSize - |l.posts|), l.cursor)
    case Err(_) => l.(thrown := true)
    case Ok(r) => Absorb(l, r, floor, start)
  }

  /** Up to n more requests, the first of them number i. */
  function Requests(ask: Service, i: nat, floor: Option<int>, start: Option<int>, batchSize: nat, pageSize: nat,
                    l: Loop, n: nat): Loop
    decreases n
  {
    if n == 0 || LoopOver(l, batchSize) then l
    else Requests(ask, i + 1, floor, start, batchSize, pageSize,
                  Request(ask, i, floor, start, batchSize, pageSize, l), n - 1)
  }

  /** The parameters of one poll, the time it starts, and the service it asks. */
  datatype PollInput = PollInput(now: int, reset: bool, batchSize: int, pageSize: int, lookback: int, ask: Service)

  /** The state a poll works on, after the reset option and the start of a pass. */
  function Opened(s: State, p: PollInput): State {
    StartPass(ApplyReset(s, p.reset), p.now, p.lookback)
  }

  function LoopOf(s: State, p: PollInput): Loop {
    var t := Opened(s, p);
    Requests(p.ask, 0, t.floor, t.passStartedAt, Clamp(p.batchSize, 1, MAX_BATCH_SIZE),
             Clamp(p.pageSize, 1, MAX_PAGE_SIZE),
             Loop(t.cursor, [], false, false), MAX_PAGES_PER_POLL)
  }

  function AfterPoll(s: State, p: PollInput): State {
    var l := LoopOf(s, p);
    var t := Opened(s, p).(cursor := l.cursor);
    if l.finished && !l.thrown then FinishPass(t) else t
  }

  /** What a poll emits; nothing when a request throws. */
  function Batch(s: State, p: PollInput): seq<RawPost> {
    var l := LoopOf(s, p);
    if l.thrown then [] else l.posts
  }

  /** The loop goes on with the next request. */
  lemma RequestLeft(ask: Service, i: nat, floor: Option<int>, start: Option<int>, batchSize: nat, pageSize: nat,
                    l: Loop, n: nat, goal: Loop)
    requires n > 0 && !LoopOver(l, batchSize)
    requires goal == Requests(ask, i, floor, start, batchSize, pageSize, l, n)
    ensures goal == Requests(ask, i + 1, floor, start, batchSize, pageSize,
                             Request(ask, i, floor, start, batchSize, pageSize, l), n - 1)
  {
  }

  // ----- the node as it is written -----

  class TakuhaiCrawlerTrigger {
    var cursor: string
    var floor: Option<int>
    var lastSeenPublishedAt: Option<int>
    var passStartedAt: Option<int>
    var pendingLastSeen: Option<int>
    var resetStateApplied: bool

    ghost function Saved(): State
      reads this
    {
      State(cursor, floor, lastSeenPublishedAt, passStartedAt, pendingLastSeen, resetStateApplied)
    }

    constructor ()
      ensures Saved() == State("", None, None, None, None, false)
    {
      cursor, floor, lastSeenPublishedAt := "", None, None;
      passStartedAt, pendingLastSeen, resetStateApplied := None, None, false;
    }

    method ClearSaved()
      modifies this
      ensures Saved() == ClearState(old(Saved()))
    {
      cursor := "";
      floor := None;
      lastSeenPublishedAt := None;
      passStartedAt := None;
      pendingLastSeen := None;
    }

    method StartPassIfNeeded(now: int, lookback: int)
      modifies this
      ensures Saved() == StartPass(old(Saved()), now, lookback)
    {
      if passStartedAt.Some? {
        return;
      }
      passStartedAt := Some(now);
      pendingLastSeen := passStartedAt;
      floor := if lastSeenPublishedAt.Some? then lastSeenPublishedAt else Some(now - lookback);
      cursor := "";
    }

    method FinishSavedPass()
      modifies this
      ensures Saved() == FinishPass(old(Saved()))
    {
      lastSeenPublishedAt := pendingLastSeen;
      cursor := "";
      floor := None;
      passStartedAt := None;
      pendingLastSeen := None;
    }

    /** The scan of one response; posts already collected come first. */
    method Collect(given: seq<RawPost>, pagePosts: seq<RawPost>) returns (posts: seq<RawPost>, finished: bool)
      ensures posts == given + Sift(pagePosts, floor, passStartedAt).0
      ensures finished == Sift(pagePosts, floor, passStartedAt).1
    {
      posts, finished := given, false;
      for i := 0 to |pagePosts|
        invariant posts + Sift(pagePosts[i..], floor, passStartedAt).0
                  == given + Sift(pagePosts, floor, passStartedAt).0
        invariant Sift(pagePosts[i..], floor, passStartedAt).1 == Sift(pagePosts, floor, passStartedAt).1
      {
        var post := pagePosts[i];
        assert pagePosts[i..][0] == post && pagePosts[i..][1..] == pagePosts[i + 1..];
        if NotAfter(post.publishedAt, floor) {
          finished := true;
          return;
        }
        if NotAfter(post.publishedAt, passStartedAt) {
          assert posts + ([post] + Sift(pagePosts[i + 1..], floor, passStartedAt).0)
              == (posts + [post]) + Sift(pagePosts[i + 1..], floor, passStartedAt).0;
          posts := posts + [post];
        }
      }
    }

    /** One poll; a failed request throws, and leaves the fields as they stand. */
    method Poll(p: PollInput) returns (batch: seq<RawPost>, thrown: bool)
      modifies this
      ensures Saved() == AfterPoll(old(Saved()), p)
      ensures batch == Batch(old(Saved()), p)
      ensures thrown == LoopOf(old(Saved()), p).thrown
    {
      if p.reset && !resetStateApplied {
        ClearSaved();
        resetStateApplied := true;
      } else if !p.reset {
        resetStateApplied := false;
      }
      var batchSize, pageSize := Clamp(p.batchSize, 1, MAX_BATCH_SIZE), Clamp(p.pageSize, 1, MAX_PAGE_SIZE);
      StartPassIfNeeded(p.now, p.lookback);
      ghost var s := Saved();
      assert s == Opened(old(Saved()), p);
      var finished := false;
      batch, thrown, finished := RunRequests(p.ask, batchSize, pageSize, MAX_PAGES_PER_POLL);
      if thrown {
        batch := [];
      } else if finished {
        FinishSavedPass();
      }
    }

    /** One request of the loop. */
    method OneRequest(ask: Service, i: nat, batchSize: nat, pageSize: nat, given: seq<RawPost>)
        returns (posts: seq<RawPost>, thrown: bool, finished: bool)
      modifies this`cursor
      ensures Loop(cursor, posts, finished, thrown)
           == Request(ask, i, floor, passStartedAt, batchSize, pageSize, Loop(old(cursor), given, false, false))
    {
      var res := ask(i, Min(pageSize, batchSize - |given|), cursor);
      if res.Err? {
        return given, true, false;
      }
      posts, finished := Collect(given, res.value.posts);
      thrown := false;
      if finished || !res.value.hasMore || res.value.nextCursor == "" {
        finished := true;
      } else {
        cursor := res.value.nextCursor;
      }
    }

    /** The request loop. */
    method RunRequests(ask: Service, batchSize: nat, pageSize: nat, maxPages: nat)
        returns (posts: seq<RawPost>, thrown: bool, finished: bool)
      modifies this`cursor
      ensures Loop(cursor, posts, finished, thrown)
           == Requests(ask, 0, floor, passStartedAt, batchSize, pageSize, Loop(old(cursor), [], false, false), maxPages)
    {
      posts, thrown, finished := [], false, false;
      ghost var goal := Requests(ask, 0, floor, passStartedAt, batchSize, pageSize, Loop(cursor, [], false, false),
                                 maxPages);
      var pages: nat := 0;
      while pages < maxPages && |posts| < batchSize && !thrown && !finished
        invariant pages <= maxPages
        invariant goal == Requests(ask, pages, floor, passStartedAt, batchSize, pageSize,
                                   Loop(cursor, posts, finished, thrown), maxPages - pages)
      {
        RequestLeft(ask, pages, floor, passStartedAt, batchSize, pageSize,
                    Loop(cursor, posts, finished, thrown), maxPages - pages, goal);
        posts, thrown, finished := OneRequest(ask, pages, batchSize, pageSize, posts);
        pages := pages + 1;
      }
    }
  }
}
