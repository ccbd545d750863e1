/**
 * One turn of the page walk: what a call makes of the next page it is given. Turns that are given the
 * pages of an archive lead to the answer CrawlModel specifies for it.
 */
module CrawlTurns {
  import opened Basics
  import opened RawPosts
  import opened CrawlModel

  /** What one call keeps fixed: its empty-run threshold, budget, cutoff, floor reason and first page. */
  datatype Task = Task(t: nat, budget: nat, cutoff: Option<Instant>, reason: string, from: nat)

  /** A walk under way: where it stands and the posts in hand. */
  datatype Walk = Walk(at: Position, posts: seq<RawPost>)

  datatype Turn = GoesOn(walk: Walk) | Stops(res: Result<Response, CrawlError>)

  ghost predicate UnderWay(k: Task, w: Walk) {
    k.from <= w.at.page && w.at.empties < k.t && |w.posts| < k.budget
  }

  function Stop(k: Task, page: nat, posts: seq<RawPost>, cursor: string, hasMore: bool, reason: StopReason): Turn {
    Stops(Ok(Response(posts, cursor, hasMore, reason, page - k.from + 1, page)))
  }

  /** Rows that remain on a page: up to the first one out of the window, or to the budget. */
  function RowsTurn(k: Task, w: Walk, rows: seq<RawPost>): (turn: Turn)
    requires |w.posts| < k.budget
    ensures turn.GoesOn? ==> |turn.walk.posts| < k.budget
  {
    var page, rest, left := w.at.page, Rows(rows, w.at.page, w.at.skip), k.budget - |w.posts|;
    var kept := Kept(rest, k.cutoff);
    if kept < |rest| && kept <= left then
      Stop(k, page, w.posts + Posts(rest[..kept]), "", false, LookbackBoundary)
    else if left <= |rest| then
      var cursor := if left < |rest| then Cursor(page, w.at.skip + left) else Cursor(page, 0);
      Stop(k, page, w.posts + Posts(rest[..left]), FormatCursor(cursor), true, PageBudget)
    else
      GoesOn(Walk(Position(page + 1, 0, 0), w.posts + Posts(rest)))
  }

  function PageTurn(k: Task, w: Walk, rows: seq<RawPost>): (turn: Turn)
    requires |w.posts| < k.budget
    ensures turn.GoesOn? ==> |turn.walk.posts| < k.budget
  {
    if rows != [] then RowsTurn(k, w, rows)
    else if w.at.empties + 1 >= k.t then Stop(k, w.at.page, w.posts, "", false, ArchiveFloor(k.reason))
    else GoesOn(Walk(Position(w.at.page + 1, 0, w.at.empties + 1), w.posts))
  }

  /** A page that could not be fetched or parsed ends the call. */
  function TurnOn(k: Task, w: Walk, got: Result<seq<RawPost>, CrawlError>): (turn: Turn)
    requires |w.posts| < k.budget
    ensures turn.GoesOn? ==> |turn.walk.posts| < k.budget
  {
    match got
    case Err(e) => Stops(Err(e))
    case Ok(rows) => PageTurn(k, w, rows)
  }

  /** What fetching and parsing a page of the source gives. */
  function FetchPage(up: Upstream, page: nat): Result<seq<RawPost>, CrawlError> {
    if Fails(up, page) then Err(FailureAt(up, page)) else Ok(PageAt(up.archive, page))
  }

  // ----- what turns on the pages of an archive lead to -----

  /** The answer of a call that starts at `start` and can have every page. */
  function Goal(k: Task, a: Archive, start: Position): Response
    requires k.budget >= 1
  {
    Respond(a, Stream(a, k.t, start), k.from, FloorPage(a, k.t, start), k.budget, k.cutoff, k.reason)
  }

  /** The posts in hand are the first rows ahead of the start, all in the window, and the rest is still ahead. */
  ghost predicate StandsAt(k: Task, a: Archive, start: Position, w: Walk) {
    var s := Stream(a, k.t, start);
    && |w.posts| <= Kept(s, k.cutoff)
    && w.posts == Posts(s[..|w.posts|])
    && s[|w.posts|..] == Stream(a, k.t, w.at)
    && FloorPage(a, k.t, start) == FloorPage(a, k.t, w.at)
  }

  lemma Starts(k: Task, a: Archive, start: Position)
    ensures StandsAt(k, a, start, Walk(start, []))
  {
    assert Stream(a, k.t, start)[0..] == Stream(a, k.t, start);
  }

  lemma {:induction false} KeptFrom(s: seq<Located>, cutoff: Option<Instant>, n: nat)
    requires n <= Kept(s, cutoff)
    ensures Kept(s, cutoff) == n + Kept(s[n..], cutoff)
    decreases n
  {
    if n > 0 {
      KeptFrom(s[1..], cutoff, n - 1);
      assert s[1..][n - 1..] == s[n..];
    } else {
      assert s[0..] == s;
    }
  }

  lemma {:induction false} KeptConcat(x: seq<Located>, y: seq<Located>, cutoff: Option<Instant>)
    ensures Kept(x + y, cutoff) == if Kept(x, cutoff) < |x| then Kept(x, cutoff) else |x| + Kept(y, cutoff)
    decreases |x|
  {
    if x == [] {
      assert x + y == y;
    } else {
      assert (x + y)[1..] == x[1..] + y;
      KeptConcat(x[1..], y, cutoff);
    }
  }

  /** The stream split at the rows that are left of the page at hand. */
  ghost predicate Splits(k: Task, s: seq<Located>, posts: seq<RawPost>, rest: seq<Located>, tail: seq<Located>) {
    && |posts| < k.budget && |posts| <= |s| && posts == Posts(s[..|posts|])
    && s[|posts|..] == rest + tail
    && Kept(s, k.cutoff) == |posts| + Kept(rest + tail, k.cutoff)
  }

  lemma TakesMore(s: seq<Located>, posts: seq<RawPost>, rest: seq<Located>, tail: seq<Located>, n: nat)
    requires |posts| <= |s| && posts == Posts(s[..|posts|]) && s[|posts|..] == rest + tail && n <= |rest|
    ensures |posts| + n <= |s| && Posts(s[..|posts| + n]) == posts + Posts(rest[..n])
    ensures n > 0 ==> s[|posts| + n - 1] == rest[n - 1]
    ensures n < |rest| ==> |posts| + n < |s| && s[|posts| + n] == rest[n]
    ensures s[|posts| + n..] == rest[n..] + tail
  {
    var m := |posts|;
    assert s == s[..m] + (rest + tail);
    assert s[..m + n] == s[..m] + rest[..n];
    assert n > 0 ==> s[m + n - 1] == (rest + tail)[n - 1];
    assert n < |rest| ==> s[m + n] == (rest + tail)[n];
    assert s[m + n..] == (rest + tail)[n..];
  }

  lemma RowIs(rows: seq<RawPost>, page: nat, skip: nat, i: nat)
    requires i < |Rows(rows, page, skip)|
    ensures Rows(rows, page, skip)[i].page == page && Rows(rows, page, skip)[i].row == skip + i
    ensures |Rows(rows, page, skip)| == |rows| - skip
  {
    RowsAre(rows, page, skip);
  }

  lemma Ends(k: Task, a: Archive, s: seq<Located>, floor: nat, posts: seq<RawPost>, last: Located, next: Cursor)
    requires k.budget >= 1 && HasMore(a, s, k.budget, k.cutoff)
    requires posts == Posts(s[..k.budget]) && last == s[k.budget - 1] && next == After(a, last)
    ensures Respond(a, s, k.from, floor, k.budget, k.cutoff, k.reason)
            == Response(posts, FormatCursor(next), true, PageBudget, last.page - k.from + 1, last.page)
  {
  }

  lemma EndsEarly(k: Task, a: Archive, s: seq<Located>, floor: nat, n: nat, posts: seq<RawPost>, next: Located)
    requires k.budget >= 1 && !HasMore(a, s, k.budget, k.cutoff)
    requires n == Kept(s, k.cutoff) < |s| && posts == Posts(s[..n]) && next == s[n]
    ensures Respond(a, s, k.from, floor, k.budget, k.cutoff, k.reason)
            == Response(posts, "", false, LookbackBoundary, next.page - k.from + 1, next.page)
  {
  }

  /** The walk ends at the first row out of the window, before or right after the budget fills. */
  lemma BoundaryAnswers(k: Task, a: Archive, s: seq<Located>, floor: nat, posts: seq<RawPost>, page: nat, skip: nat,
                        rest: seq<Located>, tail: seq<Located>, kept: nat)
    requires Splits(k, s, posts, rest, tail) && rest == Rows(PageAt(a, page), page, skip)
    requires kept == Kept(rest, k.cutoff) < |rest| && kept <= k.budget - |posts|
    ensures Respond(a, s, k.from, floor, k.budget, k.cutoff, k.reason)
            == Response(posts + Posts(rest[..kept]), "", false, LookbackBoundary, page - k.from + 1, page)
  {
    KeptConcat(rest, tail, k.cutoff);
    TakesMore(s, posts, rest, tail, kept);
    RowIs(PageAt(a, page), page, skip, kept);
    if kept == k.budget - |posts| {
      RowIs(PageAt(a, page), page, skip, kept - 1);
      assert !EndsPage(a, s[k.budget - 1]);
    }
    EndsEarly(k, a, s, floor, |posts| + kept, posts + Posts(rest[..kept]), rest[kept]);
  }

  lemma BudgetFills(k: Task, a: Archive, s: seq<Located>, posts: seq<RawPost>, page: nat, skip: nat,
                    rest: seq<Located>, tail: seq<Located>, left: nat)
    requires Splits(k, s, posts, rest, tail) && rest == Rows(PageAt(a, page), page, skip)
    requires left == k.budget - |posts| <= |rest| && (Kept(rest, k.cutoff) == |rest| || left < Kept(rest, k.cutoff))
    ensures HasMore(a, s, k.budget, k.cutoff)
  {
    KeptConcat(rest, tail, k.cutoff);
    if left == |rest| {
      TakesMore(s, posts, rest, tail, left);
      RowIs(PageAt(a, page), page, skip, left - 1);
      assert EndsPage(a, s[k.budget - 1]);
    }
  }

  /** The walk ends with the budget filled. */
  lemma BudgetAnswers(k: Task, a: Archive, s: seq<Located>, floor: nat, posts: seq<RawPost>, page: nat, skip: nat,
                      rest: seq<Located>, tail: seq<Located>, left: nat)
    requires Splits(k, s, posts, rest, tail) && rest == Rows(PageAt(a, page), page, skip)
    requires left == k.budget - |posts| <= |rest| && (Kept(rest, k.cutoff) == |rest| || left < Kept(rest, k.cutoff))
    ensures var cursor := if left < |rest| then Cursor(page, skip + left) else Cursor(page, 0);
            Respond(a, s, k.from, floor, k.budget, k.cutoff, k.reason)
            == Response(posts + Posts(rest[..left]), FormatCursor(cursor), true, PageBudget, page - k.from + 1, page)
  {
    BudgetFills(k, a, s, posts, page, skip, rest, tail, left);
    TakesMore(s, posts, rest, tail, left);
    AfterRow(a, page, skip, left);
    var cursor := if left < |rest| then Cursor(page, skip + left) else Cursor(page, 0);
    Ends(k, a, s, floor, posts + Posts(rest[..left]), rest[left - 1], cursor);
  }

  /** The cursor after the row that fills the budget. */
  lemma AfterRow(a: Archive, page: nat, skip: nat, left: nat)
    requires 1 <= left <= |Rows(PageAt(a, page), page, skip)|
    ensures var rest := Rows(PageAt(a, page), page, skip);
            && rest[left - 1].page == page
            && After(a, rest[left - 1]) == if left < |rest| then Cursor(page, skip + left) else Cursor(page, 0)
  {
    RowIs(PageAt(a, page), page, skip, left - 1);
  }

  /** The walk ends at the floor. */
  lemma FloorAnswers(k: Task, a: Archive, s: seq<Located>, floor: nat, posts: seq<RawPost>)
    requires |posts| < k.budget && |posts| == |s| == Kept(s, k.cutoff) && posts == Posts(s)
    ensures Respond(a, s, k.from, floor, k.budget, k.cutoff, k.reason)
            == Response(posts, "", false, ArchiveFloor(k.reason), floor - k.from + 1, floor)
  {
  }

  /** A turn on the right page goes on, or stops with the answer. */
  ghost predicate Leads(k: Task, a: Archive, start: Position, w: Walk, turn: Turn)
    requires k.budget >= 1
  {
    match turn
    case GoesOn(next) =>
      && StandsAt(k, a, start, next) && UnderWay(k, next) && next.at.page == w.at.page + 1
      && (w.at.page >= |a| ==> next.at.empties == w.at.empties + 1)
    case Stops(res) =>
      && res == Ok(Goal(k, a, start)) && res.value.lastPage == w.at.page
      && res.value.pagesFetched == w.at.page - k.from + 1
  }

  lemma EmptyTurnLeads(k: Task, a: Archive, start: Position, w: Walk)
    requires UnderWay(k, w) && StandsAt(k, a, start, w) && PageAt(a, w.at.page) == []
    ensures Leads(k, a, start, w, PageTurn(k, w, []))
  {
    var s := Stream(a, k.t, start);
    KeptFrom(s, k.cutoff, |w.posts|);
    if w.at.empties + 1 >= k.t {
      assert s[|w.posts|..] == [];
      assert s[..|s|] == s;
      FloorAnswers(k, a, s, FloorPage(a, k.t, start), w.posts);
    }
  }

  /** The rows of the page at hand, where the walk stands. */
  ghost predicate OnPage(k: Task, a: Archive, start: Position, w: Walk, rest: seq<Located>, tail: seq<Located>) {
    && UnderWay(k, w) && StandsAt(k, a, start, w) && PageAt(a, w.at.page) != []
    && Splits(k, Stream(a, k.t, start), w.posts, rest, tail)
    && rest == Rows(PageAt(a, w.at.page), w.at.page, w.at.skip)
    && tail == Stream(a, k.t, Position(w.at.page + 1, 0, 0))
    && FloorPage(a, k.t, start) == FloorPage(a, k.t, Position(w.at.page + 1, 0, 0))
  }

  lemma ComesToPage(k: Task, a: Archive, start: Position, w: Walk)
    requires UnderWay(k, w) && StandsAt(k, a, start, w) && PageAt(a, w.at.page) != []
    ensures OnPage(k, a, start, w, Rows(PageAt(a, w.at.page), w.at.page, w.at.skip),
                   Stream(a, k.t, Position(w.at.page + 1, 0, 0)))
  {
    KeptFrom(Stream(a, k.t, start), k.cutoff, |w.posts|);
  }

  /** All rows of the page are taken and the walk goes on after it. */
  lemma WholePage(k: Task, s: seq<Located>, posts: seq<RawPost>, rest: seq<Located>, tail: seq<Located>)
    requires Splits(k, s, posts, rest, tail) && |rest| == Kept(rest, k.cutoff) < k.budget - |posts|
    ensures var more := posts + Posts(rest);
            && |more| < k.budget && |more| <= Kept(s, k.cutoff) && more == Posts(s[..|more|]) && s[|more|..] == tail
  {
    KeptConcat(rest, tail, k.cutoff);
    TakesMore(s, posts, rest, tail, |rest|);
    assert rest[..|rest|] == rest && rest[|rest|..] + tail == tail;
  }

  /** What a stop on the rows of a page returns is the answer. */
  lemma RowsStopAnswers(k: Task, a: Archive, s: seq<Located>, floor: nat, w: Walk, tail: seq<Located>)
    requires Splits(k, s, w.posts, Rows(PageAt(a, w.at.page), w.at.page, w.at.skip), tail)
    requires RowsTurn(k, w, PageAt(a, w.at.page)).Stops?
    ensures var answer := Respond(a, s, k.from, floor, k.budget, k.cutoff, k.reason);
            && RowsTurn(k, w, PageAt(a, w.at.page)).res == Ok(answer)
            && answer.lastPage == w.at.page && answer.pagesFetched == w.at.page - k.from + 1
  {
    var rest := Rows(PageAt(a, w.at.page), w.at.page, w.at.skip);
    var kept, left := Kept(rest, k.cutoff), k.budget - |w.posts|;
    if kept < |rest| && kept <= left {
      BoundaryAnswers(k, a, s, floor, w.posts, w.at.page, w.at.skip, rest, tail, kept);
    } else {
      BudgetAnswers(k, a, s, floor, w.posts, w.at.page, w.at.skip, rest, tail, left);
    }
  }

  lemma RowsTurnLeads(k: Task, a: Archive, start: Position, w: Walk)
    requires UnderWay(k, w) && StandsAt(k, a, start, w) && PageAt(a, w.at.page) != []
    ensures Leads(k, a, start, w, RowsTurn(k, w, PageAt(a, w.at.page)))
  {
    var rest, tail := Rows(PageAt(a, w.at.page), w.at.page, w.at.skip), Stream(a, k.t, Position(w.at.page + 1, 0, 0));
    var s, floor := Stream(a, k.t, start), FloorPage(a, k.t, start);
    ComesToPage(k, a, start, w);
    if RowsTurn(k, w, PageAt(a, w.at.page)).Stops? {
      RowsStopAnswers(k, a, s, floor, w, tail);
    } else {
      WholePage(k, s, w.posts, rest, tail);
    }
  }

  /** Given the page of the archive, a turn leads on or to the answer. */
  lemma TurnLeads(k: Task, a: Archive, start: Position, w: Walk)
    requires UnderWay(k, w) && StandsAt(k, a, start, w)
    ensures Leads(k, a, start, w, PageTurn(k, w, PageAt(a, w.at.page)))
  {
    if PageAt(a, w.at.page) == [] {
      EmptyTurnLeads(k, a, start, w);
    } else {
      RowsTurnLeads(k, a, start, w);
    }
  }

  /** The page a walk stands at is one the answer needs. */
  lemma PageIsNeeded(k: Task, a: Archive, start: Position, w: Walk)
    requires UnderWay(k, w) && StandsAt(k, a, start, w)
    ensures w.at.page <= Goal(k, a, start).lastPage
  {
    var s, n := Stream(a, k.t, start), |w.posts|;
    StreamPages(a, k.t, w.at);
    KeptFrom(s, k.cutoff, n);
    var kept := Kept(s, k.cutoff);
    if HasMore(a, s, k.budget, k.cutoff) {
      assert s[k.budget - 1] == s[n..][k.budget - 1 - n];
    } else if kept < |s| {
      assert s[kept] == s[n..][kept - n];
    }
  }

  // ----- pages that fail -----

  ghost predicate NoneFails(up: Upstream, from: nat, page: nat) {
    forall q: nat :: from <= q < page ==> !Fails(up, q)
  }

  lemma OneMoreHeld(up: Upstream, from: nat, page: nat)
    requires NoneFails(up, from, page) && !Fails(up, page)
    ensures NoneFails(up, from, page + 1)
  {
  }

  /** A walk that got every page before the one it stands at, and cannot have that one. */
  lemma FailingTurnAnswers(k: Task, up: Upstream, start: Position, w: Walk)
    requires UnderWay(k, w) && StandsAt(k, up.archive, start, w)
    requires NoneFails(up, k.from, w.at.page) && Fails(up, w.at.page)
    ensures Guarded(up, k.from, Goal(k, up.archive, start)) == Err(FailureAt(up, w.at.page))
  {
    PageIsNeeded(k, up.archive, start, w);
    FirstFailingIs(up, k.from, w.at.page, Goal(k, up.archive, start).lastPage);
  }

  /** A walk that got every page up to the one the answer ends with. */
  lemma HeldPagesAnswer(up: Upstream, from: nat, goal: Response)
    requires from <= goal.lastPage && NoneFails(up, from, goal.lastPage + 1)
    ensures Guarded(up, from, goal) == Ok(goal)
  {
    FirstFailingIs(up, from, goal.lastPage + 1, goal.lastPage);
  }

  /** What holds after a turn on the page that the source gives. */
  ghost predicate Reaches(k: Task, up: Upstream, start: Position, w: Walk, turn: Turn)
    requires k.budget >= 1
  {
    match turn
    case GoesOn(next) =>
      && StandsAt(k, up.archive, start, next) && UnderWay(k, next) && next.at.page == w.at.page + 1
      && (w.at.page >= |up.archive| ==> next.at.empties == w.at.empties + 1)
      && NoneFails(up, k.from, next.at.page)
    case Stops(res) =>
      && res == Guarded(up, k.from, Goal(k, up.archive, start))
      && PagesFetched(res, k.from) == w.at.page - k.from + 1
  }

  lemma FetchedTurnReaches(k: Task, up: Upstream, start: Position, w: Walk)
    requires UnderWay(k, w) && StandsAt(k, up.archive, start, w) && NoneFails(up, k.from, w.at.page)
    ensures Reaches(k, up, start, w, TurnOn(k, w, FetchPage(up, w.at.page)))
  {
    if Fails(up, w.at.page) {
      FailingTurnAnswers(k, up, start, w);
    } else {
      OneMoreHeld(up, k.from, w.at.page);
      TurnLeads(k, up.archive, start, w);
      var turn := PageTurn(k, w, PageAt(up.archive, w.at.page));
      if turn.Stops? {
        HeldPagesAnswer(up, k.from, Goal(k, up.archive, start));
      }
    }
  }
}
