/**
 * Chained crawl calls against one flat walk of the archive: whatever the page sizes, the moving
 * cutoffs and the failures on the way, following next_cursor reads the stream without gap or repeat.
 */
module CrawlChain {
  import opened Basics
  import opened RawPosts
  import opened CrawlModel

  const TOP := Position(1, 0, 0)

  /** The whole stream of an archive, as a walk from its first page meets it. */
  function Whole(cfg: Config, a: Archive): seq<Located> {
    Stream(a, EmptyRun(cfg.threshold), TOP)
  }

  // ----- the stream is the archive down to its floor -----

  ghost predicate EmptyRunAt(a: Archive, t: nat, from: nat) {
    forall i :: from <= i < from + t ==> PageAt(a, i) == []
  }

  /** The first page of the first run of t empty pages. */
  ghost predicate IsFloor(a: Archive, t: nat, floor: nat) {
    && floor >= 1
    && EmptyRunAt(a, t, floor)
    && forall g :: 1 <= g < floor ==> !EmptyRunAt(a, t, g)
  }

  /** The rows of pages p up to the floor, page after page. */
  function Flat(a: Archive, p: nat, floor: nat): seq<Located>
    decreases floor - p
  {
    if p >= floor then [] else Rows(PageAt(a, p), p, 0) + Flat(a, p + 1, floor)
  }

  /** The walk from page p after e empty pages finds the first floor and reads all pages before it. */
  lemma {:induction false} WalkIsFlat(a: Archive, t: nat, p: nat, e: nat) returns (floor: nat)
    requires e < t && p - e >= 1 && EmptyRunAt(a, e, p - e)
    requires forall g :: 1 <= g < p - e ==> !EmptyRunAt(a, t, g)
    ensures IsFloor(a, t, floor) && floor >= p - e
    ensures FloorPage(a, t, Position(p, 0, e)) == floor + t - 1
    ensures Stream(a, t, Position(p, 0, e)) == Flat(a, p, floor)
    decreases PagesLeft(a, p), t - e
  {
    if PageAt(a, p) == [] {
      if e + 1 >= t {
        floor := p - e;
      } else {
        floor := WalkIsFlat(a, t, p + 1, e + 1);
      }
    } else {
      forall g | 1 <= g < p + 1 ensures !EmptyRunAt(a, t, g) {
        if g >= p - e {
          assert PageAt(a, p) != [];
        }
      }
      floor := WalkIsFlat(a, t, p + 1, 0);
    }
  }

  /** The stream is what stands before the first run of t empty pages. */
  lemma StreamIsArchive(cfg: Config, a: Archive) returns (floor: nat)
    ensures IsFloor(a, EmptyRun(cfg.threshold), floor)
    ensures Whole(cfg, a) == Flat(a, 1, floor)
    ensures FloorPage(a, EmptyRun(cfg.threshold), TOP) == floor + EmptyRun(cfg.threshold) - 1
  {
    floor := WalkIsFlat(a, EmptyRun(cfg.threshold), 1, 0);
  }

  // ----- how far a call walks -----

  ghost predicate EmptyFrom(a: Archive, m: nat) {
    forall p :: p >= m ==> PageAt(a, p) == []
  }

  lemma {:induction false} FloorIsNear(a: Archive, t: nat, at: Position, m: nat)
    requires EmptyFrom(a, m) && at.empties < t
    ensures FloorPage(a, t, at) <= if at.page < m then m + t - 1 else at.page + t - at.empties - 1
    decreases PagesLeft(a, at.page), t - at.empties
  {
    if PageAt(a, at.page) == [] {
      if at.empties + 1 < t {
        FloorIsNear(a, t, Position(at.page + 1, 0, at.empties + 1), m);
      }
    } else {
      FloorIsNear(a, t, Position(at.page + 1, 0, 0), m);
    }
  }

  /**
   * When no page from m on has rows, a call that starts at page p fetches at most m - p pages with
   * rows ahead plus one empty run, whether it is answered or fails. A malformed cursor fetches none.
   */
  lemma CallTerminates(cfg: Config, up: Upstream, pageSize: int, cursor: string, cutoff: Option<Instant>, m: nat)
    requires EmptyFrom(up.archive, m)
    ensures var res := Answer(cfg, up, pageSize, cursor, cutoff);
            match ParseCursor(cursor)
            case None => PagesFetched(res, 0) == 0
            case Some(c) =>
              var start := Resume(c).page;
              1 <= PagesFetched(res, start) <= (if start < m then m - start else 0) + EmptyRun(cfg.threshold)
  {
    if ParseCursor(cursor).Some? {
      var c, t := ParseCursor(cursor).value, EmptyRun(cfg.threshold);
      var s, from, floor := Ahead(cfg, up.archive, c), Resume(c).page, FloorPage(up.archive, t, Resume(c));
      StreamPages(up.archive, t, Resume(c));
      FloorIsNear(up.archive, t, Resume(c), m);
      LastPageWithin(up.archive, s, from, floor, ClampPageSize(pageSize), cutoff, cfg.floorReason);
      FirstFailingWithin(up, from, Clean(cfg, up.archive, c, ClampPageSize(pageSize), cutoff).lastPage);
    }
  }

  lemma {:induction false} FirstFailingWithin(up: Upstream, from: nat, last: nat)
    ensures FirstFailing(up, from, last).Some? ==> from <= FirstFailing(up, from, last).value <= last
    decreases last + 1 - from
  {
    if from <= last {
      FirstFailingWithin(up, from + 1, last);
    }
  }

  lemma LastPageWithin(a: Archive, s: seq<Located>, from: nat, floor: nat, budget: nat, cutoff: Option<Instant>,
                       reason: string)
    requires budget >= 1 && from <= floor && PagesWithin(s, from, floor)
    ensures var r := Respond(a, s, from, floor, budget, cutoff, reason);
            from <= r.lastPage <= floor && r.pagesFetched == r.lastPage - from + 1
  {
  }

  // ----- cursors stand for positions in the stream -----

  lemma {:induction false} RowsFrom(rows: seq<RawPost>, page: nat, from: nat, j: nat)
    requires from + j <= |rows|
    ensures |Rows(rows, page, from)| == |rows| - from
    ensures Rows(rows, page, from)[j..] == Rows(rows, page, from + j)
    decreases j
  {
    RowsAre(rows, page, from);
    RowsAre(rows, page, from + j);
  }

  /** The cursor after a row of the page at hand. */
  lemma ResumesInPage(a: Archive, t: nat, at: Position, j: nat)
    requires PageAt(a, at.page) != [] && j < |Rows(PageAt(a, at.page), at.page, at.skip)|
    ensures Stream(a, t, Resume(After(a, Stream(a, t, at)[j]))) == Stream(a, t, at)[j + 1..]
    ensures var l := Stream(a, t, at)[j]; l.page == at.page && l.row == at.skip + j < |PageAt(a, at.page)|
  {
    var rows, tail := PageAt(a, at.page), Stream(a, t, Position(at.page + 1, 0, 0));
    var head := Rows(rows, at.page, at.skip);
    RowsAre(rows, at.page, at.skip);
    RowsFrom(rows, at.page, at.skip, j + 1);
    WithinHead(head, tail, j);
    var next := Resume(After(a, head[j]));
    if at.skip + j + 1 < |rows| {
      assert next == Position(at.page, at.skip + j + 1, 0);
    } else {
      assert next == Position(at.page + 1, 0, 0);
      assert [] + tail == tail;
    }
  }

  lemma WithinHead(head: seq<Located>, tail: seq<Located>, j: nat)
    requires j < |head|
    ensures (head + tail)[j] == head[j]
    ensures (head + tail)[j + 1..] == head[j + 1..] + tail
  {
  }

  lemma PastHead(head: seq<Located>, tail: seq<Located>, j: nat)
    requires |head| <= j < |head + tail|
    ensures (head + tail)[j] == tail[j - |head|]
    ensures (head + tail)[j + 1..] == tail[j - |head| + 1..]
  {
  }

  /** The cursor after a row resumes at the next one, mid-page and at a page seam. */
  lemma {:induction false} ResumesAfter(a: Archive, t: nat, at: Position, j: nat)
    requires j < |Stream(a, t, at)|
    ensures Stream(a, t, Resume(After(a, Stream(a, t, at)[j]))) == Stream(a, t, at)[j + 1..]
    ensures var l := Stream(a, t, at)[j]; l.page < |a| && l.row < |PageAt(a, l.page)|
    decreases PagesLeft(a, at.page), t - at.empties
  {
    var rows := PageAt(a, at.page);
    if rows == [] {
      ResumesAfter(a, t, Position(at.page + 1, 0, at.empties + 1), j);
    } else {
      var head, tail := Rows(rows, at.page, at.skip), Stream(a, t, Position(at.page + 1, 0, 0));
      if j < |head| {
        ResumesInPage(a, t, at, j);
      } else {
        ResumesAfter(a, t, Position(at.page + 1, 0, 0), j - |head|);
        PastHead(head, tail, j);
      }
    }
  }

  /** Page numbers and row counts fit the source's integers. */
  ghost predicate Sized(a: Archive) {
    |a| <= MAX_INT64 && forall p :: 0 <= p < |a| ==> |a[p]| <= MAX_INT64
  }

  /** The cursor stands for position k: the call it is given to has exactly the rest ahead. */
  ghost predicate Denotes(cfg: Config, a: Archive, cursor: string, k: nat) {
    && ParseCursor(cursor).Some?
    && k <= |Whole(cfg, a)|
    && Ahead(cfg, a, ParseCursor(cursor).value) == Whole(cfg, a)[k..]
  }

  lemma EmptyCursorIsTop(cfg: Config, a: Archive)
    ensures Denotes(cfg, a, "", 0)
  {
    assert Whole(cfg, a)[0..] == Whole(cfg, a);
  }

  lemma CursorMovesOn(cfg: Config, a: Archive, cursor: string, k: nat, n: nat)
    requires Sized(a) && Denotes(cfg, a, cursor, k) && 1 <= n && k + n <= |Whole(cfg, a)|
    ensures Denotes(cfg, a, FormatCursor(After(a, Whole(cfg, a)[k + n - 1])), k + n)
  {
    ResumesAfter(a, EmptyRun(cfg.threshold), TOP, k + n - 1);
    var l := Whole(cfg, a)[k + n - 1];
    assert |a[l.page]| <= MAX_INT64;
    CursorRoundTrip(After(a, l));
  }

  // ----- one call -----

  /** What the answer is from position k, in terms of the stream: rows k up to m, and what stops it there. */
  ghost predicate Reads(cfg: Config, a: Archive, cutoff: Option<Instant>, r: Response, k: nat, m: nat) {
    var s := Whole(cfg, a);
    && k <= m <= |s|
    && r.posts == Posts(s[k..m])
    && (forall i :: k <= i < m ==> !OutOfWindow(s[i].post.publishedAt, cutoff))
    && (r.hasMore ==> m > k && Denotes(cfg, a, r.nextCursor, m))
    && (!r.hasMore ==> r.nextCursor == "" && (m == |s| || OutOfWindow(s[m].post.publishedAt, cutoff)))
  }

  lemma CallReads(cfg: Config, up: Upstream, pageSize: int, cursor: string, cutoff: Option<Instant>, k: nat)
      returns (m: nat)
    requires Sized(up.archive) && Denotes(cfg, up.archive, cursor, k)
    requires Answer(cfg, up, pageSize, cursor, cutoff).Ok?
    ensures Reads(cfg, up.archive, cutoff, Answer(cfg, up, pageSize, cursor, cutoff).value, k, m)
    ensures m <= k + ClampPageSize(pageSize)
    ensures Answer(cfg, up, pageSize, cursor, cutoff).value.hasMore ==> m == k + ClampPageSize(pageSize)
  {
    AnsweredIsClean(cfg, up, pageSize, cursor, cutoff);
    m := CleanCallReads(cfg, up.archive, ClampPageSize(pageSize), cursor, cutoff, k);
  }

  lemma CleanCallReads(cfg: Config, a: Archive, budget: nat, cursor: string, cutoff: Option<Instant>, k: nat)
      returns (m: nat)
    requires Sized(a) && Denotes(cfg, a, cursor, k) && budget >= 1
    ensures var r := Clean(cfg, a, ParseCursor(cursor).value, budget, cutoff);
            Reads(cfg, a, cutoff, r, k, m) && m <= k + budget && (r.hasMore ==> m == k + budget)
  {
    var c := ParseCursor(cursor).value;
    var n := CleanReads(cfg, a, c, budget, cutoff);
    m := k + n;
    FromPosition(cfg, a, cursor, budget, cutoff, Clean(cfg, a, c, budget, cutoff), k, n);
  }

  /** A call that is answered gets the answer of a source whose pages can all be had. */
  lemma AnsweredIsClean(cfg: Config, up: Upstream, pageSize: int, cursor: string, cutoff: Option<Instant>)
    requires Answer(cfg, up, pageSize, cursor, cutoff).Ok?
    ensures ParseCursor(cursor).Some?
    ensures Answer(cfg, up, pageSize, cursor, cutoff).value
         == Clean(cfg, up.archive, ParseCursor(cursor).value, ClampPageSize(pageSize), cutoff)
  {
  }

  lemma CleanReads(cfg: Config, a: Archive, c: Cursor, budget: nat, cutoff: Option<Instant>) returns (n: nat)
    requires budget >= 1
    ensures Takes(a, Ahead(cfg, a, c), budget, cutoff, Clean(cfg, a, c, budget, cutoff), n)
  {
    var floor := FloorPage(a, EmptyRun(cfg.threshold), Resume(c));
    n := RowsRead(a, Ahead(cfg, a, c), Resume(c).page, floor, budget, cutoff, cfg.floorReason);
  }

  /** What a response takes of the rows ahead, and what the next one is. */
  ghost predicate Takes(a: Archive, s: seq<Located>, budget: nat, cutoff: Option<Instant>, r: Response, n: nat) {
    && n <= |s| && n <= budget
    && r.posts == Posts(s[..n])
    && (forall i :: 0 <= i < n ==> !OutOfWindow(s[i].post.publishedAt, cutoff))
    && (r.hasMore ==> 1 <= n == budget && r.nextCursor == FormatCursor(After(a, s[n - 1])))
    && (!r.hasMore ==> r.nextCursor == "" && (n == |s| || OutOfWindow(s[n].post.publishedAt, cutoff)))
  }

  lemma FromPosition(cfg: Config, a: Archive, cursor: string, budget: nat, cutoff: Option<Instant>, r: Response,
                     k: nat, n: nat)
    requires Sized(a) && Denotes(cfg, a, cursor, k)
    requires Takes(a, Whole(cfg, a)[k..], budget, cutoff, r, n)
    ensures Reads(cfg, a, cutoff, r, k, k + n)
  {
    Shifted(Whole(cfg, a), k, n);
    if r.hasMore {
      CursorMovesOn(cfg, a, cursor, k, n);
    }
  }

  lemma Shifted(w: seq<Located>, k: nat, n: nat)
    requires k + n <= |w|
    ensures w[k..][..n] == w[k..k + n]
    ensures forall i :: k <= i < k + n ==> w[i] == w[k..][i - k]
    ensures k + n < |w| ==> w[k + n] == w[k..][n]
  {
  }

  /** How many of the rows ahead a response holds. */
  lemma RowsRead(a: Archive, s: seq<Located>, from: nat, floor: nat, budget: nat, cutoff: Option<Instant>,
                 reason: string) returns (n: nat)
    requires budget >= 1
    ensures Takes(a, s, budget, cutoff, Respond(a, s, from, floor, budget, cutoff, reason), n)
  {
    KeptIsPrefix(s, cutoff);
    n := if HasMore(a, s, budget, cutoff) then budget else Kept(s, cutoff);
    assert s[..|s|] == s;
  }

  // ----- chains of calls -----

  /** One call of a chain: its page size, its cutoff, and what it cannot fetch or parse. */
  datatype Call = Call(pageSize: int, cutoff: Option<Instant>, fetchFails: set<nat>, parseFails: set<nat>)

  /** What a caller holds who threads next_cursor and repeats a failed call. */
  datatype Trail = Trail(posts: seq<RawPost>, cursor: string, done: bool)

  function Ask(cfg: Config, a: Archive, trail: Trail, call: Call): Trail {
    if trail.done then trail
    else
      match Answer(cfg, Upstream(a, call.fetchFails, call.parseFails), call.pageSize, trail.cursor, call.cutoff)
      case Err(_) => trail
      case Ok(r) => Trail(trail.posts + r.posts, r.nextCursor, !r.hasMore)
  }

  /** 1 when the call is made and answered. */
  function AnsweredNow(cfg: Config, a: Archive, trail: Trail, call: Call): nat {
    if !trail.done && Answer(cfg, Upstream(a, call.fetchFails, call.parseFails), call.pageSize, trail.cursor,
                             call.cutoff).Ok? then 1 else 0
  }

  function Follow(cfg: Config, a: Archive, calls: seq<Call>): Trail {
    if calls == [] then Trail([], "", false)
    else Ask(cfg, a, Follow(cfg, a, calls[..|calls| - 1]), calls[|calls| - 1])
  }

  /** How many calls of the chain were answered before it was done. */
  function Answered(cfg: Config, a: Archive, calls: seq<Call>): nat {
    if calls == [] then 0
    else
      var init, last := calls[..|calls| - 1], calls[|calls| - 1];
      Answered(cfg, a, init) + AnsweredNow(cfg, a, Follow(cfg, a, init), last)
  }

  /** c lets through at least what d does. */
  predicate Looser(c: Option<Instant>, d: Option<Instant>) {
    c.None? || (d.Some? && c.value <= d.value)
  }

  /** Every cutoff of the chain lies between lo and hi. */
  ghost predicate CutoffsWithin(calls: seq<Call>, lo: Option<Instant>, hi: Option<Instant>) {
    forall i :: 0 <= i < |calls| ==> Looser(lo, calls[i].cutoff) && Looser(calls[i].cutoff, hi)
  }

  /** The trail holds the first k rows of the stream, all in the window lo; a finished one holds all in hi. */
  ghost predicate Follows(cfg: Config, a: Archive, trail: Trail, k: nat, lo: Option<Instant>, hi: Option<Instant>) {
    var s := Whole(cfg, a);
    && k <= |s|
    && trail.posts == Posts(s[..k])
    && k <= Kept(s, lo)
    && (!trail.done ==> Denotes(cfg, a, trail.cursor, k))
    && (trail.done ==> Kept(s, hi) <= k)
  }

  lemma KeptAtLeast(s: seq<Located>, cutoff: Option<Instant>, k: nat)
    requires k <= |s| && forall i :: 0 <= i < k ==> !OutOfWindow(s[i].post.publishedAt, cutoff)
    ensures k <= Kept(s, cutoff)
  {
    KeptIsPrefix(s, cutoff);
  }

  lemma KeptAtMost(s: seq<Located>, cutoff: Option<Instant>, k: nat)
    requires k <= |s| && (k == |s| || OutOfWindow(s[k].post.publishedAt, cutoff))
    ensures Kept(s, cutoff) <= k
  {
    KeptIsPrefix(s, cutoff);
  }

  lemma ResponseFollows(cfg: Config, a: Archive, trail: Trail, call: Call, r: Response, k: nat, m: nat,
                        lo: Option<Instant>, hi: Option<Instant>)
    requires Follows(cfg, a, trail, k, lo, hi) && Reads(cfg, a, call.cutoff, r, k, m)
    requires Looser(lo, call.cutoff) && Looser(call.cutoff, hi)
    ensures Follows(cfg, a, Trail(trail.posts + r.posts, r.nextCursor, !r.hasMore), m, lo, hi)
  {
    var s := Whole(cfg, a);
    KeptIsPrefix(s, lo);
    KeptAtLeast(s, lo, m);
    assert s[..m] == s[..k] + s[k..m];
    if !r.hasMore {
      KeptAtMost(s, hi, m);
    }
  }

  lemma AskFollows(cfg: Config, a: Archive, trail: Trail, call: Call, k: nat, lo: Option<Instant>,
                   hi: Option<Instant>) returns (m: nat)
    requires Sized(a) && Follows(cfg, a, trail, k, lo, hi)
    requires Looser(lo, call.cutoff) && Looser(call.cutoff, hi)
    ensures Follows(cfg, a, Ask(cfg, a, trail, call), m, lo, hi) && m >= k
    ensures AnsweredNow(cfg, a, trail, call) == 0 ==> m == k && Ask(cfg, a, trail, call) == trail
    ensures AnsweredNow(cfg, a, trail, call) == 1 ==> !trail.done && (m > k || Ask(cfg, a, trail, call).done)
  {
    m := k;
    var up := Upstream(a, call.fetchFails, call.parseFails);
    if AnsweredNow(cfg, a, trail, call) == 1 {
      m := CallReads(cfg, up, call.pageSize, trail.cursor, call.cutoff, k);
      var r := Answer(cfg, up, call.pageSize, trail.cursor, call.cutoff).value;
      ResponseFollows(cfg, a, trail, call, r, k, m, lo, hi);
    }
  }

  lemma {:induction false} ChainFollows(cfg: Config, a: Archive, calls: seq<Call>, lo: Option<Instant>,
                                        hi: Option<Instant>) returns (k: nat)
    requires Sized(a) && CutoffsWithin(calls, lo, hi)
    ensures Follows(cfg, a, Follow(cfg, a, calls), k, lo, hi)
    ensures Answered(cfg, a, calls) <= k + 1
    ensures !Follow(cfg, a, calls).done ==> Answered(cfg, a, calls) <= k
    decreases |calls|
  {
    if calls == [] {
      k := 0;
      EmptyCursorIsTop(cfg, a);
    } else {
      var init, last := calls[..|calls| - 1], calls[|calls| - 1];
      k := ChainFollows(cfg, a, init, lo, hi);
      k := AskFollows(cfg, a, Follow(cfg, a, init), last, k, lo, hi);
    }
  }

  /**
   * Resuming equals one flat walk. At every moment the concatenated posts are the first k rows of
   * the stream, for some k: no gap, no repeat, whatever the page sizes, the failures and the
   * cutoffs. A finished chain has all rows in the tightest window and none beyond the loosest.
   */
  lemma ResumeEqualsFlatWalk(cfg: Config, a: Archive, calls: seq<Call>, lo: Option<Instant>, hi: Option<Instant>)
      returns (k: nat)
    requires Sized(a) && CutoffsWithin(calls, lo, hi)
    ensures k <= |Whole(cfg, a)| && Follow(cfg, a, calls).posts == Posts(Whole(cfg, a)[..k])
    ensures k <= Kept(Whole(cfg, a), lo)
    ensures Follow(cfg, a, calls).done ==> Kept(Whole(cfg, a), hi) <= k
    ensures Answered(cfg, a, calls) <= Kept(Whole(cfg, a), lo) + 1
  {
    k := ChainFollows(cfg, a, calls, lo, hi);
  }

  /** With one cutoff a finished chain is exactly the in-window prefix of the archive up to its floor. */
  lemma FinishedChainIsExact(cfg: Config, a: Archive, calls: seq<Call>, cutoff: Option<Instant>) returns (floor: nat)
    requires Sized(a) && CutoffsWithin(calls, cutoff, cutoff) && Follow(cfg, a, calls).done
    ensures IsFloor(a, EmptyRun(cfg.threshold), floor)
    ensures var s := Flat(a, 1, floor); Follow(cfg, a, calls).posts == Posts(s[..Kept(s, cutoff)])
  {
    var k := ChainFollows(cfg, a, calls, cutoff, cutoff);
    floor := StreamIsArchive(cfg, a);
  }

  predicate Answers(cfg: Config, a: Archive, trail: Trail, call: Call) {
    Answer(cfg, Upstream(a, call.fetchFails, call.parseFails), call.pageSize, trail.cursor, call.cutoff).Ok?
  }

  /** Calls that fail leave no trace: the chain without them reads the same. */
  function Succeeding(cfg: Config, a: Archive, calls: seq<Call>): seq<Call> {
    if calls == [] then []
    else
      var init, last := calls[..|calls| - 1], calls[|calls| - 1];
      Succeeding(cfg, a, init) +
      (if Answers(cfg, a, Follow(cfg, a, init), last) then [last.(fetchFails := {}, parseFails := {})] else [])
  }

  lemma {:induction false} NoFaultsNoFailure(up: Upstream, from: nat, last: nat)
    requires up.fetchFails == {} && up.parseFails == {}
    ensures FirstFailing(up, from, last).None?
    decreases last + 1 - from
  {
    if from <= last {
      NoFaultsNoFailure(up, from + 1, last);
    }
  }

  lemma SuccessNeedsNoFaults(cfg: Config, a: Archive, call: Call, cursor: string)
    requires Answer(cfg, Upstream(a, call.fetchFails, call.parseFails), call.pageSize, cursor, call.cutoff).Ok?
    ensures Answer(cfg, Upstream(a, {}, {}), call.pageSize, cursor, call.cutoff)
         == Answer(cfg, Upstream(a, call.fetchFails, call.parseFails), call.pageSize, cursor, call.cutoff)
  {
    var c := ParseCursor(cursor).value;
    NoFaultsNoFailure(Upstream(a, {}, {}), Resume(c).page,
                      Clean(cfg, a, c, ClampPageSize(call.pageSize), call.cutoff).lastPage);
  }

  /** Injected failures followed by retries leave the concatenated stream as it is without them. */
  lemma {:induction false} FailuresAreTransparent(cfg: Config, a: Archive, calls: seq<Call>)
    ensures Follow(cfg, a, Succeeding(cfg, a, calls)) == Follow(cfg, a, calls)
    decreases |calls|
  {
    if calls != [] {
      var init, last := calls[..|calls| - 1], calls[|calls| - 1];
      FailuresAreTransparent(cfg, a, init);
      var good := last.(fetchFails := {}, parseFails := {});
      if Answers(cfg, a, Follow(cfg, a, init), last) {
        AsksAlike(cfg, a, Follow(cfg, a, init), last);
        FollowOne(cfg, a, Succeeding(cfg, a, init), good);
      } else {
        assert Succeeding(cfg, a, init) + [] == Succeeding(cfg, a, init);
      }
    }
  }

  lemma FollowOne(cfg: Config, a: Archive, calls: seq<Call>, call: Call)
    ensures Follow(cfg, a, calls + [call]) == Ask(cfg, a, Follow(cfg, a, calls), call)
  {
    assert (calls + [call])[..|calls|] == calls;
  }

  /** A call that is answered is answered alike without the faults it did not meet. */
  lemma AsksAlike(cfg: Config, a: Archive, trail: Trail, call: Call)
    requires Answers(cfg, a, trail, call)
    ensures Ask(cfg, a, trail, call.(fetchFails := {}, parseFails := {})) == Ask(cfg, a, trail, call)
  {
    SuccessNeedsNoFaults(cfg, a, call, trail.cursor);
  }

  // ----- has_more without more -----

  ghost predicate FilledWithMore(a: Archive, s: seq<Located>, cutoff: Option<Instant>, k: nat, m: nat) {
    && k < m <= |s|
    && (forall i :: k <= i < m ==> !OutOfWindow(s[i].post.publishedAt, cutoff))
    && (EndsPage(a, s[m - 1]) || (m < |s| && !OutOfWindow(s[m].post.publishedAt, cutoff)))
  }

  /**
   * has_more is set exactly when the budget fills and either a further post is in the window or the
   * last row returned ends its page. In the second case the next page has not been looked at, so
   * the following call may come back empty-handed.
   */
  lemma HasMoreExactly(cfg: Config, up: Upstream, pageSize: int, cursor: string, cutoff: Option<Instant>, k: nat)
    requires Denotes(cfg, up.archive, cursor, k)
    requires Answer(cfg, up, pageSize, cursor, cutoff).Ok?
    ensures Answer(cfg, up, pageSize, cursor, cutoff).value.hasMore
       <==> FilledWithMore(up.archive, Whole(cfg, up.archive), cutoff, k, k + ClampPageSize(pageSize))
  {
    var a, budget, w := up.archive, ClampPageSize(pageSize), Whole(cfg, up.archive);
    var s, m := w[k..], k + budget;
    KeptIsPrefix(s, cutoff);
    if m <= |w| {
      Shifted(w, k, budget);
      assert s[budget - 1] == w[m - 1];
    }
    if FilledWithMore(a, w, cutoff, k, m) {
      forall i | 0 <= i < budget ensures !OutOfWindow(s[i].post.publishedAt, cutoff) {
        assert s[i] == w[k + i];
      }
      KeptAtLeast(s, cutoff, budget);
    }
  }

  /** One post on one page, asked for one at a time: has_more is set although nothing is left. */
  lemma HasMoreWithNothingLeft(post: RawPost)
    ensures var cfg, up := Config(1, "archive_floor"), Upstream([[], [post]], {}, {});
            var first := Answer(cfg, up, 1, "", None);
            && first.Ok? && first.value.hasMore && first.value.posts == [post]
            && var second := Answer(cfg, up, 1, first.value.nextCursor, None);
               second.Ok? && second.value.posts == [] && !second.value.hasMore
  {
    var cfg, a := Config(1, "archive_floor"), [[], [post]];
    var up := Upstream(a, {}, {});
    var row := Located(1, 0, post);
    assert Rows([post], 1, 0) == [row] + Rows([post], 1, 1) == [row];
    assert Stream(a, 1, Position(2, 0, 0)) == [];
    assert Whole(cfg, a) == [row];
    assert Kept([row], None) == 1 + Kept([row][1..], None) == 1;
    NoFaultsNoFailure(up, 1, 1);
    assert Posts([row][..1]) == [post];
    CursorRoundTrip(Cursor(1, 0));
    NoFaultsNoFailure(up, 2, 2);
    assert FloorPage(a, 1, Position(2, 0, 0)) == 2;
    assert Posts([]) == [];
  }
}
