/**
 * What the trigger emits over whole passes, and over pass after pass: each post once, in batches of
 * bounded size, with the passes tiling time.
 */
module TriggerPasses {
  import opened Basics
  import opened RawPosts
  import opened CrawlModel
  import opened CrawlChain
  import opened Trigger

  // ----- sifting -----

  lemma {:induction false} SiftConcat(x: seq<RawPost>, y: seq<RawPost>, floor: Option<int>, start: Option<int>)
    ensures Sift(x + y, floor, start) ==
            if Sift(x, floor, start).1 then Sift(x, floor, start)
            else (Sift(x, floor, start).0 + Sift(y, floor, start).0, Sift(y, floor, start).1)
    decreases |x|
  {
    if x == [] {
      assert x + y == y;
      assert Sift(x, floor, start).0 + Sift(y, floor, start).0 == Sift(y, floor, start).0;
    } else {
      assert (x + y)[1..] == x[1..] + y;
      SiftConcat(x[1..], y, floor, start);
      var rx, ry := Sift(x[1..], floor, start).0, Sift(y, floor, start).0;
      assert [x[0]] + (rx + ry) == ([x[0]] + rx) + ry;
    }
  }

  lemma {:induction false} SiftIsNoLonger(x: seq<RawPost>, floor: Option<int>, start: Option<int>)
    ensures |Sift(x, floor, start).0| <= |x|
    decreases |x|
  {
    if x != [] {
      SiftIsNoLonger(x[1..], floor, start);
    }
  }

  /** The posts with floor < published_at <= start, in the order listed. */
  function Selected(posts: seq<RawPost>, floor: int, start: int): seq<RawPost> {
    if posts == [] then []
    else
      var rest := Selected(posts[1..], floor, start);
      if floor < Millis(posts[0].publishedAt) <= start then [posts[0]] + rest else rest
  }

  /** A post due for emission stands behind one at or below the floor. */
  ghost predicate Hidden(posts: seq<RawPost>, floor: int, start: int) {
    exists i, j :: 0 <= i < j < |posts| && Millis(posts[i].publishedAt) <= floor < Millis(posts[j].publishedAt) <= start
  }

  lemma {:induction false} SelectedEmpty(posts: seq<RawPost>, floor: int, start: int)
    ensures Selected(posts, floor, start) == [] <==>
            forall i :: 0 <= i < |posts| ==> !(floor < Millis(posts[i].publishedAt) <= start)
    decreases |posts|
  {
    if posts != [] {
      SelectedEmpty(posts[1..], floor, start);
      assert forall i :: 0 < i < |posts| ==> posts[i] == posts[1..][i - 1];
      assert forall i :: 0 <= i < |posts[1..]| ==> posts[1..][i] == posts[i + 1];
    }
  }

  lemma HiddenInTail(posts: seq<RawPost>, floor: int, start: int)
    requires posts != [] && Millis(posts[0].publishedAt) > floor
    ensures Hidden(posts, floor, start) <==> Hidden(posts[1..], floor, start)
  {
    if Hidden(posts, floor, start) {
      HiddenAfterHead(posts, floor, start);
    }
    if Hidden(posts[1..], floor, start) {
      HiddenBeforeHead(posts, floor, start);
    }
  }

  lemma HiddenAfterHead(posts: seq<RawPost>, floor: int, start: int)
    requires posts != [] && Millis(posts[0].publishedAt) > floor && Hidden(posts, floor, start)
    ensures Hidden(posts[1..], floor, start)
  {
    var i, j :| 0 <= i < j < |posts| && Millis(posts[i].publishedAt) <= floor < Millis(posts[j].publishedAt) <= start;
    assert posts[1..][i - 1] == posts[i] && posts[1..][j - 1] == posts[j];
  }

  lemma HiddenBeforeHead(posts: seq<RawPost>, floor: int, start: int)
    requires posts != [] && Hidden(posts[1..], floor, start)
    ensures Hidden(posts, floor, start)
  {
    var tail := posts[1..];
    var i, j :| 0 <= i < j < |tail| && Millis(tail[i].publishedAt) <= floor < Millis(tail[j].publishedAt) <= start;
    assert tail[i] == posts[i + 1] && tail[j] == posts[j + 1];
  }

  lemma HiddenByHead(posts: seq<RawPost>, floor: int, start: int)
    requires posts != [] && Millis(posts[0].publishedAt) <= floor
    ensures Hidden(posts, floor, start) <==> Selected(posts[1..], floor, start) != []
  {
    var tail := posts[1..];
    SelectedEmpty(tail, floor, start);
    if Hidden(posts, floor, start) {
      var i, j :| 0 <= i < j < |posts| && Millis(posts[i].publishedAt) <= floor < Millis(posts[j].publishedAt) <= start;
      assert tail[j - 1] == posts[j];
    }
    if k :| 0 <= k < |tail| && floor < Millis(tail[k].publishedAt) <= start {
      assert posts[k + 1] == tail[k];
    }
  }

  /**
   * The scan emits exactly the posts between floor and start if and only if none of them stands
   * behind a post at or below the floor. A post without a date is such a post.
   */
  lemma {:induction false} SiftIsExactIff(posts: seq<RawPost>, floor: int, start: int)
    ensures Sift(posts, Some(floor), Some(start)).0 == Selected(posts, floor, start) <==> !Hidden(posts, floor, start)
    ensures |Sift(posts, Some(floor), Some(start)).0| <= |Selected(posts, floor, start)|
    decreases |posts|
  {
    if posts != [] {
      if Millis(posts[0].publishedAt) <= floor {
        HiddenByHead(posts, floor, start);
      } else {
        SiftIsExactIff(posts[1..], floor, start);
        HiddenInTail(posts, floor, start);
        HeadCancels(posts[0], Sift(posts[1..], Some(floor), Some(start)).0, Selected(posts[1..], floor, start));
      }
    }
  }

  lemma HeadCancels(p: RawPost, x: seq<RawPost>, y: seq<RawPost>)
    ensures [p] + x == [p] + y <==> x == y
  {
    assert ([p] + x)[1..] == x && ([p] + y)[1..] == y;
  }

  ghost predicate NewestFirst(posts: seq<RawPost>) {
    forall i, j :: 0 <= i < j < |posts| ==> Millis(posts[j].publishedAt) <= Millis(posts[i].publishedAt)
  }

  /** On a dated, newest-first list the scan emits exactly the posts between floor and start. */
  lemma SiftIsSelection(posts: seq<RawPost>, floor: int, start: int)
    requires NewestFirst(posts)
    ensures Sift(posts, Some(floor), Some(start)).0 == Selected(posts, floor, start)
  {
    SiftIsExactIff(posts, floor, start);
  }

  /** A post without a date ends the scan: with any floor after year 1, all that follows it is lost. */
  lemma UndatedPostEndsScan(before: seq<RawPost>, undated: RawPost, after: seq<RawPost>, floor: int, start: int)
    requires undated.publishedAt == ZERO_TIME && floor >= Millis(ZERO_TIME)
    ensures Sift(before + [undated] + after, Some(floor), Some(start)).0 == Sift(before, Some(floor), Some(start)).0
  {
    SiftConcat(before + [undated], after, Some(floor), Some(start));
    SiftConcat(before, [undated], Some(floor), Some(start));
    assert Sift([undated], Some(floor), Some(start)) == ([], true);
  }

  // ----- one poll -----

  /** The posts of the archive as the trigger sees them. */
  function Stock(cfg: Config, a: Archive): seq<RawPost> {
    Posts(Whole(cfg, a))
  }

  /** Rows k up to m of the archive. */
  function Slice(cfg: Config, a: Archive, k: nat, m: nat): seq<RawPost>
    requires k <= m <= |Whole(cfg, a)|
  {
    Stock(cfg, a)[k..m]
  }

  /** How far the loop has come since position k: what it holds is sifted from rows k up to m. */
  ghost predicate Scanned(cfg: Config, a: Archive, floor: Option<int>, start: Option<int>, k: nat, l: Loop, m: nat) {
    && !l.thrown
    && k <= m <= |Whole(cfg, a)|
    && l.posts == Sift(Slice(cfg, a, k, m), floor, start).0
    && (!l.finished ==> !Sift(Slice(cfg, a, k, m), floor, start).1 && Denotes(cfg, a, l.cursor, m))
    && (l.finished ==> Sift(Slice(cfg, a, k, m), floor, start).1 || m == |Whole(cfg, a)|)
  }

  lemma NoFaultsAnswered(cfg: Config, a: Archive, pageSize: int, cursor: string, k: nat)
    requires Denotes(cfg, a, cursor, k)
    ensures Answer(cfg, Upstream(a, {}, {}), pageSize, cursor, None).Ok?
  {
    var c := ParseCursor(cursor).value;
    NoFaultsNoFailure(Upstream(a, {}, {}), Resume(c).page, Clean(cfg, a, c, ClampPageSize(pageSize), None).lastPage);
  }

  lemma EmptyMeansStart(cfg: Config, a: Archive, k: nat)
    requires Denotes(cfg, a, "", k)
    ensures k == 0
  {
    assert |Whole(cfg, a)| == |Whole(cfg, a)[k..]|;
  }

  /** A request reads on from its cursor: rows m up to n. */
  lemma ReadsOn(cfg: Config, a: Archive, pageSize: nat, cursor: string, m: nat) returns (n: nat)
    requires Sized(a) && 1 <= pageSize <= MAX_PAGE_SIZE && Denotes(cfg, a, cursor, m)
    ensures Answer(cfg, Upstream(a, {}, {}), pageSize, cursor, None).Ok?
    ensures var r := Answer(cfg, Upstream(a, {}, {}), pageSize, cursor, None).value;
            && m <= n <= |Whole(cfg, a)| && n <= m + pageSize
            && r.posts == Slice(cfg, a, m, n)
            && (r.hasMore ==> n > m && r.nextCursor != "" && Denotes(cfg, a, r.nextCursor, n))
            && (!r.hasMore ==> n == |Whole(cfg, a)|)
  {
    NoFaultsAnswered(cfg, a, pageSize, cursor, m);
    n := CallReads(cfg, Upstream(a, {}, {}), pageSize, cursor, None, m);
    var w, r := Whole(cfg, a), Answer(cfg, Upstream(a, {}, {}), pageSize, cursor, None).value;
    assert Posts(w)[m..n] == Posts(w[m..n]);
    if r.hasMore && r.nextCursor == "" {
      EmptyMeansStart(cfg, a, n);
    }
  }

  lemma SlicesJoin(cfg: Config, a: Archive, k: nat, m: nat, n: nat)
    requires k <= m <= n <= |Whole(cfg, a)|
    ensures Slice(cfg, a, k, n) == Slice(cfg, a, k, m) + Slice(cfg, a, m, n)
  {
  }

  /** Every request meets this archive, and no page of it fails. */
  ghost predicate Serves(ask: Service, cfg: Config, a: Archive) {
    forall i, pageSize, cursor :: ask(i, pageSize, cursor) == Answer(cfg, Upstream(a, {}, {}), pageSize, cursor, None)
  }

  /** What the loop makes of a response that holds rows m up to n. */
  lemma RequestScans(ask: Service, i: nat, cfg: Config, a: Archive, floor: Option<int>, start: Option<int>,
                     batchSize: nat, pageSize: nat, k: nat, l: Loop, m: nat, next: Loop) returns (n: nat)
    requires Serves(ask, cfg, a)
    requires Sized(a) && 1 <= pageSize <= MAX_PAGE_SIZE && |l.posts| < batchSize && !l.finished
    requires Scanned(cfg, a, floor, start, k, l, m)
    requires next == Request(ask, i, floor, start, batchSize, pageSize, l)
    ensures Scanned(cfg, a, floor, start, k, next, n)
    ensures |next.posts| <= batchSize
    ensures n >= m && (next.finished || n > m)
  {
    var size := Min(pageSize, batchSize - |l.posts|);
    n := ReadsOn(cfg, a, size, l.cursor, m);
    var r := Answer(cfg, Upstream(a, {}, {}), size, l.cursor, None).value;
    RequestAbsorbs(ask, i, cfg, a, floor, start, batchSize, pageSize, l, r);
    ResponseScans(cfg, a, floor, start, k, l, m, n, r, next);
    SiftIsNoLonger(r.posts, floor, start);
  }

  lemma RequestAbsorbs(ask: Service, i: nat, cfg: Config, a: Archive, floor: Option<int>, start: Option<int>,
                       batchSize: nat, pageSize: nat, l: Loop, r: Response)
    requires Serves(ask, cfg, a)
    requires Answer(cfg, Upstream(a, {}, {}), Min(pageSize, batchSize - |l.posts|), l.cursor, None) == Ok(r)
    ensures Request(ask, i, floor, start, batchSize, pageSize, l) == Absorb(l, r, floor, start)
  {
  }

  /** A response that holds rows m up to n, sifted. */
  lemma ResponseScans(cfg: Config, a: Archive, floor: Option<int>, start: Option<int>, k: nat, l: Loop, m: nat, n: nat,
                      r: Response, next: Loop)
    requires Scanned(cfg, a, floor, start, k, l, m) && !l.finished && m <= n <= |Whole(cfg, a)|
    requires r.posts == Slice(cfg, a, m, n)
    requires r.hasMore ==> r.nextCursor != "" && Denotes(cfg, a, r.nextCursor, n)
    requires !r.hasMore ==> n == |Whole(cfg, a)|
    requires next == Absorb(l, r, floor, start)
    ensures Scanned(cfg, a, floor, start, k, next, n)
  {
    SlicesJoin(cfg, a, k, m, n);
    SiftConcat(Slice(cfg, a, k, m), Slice(cfg, a, m, n), floor, start);
  }

  /** The loop states of a poll, request by request. */
  ghost predicate IsTrace(ask: Service, first: nat, floor: Option<int>, start: Option<int>,
                          batchSize: nat, pageSize: nat, ls: seq<Loop>)
  {
    forall i :: 0 <= i < |ls| - 1 ==>
      !LoopOver(ls[i], batchSize) && ls[i + 1] == Request(ask, first + i, floor, start, batchSize, pageSize, ls[i])
  }

  lemma {:induction false} LoopHasTrace(ask: Service, first: nat, floor: Option<int>, start: Option<int>,
                                        batchSize: nat, pageSize: nat, l: Loop, n: nat) returns (ls: seq<Loop>)
    ensures ls != [] && ls[0] == l && IsTrace(ask, first, floor, start, batchSize, pageSize, ls)
    ensures ls[|ls| - 1] == Requests(ask, first, floor, start, batchSize, pageSize, l, n)
    ensures n == 0 || LoopOver(l, batchSize) || |ls| > 1
    decreases n
  {
    if n == 0 || LoopOver(l, batchSize) {
      ls := [l];
    } else {
      var next := Request(ask, first, floor, start, batchSize, pageSize, l);
      var rest := LoopHasTrace(ask, first + 1, floor, start, batchSize, pageSize, next, n - 1);
      TracePrepend(ask, first, floor, start, batchSize, pageSize, l, rest);
      ls := [l] + rest;
    }
  }

  lemma TracePrepend(ask: Service, first: nat, floor: Option<int>, start: Option<int>, batchSize: nat, pageSize: nat,
                     l: Loop, rest: seq<Loop>)
    requires rest != [] && IsTrace(ask, first + 1, floor, start, batchSize, pageSize, rest)
    requires !LoopOver(l, batchSize) && rest[0] == Request(ask, first, floor, start, batchSize, pageSize, l)
    ensures IsTrace(ask, first, floor, start, batchSize, pageSize, [l] + rest)
  {
    var ls := [l] + rest;
    forall i | 0 <= i < |ls| - 1
      ensures !LoopOver(ls[i], batchSize) && ls[i + 1] == Request(ask, first + i, floor, start, batchSize, pageSize,
                                                                  ls[i])
    {
      if i > 0 {
        assert ls[i] == rest[i - 1] && ls[i + 1] == rest[i - 1 + 1];
      }
    }
  }

  lemma {:induction false} TraceScans(ask: Service, cfg: Config, a: Archive, floor: Option<int>, start: Option<int>,
                                      batchSize: nat, pageSize: nat, k: nat, ls: seq<Loop>) returns (q: nat)
    requires Serves(ask, cfg, a)
    requires Sized(a) && 1 <= pageSize <= MAX_PAGE_SIZE && ls != [] && |ls[0].posts| <= batchSize
    requires Scanned(cfg, a, floor, start, k, ls[0], k)
    requires IsTrace(ask, 0, floor, start, batchSize, pageSize, ls)
    ensures Scanned(cfg, a, floor, start, k, ls[|ls| - 1], q)
    ensures |ls[|ls| - 1].posts| <= batchSize
    ensures |ls| == 1 || ls[|ls| - 1].finished || q > k
    decreases |ls|
  {
    var n := |ls| - 1;
    if n == 0 {
      q := k;
    } else {
      var m := TraceScans(ask, cfg, a, floor, start, batchSize, pageSize, k, ls[..n]);
      q := RequestScans(ask, n - 1, cfg, a, floor, start, batchSize, pageSize, k, ls[n - 1], m, ls[n]);
    }
  }

  /** What the loop of a poll emits, and how far it gets, from position k. */
  lemma LoopScans(ask: Service, cfg: Config, a: Archive, floor: Option<int>, start: Option<int>,
                  batchSize: nat, pageSize: nat, k: nat, cursor: string, n: nat, l: Loop) returns (q: nat)
    requires Serves(ask, cfg, a)
    requires Sized(a) && 1 <= pageSize <= MAX_PAGE_SIZE && 1 <= batchSize && n >= 1
    requires Denotes(cfg, a, cursor, k)
    requires l == Requests(ask, 0, floor, start, batchSize, pageSize, Loop(cursor, [], false, false), n)
    ensures Scanned(cfg, a, floor, start, k, l, q) && |l.posts| <= batchSize && (l.finished || q > k)
  {
    var ls := LoopHasTrace(ask, 0, floor, start, batchSize, pageSize, Loop(cursor, [], false, false), n);
    assert Slice(cfg, a, k, k) == [];
    q := TraceScans(ask, cfg, a, floor, start, batchSize, pageSize, k, ls);
  }

  // ----- one pass -----

  /** A pass under way: rows up to k are dealt with and the cursor stands for the next. */
  ghost predicate InPass(cfg: Config, a: Archive, s: State, floor: int, start: int, k: nat, emitted: seq<RawPost>) {
    && s.passStartedAt == Some(start) && s.pendingLastSeen == Some(start) && s.floor == Some(floor)
    && Denotes(cfg, a, s.cursor, k)
    && !Sift(Slice(cfg, a, 0, k), Some(floor), Some(start)).1
    && emitted == Sift(Slice(cfg, a, 0, k), Some(floor), Some(start)).0
  }

  /** Between passes; the watermark is the start of the last one. */
  ghost predicate Idle(s: State, lastSeen: Option<int>) {
    s.passStartedAt.None? && s.lastSeen == lastSeen
  }

  /** The floor of a pass that a poll opens. */
  function FloorOf(s: State, p: PollInput): int {
    if s.lastSeen.Some? then s.lastSeen.value else p.now - p.lookback
  }

  ghost predicate OnArchive(cfg: Config, p: PollInput, a: Archive) {
    !p.reset && Serves(p.ask, cfg, a)
  }

  lemma PollOpensPass(cfg: Config, a: Archive, s: State, p: PollInput)
    requires s.passStartedAt.None? && !p.reset
    ensures InPass(cfg, a, Opened(s, p), FloorOf(s, p), p.now, 0, [])
  {
    EmptyCursorIsTop(cfg, a);
    assert Slice(cfg, a, 0, 0) == [];
  }

  /** Every poll of a pass emits the next part of what the pass owes, and ends it with the last part. */
  lemma PollInPass(cfg: Config, a: Archive, s: State, p: PollInput, floor: int, start: int, k: nat,
                   emitted: seq<RawPost>) returns (q: nat)
    requires Sized(a) && OnArchive(cfg, p, a) && InPass(cfg, a, Opened(s, p), floor, start, k, emitted)
    ensures |Batch(s, p)| <= Clamp(p.batchSize, 1, MAX_BATCH_SIZE)
    ensures AfterPoll(s, p).passStartedAt.Some? ==>
              InPass(cfg, a, AfterPoll(s, p), floor, start, q, emitted + Batch(s, p)) && q > k
    ensures AfterPoll(s, p).passStartedAt.None? ==>
              && Idle(AfterPoll(s, p), Some(start))
              && emitted + Batch(s, p) == Sift(Stock(cfg, a), Some(floor), Some(start)).0
  {
    var t := Opened(s, p);
    var batchSize, pageSize := Clamp(p.batchSize, 1, MAX_BATCH_SIZE), Clamp(p.pageSize, 1, MAX_PAGE_SIZE);
    var l := LoopOf(s, p);
    q := LoopScans(p.ask, cfg, a, t.floor, t.passStartedAt, batchSize, pageSize, k, t.cursor, MAX_PAGES_PER_POLL, l);
    LoopInPass(cfg, a, floor, start, k, emitted, l, q);
  }

  lemma LoopInPass(cfg: Config, a: Archive, floor: int, start: int, k: nat, emitted: seq<RawPost>, l: Loop, q: nat)
    requires Scanned(cfg, a, Some(floor), Some(start), k, l, q)
    requires !Sift(Slice(cfg, a, 0, k), Some(floor), Some(start)).1
    requires emitted == Sift(Slice(cfg, a, 0, k), Some(floor), Some(start)).0
    ensures emitted + l.posts == Sift(Slice(cfg, a, 0, q), Some(floor), Some(start)).0
    ensures !l.finished ==> !Sift(Slice(cfg, a, 0, q), Some(floor), Some(start)).1
    ensures l.finished ==> emitted + l.posts == Sift(Stock(cfg, a), Some(floor), Some(start)).0
  {
    var n := |Whole(cfg, a)|;
    SlicesJoin(cfg, a, 0, k, q);
    SiftConcat(Slice(cfg, a, 0, k), Slice(cfg, a, k, q), Some(floor), Some(start));
    SlicesJoin(cfg, a, 0, q, n);
    SiftConcat(Slice(cfg, a, 0, q), Slice(cfg, a, q, n), Some(floor), Some(start));
    assert Slice(cfg, a, 0, n) == Stock(cfg, a);
    assert Slice(cfg, a, n, n) == [];
  }

  /** The state after a series of polls, and all they emitted. */
  function Polls(s: State, polls: seq<PollInput>): (State, seq<RawPost>) {
    if polls == [] then (s, [])
    else
      var (t, emitted) := Polls(s, polls[..|polls| - 1]);
      var p := polls[|polls| - 1];
      (AfterPoll(t, p), emitted + Batch(t, p))
  }

  /** The polls run a pass, unfinished until the last of them. */
  ghost predicate IsPass(cfg: Config, a: Archive, s: State, polls: seq<PollInput>) {
    && s.passStartedAt.None? && polls != []
    && (forall i :: 0 <= i < |polls| ==> OnArchive(cfg, polls[i], a))
    && (forall i :: 0 < i < |polls| ==> Polls(s, polls[..i]).0.passStartedAt.Some?)
  }

  /** Before its last poll a pass stands at some row, at least one further for every poll. */
  lemma {:induction false} PassSoFar(cfg: Config, a: Archive, s: State, polls: seq<PollInput>, n: nat) returns (k: nat)
    requires Sized(a) && IsPass(cfg, a, s, polls) && n < |polls|
    ensures n <= k
    ensures var (t, emitted) := Polls(s, polls[..n]);
            InPass(cfg, a, Opened(t, polls[n]), FloorOf(s, polls[0]), polls[0].now, k, emitted)
    decreases n
  {
    assert OnArchive(cfg, polls[n], a);
    if n == 0 {
      k := 0;
      PollOpensPass(cfg, a, s, polls[0]);
      assert polls[..0] == [];
    } else {
      var j := PassSoFar(cfg, a, s, polls, n - 1);
      var (t, emitted) := Polls(s, polls[..n - 1]);
      assert OnArchive(cfg, polls[n - 1], a);
      k := PollInPass(cfg, a, t, polls[n - 1], FloorOf(s, polls[0]), polls[0].now, j, emitted);
      assert polls[..n][..n - 1] == polls[..n - 1];
      assert Polls(s, polls[..n]).0.passStartedAt.Some?;
    }
  }

  /**
   * The batches of a pass concatenate to exactly what one scan of the archive owes, the watermark
   * becomes the start of the pass, no batch is larger than asked for, and a pass takes at most one
   * poll more than the archive has rows.
   */
  lemma PassEmits(cfg: Config, a: Archive, s: State, polls: seq<PollInput>)
    requires Sized(a) && IsPass(cfg, a, s, polls) && Polls(s, polls).0.passStartedAt.None?
    ensures Polls(s, polls).1 == Sift(Stock(cfg, a), Some(FloorOf(s, polls[0])), Some(polls[0].now)).0
    ensures Idle(Polls(s, polls).0, Some(polls[0].now))
    ensures |polls| <= |Stock(cfg, a)| + 1
  {
    var n := |polls| - 1;
    var k := PassSoFar(cfg, a, s, polls, n);
    var (t, emitted) := Polls(s, polls[..n]);
    assert OnArchive(cfg, polls[n], a);
    var q := PollInPass(cfg, a, t, polls[n], FloorOf(s, polls[0]), polls[0].now, k, emitted);
  }

  /** A series of polls that opened a pass and has not finished it. */
  ghost predicate Underway(cfg: Config, a: Archive, s: State, polls: seq<PollInput>) {
    && IsPass(cfg, a, s, polls)
    && Polls(s, polls).0.passStartedAt.Some?
  }

  lemma OneMorePoll(cfg: Config, a: Archive, s: State, polls: seq<PollInput>, p: PollInput)
    requires OnArchive(cfg, p, a) && (if polls == [] then s.passStartedAt.None? else Underway(cfg, a, s, polls))
    ensures IsPass(cfg, a, s, polls + [p])
  {
    var more := polls + [p];
    forall i | 0 < i < |more| ensures Polls(s, more[..i]).0.passStartedAt.Some? {
      if i < |polls| {
        assert more[..i] == polls[..i];
      } else {
        assert more[..i] == polls;
      }
    }
    forall i | 0 <= i < |more| ensures OnArchive(cfg, more[i], a) {
      if i < |polls| { assert more[i] == polls[i]; }
    }
  }

  /** An unfinished pass has dealt with at least as many rows as it took polls. */
  lemma UnderwayIsBounded(cfg: Config, a: Archive, s: State, polls: seq<PollInput>)
    requires Sized(a) && Underway(cfg, a, s, polls)
    ensures |polls| <= |Stock(cfg, a)|
  {
    var n := |polls| - 1;
    var k := PassSoFar(cfg, a, s, polls, n);
    var (t, emitted) := Polls(s, polls[..n]);
    assert OnArchive(cfg, polls[n], a);
    var q := PollInPass(cfg, a, t, polls[n], FloorOf(s, polls[0]), polls[0].now, k, emitted);
  }

  /** Every pass comes to its end: going on polling an archive finishes it. */
  lemma {:induction false} PassCompletes(cfg: Config, a: Archive, s: State, polls: seq<PollInput>, p: PollInput)
      returns (whole: seq<PollInput>)
    requires Sized(a) && OnArchive(cfg, p, a)
    requires if polls == [] then s.passStartedAt.None? else Underway(cfg, a, s, polls)
    ensures polls < whole
    ensures IsPass(cfg, a, s, whole) && Polls(s, whole).0.passStartedAt.None?
    decreases |Stock(cfg, a)| + 1 - |polls|
  {
    whole := polls + [p];
    OneMorePoll(cfg, a, s, polls, p);
    if Polls(s, whole).0.passStartedAt.Some? {
      UnderwayIsBounded(cfg, a, s, whole);
      whole := PassCompletes(cfg, a, s, whole, p);
    }
  }

  /** No batch of a pass is larger than the batch size of its poll. */
  lemma BatchesAreBounded(cfg: Config, a: Archive, s: State, polls: seq<PollInput>, n: nat)
    requires Sized(a) && IsPass(cfg, a, s, polls) && n < |polls|
    ensures |Batch(Polls(s, polls[..n]).0, polls[n])| <= Clamp(polls[n].batchSize, 1, MAX_BATCH_SIZE)
  {
    var k := PassSoFar(cfg, a, s, polls, n);
    var (t, emitted) := Polls(s, polls[..n]);
    assert OnArchive(cfg, polls[n], a);
    var q := PollInPass(cfg, a, t, polls[n], FloorOf(s, polls[0]), polls[0].now, k, emitted);
  }

  // ----- pass after pass -----

  /** A whole pass: the archive it meets, its polls, and the state it starts from. */
  datatype Pass = Pass(a: Archive, polls: seq<PollInput>)

  function Passes(s: State, passes: seq<Pass>): State {
    if passes == [] then s
    else Polls(Passes(s, passes[..|passes| - 1]), passes[|passes| - 1].polls).0
  }

  /** Everything emitted, the latest pass first. */
  function EmittedNewestFirst(s: State, passes: seq<Pass>): seq<RawPost> {
    if passes == [] then []
    else
      var init, last := passes[..|passes| - 1], passes[|passes| - 1];
      Polls(Passes(s, init), last.polls).1 + EmittedNewestFirst(s, init)
  }

  function StartOf(p: Pass): int
    requires p.polls != []
  {
    p.polls[0].now
  }

  ghost predicate WholePass(cfg: Config, s: State, p: Pass) {
    && Sized(p.a) && IsPass(cfg, p.a, s, p.polls) && Polls(s, p.polls).0.passStartedAt.None?
    && NewestFirst(Stock(cfg, p.a))
  }

  /** The archive gained posts dated after `since` at the front, and nothing else. */
  ghost predicate Gained(cfg: Config, a: Archive, b: Archive, since: int) {
    GainedNews(Stock(cfg, a), Stock(cfg, b), since)
  }

  ghost predicate GainedNews(x: seq<RawPost>, y: seq<RawPost>, since: int) {
    exists n: nat :: OnlyNews(x, y, since, n)
  }

  ghost predicate OnlyNews(x: seq<RawPost>, y: seq<RawPost>, since: int, n: nat) {
    && n <= |y| && y[n..] == x
    && forall i :: 0 <= i < n ==> Millis(y[i].publishedAt) > since
  }

  /** The pass comes no earlier than the one before, and its archive gained posts newer than that one's start. */
  ghost predicate ComesAfter(cfg: Config, prev: Pass, next: Pass)
    requires prev.polls != [] && next.polls != []
  {
    StartOf(prev) <= StartOf(next) && Gained(cfg, prev.a, next.a, StartOf(prev))
  }

  /** Whole passes one after the other. */
  ghost predicate Steady(cfg: Config, s: State, passes: seq<Pass>) {
    passes == [] ||
    var init, last := passes[..|passes| - 1], passes[|passes| - 1];
    && Steady(cfg, s, init)
    && WholePass(cfg, Passes(s, init), last)
    && (init != [] ==> init[|init| - 1].polls != [] && ComesAfter(cfg, init[|init| - 1], last))
  }

  lemma {:induction false} SelectedConcat(x: seq<RawPost>, y: seq<RawPost>, floor: int, start: int)
    ensures Selected(x + y, floor, start) == Selected(x, floor, start) + Selected(y, floor, start)
    decreases |x|
  {
    if x == [] {
      assert x + y == y;
    } else {
      assert (x + y)[1..] == x[1..] + y;
      SelectedConcat(x[1..], y, floor, start);
    }
  }

  lemma TailNewestFirst(x: seq<RawPost>)
    requires NewestFirst(x) && x != []
    ensures NewestFirst(x[1..])
  {
    forall i, j | 0 <= i < j < |x[1..]| ensures Millis(x[1..][j].publishedAt) <= Millis(x[1..][i].publishedAt) {
      assert x[1..][i] == x[i + 1] && x[1..][j] == x[j + 1];
    }
  }

  lemma NothingLater(x: seq<RawPost>, mid: int, start: int)
    requires NewestFirst(x) && x != [] && Millis(x[0].publishedAt) <= mid
    ensures Selected(x, mid, start) == []
  {
    forall i | 0 <= i < |x| ensures !(mid < Millis(x[i].publishedAt) <= start) {
      if i > 0 {
        assert Millis(x[i].publishedAt) <= Millis(x[0].publishedAt);
      }
    }
    SelectedEmpty(x, mid, start);
  }

  /** In a newest-first list a stretch of time is the later part followed by the earlier part. */
  lemma {:induction false} StretchSplits(x: seq<RawPost>, floor: int, mid: int, start: int)
    requires NewestFirst(x) && floor <= mid <= start
    ensures Selected(x, floor, start) == Selected(x, mid, start) + Selected(x, floor, mid)
    decreases |x|
  {
    if x != [] {
      if Millis(x[0].publishedAt) <= mid {
        NothingLater(x, mid, start);
        SelectedBelow(x, floor, mid, start);
      } else {
        TailNewestFirst(x);
        StretchSplits(x[1..], floor, mid, start);
        PrependLater(x[0], Selected(x[1..], mid, start), Selected(x[1..], floor, mid));
      }
    }
  }

  lemma PrependLater(p: RawPost, later: seq<RawPost>, earlier: seq<RawPost>)
    ensures [p] + (later + earlier) == ([p] + later) + earlier
  {
  }

  /** When all posts are at or before mid, a later end selects the same. */
  lemma {:induction false} SelectedBelow(x: seq<RawPost>, floor: int, mid: int, start: int)
    requires NewestFirst(x) && mid <= start && (x == [] || Millis(x[0].publishedAt) <= mid)
    ensures Selected(x, floor, start) == Selected(x, floor, mid)
    decreases |x|
  {
    if |x| > 1 {
      TailNewestFirst(x);
      assert Millis(x[1].publishedAt) <= Millis(x[0].publishedAt);
      SelectedBelow(x[1..], floor, mid, start);
    }
  }

  /** News newer than a bound change nothing at or before it. */
  lemma NewsAreLater(x: seq<RawPost>, y: seq<RawPost>, since: int, floor: int)
    requires GainedNews(x, y, since)
    ensures Selected(y, floor, since) == Selected(x, floor, since)
  {
    var n: nat :| OnlyNews(x, y, since, n);
    var news := y[..n];
    assert y == news + x;
    forall i | 0 <= i < |news| ensures !(floor < Millis(news[i].publishedAt) <= since) {
      assert news[i] == y[i];
    }
    SelectedEmpty(news, floor, since);
    SelectedConcat(news, x, floor, since);
  }

  lemma WholePassEmits(cfg: Config, s: State, p: Pass)
    requires WholePass(cfg, s, p)
    ensures p.polls != []
    ensures Polls(s, p.polls).1 == Selected(Stock(cfg, p.a), FloorOf(s, p.polls[0]), StartOf(p))
    ensures Idle(Polls(s, p.polls).0, Some(StartOf(p)))
  {
    PassEmits(cfg, p.a, s, p.polls);
    SiftIsSelection(Stock(cfg, p.a), FloorOf(s, p.polls[0]), StartOf(p));
  }

  /** After a pass everything between the first floor and its start has been emitted, newest first. */
  ghost predicate Tiled(cfg: Config, first: int, last: Pass, s: State, emitted: seq<RawPost>) {
    && last.polls != []
    && first <= StartOf(last)
    && Idle(s, Some(StartOf(last)))
    && emitted == Selected(Stock(cfg, last.a), first, StartOf(last))
  }

  lemma FirstTile(cfg: Config, s: State, p: Pass)
    requires WholePass(cfg, s, p) && FloorOf(s, p.polls[0]) <= StartOf(p)
    ensures Tiled(cfg, FloorOf(s, p.polls[0]), p, Polls(s, p.polls).0, Polls(s, p.polls).1)
  {
    WholePassEmits(cfg, s, p);
  }

  lemma NextTile(cfg: Config, first: int, prev: Pass, t: State, emitted: seq<RawPost>, last: Pass, t': State,
                 batch: seq<RawPost>)
    requires Tiled(cfg, first, prev, t, emitted)
    requires last.polls != [] && ComesAfter(cfg, prev, last) && NewestFirst(Stock(cfg, last.a))
    requires Idle(t', Some(StartOf(last)))
    requires batch == Selected(Stock(cfg, last.a), FloorOf(t, last.polls[0]), StartOf(last))
    ensures Tiled(cfg, first, last, t', batch + emitted)
  {
    TileAdded(cfg, prev, last, first);
  }

  /**
   * Passes tile time. Over any number of passes of an archive that only gains posts newer than the
   * last pass start, what is emitted, latest pass first, is exactly the list of all posts of the
   * final archive between the first floor and the last start: none twice, none dropped. Each floor
   * is the start of the pass before.
   */
  lemma {:induction false} PassesTileTime(cfg: Config, s: State, passes: seq<Pass>)
    requires passes != [] && Steady(cfg, s, passes)
    requires passes[0].polls != [] && FloorOf(s, passes[0].polls[0]) <= StartOf(passes[0])
    ensures Tiled(cfg, FloorOf(s, passes[0].polls[0]), passes[|passes| - 1],
                  Passes(s, passes), EmittedNewestFirst(s, passes))
    decreases |passes|
  {
    var init, last := passes[..|passes| - 1], passes[|passes| - 1];
    Unsnoc(passes);
    if init == [] {
      OneTile(cfg, s, passes, last);
    } else {
      SteadyBefore(cfg, s, passes, init, last);
      PassesTileTime(cfg, s, init);
      TileStep(cfg, s, init, last, passes, FloorOf(s, passes[0].polls[0]));
    }
  }

  lemma OneTile(cfg: Config, s: State, passes: seq<Pass>, p: Pass)
    requires passes == [p] && Steady(cfg, s, passes) && p.polls != [] && FloorOf(s, p.polls[0]) <= StartOf(p)
    ensures Tiled(cfg, FloorOf(s, p.polls[0]), p, Passes(s, passes), EmittedNewestFirst(s, passes))
  {
    assert passes[..0] == [] && Passes(s, []) == s;
    FirstTile(cfg, s, p);
    assert Polls(s, p.polls).1 + [] == Polls(s, p.polls).1;
  }

  lemma SteadyBefore(cfg: Config, s: State, passes: seq<Pass>, init: seq<Pass>, last: Pass)
    requires init != [] && passes == init + [last] && Steady(cfg, s, passes)
    ensures Steady(cfg, s, init) && passes[0] == init[0]
  {
    assert passes[..|passes| - 1] == init;
  }

  lemma TileStep(cfg: Config, s: State, init: seq<Pass>, last: Pass, passes: seq<Pass>, first: int)
    requires init != [] && passes == init + [last]
    requires Steady(cfg, s, passes)
    requires Tiled(cfg, first, init[|init| - 1], Passes(s, init), EmittedNewestFirst(s, init))
    ensures Tiled(cfg, first, last, Passes(s, passes), EmittedNewestFirst(s, passes))
  {
    assert passes[..|passes| - 1] == init;
    var t, emitted := Passes(s, init), EmittedNewestFirst(s, init);
    WholePassEmits(cfg, t, last);
    NextTile(cfg, first, init[|init| - 1], t, emitted, last, Polls(t, last.polls).0, Polls(t, last.polls).1);
  }

  /** One more pass extends the stretch of time that is covered. */
  lemma TileAdded(cfg: Config, prev: Pass, last: Pass, first: int)
    requires prev.polls != [] && last.polls != [] && ComesAfter(cfg, prev, last) && first <= StartOf(prev)
    requires NewestFirst(Stock(cfg, last.a))
    ensures Selected(Stock(cfg, last.a), first, StartOf(last))
         == Selected(Stock(cfg, last.a), StartOf(prev), StartOf(last))
            + Selected(Stock(cfg, prev.a), first, StartOf(prev))
  {
    NewsAreLater(Stock(cfg, prev.a), Stock(cfg, last.a), StartOf(prev), first);
    StretchSplits(Stock(cfg, last.a), first, StartOf(prev), StartOf(last));
  }
}
