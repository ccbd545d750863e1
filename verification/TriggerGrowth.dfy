/**
 * A pass of the trigger over an archive that grows at the front while the pass runs, between polls and
 * between the requests of one poll: nothing that was there at the start and due is missed.
 */
module TriggerGrowth {
  import opened Basics
  import opened RawPosts
  import opened CrawlModel
  import opened CrawlChain
  import opened CrawlGrowth
  import opened Trigger
  import opened TriggerPasses

  /** The post is to be emitted by a pass with this floor and start. */
  predicate Due(p: RawPost, floor: int, start: int) {
    floor < Millis(p.publishedAt) <= start
  }

  /** All due posts among the first n have been emitted. */
  ghost predicate Emitted(base: seq<RawPost>, posts: seq<RawPost>, floor: int, start: int, n: int) {
    forall i :: 0 <= i < |base| && i < n && Due(base[i], floor, start) ==> base[i] in posts
  }

  lemma EmittedFewer(base: seq<RawPost>, posts: seq<RawPost>, floor: int, start: int, n: int, m: int)
    requires Emitted(base, posts, floor, start, n) && m <= n
    ensures Emitted(base, posts, floor, start, m)
  {
  }

  /** The rows are the first ones with posts newer than the floor in front of them. */
  ghost predicate GrownAbove(base: seq<RawPost>, rows: seq<RawPost>, floor: int) {
    && |rows| >= |base|
    && rows[|rows| - |base|..] == base
    && forall i :: 0 <= i < |rows| - |base| ==> Millis(rows[i].publishedAt) > floor
  }

  /** What the scan of a response keeps, up to the post that ends it if there is one. */
  ghost predicate SiftedTo(x: seq<RawPost>, floor: int, start: int, n: nat) {
    var (kept, hit) := Sift(x, Some(floor), Some(start));
    && n <= |x|
    && (forall i :: 0 <= i < n ==> Millis(x[i].publishedAt) > floor)
    && (forall i :: 0 <= i < n && Due(x[i], floor, start) ==> x[i] in kept)
    && (hit ==> n < |x| && Millis(x[n].publishedAt) <= floor)
    && (!hit ==> n == |x|)
  }

  lemma {:induction false} SiftKeepsDue(x: seq<RawPost>, floor: int, start: int) returns (n: nat)
    ensures SiftedTo(x, floor, start, n)
    decreases |x|
  {
    n := 0;
    if x != [] && Millis(x[0].publishedAt) > floor {
      var m := SiftKeepsDue(x[1..], floor, start);
      n := m + 1;
      var kept, rest := Sift(x, Some(floor), Some(start)).0, Sift(x[1..], Some(floor), Some(start)).0;
      forall i | 0 <= i < n ensures Millis(x[i].publishedAt) > floor && (Due(x[i], floor, start) ==> x[i] in kept) {
        if i > 0 {
          assert x[i] == x[1..][i - 1];
          assert x[1..][i - 1] in rest ==> x[i] in kept;
        }
      }
    }
  }

  /** The cursor of a pass: it stands for a flat position, and what is due before that has been emitted. */
  ghost predicate Owes(base: seq<RawPost>, emitted: seq<RawPost>, cursor: string, size: nat, floor: int, start: int,
                       total: nat) {
    && ParseCursor(cursor).Some?
    && var c := ParseCursor(cursor).value;
       && c.offset <= size && (c.page == 0 ==> c.offset == 0)
       && Emitted(base, emitted, floor, start, FlatPosition(c, size) - (total - |base|))
  }

  lemma OwesNoMore(base: seq<RawPost>, emitted: seq<RawPost>, cursor: string, size: nat, floor: int, start: int,
                   total: nat, more: nat)
    requires Owes(base, emitted, cursor, size, floor, start, total) && total <= more
    ensures Owes(base, emitted, cursor, size, floor, start, more)
  {
  }

  /** What a request makes of the rows it reads from flat position `at` on. */
  lemma RowsEmitted(base: seq<RawPost>, rows: seq<RawPost>, emitted: seq<RawPost>, s: seq<Located>, at: nat, n: nat,
                    size: nat,
                    floor: int, start: int)
    requires GrownAbove(base, rows, floor) && RowsOf(s, rows, at, size) && n <= |s| && !Hidden(base, floor, start)
    requires Emitted(base, emitted, floor, start, at - (|rows| - |base|))
    ensures var (kept, hit) := Sift(Posts(s[..n]), Some(floor), Some(start));
            Emitted(base, emitted + kept, floor, start, if hit then |base| else at + n - (|rows| - |base|))
  {
    var x, d := Posts(s[..n]), |rows| - |base|;
    var kept, hit := Sift(x, Some(floor), Some(start)).0, Sift(x, Some(floor), Some(start)).1;
    var m := SiftKeepsDue(x, floor, start);
    assert forall q :: 0 <= q < n ==> x[q] == rows[at + q];
    forall i | 0 <= i < |base| && hit && i + d >= at + m ensures !Due(base[i], floor, start) {
      HitHidesNothing(base, rows, floor, start, at + m, i);
    }
    forall i | 0 <= i < |base| && i < at + m - d && Due(base[i], floor, start) ensures base[i] in emitted + kept {
      assert rows[d..][i] == rows[i + d];
      if i >= at - d {
        assert x[i + d - at] == base[i];
      }
    }
  }

  /** The post that ends a scan is one of the first archive, and none behind it is due. */
  lemma HitHidesNothing(base: seq<RawPost>, rows: seq<RawPost>, floor: int, start: int, q: nat, i: nat)
    requires GrownAbove(base, rows, floor) && q < |rows| && Millis(rows[q].publishedAt) <= floor
    requires i < |base| && q <= i + (|rows| - |base|) && !Hidden(base, floor, start)
    ensures !Due(base[i], floor, start)
  {
    var d := |rows| - |base|;
    assert rows[d..][q - d] == rows[q] && base[q - d] == rows[q];
    assert q - d == i || !(Millis(base[q - d].publishedAt) <= floor < Millis(base[i].publishedAt) <= start);
  }

  // ----- one request -----

  /** The loop of a poll under way: it owes what is ahead of its cursor, or nothing once it is finished. */
  ghost predicate LoopOwes(base: seq<RawPost>, before: seq<RawPost>, l: Loop, size: nat, floor: int, start: int,
                           total: nat) {
    && !l.thrown
    && (!l.finished ==> Owes(base, before + l.posts, l.cursor, size, floor, start, total))
    && (l.finished ==> Emitted(base, before + l.posts, floor, start, |base|))
  }

  /** The rows a call has ahead, and how many of them it returns. */
  lemma ReadsRows(cfg: Config, rows: seq<RawPost>, size: nat, c: Cursor, budget: nat) returns (n: nat)
    requires size >= 1 && budget >= 1 && c.offset <= size && (c.page == 0 ==> c.offset == 0)
    ensures var a := CutIntoPages(rows, size);
            && RowsOf(Ahead(cfg, a, c), rows, FlatPosition(c, size), size)
            && Takes(a, Ahead(cfg, a, c), budget, None, Clean(cfg, a, c, budget, None), n)
  {
    var a, t := CutIntoPages(rows, size), EmptyRun(cfg.threshold);
    ResumeReadsRows(rows, size, t, c);
    n := CleanReads(cfg, a, c, budget, None);
  }

  lemma RequestOwes(cfg: Config, base: seq<RawPost>, before: seq<RawPost>, rows: seq<RawPost>, size: nat,
                    floor: int, start: int, batchSize: nat, pageSize: nat, ask: Service, i: nat, l: Loop)
    requires size >= 1 && GrownAbove(base, rows, floor) && !Hidden(base, floor, start)
    requires Sized(CutIntoPages(rows, size))
    requires LoopOwes(base, before, l, size, floor, start, |rows|) && !LoopOver(l, batchSize) && pageSize >= 1
    requires ask(i, Min(pageSize, batchSize - |l.posts|), l.cursor)
          == Answer(cfg, Upstream(CutIntoPages(rows, size), {}, {}), Min(pageSize, batchSize - |l.posts|), l.cursor,
                    None)
    ensures LoopOwes(base, before, Request(ask, i, Some(floor), Some(start), batchSize, pageSize, l),
                     size, floor, start, |rows|)
  {
    var a, c, want := CutIntoPages(rows, size), ParseCursor(l.cursor).value, Min(pageSize, batchSize - |l.posts|);
    var budget := ClampPageSize(want);
    CleanAnswer(cfg, a, want, l.cursor);
    var n := ReadsRows(cfg, rows, size, c, budget);
    var r := Clean(cfg, a, c, budget, None);
    assert ask(i, want, l.cursor) == Ok(r);
    ResponseOwes(base, before, rows, size, floor, start, l, Ahead(cfg, a, c), FlatPosition(c, size), budget, r, n);
  }

  lemma CleanAnswer(cfg: Config, a: Archive, pageSize: int, cursor: string)
    requires ParseCursor(cursor).Some?
    ensures Answer(cfg, Upstream(a, {}, {}), pageSize, cursor, None)
         == Ok(Clean(cfg, a, ParseCursor(cursor).value, ClampPageSize(pageSize), None))
  {
    var c := ParseCursor(cursor).value;
    NoFaultsNoFailure(Upstream(a, {}, {}), Resume(c).page, Clean(cfg, a, c, ClampPageSize(pageSize), None).lastPage);
  }

  lemma ResponseOwes(base: seq<RawPost>, before: seq<RawPost>, rows: seq<RawPost>, size: nat, floor: int, start: int,
                     l: Loop, s: seq<Located>, at: nat, budget: nat, r: Response, n: nat)
    requires size >= 1 && GrownAbove(base, rows, floor) && !Hidden(base, floor, start)
             && Sized(CutIntoPages(rows, size))
    requires RowsOf(s, rows, at, size) && Takes(CutIntoPages(rows, size), s, budget, None, r, n) && !l.thrown
             && !l.finished
    requires Emitted(base, before + l.posts, floor, start, at - (|rows| - |base|))
    ensures LoopOwes(base, before, Absorb(l, r, Some(floor), Some(start)), size, floor, start, |rows|)
  {
    var kept := Sift(r.posts, Some(floor), Some(start)).0;
    RowsEmitted(base, rows, before + l.posts, s, at, n, size, floor, start);
    assert before + (l.posts + kept) == (before + l.posts) + kept;
    var hit := Sift(r.posts, Some(floor), Some(start)).1;
    if hit {
      assert Emitted(base, before + (l.posts + kept), floor, start, |base|);
    } else if r.hasMore {
      var next := After(CutIntoPages(rows, size), s[n - 1]);
      CursorAfterRows(rows, size, s, at, n);
      AfterFits(rows, size, s, at, n);
      CursorRoundTrip(next);
      assert r.nextCursor == FormatCursor(next) && r.nextCursor != "";
      assert Owes(base, before + (l.posts + kept), r.nextCursor, size, floor, start, |rows|);
    } else {
      EmittedFewer(base, before + (l.posts + kept), floor, start, at + n - (|rows| - |base|), |base|);
    }
  }

  // ----- one poll -----

  /**
   * The source as one poll meets it: request i sees rows(i), cut into pages, none of which fails; the
   * number of rows never falls, from at least lo to at most hi.
   */
  datatype Meeting = Meeting(p: PollInput, rows: nat -> seq<RawPost>, lo: nat, hi: nat)

  ghost predicate Meets(cfg: Config, g: Meeting, base: seq<RawPost>, size: nat, floor: int)
    requires size >= 1
  {
    && !g.p.reset && g.lo >= |base|
    && (forall i, pageSize, cursor :: g.p.ask(i, pageSize, cursor)
          == Answer(cfg, Upstream(CutIntoPages(g.rows(i), size), {}, {}), pageSize, cursor, None))
    && (forall i :: GrownAbove(base, g.rows(i), floor) && Sized(CutIntoPages(g.rows(i), size)))
    && (forall i :: g.lo <= |g.rows(i)| <= g.hi)
    && (forall i, j :: i <= j ==> |g.rows(i)| <= |g.rows(j)|)
  }

  lemma LoopOwesNoMore(base: seq<RawPost>, before: seq<RawPost>, l: Loop, size: nat, floor: int, start: int,
                       total: nat, more: nat)
    requires LoopOwes(base, before, l, size, floor, start, total) && total <= more
    ensures LoopOwes(base, before, l, size, floor, start, more)
  {
    if !l.finished {
      OwesNoMore(base, before + l.posts, l.cursor, size, floor, start, total, more);
    }
  }

  lemma {:induction false} TraceOwes(cfg: Config, base: seq<RawPost>, before: seq<RawPost>, g: Meeting, size: nat,
                                     floor: int, start: int,
                                     batchSize: nat, pageSize: nat, ls: seq<Loop>)
    requires size >= 1 && Meets(cfg, g, base, size, floor) && !Hidden(base, floor, start)
    requires pageSize >= 1 && ls != [] && IsTrace(g.p.ask, 0, Some(floor), Some(start), batchSize, pageSize, ls)
    requires LoopOwes(base, before, ls[0], size, floor, start, g.lo)
    ensures LoopOwes(base, before, ls[|ls| - 1], size, floor, start, |g.rows(|ls| - 1)|)
    decreases |ls|
  {
    var n := |ls| - 1;
    if n == 0 {
      LoopOwesNoMore(base, before, ls[0], size, floor, start, g.lo, |g.rows(0)|);
    } else {
      TraceOwes(cfg, base, before, g, size, floor, start, batchSize, pageSize, ls[..n]);
      assert ls[..n][n - 1] == ls[n - 1];
      RequestOwes(cfg, base, before, g.rows(n - 1), size, floor, start, batchSize, pageSize, g.p.ask, n - 1, ls[n - 1]);
      LoopOwesNoMore(base, before, ls[n], size, floor, start, |g.rows(n - 1)|, |g.rows(n)|);
    }
  }

  /** A pass under way owes what is ahead of its saved cursor. */
  ghost predicate PassOwes(base: seq<RawPost>, emitted: seq<RawPost>, s: State, size: nat, floor: int, start: int,
                           total: nat) {
    && s.passStartedAt == Some(start) && s.pendingLastSeen == Some(start) && s.floor == Some(floor)
    && Owes(base, emitted, s.cursor, size, floor, start, total)
  }

  lemma PollOwes(cfg: Config, base: seq<RawPost>, emitted: seq<RawPost>, s: State, g: Meeting, size: nat, floor: int,
                 start: int)
    requires size >= 1 && Meets(cfg, g, base, size, floor) && !Hidden(base, floor, start)
    requires PassOwes(base, emitted, Opened(s, g.p), size, floor, start, g.lo)
    ensures AfterPoll(s, g.p).passStartedAt.Some? ==>
              PassOwes(base, emitted + Batch(s, g.p), AfterPoll(s, g.p), size, floor, start, g.hi)
    ensures AfterPoll(s, g.p).passStartedAt.None? ==>
              Emitted(base, emitted + Batch(s, g.p), floor, start, |base|) && Idle(AfterPoll(s, g.p), Some(start))
  {
    var t, l := Opened(s, g.p), LoopOf(s, g.p);
    var batchSize, pageSize := Clamp(g.p.batchSize, 1, MAX_BATCH_SIZE), Clamp(g.p.pageSize, 1, MAX_PAGE_SIZE);
    var l0 := Loop(t.cursor, [], false, false);
    var ls := LoopHasTrace(g.p.ask, 0, t.floor, t.passStartedAt, batchSize, pageSize, l0, MAX_PAGES_PER_POLL);
    assert emitted + [] == emitted;
    TraceOwes(cfg, base, emitted, g, size, floor, start, batchSize, pageSize, ls);
    LoopOwesNoMore(base, emitted, l, size, floor, start, |g.rows(|ls| - 1)|, g.hi);
  }

  // ----- one pass -----

  function InputsOf(gs: seq<Meeting>): (polls: seq<PollInput>)
    ensures |polls| == |gs|
  {
    seq(|gs|, i requires 0 <= i < |gs| => gs[i].p)
  }

  /** The polls of a pass, unfinished until the last; each meets at least what the one before met. */
  ghost predicate GrowingPass(cfg: Config, s: State, gs: seq<Meeting>, base: seq<RawPost>, size: nat, floor: int)
    requires size >= 1
  {
    && s.passStartedAt.None? && gs != []
    && (forall i :: 0 <= i < |gs| ==> Meets(cfg, gs[i], base, size, floor))
    && (forall i :: 0 <= i < |gs| - 1 ==> gs[i].hi <= gs[i + 1].lo)
    && (forall i :: 0 < i < |gs| ==> Polls(s, InputsOf(gs)[..i]).0.passStartedAt.Some?)
  }

  lemma FirstOwes(base: seq<RawPost>, s: State, p: PollInput, size: nat, total: nat)
    requires s.passStartedAt.None? && !p.reset && total >= |base|
    ensures PassOwes(base, [], Opened(s, p), size, FloorOf(s, p), p.now, total)
  {
    assert FlatPosition(Cursor(0, 0), size) == 0;
  }

  lemma {:induction false} PassOwesSoFar(cfg: Config, s: State, gs: seq<Meeting>, base: seq<RawPost>, size: nat, n: nat)
    requires size >= 1 && gs != [] && GrowingPass(cfg, s, gs, base, size, FloorOf(s, gs[0].p)) && n < |gs|
    requires !Hidden(base, FloorOf(s, gs[0].p), gs[0].p.now)
    ensures var (t, emitted) := Polls(s, InputsOf(gs)[..n]);
            PassOwes(base, emitted, Opened(t, gs[n].p), size, FloorOf(s, gs[0].p), gs[0].p.now, gs[n].lo)
    decreases n
  {
    var polls, floor, start := InputsOf(gs), FloorOf(s, gs[0].p), gs[0].p.now;
    assert Meets(cfg, gs[n], base, size, floor);
    if n == 0 {
      StartsOwing(base, s, gs[0], size);
      assert polls[..0] == [];
    } else {
      PassOwesSoFar(cfg, s, gs, base, size, n - 1);
      var (t, emitted) := Polls(s, polls[..n - 1]);
      PollsNext(s, polls, n);
      assert Meets(cfg, gs[n - 1], base, size, floor) && gs[n - 1].hi <= gs[n - 1 + 1].lo;
      assert Polls(s, polls[..n]).0.passStartedAt.Some?;
      NextPollOwes(cfg, base, emitted, t, gs[n - 1], gs[n], size, floor, start);
    }
  }

  lemma PollsNext(s: State, polls: seq<PollInput>, n: nat)
    requires 0 < n <= |polls|
    ensures var (t, emitted) := Polls(s, polls[..n - 1]);
            Polls(s, polls[..n]) == (AfterPoll(t, polls[n - 1]), emitted + Batch(t, polls[n - 1]))
  {
    assert polls[..n][..n - 1] == polls[..n - 1] && polls[..n][n - 1] == polls[n - 1];
  }

  /** A poll that leaves the pass unfinished hands what it owes on to the next one. */
  lemma NextPollOwes(cfg: Config, base: seq<RawPost>, emitted: seq<RawPost>, t: State, g: Meeting, next: Meeting,
                     size: nat,
                     floor: int, start: int)
    requires size >= 1 && Meets(cfg, g, base, size, floor) && !next.p.reset && g.hi <= next.lo
             && !Hidden(base, floor, start)
    requires PassOwes(base, emitted, Opened(t, g.p), size, floor, start, g.lo) && AfterPoll(t, g.p).passStartedAt.Some?
    ensures PassOwes(base, emitted + Batch(t, g.p), Opened(AfterPoll(t, g.p), next.p), size, floor, start, next.lo)
  {
    PollOwes(cfg, base, emitted, t, g, size, floor, start);
    OwesNoMore(base, emitted + Batch(t, g.p), AfterPoll(t, g.p).cursor, size, floor, start, g.hi, next.lo);
  }

  /** At its opening a pass owes everything. */
  lemma StartsOwing(base: seq<RawPost>, s: State, g: Meeting, size: nat)
    requires s.passStartedAt.None? && !g.p.reset && g.lo >= |base|
    ensures PassOwes(base, [], Opened(s, g.p), size, FloorOf(s, g.p), g.p.now, g.lo)
  {
    FirstOwes(base, s, g.p, size, g.lo);
  }

  /**
   * A pass over an archive that grows at the front while it runs emits every post of the first archive
   * between floor and start at least once, as long as what appears is newer than the floor and no due
   * post of the first archive stands behind one at or below the floor. Its start is the new watermark.
   */
  lemma GrowingPassMissesNothing(cfg: Config, s: State, gs: seq<Meeting>, base: seq<RawPost>, size: nat)
    requires size >= 1 && gs != [] && GrowingPass(cfg, s, gs, base, size, FloorOf(s, gs[0].p))
    requires !Hidden(base, FloorOf(s, gs[0].p), gs[0].p.now)
    requires Polls(s, InputsOf(gs)).0.passStartedAt.None?
    ensures forall p :: p in base && Due(p, FloorOf(s, gs[0].p), gs[0].p.now) ==> p in Polls(s, InputsOf(gs)).1
    ensures Idle(Polls(s, InputsOf(gs)).0, Some(gs[0].p.now))
  {
    var polls, n, floor, start := InputsOf(gs), |gs| - 1, FloorOf(s, gs[0].p), gs[0].p.now;
    PassOwesSoFar(cfg, s, gs, base, size, n);
    var (t, emitted) := Polls(s, polls[..n]);
    PollOwes(cfg, base, emitted, t, gs[n], size, floor, start);
    assert polls[n] == gs[n].p;
  }
}
