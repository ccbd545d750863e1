/**
 * An archive that grows at the front while it is being crawled: rows move to later pages, and the
 * cursors handed out earlier still miss nothing.
 */
module CrawlGrowth {
  import opened Basics
  import opened RawPosts
  import opened CrawlModel
  import opened CrawlChain

  // ----- an archive cut into pages of one size -----

  function Pages(rows: seq<RawPost>, size: nat): seq<seq<RawPost>>
    requires size >= 1
  {
    if rows == [] then []
    else if |rows| <= size then [rows]
    else [rows[..size]] + Pages(rows[size..], size)
  }

  /** Page 0 is never asked for; page 1 holds the newest rows. */
  function CutIntoPages(rows: seq<RawPost>, size: nat): Archive
    requires size >= 1
  {
    [[]] + Pages(rows, size)
  }

  /** The rows before page p. */
  function Before(p: nat, size: nat): nat
    requires p >= 1
  {
    if p == 1 then 0 else Before(p - 1, size) + size
  }

  lemma {:induction false} PageRows(rows: seq<RawPost>, size: nat, p: nat)
    requires size >= 1 && p >= 1
    ensures PageAt(CutIntoPages(rows, size), p)
         == if Before(p, size) >= |rows| then [] else rows[Before(p, size)..Min(Before(p, size) + size, |rows|)]
    decreases p
  {
    if p > 1 && |rows| > size {
      var rest := rows[size..];
      PageRows(rest, size, p - 1);
      BeforeShifts(p, size);
      assert PageAt(CutIntoPages(rows, size), p) == PageAt(CutIntoPages(rest, size), p - 1);
    } else if p > 1 {
      BeforeShifts(p, size);
    }
  }

  lemma {:induction false} BeforeShifts(p: nat, size: nat)
    requires p > 1
    ensures Before(p, size) == Before(p - 1, size) + size
  {
  }

  /** The flat position a cursor stands for. */
  function FlatPosition(c: Cursor, size: nat): nat {
    if c.offset == 0 then Before(c.page + 1, size)
    else if c.page == 0 then 0
    else Before(c.page, size) + c.offset
  }

  ghost predicate RowsOf(s: seq<Located>, rows: seq<RawPost>, at: nat, size: nat) {
    && |s| == (if at <= |rows| then |rows| - at else 0)
    && forall j :: 0 <= j < |s| ==>
         s[j].page >= 1 && s[j].row < size && Before(s[j].page, size) + s[j].row == at + j && s[j].post == rows[at + j]
  }

  lemma PageThenRest(rows: seq<RawPost>, size: nat, p: nat, skip: nat, rest: seq<Located>)
    requires size >= 1 && p >= 1 && skip <= size && PageAt(CutIntoPages(rows, size), p) != []
    requires RowsOf(rest, rows, Before(p + 1, size), size)
    ensures RowsOf(Rows(PageAt(CutIntoPages(rows, size), p), p, skip) + rest, rows, Before(p, size) + skip, size)
  {
    var page := PageAt(CutIntoPages(rows, size), p);
    PageRows(rows, size, p);
    RowsAre(page, p, skip);
    BeforeShifts(p + 1, size);
    var head := Rows(page, p, skip);
    forall j | 0 <= j < |head|
      ensures head[j].page == p && head[j].row == skip + j < size && head[j].post == rows[Before(p, size) + skip + j]
    {
      assert head[j] == Located(p, skip + j, page[skip + j]);
    }
  }

  /** From page p and row skip the walk reads the rows from that flat position on. */
  lemma {:induction false} WalkReadsRows(rows: seq<RawPost>, size: nat, t: nat, p: nat, skip: nat, e: nat)
    requires size >= 1 && p >= 1 && skip <= size && e < t
    requires e > 0 ==> Before(p, size) >= |rows| && skip == 0
    ensures RowsOf(Stream(CutIntoPages(rows, size), t, Position(p, skip, e)), rows, Before(p, size) + skip, size)
    decreases PagesLeft(CutIntoPages(rows, size), p), t - e
  {
    var a := CutIntoPages(rows, size);
    PageRows(rows, size, p);
    if PageAt(a, p) == [] {
      if e + 1 < t {
        WalkReadsRows(rows, size, t, p + 1, 0, e + 1);
      }
    } else {
      WalkReadsRows(rows, size, t, p + 1, 0, 0);
      PageThenRest(rows, size, p, skip, Stream(a, t, Position(p + 1, 0, 0)));
    }
  }

  /** The rows ahead of a cursor are those from its flat position on. */
  lemma ResumeReadsRows(rows: seq<RawPost>, size: nat, t: nat, c: Cursor)
    requires size >= 1 && t >= 1 && c.offset <= size && (c.page == 0 ==> c.offset == 0)
    ensures RowsOf(Stream(CutIntoPages(rows, size), t, Resume(c)), rows, FlatPosition(c, size), size)
  {
    WalkReadsRows(rows, size, t, Resume(c).page, Resume(c).skip, 0);
  }

  // ----- calls between which the archive grows -----

  /** Rows that appear at the front before a call, and the call. */
  datatype Visit = Visit(news: seq<RawPost>, call: Call)

  datatype Journey = Journey(rows: seq<RawPost>, trail: Trail)

  function Grow(cfg: Config, size: nat, base: seq<RawPost>, visits: seq<Visit>): Journey
    requires size >= 1
  {
    if visits == [] then Journey(base, Trail([], "", false))
    else
      var j, v := Grow(cfg, size, base, visits[..|visits| - 1]), visits[|visits| - 1];
      var rows := v.news + j.rows;
      Journey(rows, Ask(cfg, CutIntoPages(rows, size), j.trail, v.call))
  }

  /** The in-window prefix of a list of posts. */
  function InWindow(rows: seq<RawPost>, cutoff: Option<Instant>): (n: nat)
    ensures n <= |rows|
  {
    if rows == [] || OutOfWindow(rows[0].publishedAt, cutoff) then 0 else 1 + InWindow(rows[1..], cutoff)
  }

  lemma {:induction false} InWindowEnds(rows: seq<RawPost>, cutoff: Option<Instant>, k: nat)
    requires k < |rows| && OutOfWindow(rows[k].publishedAt, cutoff)
    ensures InWindow(rows, cutoff) <= k
    decreases k
  {
    if k > 0 {
      InWindowEnds(rows[1..], cutoff, k - 1);
    }
  }

  /** No cutoff is tighter than hi, and what appears at the front is in its window. */
  ghost predicate FreshNews(visits: seq<Visit>, hi: Option<Instant>) {
    forall i :: 0 <= i < |visits| ==> Looser(visits[i].call.cutoff, hi) && AllIn(visits[i].news, hi)
  }

  ghost predicate AllIn(rows: seq<RawPost>, hi: Option<Instant>) {
    forall k :: 0 <= k < |rows| ==> !OutOfWindow(rows[k].publishedAt, hi)
  }

  /** The archive is the first one with in-window rows in front of it. */
  ghost predicate GrownFrom(base: seq<RawPost>, rows: seq<RawPost>, hi: Option<Instant>) {
    && |rows| >= |base|
    && rows[|rows| - |base|..] == base
    && AllIn(rows[..|rows| - |base|], hi)
  }

  /** Every row of the first archive up to n has been returned. */
  ghost predicate Covered(base: seq<RawPost>, posts: seq<RawPost>, n: int) {
    forall i :: 0 <= i < |base| && i < n ==> base[i] in posts
  }

  /** An unfinished journey has covered what lies before its cursor; a finished one the whole window. */
  ghost predicate NothingMissed(base: seq<RawPost>, j: Journey, size: nat, hi: Option<Instant>) {
    && GrownFrom(base, j.rows, hi)
    && (!j.trail.done ==>
          && ParseCursor(j.trail.cursor).Some?
          && ParseCursor(j.trail.cursor).value.offset <= size
          && (ParseCursor(j.trail.cursor).value.page == 0 ==> ParseCursor(j.trail.cursor).value.offset == 0)
          && Covered(base, j.trail.posts, FlatPosition(ParseCursor(j.trail.cursor).value, size) - (|j.rows| - |base|)))
    && (j.trail.done ==> Covered(base, j.trail.posts, InWindow(base, hi)))
  }

  lemma GrownMore(base: seq<RawPost>, rows: seq<RawPost>, news: seq<RawPost>, hi: Option<Instant>)
    requires GrownFrom(base, rows, hi) && AllIn(news, hi)
    ensures GrownFrom(base, news + rows, hi)
  {
    var all, d := news + rows, |rows| - |base|;
    assert all[|all| - |base|..] == rows[d..];
    assert all[..|all| - |base|] == news + rows[..d];
  }

  /** What a call returns covers the rows of the first archive it passed over. */
  lemma CallCovers(base: seq<RawPost>, rows: seq<RawPost>, before: seq<RawPost>, s: seq<Located>, at: nat, n: nat,
                   size: nat)
    requires |rows| >= |base| && rows[|rows| - |base|..] == base
    requires RowsOf(s, rows, at, size) && n <= |s|
    requires Covered(base, before, at - (|rows| - |base|))
    ensures Covered(base, before + Posts(s[..n]), at + n - (|rows| - |base|))
  {
    var d := |rows| - |base|;
    forall i | 0 <= i < |base| && i < at + n - d ensures base[i] in before + Posts(s[..n]) {
      if i >= at - d {
        var q := i + d - at;
        assert Posts(s[..n])[q] == s[q].post == rows[at + q] == rows[d..][i];
      }
    }
  }

  /** A finished call stopped at the end or at a row out of the window, past the window of the first archive. */
  lemma StopIsPastWindow(base: seq<RawPost>, rows: seq<RawPost>, hi: Option<Instant>, cutoff: Option<Instant>,
                         stop: nat)
    requires GrownFrom(base, rows, hi) && Looser(cutoff, hi)
    requires stop >= |rows| || OutOfWindow(rows[stop].publishedAt, cutoff)
    ensures stop - (|rows| - |base|) >= InWindow(base, hi)
  {
    var d := |rows| - |base|;
    forall k | 0 <= k < d ensures !OutOfWindow(rows[k].publishedAt, hi) {
      assert rows[k] == rows[..d][k];
    }
    if stop < |rows| {
      assert rows[d..][stop - d] == rows[stop];
      InWindowEnds(base, hi, stop - d);
    }
  }

  /** The cursor parked after n rows stands for the next row, or for one past the end. */
  lemma CursorAfterRows(rows: seq<RawPost>, size: nat, s: seq<Located>, at: nat, n: nat)
    requires size >= 1 && RowsOf(s, rows, at, size) && 1 <= n <= |s|
    ensures var c := After(CutIntoPages(rows, size), s[n - 1]);
            && c.offset <= size && c.page >= 1
            && (FlatPosition(c, size) == at + n || (at + n == |rows| && FlatPosition(c, size) >= |rows|))
  {
    var l := s[n - 1];
    PageRows(rows, size, l.page);
    BeforeShifts(l.page + 1, size);
  }

  lemma VisitCovers(cfg: Config, size: nat, base: seq<RawPost>, j: Journey, v: Visit, hi: Option<Instant>)
    requires size >= 1 && NothingMissed(base, j, size, hi)
    requires Looser(v.call.cutoff, hi) && AllIn(v.news, hi)
    requires Sized(CutIntoPages(v.news + j.rows, size))
    ensures var rows := v.news + j.rows;
            NothingMissed(base, Journey(rows, Ask(cfg, CutIntoPages(rows, size), j.trail, v.call)), size, hi)
  {
    var rows := v.news + j.rows;
    GrownMore(base, j.rows, v.news, hi);
    if !j.trail.done {
      var at := FlatPosition(ParseCursor(j.trail.cursor).value, size);
      FewerCovered(base, j.trail.posts, at - (|j.rows| - |base|), at - (|rows| - |base|));
    }
    var a := CutIntoPages(rows, size);
    if AnsweredNow(cfg, a, j.trail, v.call) == 1 {
      var c := ParseCursor(j.trail.cursor).value;
      var r := Clean(cfg, a, c, ClampPageSize(v.call.pageSize), v.call.cutoff);
      AnswerCovers(cfg, size, base, rows, c, j.trail.posts, v.call, hi, r);
    }
  }

  lemma AnswerCovers(cfg: Config, size: nat, base: seq<RawPost>, rows: seq<RawPost>, c: Cursor, before: seq<RawPost>,
                     call: Call,
                     hi: Option<Instant>, r: Response)
    requires size >= 1 && GrownFrom(base, rows, hi) && Looser(call.cutoff, hi) && Sized(CutIntoPages(rows, size))
    requires c.offset <= size && (c.page == 0 ==> c.offset == 0)
    requires Covered(base, before, FlatPosition(c, size) - (|rows| - |base|))
    requires r == Clean(cfg, CutIntoPages(rows, size), c, ClampPageSize(call.pageSize), call.cutoff)
    ensures NothingMissed(base, Journey(rows, Trail(before + r.posts, r.nextCursor, !r.hasMore)), size, hi)
  {
    var a, t, budget := CutIntoPages(rows, size), EmptyRun(cfg.threshold), ClampPageSize(call.pageSize);
    ResumeReadsRows(rows, size, t, c);
    var n := CleanReads(cfg, a, c, budget, call.cutoff);
    ResponseCovers(base, rows, before, size, Ahead(cfg, a, c), FlatPosition(c, size), call.cutoff, hi, budget, r, n);
  }

  lemma FewerCovered(base: seq<RawPost>, posts: seq<RawPost>, n: int, m: int)
    requires m <= n && Covered(base, posts, n)
    ensures Covered(base, posts, m)
  {
  }

  lemma ResponseCovers(base: seq<RawPost>, rows: seq<RawPost>, before: seq<RawPost>, size: nat, s: seq<Located>,
                       at: nat,
                       cutoff: Option<Instant>, hi: Option<Instant>, budget: nat, r: Response, n: nat)
    requires size >= 1 && GrownFrom(base, rows, hi) && Looser(cutoff, hi)
    requires Sized(CutIntoPages(rows, size))
    requires RowsOf(s, rows, at, size) && Takes(CutIntoPages(rows, size), s, budget, cutoff, r, n)
    requires Covered(base, before, at - (|rows| - |base|))
    ensures NothingMissed(base, Journey(rows, Trail(before + r.posts, r.nextCursor, !r.hasMore)), size, hi)
  {
    var d := |rows| - |base|;
    CallCovers(base, rows, before, s, at, n, size);
    if r.hasMore {
      CursorAfterRows(rows, size, s, at, n);
      AfterFits(rows, size, s, at, n);
      CursorRoundTrip(After(CutIntoPages(rows, size), s[n - 1]));
    } else {
      StopIsPastWindow(base, rows, hi, cutoff, if at + n >= |rows| then |rows| else at + n);
    }
  }

  lemma AfterFits(rows: seq<RawPost>, size: nat, s: seq<Located>, at: nat, n: nat)
    requires size >= 1 && RowsOf(s, rows, at, size) && 1 <= n <= |s| && Sized(CutIntoPages(rows, size))
    ensures Fits(After(CutIntoPages(rows, size), s[n - 1]))
  {
    var a, l := CutIntoPages(rows, size), s[n - 1];
    PageRows(rows, size, l.page);
    assert l.page < |a|;
    assert |a[l.page]| <= MAX_INT64;
  }

  /** The archive stays within the source's integers at every call. */
  ghost predicate StaysSized(cfg: Config, size: nat, base: seq<RawPost>, visits: seq<Visit>)
    requires size >= 1
  {
    forall i :: 0 < i <= |visits| ==> Sized(CutIntoPages(Grow(cfg, size, base, visits[..i]).rows, size))
  }

  /**
   * Growth at the front loses nothing: when rows that are in the window appear before any of the
   * calls, whatever fails in between, a finished chain has returned every row of the window of the
   * archive as it was at the start.
   */
  lemma {:induction false} GrowthLosesNothing(cfg: Config, size: nat, base: seq<RawPost>, visits: seq<Visit>,
                                              hi: Option<Instant>)
    requires size >= 1 && FreshNews(visits, hi) && StaysSized(cfg, size, base, visits)
    ensures NothingMissed(base, Grow(cfg, size, base, visits), size, hi)
    decreases |visits|
  {
    if visits == [] {
      assert base[0..] == base;
      assert FlatPosition(Cursor(0, 0), size) == 0;
    } else {
      var init, v := visits[..|visits| - 1], visits[|visits| - 1];
      forall i | 0 < i <= |init| ensures Sized(CutIntoPages(Grow(cfg, size, base, init[..i]).rows, size)) {
        assert init[..i] == visits[..i];
      }
      GrowthLosesNothing(cfg, size, base, init, hi);
      assert visits[..|visits|] == visits;
      VisitCovers(cfg, size, base, Grow(cfg, size, base, init), v, hi);
    }
  }
}
