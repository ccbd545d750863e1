/**
 * Pass after pass over an archive that grows all the while, during the passes too: what is emitted is
 * due, and what is due is emitted.
 */
module TriggerHistory {
  import opened Basics
  import opened RawPosts
  import opened CrawlModel
  import opened Trigger
  import opened TriggerPasses
  import opened TriggerGrowth

  // ----- nothing is emitted that is not due -----

  ghost predicate AllDue(posts: seq<RawPost>, floor: int, start: int) {
    forall p :: p in posts ==> Due(p, floor, start)
  }

  lemma {:induction false} SiftIsDue(posts: seq<RawPost>, floor: int, start: int)
    ensures AllDue(Sift(posts, Some(floor), Some(start)).0, floor, start)
    decreases |posts|
  {
    if posts != [] {
      SiftIsDue(posts[1..], floor, start);
    }
  }

  lemma RequestIsDue(ask: Service, i: nat, floor: int, start: int, batchSize: nat, pageSize: nat, l: Loop)
    requires AllDue(l.posts, floor, start)
    ensures AllDue(Request(ask, i, Some(floor), Some(start), batchSize, pageSize, l).posts, floor, start)
  {
    match ask(i, Min(pageSize, batchSize - |l.posts|), l.cursor)
    case Err(_) =>
    case Ok(r) => SiftIsDue(r.posts, floor, start);
  }

  lemma {:induction false} RequestsAreDue(ask: Service, i: nat, floor: int, start: int, batchSize: nat, pageSize: nat,
                                          l: Loop, n: nat)
    requires AllDue(l.posts, floor, start)
    ensures AllDue(Requests(ask, i, Some(floor), Some(start), batchSize, pageSize, l, n).posts, floor, start)
    decreases n
  {
    if n > 0 && !LoopOver(l, batchSize) {
      RequestIsDue(ask, i, floor, start, batchSize, pageSize, l);
      RequestsAreDue(ask, i + 1, floor, start, batchSize, pageSize,
                     Request(ask, i, Some(floor), Some(start), batchSize, pageSize, l), n - 1);
    }
  }

  /** Whatever the service answers, a poll emits posts between the floor and the start of its pass only. */
  lemma BatchIsDue(s: State, p: PollInput, floor: int, start: int)
    requires Opened(s, p).floor == Some(floor) && Opened(s, p).passStartedAt == Some(start)
    ensures AllDue(Batch(s, p), floor, start)
  {
    RequestsAreDue(p.ask, 0, floor, start, Clamp(p.batchSize, 1, MAX_BATCH_SIZE), Clamp(p.pageSize, 1, MAX_PAGE_SIZE),
                   Loop(Opened(s, p).cursor, [], false, false), MAX_PAGES_PER_POLL);
  }

  lemma {:induction false} PassIsDue(cfg: Config, s: State, g: GrownPass, n: nat)
    requires WholeGrownPass(cfg, s, g) && n <= |g.gs|
    ensures AllDue(Polls(s, InputsOf(g.gs)[..n]).1, FloorOf(s, g.gs[0].p), StartedAt(g))
    decreases n
  {
    if n > 0 {
      PassIsDue(cfg, s, g, n - 1);
      PassOwesSoFar(cfg, s, g.gs, g.base, g.size, n - 1);
      PollsNext(s, InputsOf(g.gs), n);
      BatchIsDue(Polls(s, InputsOf(g.gs)[..n - 1]).0, g.gs[n - 1].p, FloorOf(s, g.gs[0].p), StartedAt(g));
    }
  }

  // ----- pass after pass -----

  /** A pass: the rows the source had when it began, the rows on a page, and what its polls meet. */
  datatype GrownPass = GrownPass(base: seq<RawPost>, size: nat, gs: seq<Meeting>)

  function StartedAt(g: GrownPass): int
    requires g.gs != []
  {
    g.gs[0].p.now
  }

  /** A pass that runs to its end over an archive that grows, with no due post of its first rows hidden. */
  ghost predicate WholeGrownPass(cfg: Config, s: State, g: GrownPass) {
    && g.size >= 1 && g.gs != []
    && GrowingPass(cfg, s, g.gs, g.base, g.size, FloorOf(s, g.gs[0].p))
    && !Hidden(g.base, FloorOf(s, g.gs[0].p), StartedAt(g))
    && Polls(s, InputsOf(g.gs)).0.passStartedAt.None?
  }

  function AfterPasses(s: State, passes: seq<GrownPass>): State {
    if passes == [] then s
    else Polls(AfterPasses(s, passes[..|passes| - 1]), InputsOf(passes[|passes| - 1].gs)).0
  }

  /** Everything emitted, in order. */
  function Emissions(s: State, passes: seq<GrownPass>): seq<RawPost> {
    if passes == [] then []
    else
      var init, last := passes[..|passes| - 1], passes[|passes| - 1];
      Emissions(s, init) + Polls(AfterPasses(s, init), InputsOf(last.gs)).1
  }

  /** The pass begins no earlier than the one before, and what the archive gained is newer than that one's start. */
  ghost predicate GrownSince(prev: GrownPass, next: GrownPass)
    requires prev.gs != [] && next.gs != []
  {
    StartedAt(prev) <= StartedAt(next) && GainedNews(prev.base, next.base, StartedAt(prev))
  }

  /** Whole passes one after the other. */
  ghost predicate GrownPasses(cfg: Config, s: State, passes: seq<GrownPass>) {
    passes == [] ||
    var init, last := passes[..|passes| - 1], passes[|passes| - 1];
    && GrownPasses(cfg, s, init)
    && WholeGrownPass(cfg, AfterPasses(s, init), last)
    && (init != [] ==> init[|init| - 1].gs != [] && GrownSince(init[|init| - 1], last))
  }

  /** What was emitted is due, and what the last pass began with and is due was emitted. */
  ghost predicate Covers(emitted: seq<RawPost>, base: seq<RawPost>, floor: int, start: int) {
    && AllDue(emitted, floor, start)
    && forall p :: p in base && Due(p, floor, start) ==> p in emitted
  }

  lemma PassCovers(cfg: Config, s: State, g: GrownPass)
    requires WholeGrownPass(cfg, s, g)
    ensures Covers(Polls(s, InputsOf(g.gs)).1, g.base, FloorOf(s, g.gs[0].p), StartedAt(g))
    ensures Idle(Polls(s, InputsOf(g.gs)).0, Some(StartedAt(g)))
  {
    GrowingPassMissesNothing(cfg, s, g.gs, g.base, g.size);
    PassIsDue(cfg, s, g, |g.gs|);
    assert InputsOf(g.gs)[..|g.gs|] == InputsOf(g.gs);
  }

  /** A post at or before the start of a pass was there when it began. */
  lemma OldPostsWereThere(prev: GrownPass, next: GrownPass, p: RawPost)
    requires prev.gs != [] && next.gs != [] && GrownSince(prev, next)
    requires p in next.base && Millis(p.publishedAt) <= StartedAt(prev)
    ensures p in prev.base
  {
    var n: nat :| OnlyNews(prev.base, next.base, StartedAt(prev), n);
    var i :| 0 <= i < |next.base| && next.base[i] == p;
    assert next.base[n..][i - n] == p;
  }

  lemma CoversMore(prev: GrownPass, next: GrownPass, emitted: seq<RawPost>, batch: seq<RawPost>, floor: int)
    requires prev.gs != [] && next.gs != [] && GrownSince(prev, next) && floor <= StartedAt(prev)
    requires Covers(emitted, prev.base, floor, StartedAt(prev))
    requires Covers(batch, next.base, StartedAt(prev), StartedAt(next))
    ensures Covers(emitted + batch, next.base, floor, StartedAt(next))
  {
    forall p | p in next.base && Due(p, floor, StartedAt(next)) ensures p in emitted + batch {
      if Millis(p.publishedAt) <= StartedAt(prev) {
        OldPostsWereThere(prev, next, p);
      }
    }
  }

  /** The last pass is done, and all passes together cover the time from the first floor to its start. */
  ghost predicate Covered(s: State, passes: seq<GrownPass>, floor: int)
    requires passes != [] && passes[|passes| - 1].gs != []
  {
    var last := passes[|passes| - 1];
    && floor <= StartedAt(last)
    && Idle(AfterPasses(s, passes), Some(StartedAt(last)))
    && Covers(Emissions(s, passes), last.base, floor, StartedAt(last))
  }

  lemma OnePass(cfg: Config, s: State, g: GrownPass)
    ensures AfterPasses(s, [g]) == Polls(s, InputsOf(g.gs)).0
    ensures Emissions(s, [g]) == Polls(s, InputsOf(g.gs)).1
    ensures GrownPasses(cfg, s, [g]) ==> WholeGrownPass(cfg, s, g)
  {
    assert [g][..0] == [];
    assert [] + Polls(s, InputsOf(g.gs)).1 == Polls(s, InputsOf(g.gs)).1;
  }

  lemma FirstPassCovers(cfg: Config, s: State, g: GrownPass)
    requires GrownPasses(cfg, s, [g]) && g.gs != [] && FloorOf(s, g.gs[0].p) <= StartedAt(g)
    ensures Covered(s, [g], FloorOf(s, g.gs[0].p))
  {
    OnePass(cfg, s, g);
    PassCovers(cfg, s, g);
  }

  lemma NextPassCovers(cfg: Config, s: State, passes: seq<GrownPass>, init: seq<GrownPass>, floor: int)
    requires |passes| > 1 && init == passes[..|passes| - 1] && GrownPasses(cfg, s, passes)
    requires init[|init| - 1].gs != [] && Covered(s, init, floor)
    ensures passes[|passes| - 1].gs != [] && Covered(s, passes, floor)
  {
    var prev, last, t := init[|init| - 1], passes[|passes| - 1], AfterPasses(s, init);
    PassCovers(cfg, t, last);
    CoversMore(prev, last, Emissions(s, init), Polls(t, InputsOf(last.gs)).1, floor);
  }

  /**
   * Over any number of passes, with posts appearing at any time between and during them, every post
   * the last pass began with that is dated after the first floor and not after the last start has been
   * emitted at least once, and nothing has been emitted that is dated outside that time. No order of the
   * posts is asked for beyond the one each pass needs.
   */
  lemma {:induction false} GrownPassesMissNothing(cfg: Config, s: State, passes: seq<GrownPass>)
    requires passes != [] && GrownPasses(cfg, s, passes)
    requires passes[0].gs != [] && FloorOf(s, passes[0].gs[0].p) <= StartedAt(passes[0])
    ensures passes[|passes| - 1].gs != [] && Covered(s, passes, FloorOf(s, passes[0].gs[0].p))
    decreases |passes|
  {
    var init := passes[..|passes| - 1];
    if init == [] {
      assert passes == [passes[0]];
      FirstPassCovers(cfg, s, passes[0]);
    } else {
      assert init[0] == passes[0];
      GrownPassesMissNothing(cfg, s, init);
      NextPassCovers(cfg, s, passes, init, FloorOf(s, passes[0].gs[0].p));
    }
  }
}
