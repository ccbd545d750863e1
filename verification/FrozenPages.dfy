/**
 * When crawling through the page cache is crawling one static archive: exactly when the chain is never
 * shown two versions of a page. The cache sees to that while entries last, whatever the source does.
 */
module FrozenPages {
  import opened Basics
  import opened RawPosts
  import opened CrawlModel
  import opened PageCache
  import opened CachedCrawl
  import CrawlChain

  // ----- one archive behind what is shown -----

  /** Lookup n shows page p. */
  predicate ShowsPage(e: Setup, calls: seq<Call>, n: nat, p: int)
    requires n < |calls|
  {
    Here(e, calls[n]) && calls[n].page == p && ShownAt(e, calls, n).Some?
  }

  /** Lookups i and j show the same page. */
  ghost predicate BothShow(e: Setup, calls: seq<Call>, i: nat, j: nat)
    requires i < |calls| && j < |calls|
  {
    ShowsPage(e, calls, i, calls[i].page) && ShowsPage(e, calls, j, calls[i].page)
  }

  /** From lookup m on, no page is shown in two versions. */
  ghost predicate Consistent(e: Setup, calls: seq<Call>, m: nat) {
    forall i, j :: m <= i < j < |calls| && BothShow(e, calls, i, j) ==>
      ShownAt(e, calls, i) == ShownAt(e, calls, j)
  }

  /** The rows that lookups m up to n last showed of page p. */
  function LastShown(e: Setup, calls: seq<Call>, m: nat, n: nat, p: nat): seq<RawPost>
    requires n <= |calls|
    decreases n
  {
    if n <= m then []
    else if ShowsPage(e, calls, n - 1, p) then ShownAt(e, calls, n - 1).value
    else LastShown(e, calls, m, n - 1, p)
  }

  /** One more than the highest page asked for. */
  function PagesAsked(calls: seq<Call>): (top: nat)
    ensures forall n :: 0 <= n < |calls| ==> calls[n].page < top
  {
    if calls == [] then 0
    else
      var last := calls[|calls| - 1];
      var top := PagesAsked(calls[..|calls| - 1]);
      assert forall n :: 0 <= n < |calls| - 1 ==> calls[n] == calls[..|calls| - 1][n];
      if last.page < top then top else last.page + 1
  }

  /** The archive put together from what was shown. */
  function Collected(e: Setup, calls: seq<Call>, m: nat): Archive {
    seq(PagesAsked(calls), p requires 0 <= p < PagesAsked(calls) => LastShown(e, calls, m, |calls|, p))
  }

  lemma BothShowTheSame(e: Setup, calls: seq<Call>, m: nat, i: nat, j: nat, p: nat)
    requires Consistent(e, calls, m) && m <= i <= j < |calls|
    requires ShowsPage(e, calls, i, p) && ShowsPage(e, calls, j, p)
    ensures ShownAt(e, calls, i) == ShownAt(e, calls, j)
  {
    if i < j {
      assert BothShow(e, calls, i, j);
    }
  }

  lemma LastShownBefore(e: Setup, calls: seq<Call>, m: nat, k: nat, p: nat)
    requires m < k <= |calls| && !ShowsPage(e, calls, k - 1, p)
    ensures LastShown(e, calls, m, k, p) == LastShown(e, calls, m, k - 1, p)
  {
  }

  lemma {:induction false} LastShownIs(e: Setup, calls: seq<Call>, m: nat, n: nat, k: nat, p: nat)
    requires Consistent(e, calls, m) && m <= n < k <= |calls| && ShowsPage(e, calls, n, p)
    ensures LastShown(e, calls, m, k, p) == ShownAt(e, calls, n).value
    decreases k
  {
    if !ShowsPage(e, calls, k - 1, p) {
      LastShownBefore(e, calls, m, k, p);
      LastShownIs(e, calls, m, n, k - 1, p);
    } else {
      BothShowTheSame(e, calls, m, n, k - 1, p);
    }
  }

  lemma CollectedShows(e: Setup, calls: seq<Call>, m: nat)
    requires Consistent(e, calls, m)
    ensures Shows(e, calls, m, Collected(e, calls, m))
  {
    forall n | m <= n < |calls| && Here(e, calls[n]) && ShownAt(e, calls, n).Some?
      ensures ShownAt(e, calls, n).value == PageAt(Collected(e, calls, m), calls[n].page)
    {
      LastShownIs(e, calls, m, n, |calls|, calls[n].page);
    }
  }

  ghost predicate ShowsSomeArchive(e: Setup, calls: seq<Call>, m: nat) {
    exists a: Archive :: Shows(e, calls, m, a)
  }

  /** Lookups show the pages of one archive if and only if they show no page in two versions. */
  lemma ShowsOneArchiveIff(e: Setup, calls: seq<Call>, m: nat)
    ensures ShowsSomeArchive(e, calls, m) <==> Consistent(e, calls, m)
  {
    if Consistent(e, calls, m) {
      CollectedShows(e, calls, m);
    }
    if ShowsSomeArchive(e, calls, m) {
      var a: Archive :| Shows(e, calls, m, a);
      forall i, j | m <= i < j < |calls| && BothShow(e, calls, i, j)
        ensures ShownAt(e, calls, i) == ShownAt(e, calls, j)
      {
        assert ShownAt(e, calls, i).value == PageAt(a, calls[i].page);
        assert ShownAt(e, calls, j).value == PageAt(a, calls[j].page);
      }
    }
  }

  // ----- what keeps a chain from seeing two versions -----

  /**
   * The cache freezes what the chain sees: a body that a lookup was served is still fresh whenever the
   * chain asks for its page again. Nothing is said of the source.
   */
  ghost predicate Frozen(ttl: int, calls: seq<Call>, m: nat) {
    forall i, j, n ::
      0 <= i <= j < n < |calls| && m <= j && SamePage(calls[j], calls[n]) && Serves(ttl, calls, i, j) ==>
        calls[n].nowGet < calls[i].nowPut + ttl
  }

  lemma FrozenServesOne(ttl: int, calls: seq<Call>, m: nat, j: nat, n: nat)
    requires Forward(calls) && Frozen(ttl, calls, m) && m <= j < n < |calls|
    requires SamePage(calls[j], calls[n]) && ServedAt(ttl, calls, j).Some?
    ensures ServedAt(ttl, calls, n) == ServedAt(ttl, calls, j)
  {
    var i := ServedBy(ttl, calls, j);
    assert calls[n].nowGet < calls[i].nowPut + ttl;
    ServesGives(ttl, calls, i, n);
  }

  lemma FrozenIsConsistent(e: Setup, calls: seq<Call>, m: nat)
    requires Forward(calls) && Frozen(e.ttl, calls, m)
    ensures Consistent(e, calls, m)
  {
    forall i, j | m <= i < j < |calls| && BothShow(e, calls, i, j)
      ensures ShownAt(e, calls, i) == ShownAt(e, calls, j)
    {
      FrozenServesOne(e.ttl, calls, m, i, j);
    }
  }

  /** From an empty cache, a chain that asks its last lookup less than ttl after its first fetch ended. */
  ghost predicate WithinTtl(ttl: int, calls: seq<Call>) {
    calls != [] ==> calls[|calls| - 1].nowGet < calls[0].nowPut + ttl
  }

  lemma WithinTtlIsFrozen(ttl: int, calls: seq<Call>)
    requires Forward(calls) && WithinTtl(ttl, calls)
    ensures Frozen(ttl, calls, 0)
  {
    forall i, j, n | 0 <= i <= j < n < |calls| && SamePage(calls[j], calls[n]) && Serves(ttl, calls, i, j)
      ensures calls[n].nowGet < calls[i].nowPut + ttl
    {
      NoReadingGoesBack(calls, 0, i);
      NoReadingGoesBack(calls, n, |calls| - 1);
    }
  }

  lemma NoReadingGoesBack(calls: seq<Call>, i: nat, j: nat)
    requires Forward(calls) && i <= j < |calls|
    ensures calls[i].nowGet <= calls[j].nowGet && calls[i].nowPut <= calls[j].nowPut
  {
    if i < j {
      assert calls[i].nowGet <= calls[i].nowPut <= calls[j].nowGet <= calls[j].nowPut;
    }
  }

  /** Any two fetches of one page got the same body, however far apart. */
  ghost predicate FetchesAgree(ttl: int, calls: seq<Call>) {
    forall i, j ::
      0 <= i < j < |calls| && SamePage(calls[i], calls[j]) && Fetched(ttl, calls, i) && Fetched(ttl, calls, j) ==>
        calls[i].upstream == calls[j].upstream
  }

  lemma AgreeingIsConsistent(e: Setup, calls: seq<Call>, m: nat)
    requires Forward(calls) && FetchesAgree(e.ttl, calls)
    ensures Consistent(e, calls, m)
  {
    forall i, j | m <= i < j < |calls| && BothShow(e, calls, i, j)
      ensures ShownAt(e, calls, i) == ShownAt(e, calls, j)
    {
      var f := ServedBy(e.ttl, calls, i);
      var g := ServedBy(e.ttl, calls, j);
      if f < g {
        assert SamePage(calls[f], calls[g]);
      } else if g < f {
        assert SamePage(calls[g], calls[f]);
      }
    }
  }

  /** Freshness is needed, to the instant: at its expiry an entry no longer keeps a changed page from the chain. */
  lemma ExpiryShowsTwoVersions(e: Setup, page: nat, b0: Body, b1: Body) returns (calls: seq<Call>)
    requires e.ttl >= 0 && e.parse(b0).Some? && e.parse(b1).Some? && e.parse(b0) != e.parse(b1)
    ensures Forward(calls) && |calls| == 2 && calls[1].nowGet == calls[0].nowPut + e.ttl
    ensures !Consistent(e, calls, 0) && !ShowsSomeArchive(e, calls, 0)
  {
    calls := [Call(e.sortId, page, 0, Some(b0), 0), Call(e.sortId, page, e.ttl, Some(b1), e.ttl)];
    assert calls[..0] == [] && Serves(e.ttl, calls, 0, 0);
    ServesGives(e.ttl, calls, 0, 0);
    NextServed(e.ttl, calls, 0, 0, 1);
    assert BothShow(e, calls, 0, 1);
    ShowsOneArchiveIff(e, calls, 0);
  }

  // ----- chains -----

  /** The chain is a chain of crawls of this archive with the same page sizes and cutoffs, and saw its pages. */
  ghost predicate CrawlsArchive(e: Setup, cfg: Config, m: nat, requests: seq<Request>, s: Session,
                                a: Archive, calls: seq<CrawlChain.Call>)
  {
    && Shows(e, s.fetches, m, a)
    && SameShape(requests, calls)
    && s.trail == CrawlChain.Follow(cfg, a, calls)
  }

  /**
   * A chain of crawls through the cache that is shown no page in two versions, whatever fails, does not
   * parse or is abandoned on the way, is a chain of crawls of one static archive.
   */
  lemma ConsistentChainIsStatic(e: Setup, cfg: Config, past: seq<Call>, requests: seq<Request>, s: Session)
      returns (a: Archive, calls: seq<CrawlChain.Call>)
    requires s == FollowCached(e, cfg, past, requests) && Consistent(e, s.fetches, |past|)
    ensures CrawlsArchive(e, cfg, |past|, requests, s, a, calls)
  {
    a := Collected(e, s.fetches, |past|);
    CollectedShows(e, s.fetches, |past|);
    calls := ChainIsShown(e, cfg, past, requests, a, s);
  }

  /**
   * Crawling through the cache is crawling an archive that is static during the ttl: while the entries a
   * chain is served stay fresh, the chain is a chain of crawls of one archive, the bodies it fetched or
   * found in the cache, even when the source changes meanwhile.
   */
  lemma FrozenChainIsStatic(e: Setup, cfg: Config, past: seq<Call>, requests: seq<Request>, s: Session)
      returns (a: Archive, calls: seq<CrawlChain.Call>)
    requires s == FollowCached(e, cfg, past, requests)
    requires Forward(s.fetches) && Frozen(e.ttl, s.fetches, |past|)
    ensures CrawlsArchive(e, cfg, |past|, requests, s, a, calls)
  {
    FrozenIsConsistent(e, s.fetches, |past|);
    a, calls := ConsistentChainIsStatic(e, cfg, past, requests, s);
  }

  /** A chain from an empty cache that is over within ttl needs nothing else. */
  lemma ShortChainIsStatic(e: Setup, cfg: Config, requests: seq<Request>, s: Session)
      returns (a: Archive, calls: seq<CrawlChain.Call>)
    requires s == FollowCached(e, cfg, [], requests) && Forward(s.fetches) && WithinTtl(e.ttl, s.fetches)
    ensures CrawlsArchive(e, cfg, 0, requests, s, a, calls)
  {
    WithinTtlIsFrozen(e.ttl, s.fetches);
    a, calls := FrozenChainIsStatic(e, cfg, [], requests, s);
  }

  /** A chain of any length does too, when fetches of one page agree. */
  lemma AgreeingChainIsStatic(e: Setup, cfg: Config, past: seq<Call>, requests: seq<Request>, s: Session)
      returns (a: Archive, calls: seq<CrawlChain.Call>)
    requires s == FollowCached(e, cfg, past, requests)
    requires Forward(s.fetches) && FetchesAgree(e.ttl, s.fetches)
    ensures CrawlsArchive(e, cfg, |past|, requests, s, a, calls)
  {
    AgreeingIsConsistent(e, s.fetches, |past|);
    a, calls := ConsistentChainIsStatic(e, cfg, past, requests, s);
  }

  // ----- what a finished chain has read -----

  ghost predicate OneCutoff(requests: seq<Request>, cutoff: Option<Instant>) {
    forall i :: 0 <= i < |requests| ==> requests[i].cutoff == cutoff
  }

  /** Pages asked for and rows shown fit the source's integers. */
  ghost predicate SizedFetches(e: Setup, calls: seq<Call>) {
    forall n :: 0 <= n < |calls| ==>
      && calls[n].page < MAX_INT64
      && (ShownAt(e, calls, n).Some? ==> |ShownAt(e, calls, n).value| <= MAX_INT64)
  }

  lemma SizedAt(e: Setup, calls: seq<Call>, n: nat)
    requires SizedFetches(e, calls) && n < |calls| && ShownAt(e, calls, n).Some?
    ensures |ShownAt(e, calls, n).value| <= MAX_INT64
  {
  }

  lemma {:induction false} LastShownIsSized(e: Setup, calls: seq<Call>, m: nat, n: nat, p: nat)
    requires SizedFetches(e, calls) && n <= |calls|
    ensures |LastShown(e, calls, m, n, p)| <= MAX_INT64
    decreases n
  {
    if n > m {
      if ShowsPage(e, calls, n - 1, p) {
        SizedAt(e, calls, n - 1);
      } else {
        LastShownIsSized(e, calls, m, n - 1, p);
      }
    }
  }

  lemma {:induction false} PagesAskedFit(calls: seq<Call>)
    requires forall n :: 0 <= n < |calls| ==> calls[n].page < MAX_INT64
    ensures PagesAsked(calls) <= MAX_INT64
    decreases |calls|
  {
    if calls != [] {
      PagesAskedFit(calls[..|calls| - 1]);
    }
  }

  /** A finished chain that saw no page in two versions has read exactly the window of its archive down to its floor. */
  lemma FinishedChainReadsArchive(e: Setup, cfg: Config, past: seq<Call>, requests: seq<Request>, s: Session,
                                  cutoff: Option<Instant>) returns (a: Archive, floor: nat)
    requires s == FollowCached(e, cfg, past, requests) && Consistent(e, s.fetches, |past|)
    requires SizedFetches(e, s.fetches) && OneCutoff(requests, cutoff) && s.trail.done
    ensures Shows(e, s.fetches, |past|, a) && CrawlChain.IsFloor(a, EmptyRun(cfg.threshold), floor)
    ensures var w := CrawlChain.Flat(a, 1, floor); s.trail.posts == Posts(w[..Kept(w, cutoff)])
  {
    a := Collected(e, s.fetches, |past|);
    CollectedShows(e, s.fetches, |past|);
    PagesAskedFit(s.fetches);
    forall p | 0 <= p < |a| ensures |a[p]| <= MAX_INT64 {
      LastShownIsSized(e, s.fetches, |past|, |s.fetches|, p);
    }
    var calls := ChainIsShown(e, cfg, past, requests, a, s);
    floor := CrawlChain.FinishedChainIsExact(cfg, a, calls, cutoff);
  }

  // ----- a source that stays as it is -----

  /** What each page of each sort order holds. */
  type Site = (int, int) -> Body

  /** The fetches that serve a lookup of the chain got what the site holds. */
  ghost predicate Unchanged(ttl: int, calls: seq<Call>, m: nat, site: Site) {
    forall i, n :: 0 <= i <= n < |calls| && m <= n && Serves(ttl, calls, i, n) ==>
      calls[i].upstream == Some(site(calls[i].sortId, calls[i].page))
  }

  /** The archive has the pages of the site that parse. */
  ghost predicate Holds(e: Setup, a: Archive, site: Site) {
    forall p: nat :: e.parse(site(e.sortId, p)).Some? ==> e.parse(site(e.sortId, p)).value == PageAt(a, p)
  }

  lemma UnchangedShows(e: Setup, calls: seq<Call>, m: nat, a: Archive, site: Site)
    requires Forward(calls) && Unchanged(e.ttl, calls, m, site) && Holds(e, a, site)
    ensures Shows(e, calls, m, a)
  {
    forall n | m <= n < |calls| && Here(e, calls[n]) && ShownAt(e, calls, n).Some?
      ensures ShownAt(e, calls, n).value == PageAt(a, calls[n].page)
    {
      var i := ServedBy(e.ttl, calls, n);
      var p: nat := calls[n].page;
      assert ServedAt(e.ttl, calls, n) == Some(site(e.sortId, p));
    }
  }

  /** With an unchanged source a call through the cache is a call on the source's own archive. */
  lemma CachedCallIsStatic(e: Setup, cfg: Config, past: seq<Call>, cursor: string, q: Request, a: Archive, site: Site)
      returns (up: Upstream)
    requires CachedAnswer(e, cfg, past, cursor, q).res.Some? && Holds(e, a, site)
    requires var all := past + CachedAnswer(e, cfg, past, cursor, q).fetches;
             Forward(all) && Unchanged(e.ttl, all, |past|, site)
    ensures up.archive == a
    ensures var run := CachedAnswer(e, cfg, past, cursor, q);
            && run.res.value == Answer(cfg, up, q.pageSize, cursor, q.cutoff)
            && match ParseCursor(cursor)
               case None => run.fetches == []
               case Some(c) => FetchesPages(e, run.res.value, run.fetches, Resume(c).page)
  {
    UnchangedShows(e, past + CachedAnswer(e, cfg, past, cursor, q).fetches, |past|, a, site);
    up := CallIsShown(e, cfg, past, cursor, q, a);
  }

  /** With an unchanged source a chain through the cache is a chain on the source's own archive. */
  lemma CachedChainIsStatic(e: Setup, cfg: Config, past: seq<Call>, requests: seq<Request>, a: Archive, site: Site,
                            s: Session) returns (calls: seq<CrawlChain.Call>)
    requires s == FollowCached(e, cfg, past, requests) && Holds(e, a, site)
    requires Forward(s.fetches) && Unchanged(e.ttl, s.fetches, |past|, site)
    ensures CrawlsArchive(e, cfg, |past|, requests, s, a, calls)
  {
    UnchangedShows(e, s.fetches, |past|, a, site);
    calls := ChainIsShown(e, cfg, past, requests, a, s);
  }

  /** A finished chain over an unchanged source has read exactly the window of its archive down to its floor. */
  lemma CachedChainReadsArchive(e: Setup, cfg: Config, past: seq<Call>, requests: seq<Request>, a: Archive, site: Site,
                                s: Session, cutoff: Option<Instant>) returns (floor: nat)
    requires s == FollowCached(e, cfg, past, requests) && Holds(e, a, site)
    requires Forward(s.fetches) && Unchanged(e.ttl, s.fetches, |past|, site)
    requires CrawlChain.Sized(a) && OneCutoff(requests, cutoff) && s.trail.done
    ensures CrawlChain.IsFloor(a, EmptyRun(cfg.threshold), floor)
    ensures var w := CrawlChain.Flat(a, 1, floor); s.trail.posts == Posts(w[..Kept(w, cutoff)])
  {
    var calls := CachedChainIsStatic(e, cfg, past, requests, a, site, s);
    floor := CrawlChain.FinishedChainIsExact(cfg, a, calls, cutoff);
  }

  // ----- retries -----

  /** Lookup q is the first for its page after lookup n. */
  ghost predicate NextLookup(calls: seq<Call>, n: nat, q: nat) {
    && n < q < |calls| && SamePage(calls[n], calls[q])
    && forall j :: n < j < q ==> !SamePage(calls[j], calls[n])
  }

  /**
   * A failed fetch is retried at once: nothing was stored, so the next lookup of the page asks the source
   * again and gives whatever that answers.
   */
  lemma RetryAfterFetchFailure(ttl: int, calls: seq<Call>, n: nat, q: nat)
    requires Forward(calls) && NextLookup(calls, n, q) && ServedAt(ttl, calls, n).None?
    ensures Missed(ttl, calls, q) && ServedAt(ttl, calls, q) == calls[q].upstream
  {
    MissIff(ttl, calls, q);
    if RecentlyFetched(ttl, calls, q) {
      var i :| 0 <= i < q && FetchedBefore(ttl, calls, i, q);
      assert i <= n;
      if i < n {
        assert calls[n].nowGet <= calls[q].nowGet;
        assert FetchedBefore(ttl, calls, i, n);
        MissIff(ttl, calls, n);
      }
    }
  }

  /** A fetch that serves lookup n still does at the next lookup, if it is fresh then; if not, none does. */
  lemma NextServed(ttl: int, calls: seq<Call>, i: nat, n: nat, q: nat)
    requires Forward(calls) && NextLookup(calls, n, q) && i <= n && Serves(ttl, calls, i, n)
    ensures calls[q].nowGet < calls[i].nowPut + ttl ==> ServedAt(ttl, calls, q) == ServedAt(ttl, calls, n)
    ensures calls[q].nowGet >= calls[i].nowPut + ttl ==>
              Missed(ttl, calls, q) && ServedAt(ttl, calls, q) == calls[q].upstream
  {
    ServesGives(ttl, calls, i, n);
    if calls[q].nowGet < calls[i].nowPut + ttl {
      ServesGives(ttl, calls, i, q);
    } else {
      MissIff(ttl, calls, q);
      if RecentlyFetched(ttl, calls, q) {
        var j :| 0 <= j < q && FetchedBefore(ttl, calls, j, q);
        assert j <= n;
        assert calls[n].nowGet <= calls[q].nowGet;
        assert Serves(ttl, calls, j, n);
        ServesIsUnique(ttl, calls, i, j, n);
      }
    }
  }

  /**
   * A body that does not parse is stored before anyone parses it, so the retry is not immediate: the
   * next lookup of the page gives rows if and only if the entry has expired by then and the source now
   * answers with a body that parses.
   */
  lemma RetryAfterParseFailureIff(e: Setup, calls: seq<Call>, i: nat, n: nat, q: nat)
    requires Forward(calls) && NextLookup(calls, n, q) && i <= n && Serves(e.ttl, calls, i, n)
    requires ShownAt(e, calls, n).None?
    ensures ShownAt(e, calls, q).Some? <==>
              && calls[q].nowGet >= calls[i].nowPut + e.ttl
              && calls[q].upstream.Some? && e.parse(calls[q].upstream.value).Some?
  {
    ServesGives(e.ttl, calls, i, n);
    NextServed(e.ttl, calls, i, n, q);
  }
}
