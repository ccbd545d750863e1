/**
 * The page cache under a fetcher: a map with expiry times, swept on every insertion. Calls are
 * sequential, and each carries its clock readings and what the upstream would answer.
 */
module PageCache {
  import opened Basics
  import Decimal

  type Body = string

  datatype Entry = Entry(body: Body, expires: Instant)

  type Items = map<string, Entry>

  function PageCacheKey(sortId: int, page: int): string {
    Decimal.Itoa(sortId) + "|" + Decimal.Itoa(page)
  }

  /** Different pages never share an entry. */
  lemma KeysAreDistinct(s1: int, p1: int, s2: int, p2: int)
    requires PageCacheKey(s1, p1) == PageCacheKey(s2, p2)
    ensures s1 == s2 && p1 == p2
  {
    Decimal.PairInjective(s1, p1, s2, p2, '|');
  }

  predicate Fresh(e: Entry, now: Instant) {
    now < e.expires
  }

  function Get(items: Items, key: string, now: Instant): Option<Body> {
    if key in items && Fresh(items[key], now) then Some(items[key].body) else None
  }

  function Swept(items: Items, now: Instant): Items {
    map k | k in items && Fresh(items[k], now) :: items[k]
  }

  function Put(items: Items, ttl: int, key: string, body: Body, now: Instant): Items {
    Swept(items, now)[key := Entry(body, now + ttl)]
  }

  /** One fetch through the cache; upstream is what the source would answer, None for an error. */
  datatype Call = Call(sortId: int, page: int, nowGet: Instant, upstream: Option<Body>, nowPut: Instant)

  function Key(c: Call): string {
    PageCacheKey(c.sortId, c.page)
  }

  predicate Asks(items: Items, c: Call) {
    Get(items, Key(c), c.nowGet).None?
  }

  function Served(items: Items, c: Call): Option<Body> {
    if Asks(items, c) then c.upstream else Get(items, Key(c), c.nowGet)
  }

  function AfterFetch(items: Items, ttl: int, c: Call): Items {
    if Asks(items, c) && c.upstream.Some? then Put(items, ttl, Key(c), c.upstream.value, c.nowPut) else items
  }

  function Trace(ttl: int, calls: seq<Call>): Items {
    if calls == [] then map[] else AfterFetch(Trace(ttl, calls[..|calls| - 1]), ttl, calls[|calls| - 1])
  }

  // ----- the cache as it is written -----

  class Cache {
    const ttl: int
    var items: Items

    constructor (ttl: int)
      ensures this.ttl == ttl && items == Trace(ttl, [])
    {
      this.ttl := ttl;
      items := map[];
    }

    method Lookup(key: string, now: Instant) returns (body: Option<Body>)
      ensures body == Get(items, key, now)
    {
      if key !in items || now >= items[key].expires {
        return None;
      }
      return Some(items[key].body);
    }

    /** Drops every expired entry, then stores the new one. */
    method Store(key: string, body: Body, now: Instant)
      modifies this
      ensures items == Put(old(items), ttl, key, body, now)
    {
      var todo := items.Keys;
      while todo != {}
        invariant todo <= old(items).Keys
        invariant items == map k | k in old(items) && (k in todo || Fresh(old(items)[k], now)) :: old(items)[k]
        decreases |todo|
      {
        var k :| k in todo;
        if now >= items[k].expires {
          items := items - {k};
        }
        todo := todo - {k};
      }
      items := items[key := Entry(body, now + ttl)];
    }

    /** The wrapped fetcher: a hit is served, a miss is fetched, and only a success is stored. */
    method Fetch(c: Call) returns (body: Option<Body>)
      modifies this
      ensures body == Served(old(items), c)
      ensures items == AfterFetch(old(items), ttl, c)
    {
      var key := PageCacheKey(c.sortId, c.page);
      body := Lookup(key, c.nowGet);
      if body.Some? {
        return;
      }
      body := c.upstream;
      if body.Some? {
        Store(key, body.value, c.nowPut);
      }
    }
  }

  // ----- whole traces -----

  /** Readings never go back, within a call and from call to call. */
  ghost predicate Forward(calls: seq<Call>) {
    && (forall i :: 0 <= i < |calls| ==> calls[i].nowGet <= calls[i].nowPut)
    && (forall i, j :: 0 <= i < j < |calls| ==> calls[i].nowPut <= calls[j].nowGet)
  }

  /** Call i went upstream. */
  ghost predicate Missed(ttl: int, calls: seq<Call>, i: nat)
    requires i < |calls|
  {
    Asks(Trace(ttl, calls[..i]), calls[i])
  }

  /** Call i fetched a body. */
  ghost predicate Fetched(ttl: int, calls: seq<Call>, i: nat)
    requires i < |calls|
  {
    Missed(ttl, calls, i) && calls[i].upstream.Some?
  }

  function ServedAt(ttl: int, calls: seq<Call>, i: nat): Option<Body>
    requires i < |calls|
  {
    Served(Trace(ttl, calls[..i]), calls[i])
  }

  lemma TraceSnoc(ttl: int, calls: seq<Call>, n: nat)
    requires n < |calls|
    ensures Trace(ttl, calls[..n + 1]) == AfterFetch(Trace(ttl, calls[..n]), ttl, calls[n])
  {
    assert calls[..n + 1][..n] == calls[..n];
  }

  /** The entry for key stems from the successful fetch of call i. */
  ghost predicate StemsFrom(ttl: int, calls: seq<Call>, key: string, e: Entry, i: nat)
    requires i < |calls|
  {
    Fetched(ttl, calls, i) && Key(calls[i]) == key && e == Entry(calls[i].upstream.value, calls[i].nowPut + ttl)
  }

  lemma {:induction false} EntryStems(ttl: int, calls: seq<Call>, n: nat, key: string) returns (i: nat)
    requires n <= |calls| && key in Trace(ttl, calls[..n])
    ensures i < n && StemsFrom(ttl, calls, key, Trace(ttl, calls[..n])[key], i)
    decreases n
  {
    assert n > 0;
    TraceSnoc(ttl, calls, n - 1);
    EntryAfter(Trace(ttl, calls[..n - 1]), ttl, calls[n - 1], key);
    if Fetches(Trace(ttl, calls[..n - 1]), calls[n - 1], key) {
      i := n - 1;
    } else {
      i := EntryStems(ttl, calls, n - 1, key);
    }
  }

  /** The call stores a new entry for key. */
  ghost predicate Fetches(items: Items, c: Call, key: string) {
    Asks(items, c) && c.upstream.Some? && Key(c) == key
  }

  lemma EntryAfter(items: Items, ttl: int, c: Call, key: string)
    requires key in AfterFetch(items, ttl, c)
    ensures Fetches(items, c, key) ==> AfterFetch(items, ttl, c)[key] == Entry(c.upstream.value, c.nowPut + ttl)
    ensures !Fetches(items, c, key) ==> key in items && AfterFetch(items, ttl, c)[key] == items[key]
  {
  }

  /**
   * A hit serves what an earlier fetch of the very same page returned, less than ttl before, and not
   * in the future.
   */
  lemma HitIsRecentFetch(ttl: int, calls: seq<Call>, n: nat) returns (i: nat)
    requires Forward(calls) && n < |calls| && !Missed(ttl, calls, n)
    ensures i < n && Fetched(ttl, calls, i)
    ensures calls[i].sortId == calls[n].sortId && calls[i].page == calls[n].page
    ensures ServedAt(ttl, calls, n) == calls[i].upstream
    ensures calls[i].nowPut <= calls[n].nowGet < calls[i].nowPut + ttl
  {
    i := EntryStems(ttl, calls, n, Key(calls[n]));
    KeysAreDistinct(calls[i].sortId, calls[i].page, calls[n].sortId, calls[n].page);
  }

  /** There is an entry that lasts until then, or a reading has come after that. */
  ghost predicate Lasts(items: Items, key: string, until: Instant, latest: Instant) {
    (key in items && items[key].expires >= until) || latest >= until
  }

  /** A fetched page stays in the cache until a later insertion finds it expired. */
  lemma {:induction false} EntryStays(ttl: int, calls: seq<Call>, i: nat, n: nat)
    requires Forward(calls) && i < n <= |calls| && Fetched(ttl, calls, i)
    ensures Lasts(Trace(ttl, calls[..n]), Key(calls[i]), calls[i].nowPut + ttl, calls[n - 1].nowPut)
    decreases n
  {
    TraceSnoc(ttl, calls, n - 1);
    if n == i + 1 {
      FetchLasts(Trace(ttl, calls[..i]), ttl, calls[i]);
    } else {
      EntryStays(ttl, calls, i, n - 1);
      StillLasts(Trace(ttl, calls[..n - 1]), ttl, calls[n - 1], Key(calls[i]), calls[i].nowPut + ttl,
                 calls[n - 2].nowPut);
    }
  }

  lemma FetchLasts(items: Items, ttl: int, c: Call)
    requires Asks(items, c) && c.upstream.Some?
    ensures Lasts(AfterFetch(items, ttl, c), Key(c), c.nowPut + ttl, c.nowPut)
  {
  }

  /** One more call keeps an entry that lasts until `until`, or comes after that. */
  lemma StillLasts(items: Items, ttl: int, c: Call, key: string, until: Instant, before: Instant)
    requires before <= c.nowGet <= c.nowPut && Lasts(items, key, until, before)
    ensures Lasts(AfterFetch(items, ttl, c), key, until, c.nowPut)
  {
  }

  /** Within ttl of a successful fetch of a page the source is not asked for it again. */
  lemma NoRefetchWithinTtl(ttl: int, calls: seq<Call>, i: nat, j: nat)
    requires Forward(calls) && i < j < |calls|
    requires Fetched(ttl, calls, i) && Missed(ttl, calls, j)
    requires calls[i].sortId == calls[j].sortId && calls[i].page == calls[j].page
    ensures calls[j].nowGet >= calls[i].nowPut + ttl
  {
    EntryStays(ttl, calls, i, j);
    assert calls[j - 1].nowPut <= calls[j].nowGet;
  }

  /**
   * With a clock that does not go back, a call goes upstream exactly when no fetch of the same page
   * succeeded less than ttl before.
   */
  lemma MissIff(ttl: int, calls: seq<Call>, n: nat)
    requires Forward(calls) && n < |calls|
    ensures Missed(ttl, calls, n) <==> !RecentlyFetched(ttl, calls, n)
  {
    if !Missed(ttl, calls, n) {
      var i := HitIsRecentFetch(ttl, calls, n);
      assert FetchedBefore(ttl, calls, i, n);
    } else if RecentlyFetched(ttl, calls, n) {
      var i :| 0 <= i < n && FetchedBefore(ttl, calls, i, n);
      NoRefetchWithinTtl(ttl, calls, i, n);
    }
  }

  ghost predicate FetchedBefore(ttl: int, calls: seq<Call>, i: nat, n: nat)
    requires i < n < |calls|
  {
    && Fetched(ttl, calls, i)
    && calls[i].sortId == calls[n].sortId && calls[i].page == calls[n].page
    && calls[n].nowGet < calls[i].nowPut + ttl
  }

  ghost predicate RecentlyFetched(ttl: int, calls: seq<Call>, n: nat)
    requires n < |calls|
  {
    exists i :: 0 <= i < n && FetchedBefore(ttl, calls, i, n)
  }

  /** An insertion leaves fresh entries only, its own among them, and drops no fresh one. */
  lemma PutLeavesFreshOnly(items: Items, ttl: int, key: string, body: Body, now: Instant)
    requires ttl > 0
    ensures forall k :: k in Put(items, ttl, key, body, now) ==> Fresh(Put(items, ttl, key, body, now)[k], now)
    ensures Get(Put(items, ttl, key, body, now), key, now) == Some(body)
    ensures forall k :: k != key ==> Get(Put(items, ttl, key, body, now), k, now) == Get(items, k, now)
    ensures Put(items, ttl, key, body, now).Keys <= items.Keys + {key}
  {
  }

  // ----- which fetch serves a call -----

  predicate SamePage(c: Call, d: Call) {
    c.sortId == d.sortId && c.page == d.page
  }

  /** Fetch i is the one whose body call n gets: its own, or an earlier one that is still fresh. */
  ghost predicate Serves(ttl: int, calls: seq<Call>, i: nat, n: nat)
    requires i <= n < |calls|
  {
    Fetched(ttl, calls, i) && SamePage(calls[i], calls[n]) && (i == n || calls[n].nowGet < calls[i].nowPut + ttl)
  }

  /** What a call is served comes from a fetch. */
  lemma ServedBy(ttl: int, calls: seq<Call>, n: nat) returns (i: nat)
    requires Forward(calls) && n < |calls| && ServedAt(ttl, calls, n).Some?
    ensures i <= n && Serves(ttl, calls, i, n) && ServedAt(ttl, calls, n) == calls[i].upstream
  {
    if Missed(ttl, calls, n) {
      i := n;
    } else {
      i := HitIsRecentFetch(ttl, calls, n);
    }
  }

  lemma LaterFetchIsPastTtl(ttl: int, calls: seq<Call>, i: nat, j: nat, n: nat)
    requires Forward(calls) && i < j <= n < |calls| && SamePage(calls[i], calls[n])
    requires Serves(ttl, calls, j, n) && Fetched(ttl, calls, i)
    ensures calls[n].nowGet >= calls[i].nowPut + ttl
  {
    NoRefetchWithinTtl(ttl, calls, i, j);
    assert j < n ==> calls[j].nowGet <= calls[j].nowPut <= calls[n].nowGet;
  }

  /** At most one fetch serves a call. */
  lemma ServesIsUnique(ttl: int, calls: seq<Call>, i: nat, j: nat, n: nat)
    requires Forward(calls) && i <= n && j <= n < |calls|
    requires Serves(ttl, calls, i, n) && Serves(ttl, calls, j, n)
    ensures i == j
  {
    if i < j {
      LaterFetchIsPastTtl(ttl, calls, i, j, n);
    } else if j < i {
      LaterFetchIsPastTtl(ttl, calls, j, i, n);
    }
  }

  /** A call is served a body exactly when some fetch serves it, and then that fetch's body. */
  lemma ServesGives(ttl: int, calls: seq<Call>, i: nat, n: nat)
    requires Forward(calls) && i <= n < |calls| && Serves(ttl, calls, i, n)
    ensures ServedAt(ttl, calls, n) == calls[i].upstream
  {
    if i < n {
      assert FetchedBefore(ttl, calls, i, n);
      MissIff(ttl, calls, n);
      var j := HitIsRecentFetch(ttl, calls, n);
      ServesIsUnique(ttl, calls, i, j, n);
    }
  }
}
