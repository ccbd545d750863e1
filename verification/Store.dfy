/**
 * The store as it is written: transactions that change the three tables statement by statement.
 * Every method is proved to do exactly what its specification function in StoreModel says, so the
 * theorems about runs are about these methods.
 */
module Store {
  import opened Basics
  import opened Ordering
  import opened StoreModel
  import opened Representative
  import opened StoreQueries
  import Refs

  /** The loop of isCanonicalInfohash. */
  method CheckCanonical(s: string) returns (ok: bool)
    ensures ok == IsCanonicalInfohash(s)
  {
    if |s| != 40 {
      return false;
    }
    for i := 0 to |s|
      invariant forall j :: 0 <= j < i ==> IsCanonicalChar(s[j])
    {
      if (s[i] < '0' || s[i] > '9') && (s[i] < 'a' || s[i] > 'f') {
        return false;
      }
    }
    return true;
  }

  /** The highest of a set of keys. */
  method TopKey(keys: set<Key>) returns (m: Key)
    requires keys != {}
    ensures IsTop(m, keys)
  {
    m :| m in keys;
    var rest := keys - {m};
    while rest != {}
      invariant m in keys && rest <= keys
      invariant forall k :: k in keys && k !in rest && k != m ==> Below(k, m)
      decreases |rest|
    {
      var k :| k in rest;
      BelowTotal(k, m);
      if Below(m, k) {
        forall x | x in keys && x !in rest && x != m ensures Below(x, k) { BelowTransitive(x, m, k); }
        m := k;
      }
      rest := rest - {k};
    }
  }

  lemma TakeOfSplit(all: seq<Key>, head: seq<Key>, tail: seq<Key>, limit: nat)
    requires all == head + tail && |head| <= limit && (|head| == limit || tail == [])
    ensures Take(all, limit) == head
  {
  }

  lemma MoveHead(all: seq<Key>, sorted: seq<Key>, rest: set<Key>, m: Key)
    requires IsTop(m, rest) && all == sorted + Desc(rest)
    ensures all == sorted + [m] + Desc(rest - {m})
  {
    DescHead(rest, m);
  }

  /** ORDER BY at DESC, hash DESC LIMIT n. */
  method SortDescending(keys: set<Key>, limit: nat) returns (sorted: seq<Key>)
    ensures sorted == Take(Desc(keys), limit)
  {
    sorted := [];
    var rest := keys;
    while |sorted| < limit && rest != {}
      invariant |sorted| <= limit
      invariant Desc(keys) == sorted + Desc(rest)
      decreases |rest|
    {
      var m := TopKey(rest);
      MoveHead(Desc(keys), sorted, rest, m);
      sorted, rest := sorted + [m], rest - {m};
    }
    TakeOfSplit(Desc(keys), sorted, Desc(rest), limit);
  }

  lemma DescHead(keys: set<Key>, m: Key)
    requires IsTop(m, keys)
    ensures Desc(keys) == [m] + Desc(keys - {m})
  {
    var d := Desc(keys);
    DescLists(keys);
    assert m in d;
    HeadIsTop(d, keys);
    TopUnique(d[0], m, keys);
    DescUnique(d[1..], keys - {m});
    assert d == [d[0]] + d[1..];
  }

  /** Sweeping, choosing and leasing, one after the other, make up the claim. */
  lemma ClaimIs(db: Db, cap: nat, limit: int, leaseSeconds: int, now: Instant, locked: set<string>,
                swept: Releases, n: nat, keys: seq<Key>, expires: Instant, leased: Releases, after: Db)
    requires swept == Sweep(db.releases, cap, now)
    requires n == ClaimLimit(limit) && keys == Chosen(swept, cap, now, n, locked)
    requires expires == now + LeaseNanos(leaseSeconds) && leased == LeaseAll(swept, HashesOf(keys), now, expires)
    requires after == Db(leased, db.rawItems, db.events)
    ensures keys == ClaimKeys(db, cap, limit, now, locked)
    ensures after == StoreModel.Claim(db, cap, limit, leaseSeconds, now, locked)
  {
    assert keys == ClaimKeys(db, cap, limit, now, locked);
  }

  class ReleaseStore {
    var releases: Releases
    var rawItems: seq<RawItem>
    var events: seq<MatchEvent>
    const maxAttempts: nat

    ghost function Tables(): Db
      reads this
    {
      Db(releases, rawItems, events)
    }

    constructor (queueMaxAttempts: int)
      ensures State(Tables(), maxAttempts) == Initial(queueMaxAttempts)
    {
      releases, rawItems, events := map[], [], [];
      maxAttempts := if queueMaxAttempts <= 0 then DEFAULT_MAX_ATTEMPTS else queueMaxAttempts;
    }

    /** INSERT ... ON CONFLICT for the release, then for the raw item, then the aggregates. */
    method UpsertTx(p: IngestParams, now: Instant) returns (created: bool, inserted: bool)
      requires forall h :: h in releases ==> ItemsOf(rawItems, h) != []
      modifies this
      ensures created == (p.infohash !in old(releases))
      ensures inserted == !HasItem(old(rawItems), p.source, p.sourceId)
      ensures events == old(events)
      ensures rawItems == if inserted then old(rawItems) + [ItemFrom(p, now)] else old(rawItems)
      ensures created ==> releases == old(releases)[p.infohash := FreshRelease(p, now)]
      ensures !created && !inserted ==> releases == old(releases)
      ensures !created && inserted ==>
                && ItemsOf(rawItems, p.infohash) != []
                && releases == old(releases)[p.infohash :=
                     RecomputeRow(old(releases)[p.infohash], ItemsOf(rawItems, p.infohash), p, now)]
    {
      created := p.infohash !in releases;
      if created {
        releases := releases[p.infohash := FreshRelease(p, now)];
      }
      inserted := true;
      for i := 0 to |rawItems|
        invariant inserted == !HasItem(rawItems[..i], p.source, p.sourceId)
      {
        if rawItems[i].source == p.source && rawItems[i].sourceId == p.sourceId {
          inserted := false;
        }
        assert rawItems[..i + 1] == rawItems[..i] + [rawItems[i]];
      }
      assert rawItems[..|rawItems|] == rawItems;
      if inserted {
        ItemsOfSnoc(rawItems, ItemFrom(p, now), p.infohash);
        rawItems := rawItems + [ItemFrom(p, now)];
      }
      if !created && inserted {
        RecomputeRepresentative(p, now);
      }
    }

    /** One pass over the raw items keeps the latest one, the earliest publication and the sources. */
    method RecomputeRepresentative(p: IngestParams, now: Instant)
      requires p.infohash in releases && ItemsOf(rawItems, p.infohash) != []
      modifies this`releases
      ensures releases == old(releases)[p.infohash :=
                RecomputeRow(old(releases)[p.infohash], ItemsOf(rawItems, p.infohash), p, now)]
    {
      var h := p.infohash;
      var latest: Option<RawItem>, earliest: Instant, sources: seq<string> := None, 0, [];
      for i := 0 to |rawItems|
        invariant releases == old(releases)
        invariant latest.Some? <==> ItemsOf(rawItems[..i], h) != []
        invariant latest.Some? ==> latest.value == LatestItem(ItemsOf(rawItems[..i], h))
        invariant latest.Some? ==> earliest == EarliestPublished(ItemsOf(rawItems[..i], h))
        invariant sources == SourcesOf(ItemsOf(rawItems[..i], h))
      {
        var it := rawItems[i];
        assert rawItems[..i + 1] == rawItems[..i] + [it];
        ItemsOfSnoc(rawItems[..i], it, h);
        if it.infohash == h {
          assert (ItemsOf(rawItems[..i], h) + [it])[..|ItemsOf(rawItems[..i], h)|] == ItemsOf(rawItems[..i], h);
          if latest.None? {
            latest, earliest := Some(it), it.publishedAt;
          } else {
            if it.publishedAt >= latest.value.publishedAt {
              latest := Some(it);
            }
            earliest := Min(earliest, it.publishedAt);
          }
          sources := InsertText(sources, it.source);
        }
      }
      assert rawItems[..|rawItems|] == rawItems;
      var r := releases[h];
      releases := releases[h := r.(
        title := latest.value.title, publishedAt := earliest, sources := sources,
        magnet := Coalesce(r.magnet, SeedMagnet(p)), sizeBytes := Coalesce(r.sizeBytes, SeedSize(p)),
        updatedAt := now)];
    }

    /** A reused (source, source_id) under a new infohash is rolled back. */
    method IngestN(p: IngestParams, now: Instant) returns (outcome: IngestOutcome)
      requires ItemsSound(Tables())
      modifies this
      ensures (Tables(), outcome) == Ingest(old(Tables()), p, now)
      ensures ItemsSound(Tables())
    {
      StepKeepsItemsSound(State(Tables(), maxAttempts), OpIngest(p, now));
      var ok := CheckCanonical(p.infohash);
      if !ok {
        return Duplicate;
      }
      var savedReleases, savedItems := releases, rawItems;
      var created, inserted := UpsertTx(p, now);
      if created && !inserted {
        releases, rawItems := savedReleases, savedItems;
        return Conflict;
      }
      if created {
        return New;
      } else if inserted {
        return Updated;
      } else {
        return Duplicate;
      }
    }

    /** UPDATE ... SET match_status = 'exhausted' over the rows that are due. */
    method ExhaustOldAttempts(now: Instant)
      modifies this`releases
      ensures releases == Sweep(old(releases), maxAttempts, now)
    {
      var todo := releases.Keys;
      while todo != {}
        invariant releases.Keys == old(releases).Keys && todo <= releases.Keys
        invariant forall h :: h in releases ==>
          releases[h] == if h in todo then old(releases)[h] else Sweep(old(releases), maxAttempts, now)[h]
        decreases |todo|
      {
        var h :| h in todo;
        if SweepDue(releases[h], maxAttempts, now) {
          releases := releases[h := SweepRow(releases[h], now)];
        }
        todo := todo - {h};
      }
    }

    /** WITH claimable AS (SELECT ... FOR UPDATE SKIP LOCKED), leased AS (UPDATE ...). */
    method SelectAndLease(limit: nat, now: Instant, expires: Instant, locked: set<string>) returns (keys: seq<Key>)
      modifies this`releases
      ensures keys == Chosen(old(releases), maxAttempts, now, limit, locked)
      ensures releases == LeaseAll(old(releases), HashesOf(keys), now, expires)
      ensures forall k :: k in keys ==> k.hash in releases
    {
      keys := SortDescending(ClaimableKeys(releases, maxAttempts, now, locked), limit);
      assert keys == Chosen(releases, maxAttempts, now, limit, locked);
      ChosenAreRows(releases, maxAttempts, now, limit, locked);
      ChosenAreDistinct(releases, maxAttempts, now, limit, locked);
      LeaseRows(keys, now, expires);
    }

    /** Sweep, select and lease, then load the raw items of each leased row. */
    method Claim(limit: int, leaseSeconds: int, now: Instant, locked: set<string>) returns (items: seq<ClaimedRelease>)
      modifies this`releases
      ensures Tables() == StoreModel.Claim(old(Tables()), maxAttempts, limit, leaseSeconds, now, locked)
      ensures forall k :: k in ClaimKeys(old(Tables()), maxAttempts, limit, now, locked) ==> k.hash in releases
      ensures items == StoreModel.LoadClaimed(releases, ClaimKeys(old(Tables()), maxAttempts, limit, now, locked),
                                              now + LeaseNanos(leaseSeconds), rawItems)
    {
      var n := if limit <= 0 then DEFAULT_CLAIM_LIMIT else limit;
      n := if n > MAX_CLAIM_LIMIT then MAX_CLAIM_LIMIT else n;
      var seconds := if leaseSeconds <= 0 then DEFAULT_LEASE_SECONDS else leaseSeconds;
      var expires := now + Wrap64(seconds * SECOND);
      assert n == ClaimLimit(limit) && expires == now + LeaseNanos(leaseSeconds);
      ghost var db := Tables();
      ExhaustOldAttempts(now);
      ghost var swept := releases;
      var keys := SelectAndLease(n, now, expires, locked);
      ClaimIs(db, maxAttempts, limit, leaseSeconds, now, locked, swept, n, keys, expires, releases, Tables());
      items := LoadClaimed(keys, expires);
    }

    /** For each leased row, load its raw items. */
    method LoadClaimed(keys: seq<Key>, expires: Instant) returns (items: seq<ClaimedRelease>)
      requires forall k :: k in keys ==> k.hash in releases
      ensures items == StoreModel.LoadClaimed(releases, keys, expires, rawItems)
    {
      items := [];
      for i := 0 to |keys|
        invariant items == StoreModel.LoadClaimed(releases, keys[..i], expires, rawItems)
      {
        var h := keys[i].hash;
        items := items + [ClaimedFrom(h, releases[h], expires, rawItems)];
        assert keys[..i + 1][..i] == keys[..i];
      }
      assert keys[..|keys|] == keys;
    }

    /** UPDATE ... FROM claimable. */
    method LeaseRows(keys: seq<Key>, now: Instant, expires: Instant)
      requires forall k :: k in keys ==> k.hash in releases
      requires forall i, j :: 0 <= i < j < |keys| ==> keys[i].hash != keys[j].hash
      modifies this`releases
      ensures releases == LeaseAll(old(releases), HashesOf(keys), now, expires)
    {
      for i := 0 to |keys|
        invariant releases == LeaseAll(old(releases), HashesOf(keys[..i]), now, expires)
      {
        var h := keys[i].hash;
        releases := releases[h := LeaseRow(releases[h], now, expires)];
        assert HashesOf(keys[..i + 1]) == HashesOf(keys[..i]) + {h};
      }
      assert keys[..|keys|] == keys;
    }

    /** The submit transaction in the order the code tests things. */
    method Submit(p: SubmitParams, now: Instant) returns (err: Option<SubmitError>)
      modifies this`releases, this`events
      ensures err == SubmitVerdict(old(Tables()), p, now)
      ensures Tables() == StoreModel.Submit(old(Tables()), maxAttempts, p, now)
    {
      err := ValidateSubmit(p);
      if err.Some? {
        return;
      }
      if p.infohash !in releases {
        return Some(NoSuchRelease);
      }
      var r := releases[p.infohash];
      if r.token != p.claimToken || r.leaseExpires.None? || !(r.leaseExpires.value > now) {
        return Some(StaleLease);
      }
      if r.status != Unmatched {
        return Some(NoActiveLease);
      }
      var attempts := r.attempts;
      if p.status == "unmatched" {
        attempts := attempts + 1;
      }
      var final :=
        if p.status == "matched" then Matched else if p.status == "suppressed" then Suppressed else Unmatched;
      if p.status == "unmatched" && attempts >= maxAttempts {
        final := Exhausted;
      }
      match final {
        case Matched =>
          releases := releases[p.infohash := r.(
            status := Matched, ref := Some(p.ref), confidence := NullableConfidence(final, p.confidence),
            firstMatchedAt := Coalesce(r.firstMatchedAt, Some(now)),
            claimedAt := None, leaseExpires := None, updatedAt := now)];
        case Unmatched =>
          releases := releases[p.infohash := r.(attempts := attempts, updatedAt := now)];
        case _ =>
          releases := releases[p.infohash := r.(
            status := final, attempts := attempts, ref := None, confidence := None,
            claimedAt := None, leaseExpires := None, updatedAt := now)];
      }
      events := events + [MatchEvent(p.infohash, final, NullableRef(final, p.ref),
                                     NullableConfidence(final, p.confidence), p.reason, now)];
    }

    method QueueStats(now: Instant) returns (q: StoreQueries.QueueStats)
      ensures q == Stats(releases, maxAttempts, now)
    {
      q := CountRows(releases, maxAttempts, now);
    }

    /** Fetch one row more than the limit, and cut it off again if it was there. */
    method FetchPage(f: Filter, seek: Option<Key>, limit: nat) returns (keys: seq<Key>, next: Option<Key>)
      requires limit >= 1
      ensures Cut(keys, next) == PageCut(releases, f, seek, limit)
    {
      keys := SortDescending(ScanKeys(releases, f, seek), limit + 1);
      next := None;
      if |keys| > limit {
        keys := keys[..limit];
        next := Some(keys[limit - 1]);
      }
    }

    method ReadItems(keys: seq<Key>) returns (items: seq<ReleaseItem>)
      requires forall k :: k in keys ==> k.hash in releases
      ensures items == ItemsAt(releases, keys)
    {
      items := [];
      for i := 0 to |keys|
        invariant |items| == i
        invariant forall j :: 0 <= j < i ==> items[j] == ItemOf(keys[j].hash, releases[keys[j].hash])
      {
        items := items + [ItemOf(keys[i].hash, releases[keys[i].hash])];
      }
    }

    method ListReleases(q: ReleaseQuery) returns (res: Result<ReleasePage, ListError>)
      ensures res == StoreQueries.ListReleases(releases, q)
    {
      var f := q.filter;
      if f.ref != "" && !Refs.ValidRef(f.ref) {
        return Err(BadRef);
      }
      var seek := None;
      if q.cursor.Some? {
        seek := DecodeCursor(q.cursor.value, f.ref, PathOf(f));
        if seek.None? {
          return Err(BadCursor);
        }
      }
      var keys, next := FetchPage(f, seek, PageLimit(q.limit));
      var items := ReadItems(keys);
      return Ok(ReleasePage(items, CursorAt(f, next)));
    }
  }

  function StatsOf(rs: Releases, hs: set<string>, cap: nat, now: Instant): StoreQueries.QueueStats {
    StoreQueries.QueueStats(
      |Available(rs, cap, now) * hs|, |Leased(rs, now) * hs|, |WithStatus(rs, Unmatched) * hs|,
      |WithStatus(rs, Matched) * hs|, |WithStatus(rs, Suppressed) * hs|, |WithStatus(rs, Exhausted) * hs|)
  }

  lemma OneMoreMember(s: set<string>, hs: set<string>, h: string)
    requires h !in hs
    ensures |s * (hs + {h})| == |s * hs| + (if h in s then 1 else 0)
  {
    if h in s {
      assert s * (hs + {h}) == s * hs + {h};
    } else {
      assert s * (hs + {h}) == s * hs;
    }
  }

  /** The counters after one more row of the scan. */
  function CountRow(q: StoreQueries.QueueStats, r: Release, cap: nat, now: Instant): StoreQueries.QueueStats {
    StoreQueries.QueueStats(
      q.available + (if Claimable(r, cap, now) then 1 else 0),
      q.leased + (if HoldsLease(r, now) then 1 else 0),
      q.unmatched + (if r.status == Unmatched then 1 else 0),
      q.matched + (if r.status == Matched then 1 else 0),
      q.suppressed + (if r.status == Suppressed then 1 else 0),
      q.exhausted + (if r.status == Exhausted then 1 else 0))
  }

  lemma CountOne(rs: Releases, hs: set<string>, h: string, cap: nat, now: Instant)
    requires h in rs && h !in hs
    ensures StatsOf(rs, hs + {h}, cap, now) == CountRow(StatsOf(rs, hs, cap, now), rs[h], cap, now)
  {
    OneMoreMember(Available(rs, cap, now), hs, h);
    OneMoreMember(Leased(rs, now), hs, h);
    OneMoreMember(WithStatus(rs, Unmatched), hs, h);
    OneMoreMember(WithStatus(rs, Matched), hs, h);
    OneMoreMember(WithStatus(rs, Suppressed), hs, h);
    OneMoreMember(WithStatus(rs, Exhausted), hs, h);
  }

  /** The counters when the rows in todo have not been visited yet. */
  function Counted(rs: Releases, todo: set<string>, cap: nat, now: Instant): StoreQueries.QueueStats {
    StatsOf(rs, rs.Keys - todo, cap, now)
  }

  lemma CountStep(rs: Releases, todo: set<string>, h: string, cap: nat, now: Instant, q: StoreQueries.QueueStats)
    requires h in todo && todo <= rs.Keys && q == Counted(rs, todo, cap, now)
    ensures CountRow(q, rs[h], cap, now) == Counted(rs, todo - {h}, cap, now)
  {
    CountOne(rs, rs.Keys - todo, h, cap, now);
    assert rs.Keys - (todo - {h}) == rs.Keys - todo + {h};
  }

  lemma NothingCounted(rs: Releases, cap: nat, now: Instant)
    ensures Counted(rs, rs.Keys, cap, now) == StoreQueries.QueueStats(0, 0, 0, 0, 0, 0)
  {
    assert rs.Keys - rs.Keys == {};
  }

  lemma AllCounted(rs: Releases, cap: nat, now: Instant)
    ensures Counted(rs, {}, cap, now) == Stats(rs, cap, now)
  {
    assert rs.Keys - {} == rs.Keys;
    assert Available(rs, cap, now) * rs.Keys == Available(rs, cap, now);
    assert Leased(rs, now) * rs.Keys == Leased(rs, now);
    assert WithStatus(rs, Unmatched) * rs.Keys == WithStatus(rs, Unmatched);
    assert WithStatus(rs, Matched) * rs.Keys == WithStatus(rs, Matched);
    assert WithStatus(rs, Suppressed) * rs.Keys == WithStatus(rs, Suppressed);
    assert WithStatus(rs, Exhausted) * rs.Keys == WithStatus(rs, Exhausted);
  }

  /** count(*) FILTER (WHERE ...) six times over one scan. */
  method CountRows(rs: Releases, cap: nat, now: Instant) returns (q: StoreQueries.QueueStats)
    ensures q == Stats(rs, cap, now)
  {
    var todo := rs.Keys;
    NothingCounted(rs, cap, now);
    q := StoreQueries.QueueStats(0, 0, 0, 0, 0, 0);
    while todo != {}
      invariant todo <= rs.Keys
      invariant q == Counted(rs, todo, cap, now)
      decreases |todo|
    {
      var h :| h in todo;
      CountStep(rs, todo, h, cap, now, q);
      q := CountRow(q, rs[h], cap, now);
      todo := todo - {h};
    }
    AllCounted(rs, cap, now);
  }
}
