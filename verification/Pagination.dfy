/** list_releases: keyset pagination that stays complete while the tables change between pages. */
module Pagination {
  import opened Basics
  import opened Ordering
  import opened Refs
  import opened StoreModel
  import opened StoreSteps
  import opened StoreQueries
  import opened Representative
  import AuditLog

  /**
   * A cursor text decodes to a position exactly when it is the one issued for that position, under
   * its own ref and path; every other text is invalid.
   */
  lemma CursorIsBound(w: CursorText, expectRef: string, expectPath: int, at: Key)
    ensures DecodeCursor(w, expectRef, expectPath) == Some(at) <==> w == EncodeCursor(expectRef, expectPath, at)
  {
  }

  // ----- one page -----

  ghost predicate IsRowKey(k: Key, rs: Releases, f: Filter) {
    k.hash in rs && Selected(rs[k.hash], f) && k == SortKey(rs[k.hash], k.hash, f)
  }

  lemma InCutOrBelow(all: seq<Key>, limit: nat, k: Key)
    requires Descending(all) && k in all && limit >= 1
    ensures |Take(all, limit + 1)| <= limit ==> k in Take(all, limit + 1)
    ensures |Take(all, limit + 1)| > limit ==>
              k in Take(all, limit + 1)[..limit] || Below(k, Take(all, limit + 1)[limit - 1])
  {
    var i :| 0 <= i < |all| && all[i] == k;
    var top := Take(all, limit + 1);
    if |top| > limit {
      assert top[limit - 1] == all[limit - 1];
      if i < limit { assert top[..limit][i] == k; }
    }
  }

  /** A page is a descending list of selected rows that ends just before the next position. */
  lemma CutIsDescending(rs: Releases, f: Filter, seek: Option<Key>, limit: nat)
    requires limit >= 1
    ensures var cut := PageCut(rs, f, seek, limit);
            && Descending(cut.keys)
            && (forall k :: k in cut.keys ==> IsRowKey(k, rs, f) && Beyond(k, seek))
            && |cut.keys| <= limit
            && (cut.next.Some? ==> |cut.keys| == limit && cut.keys[limit - 1] == cut.next.value)
  {
    var all := ScanKeys(rs, f, seek);
    var fetched, cut := Take(Desc(all), limit + 1), PageCut(rs, f, seek, limit);
    DescLists(all);
    TakeIsPrefix(Desc(all), limit + 1);
    TakeIsPrefix(fetched, limit);
    assert cut.keys == Take(fetched, limit);
    forall k | k in cut.keys ensures IsRowKey(k, rs, f) && Beyond(k, seek) {
      ScanKeysAreRows(rs, f, seek, k);
    }
  }

  lemma ScanKeysAreRows(rs: Releases, f: Filter, seek: Option<Key>, k: Key)
    requires k in ScanKeys(rs, f, seek)
    ensures IsRowKey(k, rs, f) && Beyond(k, seek)
  {
  }

  /** A selected row beyond the seek position is on the page or beyond the position the page hands out. */
  lemma CutLosesNothing(rs: Releases, f: Filter, seek: Option<Key>, limit: nat, h: string)
    requires limit >= 1
    requires h in rs && Selected(rs[h], f) && Beyond(SortKey(rs[h], h, f), seek)
    ensures var k, cut := SortKey(rs[h], h, f), PageCut(rs, f, seek, limit);
            k in cut.keys || (cut.next.Some? && Below(k, cut.next.value))
  {
    assert SortKey(rs[h], h, f) in ScanKeys(rs, f, seek);
    DescLists(ScanKeys(rs, f, seek));
    InCutOrBelow(Desc(ScanKeys(rs, f, seek)), limit, SortKey(rs[h], h, f));
  }

  // ----- a scan that follows next_cursor while the store keeps running -----

  /** One request of a scan: its own limit, and the operations the store runs before the next request. */
  datatype Leg = Leg(limit: int, between: seq<Op>)

  datatype ScanResult = ScanResult(items: seq<ReleaseItem>, finished: bool)

  ghost function Scan(s: State, f: Filter, cursor: Option<CursorText>, legs: seq<Leg>): ScanResult
    decreases |legs|
  {
    if legs == [] then ScanResult([], false)
    else
      match ListReleases(s.db.releases, ReleaseQuery(f, legs[0].limit, cursor))
      case Err(_) => ScanResult([], false)
      case Ok(page) =>
        if page.next.None? then ScanResult(page.items, true)
        else
          var rest := Scan(Run(s, legs[0].between), f, page.next, legs[1..]);
          ScanResult(page.items + rest.items, rest.finished)
  }

  ghost function CutOf(s: State, f: Filter, seek: Option<Key>, leg: Leg): Cut {
    PageCut(s.db.releases, f, seek, PageLimit(leg.limit))
  }

  /** The sort keys the items of a scan have when they are read, from the position `seek` on. */
  ghost function KeysRead(s: State, f: Filter, seek: Option<Key>, legs: seq<Leg>): seq<Key>
    decreases |legs|, 1
  {
    if legs == [] then []
    else
      var cut := CutOf(s, f, seek, legs[0]);
      cut.keys + KeysAfter(s, f, cut.next, legs)
  }

  /** The keys read on the pages after the first. */
  ghost function KeysAfter(s: State, f: Filter, next: Option<Key>, legs: seq<Leg>): seq<Key>
    requires legs != []
    decreases |legs|, 0
  {
    if next.None? then [] else KeysRead(Run(s, legs[0].between), f, next, legs[1..])
  }

  predicate WellFormed(f: Filter) {
    f.ref == "" || ValidRef(f.ref)
  }

  lemma PageAt(rs: Releases, f: Filter, seek: Option<Key>, limit: int)
    requires WellFormed(f)
    ensures ListReleases(rs, ReleaseQuery(f, limit, CursorAt(f, seek))) == Ok(PageFrom(rs, f, seek, PageLimit(limit)))
  {
    if seek.Some? {
      CursorIsBound(CursorAt(f, seek).value, f.ref, PathOf(f), seek.value);
    }
  }

  // ----- rows move only towards the end of a scan -----

  /** A selected row stays selected, with a key that is no higher; on the delta path the key is fixed. */
  ghost predicate Settles(rs: Releases, rs': Releases, f: Filter) {
    forall h :: h in rs && Selected(rs[h], f) ==>
      && h in rs' && Selected(rs'[h], f)
      && SortKey(rs'[h], h, f).at <= SortKey(rs[h], h, f).at
      && (f.since.Some? ==> SortKey(rs'[h], h, f) == SortKey(rs[h], h, f))
  }

  lemma PublishedOnlyFalls(s: State, op: Op, h: string)
    requires ItemsSound(s.db) && h in s.db.releases
    ensures h in Step(s, op).db.releases
    ensures Step(s, op).db.releases[h].publishedAt <= s.db.releases[h].publishedAt
  {
    StepRow(s, op, h);
    if Adds(s, op, h) {
      var items := ItemsOf(s.db.rawItems, h);
      ItemsOfSnoc(s.db.rawItems, ItemFrom(op.params, op.now), h);
      assert (items + [ItemFrom(op.params, op.now)])[..|items|] == items;
    } else if Leases(s, op, h) {
      LeasedWasClaimable(s, op, h);
    }
  }

  lemma {:induction false} RunSettles(s: State, ops: seq<Op>, f: Filter)
    requires ItemsSound(s.db)
    ensures ItemsSound(Run(s, ops).db)
    ensures Settles(s.db.releases, Run(s, ops).db.releases, f)
    decreases |ops|
  {
    if ops != [] {
      var init, op := ops[..|ops| - 1], ops[|ops| - 1];
      RunSettles(s, init, f);
      StepKeepsItemsSound(Run(s, init), op);
      var rs, rs' := s.db.releases, Run(s, ops).db.releases;
      forall h | h in rs && Selected(rs[h], f)
        ensures h in rs' && Selected(rs'[h], f)
        ensures SortKey(rs'[h], h, f).at <= SortKey(rs[h], h, f).at
        ensures f.since.Some? ==> SortKey(rs'[h], h, f) == SortKey(rs[h], h, f)
      {
        TerminalAbsorbs(s, ops, h);
        PublishedOnlyFalls(Run(s, init), op, h);
      }
    }
  }

  // ----- properties of a scan -----

  lemma ScanUnfolds(s: State, f: Filter, seek: Option<Key>, legs: seq<Leg>)
    requires WellFormed(f) && legs != []
    ensures var cut := CutOf(s, f, seek, legs[0]);
            var rest := Scan(Run(s, legs[0].between), f, CursorAt(f, cut.next), legs[1..]);
            Scan(s, f, CursorAt(f, seek), legs) ==
            if cut.next.None? then ScanResult(ItemsAt(s.db.releases, cut.keys), true)
            else ScanResult(ItemsAt(s.db.releases, cut.keys) + rest.items, rest.finished)
  {
    PageAt(s.db.releases, f, seek, legs[0].limit);
  }

  /** The items are the rows whose keys were read, one for one. */
  ghost predicate OneForOne(items: seq<ReleaseItem>, keys: seq<Key>, f: Filter) {
    && |items| == |keys|
    && forall i :: 0 <= i < |keys| ==>
         && items[i].infohash == keys[i].hash
         && (f.since.None? ==> items[i].publishedAt == keys[i].at)
  }

  lemma OneForOneConcat(a: seq<ReleaseItem>, b: seq<ReleaseItem>, ka: seq<Key>, kb: seq<Key>, f: Filter)
    requires OneForOne(a, ka, f) && OneForOne(b, kb, f)
    ensures OneForOne(a + b, ka + kb, f)
  {
  }

  lemma PageIsOneForOne(rs: Releases, f: Filter, seek: Option<Key>, limit: nat)
    requires limit >= 1
    ensures OneForOne(ItemsAt(rs, PageCut(rs, f, seek, limit).keys), PageCut(rs, f, seek, limit).keys, f)
  {
    CutIsDescending(rs, f, seek, limit);
    var keys := PageCut(rs, f, seek, limit).keys;
    assert forall i :: 0 <= i < |keys| ==> keys[i] in keys;
  }

  lemma {:induction false} ScanReads(s: State, f: Filter, seek: Option<Key>, legs: seq<Leg>)
    requires WellFormed(f)
    ensures OneForOne(Scan(s, f, CursorAt(f, seek), legs).items, KeysRead(s, f, seek, legs), f)
    decreases |legs|
  {
    if legs != [] {
      ScanUnfolds(s, f, seek, legs);
      var cut := CutOf(s, f, seek, legs[0]);
      var items := ItemsAt(s.db.releases, cut.keys);
      PageIsOneForOne(s.db.releases, f, seek, PageLimit(legs[0].limit));
      if cut.next.Some? {
        ScanReads(Run(s, legs[0].between), f, cut.next, legs[1..]);
        OneForOneConcat(items, Scan(Run(s, legs[0].between), f, CursorAt(f, cut.next), legs[1..]).items,
                        cut.keys, KeysRead(Run(s, legs[0].between), f, cut.next, legs[1..]), f);
      } else {
        assert cut.keys + [] == cut.keys;
      }
    }
  }

  lemma DescendingConcat(a: seq<Key>, b: seq<Key>)
    requires a != [] && Descending(a) && Descending(b)
    requires forall k :: k in b ==> Below(k, a[|a| - 1])
    ensures Descending(a + b)
  {
    forall i, j | 0 <= i < j < |a + b| ensures Below((a + b)[j], (a + b)[i]) {
      if j >= |a| {
        assert b[j - |a|] in b;
        if i < |a| - 1 { BelowTransitive((a + b)[j], a[|a| - 1], a[i]); }
      }
    }
  }

  /**
   * Whatever runs between the pages, the keys a scan reads fall strictly from first to last, within
   * and across pages. So a release can come up again only with a strictly earlier sort key.
   */
  lemma {:induction false} KeysFall(s: State, f: Filter, seek: Option<Key>, legs: seq<Leg>)
    ensures Descending(KeysRead(s, f, seek, legs))
    ensures forall k :: k in KeysRead(s, f, seek, legs) ==> Beyond(k, seek)
    decreases |legs|
  {
    if legs != [] {
      var cut := CutOf(s, f, seek, legs[0]);
      CutIsDescending(s.db.releases, f, seek, PageLimit(legs[0].limit));
      if cut.next.Some? {
        var rest := KeysRead(Run(s, legs[0].between), f, cut.next, legs[1..]);
        KeysFall(Run(s, legs[0].between), f, cut.next, legs[1..]);
        DescendingConcat(cut.keys, rest);
        forall k | k in rest ensures Beyond(k, seek) {
          assert cut.next.value in cut.keys;
          if seek.Some? { BelowTransitive(k, cut.next.value, seek.value); }
        }
      } else {
        assert cut.keys + [] == cut.keys;
      }
    }
  }

  lemma StillAheadAfter(s: State, ops: seq<Op>, f: Filter, h: string, last: Key)
    requires ItemsSound(s.db)
    requires h in s.db.releases && Selected(s.db.releases[h], f) && Below(SortKey(s.db.releases[h], h, f), last)
    ensures ItemsSound(Run(s, ops).db)
    ensures h in Run(s, ops).db.releases && Selected(Run(s, ops).db.releases[h], f)
    ensures Below(SortKey(Run(s, ops).db.releases[h], h, f), last)
  {
    RunSettles(s, ops, f);
    var k, k' := SortKey(s.db.releases[h], h, f), SortKey(Run(s, ops).db.releases[h], h, f);
    if k' != k {
      BelowTransitive(k', k, last);
    }
  }

  ghost predicate Reads(keys: seq<Key>, h: string) {
    exists i :: 0 <= i < |keys| && keys[i].hash == h
  }

  lemma ReadsMember(keys: seq<Key>, k: Key)
    requires k in keys
    ensures Reads(keys, k.hash)
  {
  }

  lemma ReadsConcat(a: seq<Key>, b: seq<Key>, h: string)
    ensures Reads(a + b, h) <==> Reads(a, h) || Reads(b, h)
  {
    if i :| 0 <= i < |a| && a[i].hash == h { assert (a + b)[i].hash == h; }
    if i :| 0 <= i < |b| && b[i].hash == h { assert (a + b)[|a| + i].hash == h; }
  }

  lemma {:induction false} RowIsReached(s: State, f: Filter, seek: Option<Key>, legs: seq<Leg>, h: string)
    requires ItemsSound(s.db) && WellFormed(f)
    requires Scan(s, f, CursorAt(f, seek), legs).finished
    requires h in s.db.releases && Selected(s.db.releases[h], f) && Beyond(SortKey(s.db.releases[h], h, f), seek)
    ensures Reads(KeysRead(s, f, seek, legs), h)
    decreases |legs|
  {
    var k, cut := SortKey(s.db.releases[h], h, f), CutOf(s, f, seek, legs[0]);
    ScanUnfolds(s, f, seek, legs);
    CutLosesNothing(s.db.releases, f, seek, PageLimit(legs[0].limit), h);
    ReadsConcat(cut.keys, KeysAfter(s, f, cut.next, legs), h);
    if k in cut.keys {
      ReadsMember(cut.keys, k);
    } else {
      StillAheadAfter(s, legs[0].between, f, h, cut.next.value);
      RowIsReached(Run(s, legs[0].between), f, cut.next, legs[1..], h);
    }
  }

  ghost predicate Returns(items: seq<ReleaseItem>, h: string) {
    exists i :: 0 <= i < |items| && items[i].infohash == h
  }

  /**
   * Pagination under writes: a finished scan returns every release that was selected (matched, for
   * that ref, after that instant) when the scan started, whatever is ingested, claimed, submitted or
   * reconfigured between its pages and whatever limits the requests carry.
   */
  lemma NothingIsMissed(config: int, before: seq<Op>, f: Filter, legs: seq<Leg>, h: string)
    requires var s := Run(Initial(config), before);
             && WellFormed(f) && Scan(s, f, None, legs).finished
             && h in s.db.releases && Selected(s.db.releases[h], f)
    ensures Returns(Scan(Run(Initial(config), before), f, None, legs).items, h)
  {
    var s := Run(Initial(config), before);
    RunKeepsItemsSound(config, before);
    RowIsReached(s, f, None, legs, h);
    ScanReads(s, f, None, legs);
    var keys := KeysRead(s, f, None, legs);
    var i :| 0 <= i < |keys| && keys[i].hash == h;
    assert Scan(s, f, None, legs).items[i].infohash == h;
  }

  // ----- repeats -----

  /** On the catalogue path a release comes up again only after its publication time has moved back. */
  lemma CatalogRepeatsOnlyEarlier(config: int, before: seq<Op>, f: Filter, legs: seq<Leg>)
    requires WellFormed(f) && f.since.None?
    ensures var items := Scan(Run(Initial(config), before), f, None, legs).items;
            forall i, j :: 0 <= i < j < |items| && items[i].infohash == items[j].infohash ==>
              items[j].publishedAt < items[i].publishedAt
  {
    var s := Run(Initial(config), before);
    KeysFall(s, f, None, legs);
    ScanReads(s, f, None, legs);
    var keys := KeysRead(s, f, None, legs);
    forall i, j | 0 <= i < j < |keys| && keys[i].hash == keys[j].hash ensures keys[j].at < keys[i].at {
      LexIrreflexive(keys[i].hash);
    }
  }

  lemma {:induction false} DeltaKeysAreFixed(s: State, f: Filter, seek: Option<Key>, legs: seq<Leg>, k: Key)
    requires ItemsSound(s.db) && f.since.Some?
    requires k in KeysRead(s, f, seek, legs)
    requires k.hash in s.db.releases && Selected(s.db.releases[k.hash], f)
    ensures k == SortKey(s.db.releases[k.hash], k.hash, f)
    decreases |legs|
  {
    var cut := CutOf(s, f, seek, legs[0]);
    CutIsDescending(s.db.releases, f, seek, PageLimit(legs[0].limit));
    if k !in cut.keys {
      RunSettles(s, legs[0].between, f);
      DeltaKeysAreFixed(Run(s, legs[0].between), f, cut.next, legs[1..], k);
    }
  }

  ghost predicate DistinctHashes(keys: seq<Key>) {
    forall i, j :: 0 <= i < j < |keys| ==> keys[i].hash != keys[j].hash
  }

  lemma PageHasDistinctHashes(rs: Releases, f: Filter, keys: seq<Key>)
    requires Descending(keys) && forall k :: k in keys ==> IsRowKey(k, rs, f)
    ensures DistinctHashes(keys)
  {
    forall i, j | 0 <= i < j < |keys| ensures keys[i].hash != keys[j].hash {
      assert keys[i] in keys && keys[j] in keys;
      BelowIrreflexive(keys[i]);
    }
  }

  /** A row of this page does not come back after the operations that follow it. */
  lemma DeltaRowIsDone(s: State, ops: seq<Op>, f: Filter, last: Key, legs: seq<Leg>, k: Key, again: Key)
    requires ItemsSound(s.db) && f.since.Some?
    requires IsRowKey(k, s.db.releases, f) && (k == last || Below(last, k))
    requires again in KeysRead(Run(s, ops), f, Some(last), legs)
    ensures again.hash != k.hash
  {
    KeysFall(Run(s, ops), f, Some(last), legs);
    if again.hash == k.hash {
      RunSettles(s, ops, f);
      DeltaKeysAreFixed(Run(s, ops), f, Some(last), legs, again);
      assert again == k;
      if k != last { BelowTransitive(k, last, k); }
      BelowIrreflexive(k);
    }
  }

  ghost predicate Apart(a: seq<Key>, b: seq<Key>) {
    forall k, m :: k in a && m in b ==> m.hash != k.hash
  }

  lemma DistinctConcat(a: seq<Key>, b: seq<Key>)
    requires DistinctHashes(a) && DistinctHashes(b)
    requires Apart(a, b)
    ensures DistinctHashes(a + b)
  {
    forall i, j | 0 <= i < j < |a + b| ensures (a + b)[i].hash != (a + b)[j].hash {
      if i < |a| <= j {
        assert a[i] in a && b[j - |a|] in b;
      }
    }
  }

  lemma LastIsLowest(keys: seq<Key>, k: Key)
    requires Descending(keys) && k in keys
    ensures k == keys[|keys| - 1] || Below(keys[|keys| - 1], k)
  {
  }

  lemma DeltaPageIsDone(s: State, ops: seq<Op>, f: Filter, page: seq<Key>, legs: seq<Leg>)
    requires ItemsSound(s.db) && f.since.Some? && page != []
    requires Descending(page) && forall k :: k in page ==> IsRowKey(k, s.db.releases, f)
    ensures Apart(page, KeysRead(Run(s, ops), f, Some(page[|page| - 1]), legs))
  {
    forall k, m | k in page && m in KeysRead(Run(s, ops), f, Some(page[|page| - 1]), legs) ensures m.hash != k.hash {
      LastIsLowest(page, k);
      DeltaRowIsDone(s, ops, f, page[|page| - 1], legs, k, m);
    }
  }

  lemma DeltaPage(rs: Releases, f: Filter, seek: Option<Key>, limit: nat)
    requires limit >= 1
    ensures var cut := PageCut(rs, f, seek, limit);
            && DistinctHashes(cut.keys) && Descending(cut.keys)
            && (forall k :: k in cut.keys ==> IsRowKey(k, rs, f))
            && (cut.next.Some? ==> cut.keys != [] && cut.next == Some(cut.keys[|cut.keys| - 1]))
  {
    CutIsDescending(rs, f, seek, limit);
    PageHasDistinctHashes(rs, f, PageCut(rs, f, seek, limit).keys);
  }

  /** The rest of the scan after a page repeats no row of the page. */
  lemma DeltaPageJoins(s: State, f: Filter, page: seq<Key>, next: Option<Key>, ops: seq<Op>, legs: seq<Leg>)
    requires ItemsSound(s.db) && f.since.Some? && page != [] && next == Some(page[|page| - 1])
    requires DistinctHashes(page) && Descending(page) && forall k :: k in page ==> IsRowKey(k, s.db.releases, f)
    requires DistinctHashes(KeysRead(Run(s, ops), f, next, legs))
    ensures DistinctHashes(page + KeysRead(Run(s, ops), f, next, legs))
  {
    DeltaPageIsDone(s, ops, f, page, legs);
    DistinctConcat(page, KeysRead(Run(s, ops), f, next, legs));
  }

  lemma {:induction false} DeltaReadsOnce(s: State, f: Filter, seek: Option<Key>, legs: seq<Leg>)
    requires ItemsSound(s.db) && f.since.Some?
    ensures DistinctHashes(KeysRead(s, f, seek, legs))
    decreases |legs|
  {
    if legs != [] {
      var cut, ops := CutOf(s, f, seek, legs[0]), legs[0].between;
      DeltaPage(s.db.releases, f, seek, PageLimit(legs[0].limit));
      if cut.next.Some? {
        DeltaStateLasts(s, ops, f);
        DeltaReadsOnce(Run(s, ops), f, cut.next, legs[1..]);
        DeltaPageJoins(s, f, cut.keys, cut.next, ops, legs[1..]);
      } else {
        assert cut.keys + [] == cut.keys;
      }
    }
  }

  lemma DeltaStateLasts(s: State, ops: seq<Op>, f: Filter)
    requires ItemsSound(s.db)
    ensures ItemsSound(Run(s, ops).db)
  {
    RunSettles(s, ops, f);
  }

  /** On the delta path no release is returned twice, finished or not. */
  lemma DeltaNeverRepeats(config: int, before: seq<Op>, f: Filter, legs: seq<Leg>)
    requires WellFormed(f) && f.since.Some?
    ensures var items := Scan(Run(Initial(config), before), f, None, legs).items;
            forall i, j :: 0 <= i < j < |items| ==> items[i].infohash != items[j].infohash
  {
    RunKeepsItemsSound(config, before);
    DeltaReadsOnce(Run(Initial(config), before), f, None, legs);
    ScanReads(Run(Initial(config), before), f, None, legs);
  }

  // ----- one delta scan after another -----

  /** A release whose first match was not after `since` never comes up on the delta path. */
  lemma {:induction false} OldMatchIsNeverRead(s: State, f: Filter, seek: Option<Key>, legs: seq<Leg>, h: string)
    requires WellFormed(f) && f.since.Some?
    requires h in s.db.releases && s.db.releases[h].status == Matched
    requires s.db.releases[h].firstMatchedAt.Some? && s.db.releases[h].firstMatchedAt.value <= f.since.value
    ensures forall k :: k in KeysRead(s, f, seek, legs) ==> k.hash != h
    decreases |legs|
  {
    if legs != [] {
      var cut := CutOf(s, f, seek, legs[0]);
      CutIsDescending(s.db.releases, f, seek, PageLimit(legs[0].limit));
      forall k | k in cut.keys ensures k.hash != h {
        assert IsRowKey(k, s.db.releases, f);
      }
      if cut.next.Some? {
        TerminalAbsorbs(s, legs[0].between, h);
        OldMatchIsNeverRead(Run(s, legs[0].between), f, cut.next, legs[1..], h);
      }
    }
  }

  /** The operation matches h to the ref the filter asks for. */
  ghost predicate Matches(s: State, op: Op, h: string, f: Filter) {
    && Accepts(s, op, h) && op.submission.status == "matched"
    && (f.ref == "" || f.ref == op.submission.ref)
  }

  lemma MatchStays(s: State, op: Op, between: seq<Op>, h: string, f: Filter)
    requires Matches(s, op, h, f) && s.db.releases[h].firstMatchedAt == None
    ensures var t := Run(Step(s, op), between);
            && h in t.db.releases && t.db.releases[h].status == Matched
            && t.db.releases[h].ref == Some(op.submission.ref) && t.db.releases[h].firstMatchedAt == Some(op.now)
  {
    StepRow(s, op, h);
    TerminalAbsorbs(Step(s, op), between, h);
  }

  lemma DeltaReturnsIff(s: State, f: Filter, legs: seq<Leg>, h: string)
    requires ItemsSound(s.db) && WellFormed(f) && f.since.Some? && Scan(s, f, None, legs).finished
    requires h in s.db.releases && s.db.releases[h].status == Matched
    requires s.db.releases[h].firstMatchedAt.Some? && (f.ref == "" || s.db.releases[h].ref == Some(f.ref))
    ensures Returns(Scan(s, f, None, legs).items, h) <==> s.db.releases[h].firstMatchedAt.value > f.since.value
  {
    var items, keys := Scan(s, f, None, legs).items, KeysRead(s, f, None, legs);
    ScanReads(s, f, None, legs);
    if s.db.releases[h].firstMatchedAt.value > f.since.value {
      RowIsReached(s, f, None, legs, h);
      var i :| 0 <= i < |keys| && keys[i].hash == h;
      assert items[i].infohash == h;
    } else {
      OldMatchIsNeverRead(s, f, None, legs, h);
      forall i | 0 <= i < |items| ensures items[i].infohash != h {
        assert keys[i] in keys;
      }
    }
  }

  /**
   * Delta scans in a row: a release that is matched at some point is returned by a later finished
   * scan with a given `since` if and only if the clock reading of the accepted submit was above it.
   * So a match made after one scan is missed by the next exactly when its reading, on whatever clock,
   * was not above the `since` the next scan uses, say the latest first_matched_at seen so far.
   */
  lemma NextDeltaReturnsIff(config: int, before: seq<Op>, op: Op, between: seq<Op>, f: Filter, legs: seq<Leg>,
                            h: string)
    requires WellFormed(f) && f.since.Some? && Matches(Run(Initial(config), before), op, h, f)
    requires Scan(Run(Initial(config), before + [op] + between), f, None, legs).finished
    ensures Returns(Scan(Run(Initial(config), before + [op] + between), f, None, legs).items, h)
       <==> op.now > f.since.value
  {
    var s, t := Run(Initial(config), before), Run(Initial(config), before + [op] + between);
    RunConcat(Initial(config), before, [op]);
    RunConcat(Initial(config), before + [op], between);
    assert [op][..0] == [] && Run(s, []) == s;
    assert Run(s, [op]) == Step(s, op);
    AuditLog.LogDeterminesRow(config, before, h);
    MatchStays(s, op, between, h, f);
    RunKeepsItemsSound(config, before + [op] + between);
    DeltaReturnsIff(t, f, legs, h);
  }

  // ----- a scan of a store at rest -----

  predicate AtRest(legs: seq<Leg>) {
    forall i :: 0 <= i < |legs| ==> legs[i].between == []
  }

  lemma {:induction false} RestKeysAreRows(s: State, f: Filter, seek: Option<Key>, legs: seq<Leg>)
    requires AtRest(legs)
    ensures forall k :: k in KeysRead(s, f, seek, legs) ==> IsRowKey(k, s.db.releases, f)
    decreases |legs|
  {
    if legs != [] {
      CutIsDescending(s.db.releases, f, seek, PageLimit(legs[0].limit));
      var cut := CutOf(s, f, seek, legs[0]);
      if cut.next.Some? {
        RestKeysAreRows(s, f, cut.next, legs[1..]);
      }
    }
  }

  lemma RestReadsAll(s: State, f: Filter, legs: seq<Leg>, k: Key)
    requires ItemsSound(s.db) && WellFormed(f) && AtRest(legs) && Scan(s, f, None, legs).finished
    requires k in ScanKeys(s.db.releases, f, None)
    ensures k in KeysRead(s, f, None, legs)
  {
    var keys := KeysRead(s, f, None, legs);
    ScanKeysAreRows(s.db.releases, f, None, k);
    RowIsReached(s, f, None, legs, k.hash);
    RestKeysAreRows(s, f, None, legs);
    var i :| 0 <= i < |keys| && keys[i].hash == k.hash;
    assert keys[i] in keys && IsRowKey(keys[i], s.db.releases, f);
  }

  lemma ItemsAtConcat(rs: Releases, a: seq<Key>, b: seq<Key>)
    requires (forall k :: k in a ==> k.hash in rs) && (forall k :: k in b ==> k.hash in rs)
    ensures ItemsAt(rs, a + b) == ItemsAt(rs, a) + ItemsAt(rs, b)
  {
    var all := ItemsAt(rs, a + b);
    forall i | 0 <= i < |a + b| ensures all[i] == (ItemsAt(rs, a) + ItemsAt(rs, b))[i] {
      assert (a + b)[i] in a + b;
    }
  }

  lemma {:induction false} RestItems(s: State, f: Filter, seek: Option<Key>, legs: seq<Leg>)
    requires WellFormed(f) && AtRest(legs)
    ensures forall k :: k in KeysRead(s, f, seek, legs) ==> k.hash in s.db.releases
    ensures Scan(s, f, CursorAt(f, seek), legs).items == ItemsAt(s.db.releases, KeysRead(s, f, seek, legs))
    decreases |legs|
  {
    RestKeysAreRows(s, f, seek, legs);
    if legs != [] {
      ScanUnfolds(s, f, seek, legs);
      var cut := CutOf(s, f, seek, legs[0]);
      assert legs[0].between == [];
      if cut.next.Some? {
        RestItems(s, f, cut.next, legs[1..]);
        ItemsAtConcat(s.db.releases, cut.keys, KeysRead(s, f, cut.next, legs[1..]));
      } else {
        assert cut.keys + [] == cut.keys;
      }
    }
  }

  lemma ListingHasRows(rs: Releases, f: Filter)
    ensures forall k :: k in Desc(ScanKeys(rs, f, None)) ==> k.hash in rs
  {
    DescLists(ScanKeys(rs, f, None));
  }

  /**
   * With no writes in between, the pages concatenate to the one sorted listing of the selected rows,
   * whatever the limits: the same keys and the same items.
   */
  lemma PagesAreOneListing(config: int, before: seq<Op>, f: Filter, legs: seq<Leg>)
    requires WellFormed(f) && AtRest(legs) && Scan(Run(Initial(config), before), f, None, legs).finished
    ensures var s := Run(Initial(config), before);
            var listing := Desc(ScanKeys(s.db.releases, f, None));
            && KeysRead(s, f, None, legs) == listing
            && (forall k :: k in listing ==> k.hash in s.db.releases)
            && Scan(s, f, None, legs).items == ItemsAt(s.db.releases, listing)
  {
    var s := Run(Initial(config), before);
    var keys, all := KeysRead(s, f, None, legs), ScanKeys(s.db.releases, f, None);
    KeysFall(s, f, None, legs);
    RestKeysAreRows(s, f, None, legs);
    RunKeepsItemsSound(config, before);
    forall k | k in all ensures k in keys {
      RestReadsAll(s, f, legs, k);
    }
    DescUnique(keys, all);
    ListingHasRows(s.db.releases, f);
    RestItems(s, f, None, legs);
  }

  lemma FewerAhead(rs: Releases, f: Filter, seek: Option<Key>, limit: nat)
    requires limit >= 1 && PageCut(rs, f, seek, limit).next.Some?
    ensures |ScanKeys(rs, f, PageCut(rs, f, seek, limit).next)| < |ScanKeys(rs, f, seek)|
  {
    var cut := PageCut(rs, f, seek, limit);
    CutIsDescending(rs, f, seek, limit);
    var last := cut.next.value;
    assert last in cut.keys;
    forall k | k in ScanKeys(rs, f, cut.next) ensures k in ScanKeys(rs, f, seek) - {last} {
      ScanKeysAreRows(rs, f, cut.next, k);
      BelowIrreflexive(last);
      if seek.Some? {
        BelowTransitive(k, last, seek.value);
      }
    }
    assert last in ScanKeys(rs, f, seek);
    SmallerSet(ScanKeys(rs, f, cut.next), ScanKeys(rs, f, seek), last);
  }

  lemma SmallerSet(a: set<Key>, b: set<Key>, x: Key)
    requires x in b && a <= b - {x}
    ensures |a| < |b|
  {
    Cardinality(a, b - {x});
  }

  lemma {:induction false} Cardinality(a: set<Key>, b: set<Key>)
    requires a <= b
    ensures |a| <= |b|
    decreases |a|
  {
    if a != {} {
      var x :| x in a;
      Cardinality(a - {x}, b - {x});
    }
  }

  /** A scan of a store at rest comes to its end: it needs no more requests than there are rows, and one. */
  lemma {:induction false} ScanFinishes(s: State, f: Filter, seek: Option<Key>, legs: seq<Leg>)
    requires WellFormed(f) && AtRest(legs) && |legs| > |ScanKeys(s.db.releases, f, seek)|
    ensures Scan(s, f, CursorAt(f, seek), legs).finished
    decreases |legs|
  {
    ScanUnfolds(s, f, seek, legs);
    var cut := CutOf(s, f, seek, legs[0]);
    assert legs[0].between == [];
    if cut.next.Some? {
      FewerAhead(s.db.releases, f, seek, PageLimit(legs[0].limit));
      assert AtRest(legs[1..]);
      ScanFinishes(s, f, cut.next, legs[1..]);
    }
  }
}
