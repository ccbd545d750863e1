/** The cached representative fields of a release are what its raw items say, after any run. */
module Representative {
  import opened Basics
  import opened Ordering
  import opened StoreModel
  import opened StoreSteps

  // ----- what the aggregates compute -----

  /** Row i is the one with the greatest (published_at, id). */
  ghost predicate IsLatest(items: seq<RawItem>, i: nat) {
    && i < |items|
    && forall j :: 0 <= j < |items| && j != i ==>
         items[j].publishedAt < items[i].publishedAt || (items[j].publishedAt == items[i].publishedAt && j < i)
  }

  lemma {:induction false} LatestIsGreatest(items: seq<RawItem>) returns (i: nat)
    requires items != []
    ensures IsLatest(items, i) && LatestItem(items) == items[i]
    decreases |items|
  {
    var n := |items| - 1;
    if n == 0 {
      i := 0;
    } else {
      i := LatestIsGreatest(items[..n]);
      if items[n].publishedAt >= items[i].publishedAt {
        i := n;
      }
    }
  }

  ghost predicate IsEarliest(items: seq<RawItem>, at: Instant) {
    && (exists i :: 0 <= i < |items| && items[i].publishedAt == at)
    && forall i :: 0 <= i < |items| ==> at <= items[i].publishedAt
  }

  lemma {:induction false} EarliestIsLeast(items: seq<RawItem>)
    requires items != []
    ensures IsEarliest(items, EarliestPublished(items))
    decreases |items|
  {
    var n := |items| - 1;
    if n > 0 {
      EarliestIsLeast(items[..n]);
      var i :| 0 <= i < n && items[..n][i].publishedAt == EarliestPublished(items[..n]);
      assert items[i].publishedAt == EarliestPublished(items[..n]);
      assert forall j :: 0 <= j < n ==> items[j] == items[..n][j];
    }
    assert items[n].publishedAt == items[n].publishedAt;
  }

  ghost predicate Ascending(s: seq<string>) {
    forall i, j :: 0 <= i < j < |s| ==> LexLess(s[i], s[j])
  }

  lemma {:induction false} InsertKeepsAscending(s: seq<string>, x: string)
    requires Ascending(s)
    ensures Ascending(InsertText(s, x))
    ensures forall y :: y in InsertText(s, x) <==> y in s || y == x
    decreases |s|
  {
    if s != [] && s[0] != x {
      if LexLess(x, s[0]) {
        forall j | 0 <= j < |s| ensures LexLess(x, s[j]) {
          if j > 0 { LexTransitive(x, s[0], s[j]); }
        }
      } else {
        LexTotal(x, s[0]);
        InsertKeepsAscending(s[1..], x);
        var rest := InsertText(s[1..], x);
        forall j | 0 <= j < |rest| ensures LexLess(s[0], rest[j]) {
          assert rest[j] in rest;
          if rest[j] != x {
            var k :| 0 <= k < |s[1..]| && s[1..][k] == rest[j];
            assert s[k + 1] == rest[j];
          }
        }
        assert s == [s[0]] + s[1..];
      }
    }
  }

  lemma {:induction false} AscendingUnique(a: seq<string>, b: seq<string>)
    requires Ascending(a) && Ascending(b)
    requires forall x :: x in a <==> x in b
    ensures a == b
    decreases |a|
  {
    assert a != [] ==> a[0] in a;
    assert b != [] ==> b[0] in b;
    if a != [] && b != [] {
      var i :| 0 <= i < |b| && b[i] == a[0];
      var j :| 0 <= j < |a| && a[j] == b[0];
      if i > 0 && j > 0 {
        LexTransitive(a[0], b[0], a[0]);
        LexIrreflexive(a[0]);
      }
      assert a[0] == b[0];
      TailMembers(a);
      TailMembers(b);
      AscendingUnique(a[1..], b[1..]);
      assert a == [a[0]] + a[1..] && b == [b[0]] + b[1..];
    }
  }

  lemma TailMembers(a: seq<string>)
    requires a != [] && Ascending(a)
    ensures forall x :: x in a[1..] <==> x in a && x != a[0]
  {
    assert a == [a[0]] + a[1..];
    if a[0] in a[1..] {
      var i :| 0 <= i < |a[1..]| && a[1..][i] == a[0];
      assert LexLess(a[0], a[i + 1]);
      LexIrreflexive(a[0]);
    }
  }

  ghost predicate IsSourceList(items: seq<RawItem>, sources: seq<string>) {
    && Ascending(sources)
    && (forall x :: x in sources <==> exists i :: 0 <= i < |items| && items[i].source == x)
  }

  lemma {:induction false} SourcesAreSortedDistinct(items: seq<RawItem>)
    ensures IsSourceList(items, SourcesOf(items))
    decreases |items|
  {
    if items != [] {
      var n := |items| - 1;
      SourcesAreSortedDistinct(items[..n]);
      InsertKeepsAscending(SourcesOf(items[..n]), items[n].source);
      forall x ensures x in SourcesOf(items) <==> exists i :: 0 <= i < |items| && items[i].source == x {
        if x in SourcesOf(items[..n]) {
          var i :| 0 <= i < n && items[..n][i].source == x;
          assert items[i].source == x;
        }
        if x == items[n].source {
          assert items[n].source == x;
        }
        if i :| 0 <= i < |items| && items[i].source == x {
          if i < n { assert items[..n][i].source == x; }
        }
      }
    }
  }

  // ----- reachable states -----

  /** title, published_at and sources are those of the release's raw items. */
  ghost predicate Represents(r: Release, items: seq<RawItem>) {
    && (exists i: nat :: IsLatest(items, i) && r.title == items[i].title)
    && IsEarliest(items, r.publishedAt)
    && IsSourceList(items, r.sources)
  }

  ghost predicate Cached(r: Release, items: seq<RawItem>) {
    && items != []
    && r.title == LatestItem(items).title
    && r.publishedAt == EarliestPublished(items)
    && r.sources == SourcesOf(items)
  }

  ghost predicate DistinctItems(items: seq<RawItem>) {
    forall i, j :: 0 <= i < j < |items| ==> items[i].source != items[j].source || items[i].sourceId != items[j].sourceId
  }

  /** The foreign key and the unique constraint of raw_items, and the cached aggregates. */
  ghost predicate ItemsSound(db: Db) {
    && DistinctItems(db.rawItems)
    && (forall i :: 0 <= i < |db.rawItems| ==> db.rawItems[i].infohash in db.releases)
    && (forall h :: h in db.releases ==> Cached(db.releases[h], ItemsOf(db.rawItems, h)))
  }

  lemma ItemsOfSnoc(items: seq<RawItem>, it: RawItem, h: string)
    ensures ItemsOf(items + [it], h) == ItemsOf(items, h) + (if it.infohash == h then [it] else [])
  {
    assert (items + [it])[..|items|] == items;
  }

  lemma {:induction false} ForeignItems(items: seq<RawItem>, h: string)
    requires forall i :: 0 <= i < |items| ==> items[i].infohash != h
    ensures ItemsOf(items, h) == []
    decreases |items|
  {
    if items != [] {
      ForeignItems(items[..|items| - 1], h);
    }
  }

  lemma RowStaysCached(s: State, op: Op, h: string)
    requires h in s.db.releases && Cached(s.db.releases[h], ItemsOf(s.db.rawItems, h))
    ensures h in Step(s, op).db.releases
    ensures Cached(Step(s, op).db.releases[h], ItemsOf(Step(s, op).db.rawItems, h))
  {
    StepRow(s, op, h);
    StepTables(s, op);
    if op.OpIngest? {
      ItemsOfSnoc(s.db.rawItems, ItemFrom(op.params, op.now), h);
    } else if Leases(s, op, h) {
      LeasedWasClaimable(s, op, h);
    }
  }

  lemma NewRowIsCached(s: State, op: Op, h: string)
    requires forall i :: 0 <= i < |s.db.rawItems| ==> s.db.rawItems[i].infohash in s.db.releases
    requires h !in s.db.releases && h in Step(s, op).db.releases
    ensures Cached(Step(s, op).db.releases[h], ItemsOf(Step(s, op).db.rawItems, h))
  {
    NewRow(s, op, h);
    StepTables(s, op);
    ItemsOfSnoc(s.db.rawItems, ItemFrom(op.params, op.now), h);
    ForeignItems(s.db.rawItems, h);
    assert SourcesOf([ItemFrom(op.params, op.now)]) == [op.params.source];
  }

  lemma StepKeepsKeys(s: State, op: Op)
    requires DistinctItems(s.db.rawItems)
    requires forall i :: 0 <= i < |s.db.rawItems| ==> s.db.rawItems[i].infohash in s.db.releases
    ensures DistinctItems(Step(s, op).db.rawItems)
    ensures forall i :: 0 <= i < |Step(s, op).db.rawItems| ==>
            Step(s, op).db.rawItems[i].infohash in Step(s, op).db.releases
  {
    StepTables(s, op);
    forall h | h in s.db.releases ensures h in Step(s, op).db.releases { StepRow(s, op, h); }
  }

  lemma StepKeepsItemsSound(s: State, op: Op)
    requires ItemsSound(s.db)
    ensures ItemsSound(Step(s, op).db)
  {
    StepKeepsKeys(s, op);
    var db, db' := s.db, Step(s, op).db;
    forall h | h in db'.releases ensures Cached(db'.releases[h], ItemsOf(db'.rawItems, h)) {
      if h in db.releases {
        RowStaysCached(s, op, h);
      } else {
        NewRowIsCached(s, op, h);
      }
    }
  }

  lemma {:induction false} RunKeepsItemsSound(config: int, ops: seq<Op>)
    ensures ItemsSound(Run(Initial(config), ops).db)
    decreases |ops|
  {
    if ops != [] {
      RunKeepsItemsSound(config, ops[..|ops| - 1]);
      StepKeepsItemsSound(Run(Initial(config), ops[..|ops| - 1]), ops[|ops| - 1]);
    }
  }

  // ----- first non-empty magnet and size -----

  ghost function FirstMagnet(s: State, ops: seq<Op>, h: string): Option<string> {
    if ops == [] then None
    else
      var init, op := ops[..|ops| - 1], ops[|ops| - 1];
      Coalesce(FirstMagnet(s, init, h), if Adds(Run(s, init), op, h) then SeedMagnet(op.params) else None)
  }

  ghost function FirstSize(s: State, ops: seq<Op>, h: string): Option<int> {
    if ops == [] then None
    else
      var init, op := ops[..|ops| - 1], ops[|ops| - 1];
      Coalesce(FirstSize(s, init, h), if Adds(Run(s, init), op, h) then SeedSize(op.params) else None)
  }

  lemma {:induction false} SeedsAreFirst(config: int, ops: seq<Op>, h: string)
    ensures var s := Run(Initial(config), ops);
            if h in s.db.releases then
              && s.db.releases[h].magnet == FirstMagnet(Initial(config), ops, h)
              && s.db.releases[h].sizeBytes == FirstSize(Initial(config), ops, h)
            else
              && FirstMagnet(Initial(config), ops, h) == None
              && FirstSize(Initial(config), ops, h) == None
    decreases |ops|
  {
    if ops != [] {
      var init, op := ops[..|ops| - 1], ops[|ops| - 1];
      var s := Run(Initial(config), init);
      SeedsAreFirst(config, init, h);
      if h in s.db.releases {
        StepRow(s, op, h);
        if Leases(s, op, h) {
          LeasedWasClaimable(s, op, h);
        }
      } else if h in Step(s, op).db.releases {
        NewRow(s, op, h);
      }
    }
  }

  /**
   * After any run every release has a raw item, its title is that of the greatest
   * (published_at, id), published_at the minimum, sources the sorted distinct list, and magnet and
   * size the first non-empty ones that came with an ingested post.
   */
  lemma RepresentativeFieldsAreExact(config: int, ops: seq<Op>, h: string)
    requires h in Run(Initial(config), ops).db.releases
    ensures var db := Run(Initial(config), ops).db;
            && ItemsOf(db.rawItems, h) != []
            && Represents(db.releases[h], ItemsOf(db.rawItems, h))
            && db.releases[h].magnet == FirstMagnet(Initial(config), ops, h)
            && db.releases[h].sizeBytes == FirstSize(Initial(config), ops, h)
  {
    RunKeepsItemsSound(config, ops);
    SeedsAreFirst(config, ops, h);
    var items := ItemsOf(Run(Initial(config), ops).db.rawItems, h);
    var i := LatestIsGreatest(items);
    EarliestIsLeast(items);
    SourcesAreSortedDistinct(items);
  }

  // ----- independence of ingest order -----

  /** The posts of a run whose infohash the store does not reject, in order. */
  function Posted(ops: seq<Op>): seq<IngestParams> {
    if ops == [] then []
    else
      var op := ops[|ops| - 1];
      Posted(ops[..|ops| - 1])
      + (if op.OpIngest? && IsCanonicalInfohash(op.params.infohash) then [op.params] else [])
  }

  ghost predicate DistinctPosts(posts: seq<IngestParams>) {
    forall i, j :: 0 <= i < j < |posts| ==> posts[i].source != posts[j].source || posts[i].sourceId != posts[j].sourceId
  }

  ghost predicate ItemMatches(it: RawItem, p: IngestParams) {
    it == ItemFrom(p, it.ingestedAt)
  }

  lemma {:induction false} DistinctPostsAllLand(config: int, ops: seq<Op>)
    requires DistinctPosts(Posted(ops))
    ensures var items := Run(Initial(config), ops).db.rawItems;
            |items| == |Posted(ops)| && forall i :: 0 <= i < |items| ==> ItemMatches(items[i], Posted(ops)[i])
    decreases |ops|
  {
    if ops != [] {
      var init, op := ops[..|ops| - 1], ops[|ops| - 1];
      var s := Run(Initial(config), init);
      assert forall i :: 0 <= i < |Posted(init)| ==> Posted(ops)[i] == Posted(init)[i];
      DistinctPostsAllLand(config, init);
      StepTables(s, op);
      if op.OpIngest? && IsCanonicalInfohash(op.params.infohash) {
        assert Posted(ops)[|Posted(init)|] == op.params;
        assert !HasItem(s.db.rawItems, op.params.source, op.params.sourceId);
      }
    }
  }

  ghost predicate SamePosts(a: seq<Op>, b: seq<Op>) {
    forall p :: p in Posted(a) <==> p in Posted(b)
  }

  lemma {:induction false} ItemsOfMembers(items: seq<RawItem>, h: string, it: RawItem)
    ensures it in ItemsOf(items, h) <==> it in items && it.infohash == h
    decreases |items|
  {
    if items != [] {
      ItemsOfMembers(items[..|items| - 1], h, it);
      assert items == items[..|items| - 1] + [items[|items| - 1]];
    }
  }

  /** Each raw item of one run has a counterpart in the other that differs in its ingest time only. */
  lemma Counterpart(config: int, a: seq<Op>, b: seq<Op>, h: string, it: RawItem) returns (twin: RawItem)
    requires DistinctPosts(Posted(a)) && DistinctPosts(Posted(b)) && SamePosts(a, b)
    requires it in ItemsOf(Run(Initial(config), a).db.rawItems, h)
    ensures twin in ItemsOf(Run(Initial(config), b).db.rawItems, h)
    ensures twin.publishedAt == it.publishedAt && twin.source == it.source
  {
    var itemsA, itemsB := Run(Initial(config), a).db.rawItems, Run(Initial(config), b).db.rawItems;
    DistinctPostsAllLand(config, a);
    DistinctPostsAllLand(config, b);
    ItemsOfMembers(itemsA, h, it);
    var i :| 0 <= i < |itemsA| && itemsA[i] == it;
    var p := Posted(a)[i];
    assert p in Posted(b);
    var j :| 0 <= j < |itemsB| && Posted(b)[j] == p;
    twin := itemsB[j];
    assert ItemMatches(itemsA[i], Posted(a)[i]) && ItemMatches(itemsB[j], Posted(b)[j]);
    ItemsOfMembers(itemsB, h, twin);
  }

  lemma NoLaterThan(config: int, a: seq<Op>, b: seq<Op>, h: string)
    requires DistinctPosts(Posted(a)) && DistinctPosts(Posted(b)) && SamePosts(a, b)
    requires h in Run(Initial(config), a).db.releases
    ensures h in Run(Initial(config), b).db.releases
    ensures Run(Initial(config), b).db.releases[h].publishedAt <= Run(Initial(config), a).db.releases[h].publishedAt
    ensures forall x :: x in Run(Initial(config), a).db.releases[h].sources ==>
            x in Run(Initial(config), b).db.releases[h].sources
  {
    var dbA, dbB := Run(Initial(config), a).db, Run(Initial(config), b).db;
    RunKeepsItemsSound(config, a);
    RunKeepsItemsSound(config, b);
    RepresentativeFieldsAreExact(config, a, h);
    var itemsA, itemsB := ItemsOf(dbA.rawItems, h), ItemsOf(dbB.rawItems, h);
    var i :| 0 <= i < |itemsA| && itemsA[i].publishedAt == dbA.releases[h].publishedAt;
    var twin := Counterpart(config, a, b, h, itemsA[i]);
    ItemsOfMembers(dbB.rawItems, h, twin);
    RepresentativeFieldsAreExact(config, b, h);
    forall x | x in dbA.releases[h].sources ensures x in dbB.releases[h].sources {
      var j :| 0 <= j < |itemsA| && itemsA[j].source == x;
      var other := Counterpart(config, a, b, h, itemsA[j]);
      assert other in itemsB;
    }
  }

  /**
   * published_at and sources do not depend on the order of ingest: two runs that post the same
   * posts in any order, mixed with any claims, submits and restarts, agree on them for every
   * release, provided no two posts share a (source, source_id).
   */
  lemma IngestOrderIrrelevant(config: int, a: seq<Op>, b: seq<Op>, h: string)
    requires DistinctPosts(Posted(a)) && DistinctPosts(Posted(b)) && SamePosts(a, b)
    ensures h in Run(Initial(config), a).db.releases <==> h in Run(Initial(config), b).db.releases
    ensures h in Run(Initial(config), a).db.releases ==>
              && Run(Initial(config), a).db.releases[h].publishedAt
                 == Run(Initial(config), b).db.releases[h].publishedAt
              && Run(Initial(config), a).db.releases[h].sources == Run(Initial(config), b).db.releases[h].sources
  {
    if h in Run(Initial(config), a).db.releases {
      NoLaterThan(config, a, b, h);
      NoLaterThan(config, b, a, h);
      RepresentativeFieldsAreExact(config, a, h);
      RepresentativeFieldsAreExact(config, b, h);
      AscendingUnique(Run(Initial(config), a).db.releases[h].sources, Run(Initial(config), b).db.releases[h].sources);
    } else if h in Run(Initial(config), b).db.releases {
      NoLaterThan(config, b, a, h);
    }
  }
}
