/**
 * Batch ingest: each post is normalised and stored on its own, outcomes are counted, and the first
 * store error ends the batch. Posting a batch again is safe, wholly or after a failure.
 */
module IngestBatch {
  import opened Basics
  import opened RawPosts
  import opened StoreModel
  import opened StoreSteps
  import opened Representative
  import Infohash
  import Store

  function Params(p: RawPost, key: string): IngestParams {
    IngestParams(key, p.source, p.sourceId, p.title, p.url, p.magnet, p.sizeBytes, p.publishedAt)
  }

  /** A post after normalisation: None is a skip. */
  type Job = Option<IngestParams>

  function ToJob(post: RawPost): Job {
    match Infohash.Normalize(post.magnet)
    case None => None
    case Some(key) => Some(Params(post, key))
  }

  function Jobs(posts: seq<RawPost>): (jobs: seq<Job>)
    ensures |jobs| == |posts|
  {
    seq(|posts|, i requires 0 <= i < |posts| => ToJob(posts[i]))
  }

  lemma JobAt(posts: seq<RawPost>, i: nat, key: Option<string>)
    requires i < |posts| && key == Infohash.Normalize(posts[i].magnet)
    ensures Jobs(posts)[i] == if key.None? then None else Some(Params(posts[i], key.value))
  {
  }

  ghost predicate Canonical(jobs: seq<Job>) {
    forall i :: 0 <= i < |jobs| && jobs[i].Some? ==> IsCanonicalInfohash(jobs[i].value.infohash)
  }

  /** The store's guard against keys that are not canonical never fires in a batch. */
  lemma BatchPostsCanonicalKeys(posts: seq<RawPost>)
    ensures Canonical(Jobs(posts))
  {
    forall i | 0 <= i < |posts| && Jobs(posts)[i].Some?
      ensures IsCanonicalInfohash(Jobs(posts)[i].value.infohash)
    {
      Infohash.NormalizeIsCanonical(posts[i].magnet);
    }
  }

  datatype Buckets = Buckets(added: nat, updated: nat, duplicate: nat, conflict: nat, skipped: nat)

  const NOTHING := Buckets(0, 0, 0, 0, 0)

  function Count(b: Buckets, outcome: IngestOutcome): Buckets {
    match outcome
    case New => b.(added := b.added + 1)
    case Updated => b.(updated := b.updated + 1)
    case Duplicate => b.(duplicate := b.duplicate + 1)
    case Conflict => b.(conflict := b.conflict + 1)
  }

  /**
   * What the database does to one call: nothing wrong, an error before the commit (all is rolled
   * back), or an error reported by the commit, which may have been applied all the same.
   */
  datatype Fault = NoFault | BeforeCommit | AtCommit(applied: bool)

  /** A conflict is rolled back without a commit, so only an earlier error can hit it. */
  predicate Fires(fault: Fault, outcome: IngestOutcome) {
    fault.BeforeCommit? || (fault.AtCommit? && outcome != Conflict)
  }

  datatype Failure = Failure(index: nat, applied: bool)

  datatype Progress = Progress(db: Db, batch: Buckets, failure: Option<Failure>)

  /** One post of the loop. */
  function OnePost(at: Progress, job: Job, now: Instant, fault: Fault, i: nat): Progress {
    match job
    case None => at.(batch := at.batch.(skipped := at.batch.skipped + 1))
    case Some(p) =>
      var (db, outcome) := Ingest(at.db, p, now);
      if Fires(fault, outcome) then
        var applied := fault.AtCommit? && fault.applied;
        at.(db := if applied then db else at.db, failure := Some(Failure(i, applied)))
      else
        at.(db := db, batch := Count(at.batch, outcome))
  }

  /** The clock readings and database faults that one posting of a batch meets, by post index. */
  datatype Weather = Weather(clock: nat -> Instant, faults: nat -> Fault)

  /** The batch after its first n posts. */
  function Batch(db: Db, jobs: seq<Job>, w: Weather, n: nat): Progress
    requires n <= |jobs|
  {
    if n == 0 then Progress(db, NOTHING, None)
    else
      var at := Batch(db, jobs, w, n - 1);
      if at.failure.Some? then at else OnePost(at, jobs[n - 1], w.clock(n - 1), w.faults(n - 1), n - 1)
  }

  // ----- the loop -----

  /** One store call under a fault. */
  method CallStore(store: Store.ReleaseStore, p: IngestParams, now: Instant, fault: Fault)
      returns (outcome: Result<IngestOutcome, bool>)
    requires ItemsSound(store.Tables())
    modifies store
    ensures ItemsSound(store.Tables())
    ensures var (db, out) := Ingest(old(store.Tables()), p, now);
            var applied := fault.AtCommit? && fault.applied;
            if Fires(fault, out) then
              outcome == Err(applied) && store.Tables() == if applied then db else old(store.Tables())
            else outcome == Ok(out) && store.Tables() == db
  {
    var releases, rawItems, events := store.releases, store.rawItems, store.events;
    var out := store.IngestN(p, now);
    if !Fires(fault, out) {
      return Ok(out);
    }
    if fault.AtCommit? && fault.applied {
      return Err(true);
    }
    store.releases, store.rawItems, store.events := releases, rawItems, events;
    return Err(false);
  }

  /** Normalises the post in hand and copies its fields. */
  method NextJob(posts: seq<RawPost>, i: nat) returns (job: Job)
    requires i < |posts|
    ensures job == Jobs(posts)[i]
  {
    var key := Infohash.NormalizeInfohash(posts[i].magnet);
    JobAt(posts, i, key);
    job := if key.None? then None else Some(Params(posts[i], key.value));
  }

  /** The body of the loop, from a normalised post to the updated counts. */
  method PostOne(store: Store.ReleaseStore, batch: Buckets, job: Job, now: Instant, fault: Fault, i: nat)
      returns (counts: Buckets, failure: Option<Failure>)
    requires ItemsSound(store.Tables())
    modifies store
    ensures ItemsSound(store.Tables())
    ensures Progress(store.Tables(), counts, failure)
         == OnePost(Progress(old(store.Tables()), batch, None), job, now, fault, i)
  {
    if job.None? {
      return batch.(skipped := batch.skipped + 1), None;
    }
    var out := CallStore(store, job.value, now, fault);
    if out.Err? {
      return batch, Some(Failure(i, out.error));
    }
    return Count(batch, out.value), None;
  }

  /** Normalises the post in hand and deals with it. */
  method PostNext(store: Store.ReleaseStore, posts: seq<RawPost>, w: Weather, i: nat, batch: Buckets)
      returns (counts: Buckets, failure: Option<Failure>)
    requires ItemsSound(store.Tables()) && i < |posts|
    modifies store
    ensures ItemsSound(store.Tables())
    ensures Progress(store.Tables(), counts, failure)
         == OnePost(Progress(old(store.Tables()), batch, None), Jobs(posts)[i], w.clock(i), w.faults(i), i)
  {
    var job := NextJob(posts, i);
    counts, failure := PostOne(store, batch, job, w.clock(i), w.faults(i), i);
  }

  lemma BatchGoesOn(db: Db, jobs: seq<Job>, w: Weather, i: nat, at: Progress, next: Progress)
    requires i < |jobs| && at == Batch(db, jobs, w, i) && at.failure.None?
    requires next == OnePost(at, jobs[i], w.clock(i), w.faults(i), i)
    ensures next == Batch(db, jobs, w, i + 1)
  {
  }

  /** The per-post loop of one request: counts and the index it failed at, if it did. */
  method IngestBatch(store: Store.ReleaseStore, posts: seq<RawPost>, w: Weather)
      returns (batch: Buckets, failure: Option<Failure>)
    requires ItemsSound(store.Tables())
    modifies store
    ensures ItemsSound(store.Tables())
    ensures Progress(store.Tables(), batch, failure) == Batch(old(store.Tables()), Jobs(posts), w, |posts|)
  {
    batch, failure := NOTHING, None;
    ghost var db, jobs := store.Tables(), Jobs(posts);
    var i := 0;
    while i < |posts| && failure.None?
      invariant ItemsSound(store.Tables()) && i <= |posts|
      invariant Progress(store.Tables(), batch, failure) == Batch(db, jobs, w, i)
    {
      ghost var at := Progress(store.Tables(), batch, failure);
      batch, failure := PostNext(store, posts, w, i, batch);
      BatchGoesOn(db, jobs, w, i, at, Progress(store.Tables(), batch, failure));
      i := i + 1;
    }
    FailureStays(db, jobs, w, i, |posts|);
  }

  /** Nothing is processed after a failure. */
  lemma {:induction false} FailureStays(db: Db, jobs: seq<Job>, w: Weather, m: nat, n: nat)
    requires m <= n <= |jobs| && (m == n || Batch(db, jobs, w, m).failure.Some?)
    ensures Batch(db, jobs, w, n) == Batch(db, jobs, w, m)
    decreases n
  {
    if m < n {
      FailureStays(db, jobs, w, m, n - 1);
    }
  }

  // ----- what the counts say -----

  /** Posts among the first n that ingest skips. */
  function Skips(jobs: seq<Job>, n: nat): nat
    requires n <= |jobs|
  {
    if n == 0 then 0
    else Skips(jobs, n - 1) + (if jobs[n - 1].None? then 1 else 0)
  }

  /** The posts that were counted: all, or those before the failure. */
  function Processed(at: Progress, n: nat): nat {
    if at.failure.Some? then at.failure.value.index else n
  }

  /**
   * Every processed post is counted in exactly one bucket; the releases and raw items that appeared
   * are the new and the new or updated ones, but for one more when a failed commit was applied.
   */
  ghost predicate CountsExact(db: Db, jobs: seq<Job>, at: Progress, n: nat) {
    var b := at.batch;
    var extra := if at.failure.Some? && at.failure.value.applied then 1 else 0;
    && Processed(at, n) <= n <= |jobs|
    && b.added + b.updated + b.duplicate + b.conflict + b.skipped == Processed(at, n)
    && b.skipped == Skips(jobs, Processed(at, n))
    && |db.releases| + b.added <= |at.db.releases| <= |db.releases| + b.added + extra
    && |db.rawItems| + b.added + b.updated <= |at.db.rawItems| <= |db.rawItems| + b.added + b.updated + extra
  }

  lemma IngestGrowth(db: Db, p: IngestParams, now: Instant)
    ensures var (db', outcome) := Ingest(db, p, now);
            && |db'.releases| == |db.releases| + (if outcome == New then 1 else 0)
            && |db'.rawItems| == |db.rawItems| + (if outcome in {New, Updated} then 1 else 0)
  {
    var (db', outcome) := Ingest(db, p, now);
    if outcome == New {
      assert db'.releases.Keys == db.releases.Keys + {p.infohash};
      assert |db'.releases.Keys| == |db.releases.Keys| + 1;
      assert |db'.releases| == |db'.releases.Keys| && |db.releases| == |db.releases.Keys|;
    } else if outcome == Updated {
      assert db'.releases.Keys == db.releases.Keys;
      assert |db'.releases| == |db'.releases.Keys| && |db.releases| == |db.releases.Keys|;
    }
  }

  lemma {:induction false} CountsAreExact(db: Db, jobs: seq<Job>, w: Weather, n: nat)
    requires n <= |jobs|
    ensures CountsExact(db, jobs, Batch(db, jobs, w, n), n)
    decreases n
  {
    if n > 0 {
      CountsAreExact(db, jobs, w, n - 1);
      var at := Batch(db, jobs, w, n - 1);
      var job := jobs[n - 1];
      if at.failure.None? && job.Some? {
        IngestGrowth(at.db, job.value, w.clock(n - 1));
      }
    }
  }

  // ----- what the batch does to the store -----

  /** The ingest operations of posts m up to n. */
  function BatchOps(jobs: seq<Job>, clock: nat -> Instant, m: nat, n: nat): seq<Op>
    requires m <= n <= |jobs|
    decreases n
  {
    if n == m then []
    else if jobs[n - 1].None? then BatchOps(jobs, clock, m, n - 1)
    else BatchOps(jobs, clock, m, n - 1) + [OpIngest(jobs[n - 1].value, clock(n - 1))]
  }

  /** What the last post of a batch adds to the run. */
  lemma RunOps(s: State, jobs: seq<Job>, clock: nat -> Instant, m: nat, n: nat)
    requires m < n <= |jobs|
    ensures Run(s, BatchOps(jobs, clock, m, n)) ==
            if jobs[n - 1].None? then Run(s, BatchOps(jobs, clock, m, n - 1))
            else Step(Run(s, BatchOps(jobs, clock, m, n - 1)), OpIngest(jobs[n - 1].value, clock(n - 1)))
  {
    var ops := BatchOps(jobs, clock, m, n);
    if jobs[n - 1].Some? {
      assert ops[..|ops| - 1] == BatchOps(jobs, clock, m, n - 1);
    }
  }

  /** How many posts took effect. */
  function Applied(at: Progress, n: nat): nat {
    if at.failure.None? then n
    else at.failure.value.index + (if at.failure.value.applied then 1 else 0)
  }

  /** What dealing with one post means for the store; `next` is the store with the post ingested. */
  lemma OnePostMoves(t: State, at: Progress, job: Job, now: Instant, fault: Fault, i: nat, next: State)
    requires at.db == t.db && at.failure.None?
    requires next == if job.None? then t else Step(t, OpIngest(job.value, now))
    ensures var at' := OnePost(at, job, now, fault, i);
            && (at'.failure.Some? ==> at'.failure.value.index == i)
            && at'.db == (if at'.failure.Some? && !at'.failure.value.applied then t.db else next.db)
            && next.cap == t.cap
  {
  }

  /** Only a post that took effect moves the run on. */
  lemma OnePostApplies(s: State, jobs: seq<Job>, clock: nat -> Instant, n: nat, db: Db, at': Progress, next: State)
    requires 0 < n <= |jobs| && Run(s, BatchOps(jobs, clock, 0, n - 1)) == s.(db := db)
    requires next == Run(s, BatchOps(jobs, clock, 0, n)) && next.cap == s.cap
    requires at'.failure.Some? ==> at'.failure.value.index == n - 1
    requires at'.db == if at'.failure.Some? && !at'.failure.value.applied then db else next.db
    ensures Applied(at', n) <= n && Run(s, BatchOps(jobs, clock, 0, Applied(at', n))) == s.(db := at'.db)
  {
  }

  /** A batch is a run of store operations, so every theorem about runs holds of it. */
  lemma {:induction false} BatchIsARun(s: State, jobs: seq<Job>, w: Weather, n: nat)
    requires n <= |jobs|
    ensures Applied(Batch(s.db, jobs, w, n), n) <= n
    ensures Run(s, BatchOps(jobs, w.clock, 0, Applied(Batch(s.db, jobs, w, n), n)))
            == s.(db := Batch(s.db, jobs, w, n).db)
    decreases n
  {
    if n > 0 {
      BatchIsARun(s, jobs, w, n - 1);
      var at := Batch(s.db, jobs, w, n - 1);
      if at.failure.None? {
        var next := Run(s, BatchOps(jobs, w.clock, 0, n));
        RunOps(s, jobs, w.clock, 0, n);
        OnePostMoves(s.(db := at.db), at, jobs[n - 1], w.clock(n - 1), w.faults(n - 1), n - 1, next);
        OnePostApplies(s, jobs, w.clock, n, at.db, Batch(s.db, jobs, w, n), next);
      }
    }
  }

  /** A batch never changes the queue or decision columns of a release that already exists. */
  lemma {:induction false} BatchKeepsDecisions(db: Db, jobs: seq<Job>, w: Weather, n: nat, h: string)
    requires n <= |jobs| && h in db.releases
    ensures h in Batch(db, jobs, w, n).db.releases
    ensures SameDecision(db.releases[h], Batch(db, jobs, w, n).db.releases[h])
    ensures Batch(db, jobs, w, n).db.events == db.events
    decreases n
  {
    if n > 0 {
      BatchKeepsDecisions(db, jobs, w, n - 1, h);
      var at := Batch(db, jobs, w, n - 1);
      var job := jobs[n - 1];
      if job.Some? {
        IngestKeepsDecision(at.db, job.value, w.clock(n - 1), h);
      }
    }
  }

  // ----- posting again -----

  /** Nothing is left to do for this post. */
  predicate Settled(items: seq<RawItem>, job: Job) {
    job.Some? ==> HasItem(items, job.value.source, job.value.sourceId)
  }

  ghost predicate AllSettled(items: seq<RawItem>, jobs: seq<Job>, n: nat)
    requires n <= |jobs|
  {
    forall i :: 0 <= i < n ==> Settled(items, jobs[i])
  }

  lemma ItemsLast(items: seq<RawItem>, more: seq<RawItem>, source: string, sourceId: string)
    requires HasItem(items, source, sourceId)
    ensures HasItem(items + more, source, sourceId)
  {
    var i :| 0 <= i < |items| && items[i].source == source && items[i].sourceId == sourceId;
    assert (items + more)[i] == items[i];
  }

  lemma SettledLasts(items: seq<RawItem>, more: seq<RawItem>, jobs: seq<Job>, n: nat)
    requires n <= |jobs| && AllSettled(items, jobs, n)
    ensures AllSettled(items + more, jobs, n)
  {
    forall i | 0 <= i < n ensures Settled(items + more, jobs[i]) {
      if jobs[i].Some? {
        ItemsLast(items, more, jobs[i].value.source, jobs[i].value.sourceId);
      }
    }
  }

  lemma StepSettles(t: State, jobs: seq<Job>, n: nat, op: Op)
    requires n <= |jobs| && AllSettled(t.db.rawItems, jobs, n)
    ensures AllSettled(Step(t, op).db.rawItems, jobs, n)
  {
    StepTables(t, op);
    var more := if op.OpIngest? && Adds(t, op, op.params.infohash) then [ItemFrom(op.params, op.now)] else [];
    SettledLasts(t.db.rawItems, more, jobs, n);
  }

  lemma {:induction false} SettledForGood(s: State, ops: seq<Op>, jobs: seq<Job>, n: nat)
    requires n <= |jobs| && AllSettled(s.db.rawItems, jobs, n)
    ensures AllSettled(Run(s, ops).db.rawItems, jobs, n)
    decreases |ops|
  {
    if ops != [] {
      SettledForGood(s, ops[..|ops| - 1], jobs, n);
      StepSettles(Run(s, ops[..|ops| - 1]), jobs, n, ops[|ops| - 1]);
    }
  }

  /** Ingesting a post settles it, whatever the outcome. */
  lemma IngestSettles(db: Db, p: IngestParams, now: Instant)
    requires IsCanonicalInfohash(p.infohash)
    ensures HasItem(Ingest(db, p, now).0.rawItems, p.source, p.sourceId)
  {
    var items := db.rawItems + [ItemFrom(p, now)];
    assert items[|db.rawItems|] == ItemFrom(p, now);
  }

  lemma SettlesNext(t: State, jobs: seq<Job>, n: nat, now: Instant, p: IngestParams)
    requires 0 < n <= |jobs| && AllSettled(t.db.rawItems, jobs, n - 1)
    requires jobs[n - 1] == Some(p) && IsCanonicalInfohash(p.infohash)
    ensures AllSettled(Step(t, OpIngest(p, now)).db.rawItems, jobs, n)
  {
    StepSettles(t, jobs, n - 1, OpIngest(p, now));
    IngestSettles(t.db, p, now);
  }

  /** One more post of a batch that has been settled up to it. */
  lemma SettledStep(t: State, t': State, jobs: seq<Job>, n: nat, now: Instant)
    requires 0 < n <= |jobs| && Canonical(jobs) && AllSettled(t.db.rawItems, jobs, n - 1)
    requires t' == if jobs[n - 1].None? then t else Step(t, OpIngest(jobs[n - 1].value, now))
    ensures AllSettled(t'.db.rawItems, jobs, n)
  {
    if jobs[n - 1].Some? {
      SettlesNext(t, jobs, n, now, jobs[n - 1].value);
    }
  }

  lemma {:induction false} OpsSettle(s: State, jobs: seq<Job>, clock: nat -> Instant, n: nat)
    requires n <= |jobs| && Canonical(jobs)
    ensures AllSettled(Run(s, BatchOps(jobs, clock, 0, n)).db.rawItems, jobs, n)
    decreases n
  {
    if n > 0 {
      OpsSettle(s, jobs, clock, n - 1);
      RunOps(s, jobs, clock, 0, n);
      SettledStep(Run(s, BatchOps(jobs, clock, 0, n - 1)), Run(s, BatchOps(jobs, clock, 0, n)), jobs, n, clock(n - 1));
    }
  }

  /** Ingest operations of settled posts change no table. */
  lemma {:induction false} SettledOpsAreNoOps(s: State, jobs: seq<Job>, clock: nat -> Instant, n: nat)
    requires n <= |jobs| && AllSettled(s.db.rawItems, jobs, n)
    ensures Run(s, BatchOps(jobs, clock, 0, n)) == s
    decreases n
  {
    if n > 0 {
      SettledOpsAreNoOps(s, jobs, clock, n - 1);
      RunOps(s, jobs, clock, 0, n);
      assert Settled(s.db.rawItems, jobs[n - 1]);
    }
  }

  /**
   * Posting a whole batch again, after any operations by anyone, changes no table at all and counts
   * nothing as new or updated.
   */
  lemma RepostIsNoOp(s: State, posts: seq<RawPost>, first: Weather, others: seq<Op>, again: Weather)
    requires Batch(s.db, Jobs(posts), first, |posts|).failure.None?
    ensures var t := Run(s.(db := Batch(s.db, Jobs(posts), first, |posts|).db), others);
            var at := Batch(t.db, Jobs(posts), again, |posts|);
            at.db == t.db && at.batch.added == 0 && at.batch.updated == 0
  {
    BatchPostsCanonicalKeys(posts);
    RepostJobs(s, Jobs(posts), first, others, again);
  }

  lemma RepostJobs(s: State, jobs: seq<Job>, first: Weather, others: seq<Op>, again: Weather)
    requires Canonical(jobs) && Batch(s.db, jobs, first, |jobs|).failure.None?
    ensures var t := Run(s.(db := Batch(s.db, jobs, first, |jobs|).db), others);
            var at := Batch(t.db, jobs, again, |jobs|);
            at.db == t.db && at.batch.added == 0 && at.batch.updated == 0
  {
    BatchIsARun(s, jobs, first, |jobs|);
    OpsSettle(s, jobs, first.clock, |jobs|);
    var t0 := s.(db := Batch(s.db, jobs, first, |jobs|).db);
    SettledForGood(t0, others, jobs, |jobs|);
    var t := Run(t0, others);
    var at := Batch(t.db, jobs, again, |jobs|);
    BatchIsARun(t, jobs, again, |jobs|);
    SettledOpsAreNoOps(t, jobs, again.clock, Applied(at, |jobs|));
    CountsAreExact(t.db, jobs, again, |jobs|);
  }

  // ----- retrying after failures -----

  /** The same row but for queue, decision and bookkeeping times. */
  ghost predicate SameContent(r: Release, q: Release) {
    && r.title == q.title && r.magnet == q.magnet && r.sizeBytes == q.sizeBytes
    && r.publishedAt == q.publishedAt && r.sources == q.sources
  }

  ghost predicate SameItem(a: RawItem, b: RawItem) {
    a.(ingestedAt := 0) == b.(ingestedAt := 0)
  }

  ghost predicate SameItems(a: seq<RawItem>, b: seq<RawItem>) {
    |a| == |b| && forall i :: 0 <= i < |a| ==> SameItem(a[i], b[i])
  }

  /** The same catalogue: releases and raw items agree up to timestamps. */
  ghost predicate SameCatalogue(a: Db, b: Db) {
    && a.releases.Keys == b.releases.Keys
    && (forall h :: h in a.releases ==> SameContent(a.releases[h], b.releases[h]))
    && SameItems(a.rawItems, b.rawItems)
  }

  lemma {:induction false} SameItemsOf(a: seq<RawItem>, b: seq<RawItem>, h: string)
    requires SameItems(a, b)
    ensures SameItems(ItemsOf(a, h), ItemsOf(b, h))
    decreases |a|
  {
    if a != [] {
      SameItemsOf(a[..|a| - 1], b[..|b| - 1], h);
      assert SameItem(a[|a| - 1], b[|b| - 1]);
    }
  }

  lemma {:induction false} SameAggregates(a: seq<RawItem>, b: seq<RawItem>)
    requires SameItems(a, b) && a != []
    ensures SameItem(LatestItem(a), LatestItem(b))
    ensures EarliestPublished(a) == EarliestPublished(b)
    ensures SourcesOf(a) == SourcesOf(b)
    decreases |a|
  {
    assert SameItem(a[|a| - 1], b[|b| - 1]);
    if |a| > 1 {
      SameAggregates(a[..|a| - 1], b[..|b| - 1]);
    } else {
      assert a[..0] == [] && b[..0] == [];
    }
  }

  lemma SameHasItem(a: seq<RawItem>, b: seq<RawItem>, source: string, sourceId: string)
    requires SameItems(a, b) && HasItem(a, source, sourceId)
    ensures HasItem(b, source, sourceId)
  {
    var i :| 0 <= i < |a| && a[i].source == source && a[i].sourceId == sourceId;
    assert SameItem(a[i], b[i]);
  }

  lemma SameItemsSym(a: seq<RawItem>, b: seq<RawItem>)
    requires SameItems(a, b)
    ensures SameItems(b, a)
  {
    forall i | 0 <= i < |b| ensures SameItem(b[i], a[i]) { assert SameItem(a[i], b[i]); }
  }

  lemma SameItemsTrans(a: seq<RawItem>, b: seq<RawItem>, c: seq<RawItem>)
    requires SameItems(a, b) && SameItems(b, c)
    ensures SameItems(a, c)
  {
    forall i | 0 <= i < |a| ensures SameItem(a[i], c[i]) { assert SameItem(a[i], b[i]) && SameItem(b[i], c[i]); }
  }

  lemma SameCatalogueTrans(a: Db, b: Db, c: Db)
    requires SameCatalogue(a, b) && SameCatalogue(b, c)
    ensures SameCatalogue(a, c)
  {
    SameItemsTrans(a.rawItems, b.rawItems, c.rawItems);
    forall h | h in a.releases ensures SameContent(a.releases[h], c.releases[h]) {
      assert h in b.releases.Keys;
      assert SameContent(a.releases[h], b.releases[h]) && SameContent(b.releases[h], c.releases[h]);
    }
  }

  /** The same row written and the same item added on both sides. */
  lemma SameWithItem(a: Db, b: Db, h: string, ra: Release, rb: Release, ia: RawItem, ib: RawItem)
    requires SameCatalogue(a, b) && SameContent(ra, rb) && SameItem(ia, ib)
    ensures SameCatalogue(a.(releases := a.releases[h := ra], rawItems := a.rawItems + [ia]),
                          b.(releases := b.releases[h := rb], rawItems := b.rawItems + [ib]))
  {
    var ma, mb := a.releases[h := ra], b.releases[h := rb];
    forall g | g in ma ensures SameContent(ma[g], mb[g]) {
      if g != h {
        assert g in a.releases;
      }
    }
  }

  /** The post is turned away, or was stored before: nothing changes. */
  lemma IngestNothing(db: Db, p: IngestParams, now: Instant)
    requires !IsCanonicalInfohash(p.infohash) || HasItem(db.rawItems, p.source, p.sourceId)
    ensures Ingest(db, p, now).0 == db
    ensures Ingest(db, p, now).1 == if !IsCanonicalInfohash(p.infohash) || p.infohash in db.releases then Duplicate
            else Conflict
  {
  }

  lemma IngestNew(db: Db, p: IngestParams, now: Instant)
    requires IsCanonicalInfohash(p.infohash) && !HasItem(db.rawItems, p.source, p.sourceId)
             && p.infohash !in db.releases
    ensures Ingest(db, p, now) == (db.(releases := db.releases[p.infohash := FreshRelease(p, now)],
                                       rawItems := db.rawItems + [ItemFrom(p, now)]), New)
  {
  }

  lemma IngestUpdated(db: Db, p: IngestParams, now: Instant)
    requires IsCanonicalInfohash(p.infohash) && !HasItem(db.rawItems, p.source, p.sourceId) && p.infohash in db.releases
    ensures var items := ItemsOf(db.rawItems + [ItemFrom(p, now)], p.infohash);
            && items != []
            && Ingest(db, p, now)
               == (db.(releases := db.releases[p.infohash := RecomputeRow(db.releases[p.infohash], items, p, now)],
                                          rawItems := db.rawItems + [ItemFrom(p, now)]), Updated)
  {
    ItemsOfSnoc(db.rawItems, ItemFrom(p, now), p.infohash);
  }

  lemma SameHasItems(a: seq<RawItem>, b: seq<RawItem>, source: string, sourceId: string)
    requires SameItems(a, b)
    ensures HasItem(a, source, sourceId) <==> HasItem(b, source, sourceId)
  {
    SameItemsSym(a, b);
    if HasItem(a, source, sourceId) {
      SameHasItem(a, b, source, sourceId);
    } else if HasItem(b, source, sourceId) {
      SameHasItem(b, a, source, sourceId);
    }
  }

  lemma SameKeys(a: Db, b: Db, h: string)
    requires SameCatalogue(a, b)
    ensures h in a.releases <==> h in b.releases
    ensures h in a.releases ==> SameContent(a.releases[h], b.releases[h])
  {
    assert h in a.releases.Keys <==> h in b.releases.Keys;
  }

  /** A post that is new on both sides adds the same row and the same item. */
  lemma NewKeepsSame(a: Db, b: Db, p: IngestParams, nowA: Instant, nowB: Instant)
    requires SameCatalogue(a, b) && IsCanonicalInfohash(p.infohash)
    requires !HasItem(a.rawItems, p.source, p.sourceId) && p.infohash !in a.releases
    requires !HasItem(b.rawItems, p.source, p.sourceId) && p.infohash !in b.releases
    ensures SameCatalogue(Ingest(a, p, nowA).0, Ingest(b, p, nowB).0)
    ensures Ingest(a, p, nowA).1 == Ingest(b, p, nowB).1
  {
    IngestNew(a, p, nowA);
    IngestNew(b, p, nowB);
    SameWithItem(a, b, p.infohash, FreshRelease(p, nowA), FreshRelease(p, nowB), ItemFrom(p, nowA), ItemFrom(p, nowB));
  }

  lemma SameMoreItems(a: Db, b: Db, ia: RawItem, ib: RawItem)
    requires SameCatalogue(a, b) && SameItem(ia, ib)
    ensures SameItems(a.rawItems + [ia], b.rawItems + [ib])
  {
  }

  /** A further post for a release that both sides hold recomputes the row alike. */
  lemma UpdateKeepsSame(a: Db, b: Db, p: IngestParams, nowA: Instant, nowB: Instant)
    requires SameCatalogue(a, b) && IsCanonicalInfohash(p.infohash)
    requires !HasItem(a.rawItems, p.source, p.sourceId) && p.infohash in a.releases
    requires !HasItem(b.rawItems, p.source, p.sourceId) && p.infohash in b.releases
    ensures SameCatalogue(Ingest(a, p, nowA).0, Ingest(b, p, nowB).0)
    ensures Ingest(a, p, nowA).1 == Ingest(b, p, nowB).1
  {
    var h, ia, ib := p.infohash, ItemFrom(p, nowA), ItemFrom(p, nowB);
    SameKeys(a, b, h);
    IngestUpdated(a, p, nowA);
    IngestUpdated(b, p, nowB);
    SameMoreItems(a, b, ia, ib);
    SameRecompute(a, b, p, ia, ib, nowA, nowB);
    SameWithItem(a, b, h, RecomputeRow(a.releases[h], ItemsOf(a.rawItems + [ia], h), p, nowA),
                 RecomputeRow(b.releases[h], ItemsOf(b.rawItems + [ib], h), p, nowB), ia, ib);
  }

  /** Ingesting one post into the same catalogue twice gives the same catalogue twice. */
  lemma IngestKeepsSame(a: Db, b: Db, p: IngestParams, nowA: Instant, nowB: Instant)
    requires SameCatalogue(a, b)
    ensures SameCatalogue(Ingest(a, p, nowA).0, Ingest(b, p, nowB).0)
    ensures Ingest(a, p, nowA).1 == Ingest(b, p, nowB).1
  {
    SameHasItems(a.rawItems, b.rawItems, p.source, p.sourceId);
    SameKeys(a, b, p.infohash);
    if !IsCanonicalInfohash(p.infohash) || HasItem(a.rawItems, p.source, p.sourceId) {
      IngestNothing(a, p, nowA);
      IngestNothing(b, p, nowB);
    } else if p.infohash in a.releases {
      UpdateKeepsSame(a, b, p, nowA, nowB);
    } else {
      NewKeepsSame(a, b, p, nowA, nowB);
    }
  }

  lemma SameRecompute(a: Db, b: Db, p: IngestParams, ia: RawItem, ib: RawItem, nowA: Instant, nowB: Instant)
    requires p.infohash in a.releases && p.infohash in b.releases
    requires SameContent(a.releases[p.infohash], b.releases[p.infohash])
    requires ia.infohash == ib.infohash == p.infohash && SameItems(a.rawItems + [ia], b.rawItems + [ib])
    ensures ItemsOf(a.rawItems + [ia], p.infohash) != [] && ItemsOf(b.rawItems + [ib], p.infohash) != []
    ensures SameContent(RecomputeRow(a.releases[p.infohash], ItemsOf(a.rawItems + [ia], p.infohash), p, nowA),
                        RecomputeRow(b.releases[p.infohash], ItemsOf(b.rawItems + [ib], p.infohash), p, nowB))
  {
    var h := p.infohash;
    ItemsOfSnoc(a.rawItems, ia, h);
    ItemsOfSnoc(b.rawItems, ib, h);
    SameItemsOf(a.rawItems + [ia], b.rawItems + [ib], h);
    SameAggregates(ItemsOf(a.rawItems + [ia], h), ItemsOf(b.rawItems + [ib], h));
  }

  /** Operations of the matcher and restarts, as opposed to ingest. */
  ghost predicate NoIngest(ops: seq<Op>) {
    forall i :: 0 <= i < |ops| ==> !ops[i].OpIngest?
  }

  /** Claims, submits and restarts leave the catalogue as it is. */
  lemma {:induction false} OthersKeepCatalogue(s: State, ops: seq<Op>)
    requires NoIngest(ops)
    ensures SameCatalogue(s.db, Run(s, ops).db)
    decreases |ops|
  {
    if ops != [] {
      var init, op := ops[..|ops| - 1], ops[|ops| - 1];
      var t := Run(s, init);
      OthersKeepCatalogue(s, init);
      assert !op.OpIngest?;
      OtherStepKeepsCatalogue(t, op);
      SameCatalogueTrans(s.db, t.db, Step(t, op).db);
    }
  }

  lemma OtherStepKeepsCatalogue(t: State, op: Op)
    requires !op.OpIngest?
    ensures SameCatalogue(t.db, Step(t, op).db)
  {
    StepTables(t, op);
    forall h | h in t.db.releases
      ensures h in Step(t, op).db.releases && SameContent(t.db.releases[h], Step(t, op).db.releases[h])
    {
      StepRow(t, op, h);
    }
    forall h | h in Step(t, op).db.releases ensures h in t.db.releases {
      if h !in t.db.releases { NewRow(t, op, h); }
    }
  }

  lemma {:induction false} OpsKeepSame(s: State, t: State, jobs: seq<Job>, c: nat -> Instant, d: nat -> Instant,
                                       m: nat, n: nat)
    requires m <= n <= |jobs| && SameCatalogue(s.db, t.db)
    ensures SameCatalogue(Run(s, BatchOps(jobs, c, m, n)).db, Run(t, BatchOps(jobs, d, m, n)).db)
    decreases n
  {
    if n > m {
      OpsKeepSame(s, t, jobs, c, d, m, n - 1);
      RunOps(s, jobs, c, m, n);
      RunOps(t, jobs, d, m, n);
      if jobs[n - 1].Some? {
        IngestKeepsSame(Run(s, BatchOps(jobs, c, m, n - 1)).db, Run(t, BatchOps(jobs, d, m, n - 1)).db,
                        jobs[n - 1].value, c(n - 1), d(n - 1));
      }
    }
  }

  lemma {:induction false} OpsSplit(s: State, jobs: seq<Job>, c: nat -> Instant, m: nat, n: nat)
    requires m <= n <= |jobs|
    ensures Run(s, BatchOps(jobs, c, 0, n)) == Run(Run(s, BatchOps(jobs, c, 0, m)), BatchOps(jobs, c, m, n))
    decreases n
  {
    if n > m {
      var t := Run(s, BatchOps(jobs, c, 0, m));
      OpsSplit(s, jobs, c, m, n - 1);
      RunOps(s, jobs, c, 0, n);
      RunOps(t, jobs, c, m, n);
      SameStep(Run(s, BatchOps(jobs, c, 0, n - 1)), Run(t, BatchOps(jobs, c, m, n - 1)), jobs[n - 1], c(n - 1),
               Run(s, BatchOps(jobs, c, 0, n)), Run(t, BatchOps(jobs, c, m, n)));
    }
  }

  /** The same post takes the same state to the same state. */
  lemma SameStep(x: State, y: State, job: Job, now: Instant, x': State, y': State)
    requires x == y
    requires x' == if job.None? then x else Step(x, OpIngest(job.value, now))
    requires y' == if job.None? then y else Step(y, OpIngest(job.value, now))
    ensures x' == y'
  {
  }

  /** One attempt at posting a batch, and what others did to the queue before it. */
  datatype Attempt = Attempt(before: seq<Op>, weather: Weather)

  /** The store after a series of attempts at the same batch. */
  ghost function Attempts(s: State, jobs: seq<Job>, tries: seq<Attempt>): State {
    if tries == [] then s
    else
      var last := tries[|tries| - 1];
      var t := Run(Attempts(s, jobs, tries[..|tries| - 1]), last.before);
      t.(db := Batch(t.db, jobs, last.weather, |jobs|).db)
  }

  /** t holds what a clean posting of the first m posts to s would have stored. */
  ghost predicate Reached(s: State, t: State, jobs: seq<Job>, clock: nat -> Instant, m: nat) {
    && m <= |jobs|
    && SameCatalogue(Run(s, BatchOps(jobs, clock, 0, m)).db, t.db)
    && AllSettled(t.db.rawItems, jobs, m)
  }

  /** An attempt repeats what was reached without effect and goes on from there. */
  lemma AttemptGoesOn(s: State, t: State, jobs: seq<Job>, clock: nat -> Instant, m: nat, w: Weather) returns (k: nat)
    requires Canonical(jobs) && Reached(s, t, jobs, clock, m)
    ensures k >= m && Reached(s, t.(db := Batch(t.db, jobs, w, |jobs|).db), jobs, clock, k)
    ensures Batch(t.db, jobs, w, |jobs|).failure.None? ==> k == |jobs|
  {
    var at := Batch(t.db, jobs, w, |jobs|);
    var n := Applied(at, |jobs|);
    BatchIsARun(t, jobs, w, |jobs|);
    if n <= m {
      k := m;
      forall i | 0 <= i < n ensures Settled(t.db.rawItems, jobs[i]) { }
      SettledOpsAreNoOps(t, jobs, w.clock, n);
    } else {
      k := n;
      OpsSplit(t, jobs, w.clock, m, n);
      SettledOpsAreNoOps(t, jobs, w.clock, m);
      OpsSplit(s, jobs, clock, m, n);
      OpsKeepSame(Run(s, BatchOps(jobs, clock, 0, m)), t, jobs, clock, w.clock, m, n);
      OpsSettle(t, jobs, w.clock, n);
    }
  }

  ghost predicate NoIngestBetween(tries: seq<Attempt>) {
    forall i :: 0 <= i < |tries| ==> NoIngest(tries[i].before)
  }

  lemma {:induction false} AttemptsReach(s: State, jobs: seq<Job>, tries: seq<Attempt>, clock: nat -> Instant)
      returns (m: nat)
    requires Canonical(jobs) && NoIngestBetween(tries)
    ensures Reached(s, Attempts(s, jobs, tries), jobs, clock, m)
    decreases |tries|
  {
    if tries == [] {
      m := 0;
      assert forall i :: 0 <= i < |s.db.rawItems| ==> SameItem(s.db.rawItems[i], s.db.rawItems[i]);
    } else {
      var init, last := tries[..|tries| - 1], tries[|tries| - 1];
      m := AttemptsReach(s, jobs, init, clock);
      var t := Attempts(s, jobs, init);
      assert NoIngest(last.before);
      OthersKeepCatalogue(t, last.before);
      SameCatalogueTrans(Run(s, BatchOps(jobs, clock, 0, m)).db, t.db, Run(t, last.before).db);
      SettledForGood(t, last.before, jobs, m);
      m := AttemptGoesOn(s, Run(t, last.before), jobs, clock, m, last.weather);
    }
  }

  const CALM: nat -> Fault := i => NoFault

  /**
   * However often a batch failed, at whatever posts, and whatever claims, submits and restarts came
   * between the attempts: once an attempt goes through, the releases and raw items are those of one
   * clean posting, up to timestamps.
   */
  lemma RetryReachesCleanRun(s: State, posts: seq<RawPost>, tries: seq<Attempt>, last: Attempt, clock: nat -> Instant)
    requires NoIngestBetween(tries) && NoIngest(last.before)
    requires Batch(Run(Attempts(s, Jobs(posts), tries), last.before).db, Jobs(posts), last.weather,
                   |posts|).failure.None?
    ensures SameCatalogue(Batch(s.db, Jobs(posts), Weather(clock, CALM), |posts|).db,
                          Attempts(s, Jobs(posts), tries + [last]).db)
  {
    BatchPostsCanonicalKeys(posts);
    RetryJobs(s, Jobs(posts), tries, last, clock);
  }

  lemma RetryJobs(s: State, jobs: seq<Job>, tries: seq<Attempt>, last: Attempt, clock: nat -> Instant)
    requires Canonical(jobs) && NoIngestBetween(tries) && NoIngest(last.before)
    requires Batch(Run(Attempts(s, jobs, tries), last.before).db, jobs, last.weather, |jobs|).failure.None?
    ensures SameCatalogue(Batch(s.db, jobs, Weather(clock, CALM), |jobs|).db, Attempts(s, jobs, tries + [last]).db)
  {
    var m := AttemptsReach(s, jobs, tries, clock);
    var t := Attempts(s, jobs, tries);
    OthersKeepCatalogue(t, last.before);
    SameCatalogueTrans(Run(s, BatchOps(jobs, clock, 0, m)).db, t.db, Run(t, last.before).db);
    SettledForGood(t, last.before, jobs, m);
    m := AttemptGoesOn(s, Run(t, last.before), jobs, clock, m, last.weather);
    assert (tries + [last])[..|tries|] == tries;
    CalmSucceeds(s.db, jobs, clock, |jobs|);
    BatchIsARun(s, jobs, Weather(clock, CALM), |jobs|);
  }

  lemma {:induction false} CalmSucceeds(db: Db, jobs: seq<Job>, clock: nat -> Instant, n: nat)
    requires n <= |jobs|
    ensures Batch(db, jobs, Weather(clock, CALM), n).failure.None?
    decreases n
  {
    if n > 0 {
      CalmSucceeds(db, jobs, clock, n - 1);
    }
  }
}
