/** Row by row, what one transaction can do: the case analysis every store theorem rests on. */
module StoreSteps {
  import opened Basics
  import opened StoreModel

  /** The row h is among those the operation leases. */
  ghost predicate Leases(s: State, op: Op, h: string) {
    && op.OpClaim?
    && h in HashesOf(ClaimKeys(s.db, s.cap, op.limit, op.now, op.locked))
  }

  /** The operation is a submit for h that goes through. */
  ghost predicate Accepts(s: State, op: Op, h: string) {
    && op.OpSubmit?
    && op.submission.infohash == h
    && SubmitVerdict(s.db, op.submission, op.now).None?
  }

  /** The operation adds a raw item to the release h. */
  ghost predicate Adds(s: State, op: Op, h: string) {
    && op.OpIngest?
    && op.params.infohash == h
    && Ingest(s.db, op.params, op.now).1 in {New, Updated}
  }

  ghost predicate Sweeps(s: State, op: Op, h: string) {
    && op.OpClaim?
    && h in s.db.releases
    && SweepDue(s.db.releases[h], s.cap, op.now)
  }

  lemma LeasedWasClaimable(s: State, op: Op, h: string)
    requires Leases(s, op, h)
    ensures h in s.db.releases && Claimable(s.db.releases[h], s.cap, op.now)
    ensures !Sweeps(s, op, h) && h !in op.locked
    ensures QueueKey(s.db.releases, h) in ClaimKeys(s.db, s.cap, op.limit, op.now, op.locked)
  {
    var keys := ClaimKeys(s.db, s.cap, op.limit, op.now, op.locked);
    ChosenAreRows(Sweep(s.db.releases, s.cap, op.now), s.cap, op.now, ClaimLimit(op.limit), op.locked);
    var i :| 0 <= i < |keys| && keys[i].hash == h;
    assert keys[i] in keys;
  }

  /** Every row a claim selects is a free, claimable one. */
  lemma ChosenAreFree(rs: Releases, cap: nat, now: Instant, limit: nat, locked: set<string>, h: string)
    requires h in HashesOf(Chosen(rs, cap, now, limit, locked))
    ensures h in rs && h !in locked && Claimable(rs[h], cap, now)
  {
    var keys := Chosen(rs, cap, now, limit, locked);
    ChosenAreRows(rs, cap, now, limit, locked);
    var i :| 0 <= i < |keys| && keys[i].hash == h;
    assert keys[i] in keys;
  }

  /** What one operation does to the row of an existing release. */
  ghost function RowAfter(s: State, op: Op, h: string): Release
    requires h in s.db.releases
  {
    var r := s.db.releases[h];
    if Sweeps(s, op, h) then SweepRow(r, op.now)
    else if Leases(s, op, h) then LeaseRow(r, op.now, op.now + LeaseNanos(op.leaseSeconds))
    else if Accepts(s, op, h) then SubmitRow(r, op.submission, s.cap, op.now)
    else if Adds(s, op, h) then
      var items := s.db.rawItems + [ItemFrom(op.params, op.now)];
      assert items[..|items| - 1] == s.db.rawItems;
      RecomputeRow(r, ItemsOf(items, h), op.params, op.now)
    else r
  }

  lemma StepRow(s: State, op: Op, h: string)
    requires h in s.db.releases
    ensures h in Step(s, op).db.releases
    ensures Step(s, op).db.releases[h] == RowAfter(s, op, h)
  {
    if Leases(s, op, h) {
      LeasedWasClaimable(s, op, h);
    }
  }

  /** What a claim does to one row, in terms of the row itself. */
  lemma ClaimRow(db: Db, cap: nat, limit: int, leaseSeconds: int, now: Instant, locked: set<string>, h: string)
    requires h in db.releases
    ensures h in Claim(db, cap, limit, leaseSeconds, now, locked).releases
    ensures h in HashesOf(ClaimKeys(db, cap, limit, now, locked)) ==>
              Claimable(db.releases[h], cap, now) && h !in locked
    ensures Claim(db, cap, limit, leaseSeconds, now, locked).releases[h]
            == if SweepDue(db.releases[h], cap, now) then SweepRow(db.releases[h], now)
               else if h in HashesOf(ClaimKeys(db, cap, limit, now, locked))
                 then LeaseRow(db.releases[h], now, now + LeaseNanos(leaseSeconds))
               else db.releases[h]
  {
    if h in HashesOf(ClaimKeys(db, cap, limit, now, locked)) {
      ChosenAreFree(Sweep(db.releases, cap, now), cap, now, ClaimLimit(limit), locked, h);
    }
  }

  /** The queue columns of a row, before and after one operation. */
  ghost predicate QueueMoves(s: State, op: Op, h: string, r: Release, r': Release) {
    && (Leases(s, op, h) ==>
          && Claimable(r, s.cap, op.now)
          && r' == LeaseRow(r, op.now, op.now + LeaseNanos(op.leaseSeconds)))
    && (Sweeps(s, op, h) ==> SweepDue(r, s.cap, op.now) && r' == SweepRow(r, op.now))
    && (Accepts(s, op, h) ==>
          && r.status == Unmatched && r.leaseExpires.Some? && r'.token == r.token
          && (r'.status == Unmatched ==> r'.claimedAt == r.claimedAt && r'.leaseExpires == r.leaseExpires)
          && (r'.status != Unmatched ==> r'.claimedAt == None && r'.leaseExpires == None))
    && (!Leases(s, op, h) && !Sweeps(s, op, h) && !Accepts(s, op, h) ==>
          && r'.status == r.status && r'.token == r.token && r'.attempts == r.attempts
          && r'.claimedAt == r.claimedAt && r'.leaseExpires == r.leaseExpires)
  }

  lemma StepQueueMoves(s: State, op: Op, h: string)
    requires h in s.db.releases
    ensures h in Step(s, op).db.releases
    ensures QueueMoves(s, op, h, s.db.releases[h], Step(s, op).db.releases[h])
  {
    StepRow(s, op, h);
    if Leases(s, op, h) {
      LeasedWasClaimable(s, op, h);
    }
  }

  /** A release enters the catalogue only by ingest, as a fresh row. */
  lemma NewRow(s: State, op: Op, h: string)
    requires h !in s.db.releases && h in Step(s, op).db.releases
    ensures op.OpIngest? && Adds(s, op, h)
    ensures Step(s, op).db.releases[h] == FreshRelease(op.params, op.now)
  {
  }

  /** raw_items and match_events only ever grow at the end. */
  lemma StepTables(s: State, op: Op)
    ensures Step(s, op).db.rawItems ==
            s.db.rawItems + (if op.OpIngest? && Adds(s, op, op.params.infohash) then [ItemFrom(op.params, op.now)]
                             else [])
    ensures Step(s, op).db.events ==
            s.db.events + (if op.OpSubmit? && Accepts(s, op, op.submission.infohash)
                           then [EventFrom(op.submission,
                                           FinalStatus(op.submission, s.db.releases[op.submission.infohash].attempts,
                                                       s.cap),
                                           op.now)]
                           else [])
  {
  }

  /** The columns a decision fixes. */
  ghost predicate SameDecision(r: Release, r': Release) {
    && r'.status == r.status && r'.ref == r.ref && r'.confidence == r.confidence
    && r'.firstMatchedAt == r.firstMatchedAt && r'.attempts == r.attempts && r'.token == r.token
    && r'.claimedAt == r.claimedAt && r'.leaseExpires == r.leaseExpires
  }

  /** Terminal statuses absorb: no run of operations changes anything but the representative fields. */
  lemma {:induction false} TerminalAbsorbs(s: State, ops: seq<Op>, h: string)
    requires h in s.db.releases && s.db.releases[h].status != Unmatched
    ensures h in Run(s, ops).db.releases
    ensures SameDecision(s.db.releases[h], Run(s, ops).db.releases[h])
    decreases |ops|
  {
    if ops != [] {
      TerminalAbsorbs(s, ops[..|ops| - 1], h);
      StepRow(Run(s, ops[..|ops| - 1]), ops[|ops| - 1], h);
      if Leases(Run(s, ops[..|ops| - 1]), ops[|ops| - 1], h) {
        LeasedWasClaimable(Run(s, ops[..|ops| - 1]), ops[|ops| - 1], h);
      }
    }
  }

  /** Ingest never touches the queue or the decision columns of a release that already exists. */
  lemma IngestKeepsDecision(db: Db, p: IngestParams, now: Instant, h: string)
    requires h in db.releases
    ensures h in Ingest(db, p, now).0.releases
    ensures SameDecision(db.releases[h], Ingest(db, p, now).0.releases[h])
    ensures h != p.infohash ==> Ingest(db, p, now).0.releases[h] == db.releases[h]
    ensures Ingest(db, p, now).0.events == db.events
  {
  }
}
