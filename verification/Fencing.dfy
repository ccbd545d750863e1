/** Claim tokens fence submits, and exactly when leases of one release can overlap, over whole runs. */
module Fencing {
  import opened Basics
  import opened Ordering
  import opened StoreModel
  import opened StoreSteps

  /** One claim of one release: the token it issued and the interval it leased. */
  datatype Grant = Grant(token: nat, claimedAt: Instant, expires: Instant)

  ghost function GrantsOf(s: State, op: Op, h: string): seq<Grant> {
    if Leases(s, op, h) then
      LeasedWasClaimable(s, op, h);
      StepRow(s, op, h);
      [Grant(Step(s, op).db.releases[h].token, op.now, op.now + LeaseNanos(op.leaseSeconds))]
    else []
  }

  /** Every claim of h in the course of the run, in order. */
  ghost function Grants(s: State, ops: seq<Op>, h: string): seq<Grant> {
    if ops == [] then []
    else
      var init := ops[..|ops| - 1];
      Grants(s, init, h) + GrantsOf(Run(s, init), ops[|ops| - 1], h)
  }

  ghost predicate LeaseMatches(r: Release, grants: seq<Grant>) {
    && r.token == |grants|
    && (r.status == Unmatched && grants != [] ==>
          && r.claimedAt == Some(grants[|grants| - 1].claimedAt)
          && r.leaseExpires == Some(grants[|grants| - 1].expires))
    && (r.status != Unmatched || grants == [] ==> r.claimedAt == None && r.leaseExpires == None)
  }

  ghost predicate Numbered(grants: seq<Grant>) {
    forall i :: 0 <= i < |grants| ==> grants[i].token == i + 1
  }

  /** Each claim starts no earlier than the lease before it ran out. */
  ghost predicate Chained(grants: seq<Grant>) {
    forall i :: 0 <= i < |grants| - 1 ==> grants[i].expires <= grants[i + 1].claimedAt
  }

  ghost predicate RowFollows(s: State, h: string, grants: seq<Grant>) {
    && Numbered(grants)
    && Chained(grants)
    && (h !in s.db.releases ==> grants == [])
    && (h in s.db.releases ==> LeaseMatches(s.db.releases[h], grants))
  }

  lemma RowKeepsFollowing(r: Release, r': Release, grants: seq<Grant>, s: State, op: Op, h: string)
    requires LeaseMatches(r, grants) && QueueMoves(s, op, h, r, r') && !Leases(s, op, h)
    ensures LeaseMatches(r', grants)
  {
  }

  lemma LeasedRowFollows(r: Release, grants: seq<Grant>, cap: nat, now: Instant, expires: Instant)
    requires LeaseMatches(r, grants) && Numbered(grants) && Chained(grants) && Claimable(r, cap, now)
    ensures var grants' := grants + [Grant(r.token + 1, now, expires)];
            LeaseMatches(LeaseRow(r, now, expires), grants') && Numbered(grants') && Chained(grants')
  {
  }

  lemma StepFollows(s: State, op: Op, h: string, grants: seq<Grant>)
    requires RowFollows(s, h, grants)
    ensures RowFollows(Step(s, op), h, grants + GrantsOf(s, op, h))
  {
    if Leases(s, op, h) {
      LeasedWasClaimable(s, op, h);
      StepQueueMoves(s, op, h);
      LeasedRowFollows(s.db.releases[h], grants, s.cap, op.now, op.now + LeaseNanos(op.leaseSeconds));
    } else {
      assert grants + GrantsOf(s, op, h) == grants;
      if h in s.db.releases {
        StepQueueMoves(s, op, h);
        RowKeepsFollowing(s.db.releases[h], Step(s, op).db.releases[h], grants, s, op, h);
      } else if h in Step(s, op).db.releases {
        NewRow(s, op, h);
      }
    }
  }

  /**
   * In every reachable state the row's token counts its claims, the i-th claim was issued token i,
   * an unmatched row holds exactly the lease of its last claim and any other row holds none. Clock
   * readings and attempt caps are arbitrary.
   */
  lemma {:induction false} RowFollowsItsClaims(config: int, ops: seq<Op>, h: string)
    ensures RowFollows(Run(Initial(config), ops), h, Grants(Initial(config), ops, h))
    decreases |ops|
  {
    if ops != [] {
      var init := ops[..|ops| - 1];
      RowFollowsItsClaims(config, init, h);
      StepFollows(Run(Initial(config), init), ops[|ops| - 1], h, Grants(Initial(config), init, h));
    }
  }

  /** Each claim of a release issues a strictly larger token than every claim before it. */
  lemma TokensStrictlyIncrease(config: int, ops: seq<Op>, h: string)
    ensures forall i, j :: 0 <= i < j < |Grants(Initial(config), ops, h)| ==>
              Grants(Initial(config), ops, h)[i].token < Grants(Initial(config), ops, h)[j].token
  {
    RowFollowsItsClaims(config, ops, h);
  }

  /** The claims of a longer run extend those of its beginning. */
  lemma {:induction false} GrantsExtend(s: State, a: seq<Op>, b: seq<Op>, h: string)
    ensures Grants(s, a, h) <= Grants(s, a + b, h)
    decreases |b|
  {
    if b == [] {
      assert a + b == a;
    } else {
      assert (a + b)[..|a + b| - 1] == a + b[..|b| - 1];
      GrantsExtend(s, a, b[..|b| - 1], h);
    }
  }

  /**
   * Exactly which submits go through, told from history alone: the release is still unmatched, the
   * token is that of its last claim, and that claim's lease is running by the submit's own clock.
   * ErrNoActiveLease is never returned: a row in any other status has no lease to test.
   */
  lemma SubmitOutcome(config: int, ops: seq<Op>, p: SubmitParams, now: Instant)
    ensures var s := Run(Initial(config), ops);
            var grants := Grants(Initial(config), ops, p.infohash);
            var verdict := SubmitVerdict(s.db, p, now);
            && (verdict == None <==>
                  && ValidateSubmit(p) == None
                  && p.infohash in s.db.releases
                  && s.db.releases[p.infohash].status == Unmatched
                  && grants != []
                  && p.claimToken == grants[|grants| - 1].token
                  && now < grants[|grants| - 1].expires)
            && (verdict == Some(NoSuchRelease) <==> ValidateSubmit(p) == None && p.infohash !in s.db.releases)
            && verdict != Some(NoActiveLease)
  {
    RowFollowsItsClaims(config, ops, p.infohash);
    var s := Run(Initial(config), ops);
    if p.infohash in s.db.releases {
      LeaseCheck(s.db.releases[p.infohash], Grants(Initial(config), ops, p.infohash), p.claimToken, now);
    }
  }

  /** The lease check on a row that follows its claims. */
  lemma LeaseCheck(r: Release, grants: seq<Grant>, token: int, now: Instant)
    requires LeaseMatches(r, grants) && Numbered(grants)
    ensures CheckLease(r, token, now) == None <==>
              && r.status == Unmatched && grants != []
              && token == grants[|grants| - 1].token && now < grants[|grants| - 1].expires
    ensures CheckLease(r, token, now) in {None, Some(StaleLease)}
  {
  }

  /**
   * Fencing: once a later claim of the release has happened, the token of an earlier one is turned
   * down for ever, whatever runs in between and whatever the clocks say.
   */
  lemma SupersededTokenNeverAccepted(config: int, before: seq<Op>, after: seq<Op>, p: SubmitParams, now: Instant,
                                     i: nat)
    requires i + 1 < |Grants(Initial(config), before, p.infohash)|
    requires p.claimToken == Grants(Initial(config), before, p.infohash)[i].token
    ensures SubmitVerdict(Run(Initial(config), before + after).db, p, now).Some?
    ensures Submit(Run(Initial(config), before + after).db, Run(Initial(config), before + after).cap, p, now)
            == Run(Initial(config), before + after).db
  {
    RowFollowsItsClaims(config, before, p.infohash);
    RowFollowsItsClaims(config, before + after, p.infohash);
    GrantsExtend(Initial(config), before, after, p.infohash);
  }

  // ----- lease exclusion -----

  /** The lease is running at t. */
  predicate Live(g: Grant, t: Instant) {
    g.claimedAt <= t < g.expires
  }

  ghost predicate Overlap(a: Grant, b: Grant) {
    exists t: Instant :: Live(a, t) && Live(b, t)
  }

  /** No two leases are ever running at the same instant. */
  ghost predicate Exclusive(grants: seq<Grant>) {
    forall i, j :: 0 <= i < j < |grants| ==> !Overlap(grants[i], grants[j])
  }

  /** The leases follow one another: none starts before every earlier one has run out. */
  ghost predicate InTokenOrder(grants: seq<Grant>) {
    forall i, j :: 0 <= i < j < |grants| ==> grants[i].expires <= grants[j].claimedAt
  }

  predicate LeasesRunForward(ops: seq<Op>) {
    forall i :: 0 <= i < |ops| && ops[i].OpClaim? ==> LeaseNanos(ops[i].leaseSeconds) >= 0
  }

  predicate NoLeaseRunsForward(ops: seq<Op>) {
    forall i :: 0 <= i < |ops| && ops[i].OpClaim? ==> LeaseNanos(ops[i].leaseSeconds) <= 0
  }

  lemma {:induction false} GrantsRunForward(s: State, ops: seq<Op>, h: string)
    requires LeasesRunForward(ops)
    ensures forall i :: 0 <= i < |Grants(s, ops, h)| ==> Grants(s, ops, h)[i].claimedAt <= Grants(s, ops, h)[i].expires
    decreases |ops|
  {
    if ops != [] {
      GrantsRunForward(s, ops[..|ops| - 1], h);
    }
  }

  lemma {:induction false} GrantsAreEmpty(s: State, ops: seq<Op>, h: string)
    requires NoLeaseRunsForward(ops)
    ensures forall i :: 0 <= i < |Grants(s, ops, h)| ==> Grants(s, ops, h)[i].expires <= Grants(s, ops, h)[i].claimedAt
    decreases |ops|
  {
    if ops != [] {
      GrantsAreEmpty(s, ops[..|ops| - 1], h);
    }
  }

  lemma {:induction false} ChainedForwardIsOrdered(grants: seq<Grant>, i: nat, j: nat)
    requires Chained(grants) && i < j < |grants|
    requires forall k :: 0 <= k < |grants| ==> grants[k].claimedAt <= grants[k].expires
    ensures grants[i].expires <= grants[j].claimedAt
    decreases j
  {
    if i + 1 < j {
      ChainedForwardIsOrdered(grants, i, j - 1);
    }
    assert grants[j - 1].expires <= grants[j - 1 + 1].claimedAt;
  }

  /**
   * Lease exclusion without a monotone clock: the intervals [claimedAt, expires) of all claims of
   * one release are pairwise disjoint and ordered by token, even when operations run on stale or
   * backward clocks, as long as no lease length wraps to a negative number.
   */
  lemma LeasesExclude(config: int, ops: seq<Op>, h: string)
    requires LeasesRunForward(ops)
    ensures InTokenOrder(Grants(Initial(config), ops, h))
    ensures Exclusive(Grants(Initial(config), ops, h))
  {
    RowFollowsItsClaims(config, ops, h);
    GrantsRunForward(Initial(config), ops, h);
    var grants := Grants(Initial(config), ops, h);
    forall i, j | 0 <= i < j < |grants| ensures grants[i].expires <= grants[j].claimedAt {
      ChainedForwardIsOrdered(grants, i, j);
    }
  }

  /** Any lease up to 9223372036 seconds (292 years) is safe. */
  lemma OrdinaryLeaseRunsForward(leaseSeconds: int)
    requires leaseSeconds <= 9_223_372_036
    ensures LeaseNanos(leaseSeconds) > 0
  {
  }

  lemma SoleRowIsLeased(s: State, op: Op, h: string)
    requires op.OpClaim? && op.locked == {} && s.db.releases.Keys == {h} && Claimable(s.db.releases[h], s.cap, op.now)
    ensures Leases(s, op, h)
  {
    var rs := Sweep(s.db.releases, s.cap, op.now);
    var key := QueueKey(rs, h);
    assert rs.Keys == {h};
    var all := ClaimableKeys(rs, s.cap, op.now, op.locked);
    DescLists(all);
    assert key in all && key in Desc(all) && |all| >= 1;
    forall k | k in all ensures k == key {}
    var keys := ClaimKeys(s.db, s.cap, op.limit, op.now, op.locked);
    assert keys == Take(Desc(all), ClaimLimit(op.limit));
    assert |keys| >= 1 && keys[0] == Desc(all)[0] && keys[0] in all;
    assert keys[0].hash == h;
  }

  /** A release claimed by `leaseSeconds` requests only, at the given clock readings. */
  function ClaimAt(leaseSeconds: int, now: Instant): Op {
    OpClaim(1, leaseSeconds, now, {})
  }

  lemma SoleRowClaims(s: State, h: string, leaseSeconds: int, now: Instant)
    requires s.db.releases.Keys == {h} && Claimable(s.db.releases[h], s.cap, now)
    ensures var s' := Step(s, ClaimAt(leaseSeconds, now));
            && s'.cap == s.cap && s'.db.releases.Keys == {h}
            && s'.db.releases[h] == LeaseRow(s.db.releases[h], now, now + LeaseNanos(leaseSeconds))
            && GrantsOf(s, ClaimAt(leaseSeconds, now), h)
               == [Grant(s.db.releases[h].token + 1, now, now + LeaseNanos(leaseSeconds))]
  {
    SoleRowIsLeased(s, ClaimAt(leaseSeconds, now), h);
    StepQueueMoves(s, ClaimAt(leaseSeconds, now), h);
  }

  lemma RunSnoc(s: State, ops: seq<Op>, op: Op, h: string)
    ensures Run(s, ops + [op]) == Step(Run(s, ops), op)
    ensures Grants(s, ops + [op], h) == Grants(s, ops, h) + GrantsOf(Run(s, ops), op, h)
  {
    assert (ops + [op])[..|ops + [op]| - 1] == ops;
  }

  /** All claims of the run ask for one of these lease lengths. */
  ghost predicate RequestsOnly(ops: seq<Op>, lengths: iset<int>) {
    forall i :: 0 <= i < |ops| && ops[i].OpClaim? ==> ops[i].leaseSeconds in lengths
  }

  /** The catalogue holds the single release h and a claim at `now` would take it. */
  ghost predicate Ready(s: State, h: string, now: Instant) {
    s.db.releases.Keys == {h} && Claimable(s.db.releases[h], s.cap, now)
  }

  /** One more claim, which leaves the release ready for any clock reading from its expiry on. */
  lemma ClaimAgain(s: State, ops: seq<Op>, h: string, lengths: iset<int>, leaseSeconds: int, now: Instant)
      returns (longer: seq<Op>)
    requires Ready(Run(s, ops), h, now) && RequestsOnly(ops, lengths) && leaseSeconds in lengths
    ensures RequestsOnly(longer, lengths)
    ensures forall t: Instant :: t >= now + LeaseNanos(leaseSeconds) ==> Ready(Run(s, longer), h, t)
    ensures Grants(s, longer, h) == Grants(s, ops, h)
              + [Grant(Run(s, ops).db.releases[h].token + 1, now, now + LeaseNanos(leaseSeconds))]
  {
    RunSnoc(s, ops, ClaimAt(leaseSeconds, now), h);
    SoleRowClaims(Run(s, ops), h, leaseSeconds, now);
    longer := ops + [ClaimAt(leaseSeconds, now)];
  }

  lemma FirstIngest(config: int, p: IngestParams)
    requires IsCanonicalInfohash(p.infohash)
    ensures Ready(Run(Initial(config), [OpIngest(p, 0)]), p.infohash, 0)
    ensures Grants(Initial(config), [OpIngest(p, 0)], p.infohash) == []
  {
    var ops := [OpIngest(p, 0)];
    assert ops == [] + [OpIngest(p, 0)];
    RunSnoc(Initial(config), [], OpIngest(p, 0), p.infohash);
  }

  const SAMPLE: IngestParams := IngestParams(seq(40, _ => 'a'), "dmhy", "1", "", "", "", 0, 0)

  /** Three claims of one release by the given lengths, at clock readings that each find it ready. */
  lemma ThreeClaims(config: int, lengths: iset<int>, l0: int, l1: int, t1: Instant, l2: int, t2: Instant)
      returns (ops: seq<Op>)
    requires l0 in lengths && l1 in lengths && l2 in lengths
    requires t1 >= LeaseNanos(l0) && t2 >= t1 + LeaseNanos(l1)
    ensures RequestsOnly(ops, lengths)
    ensures var grants := Grants(Initial(config), ops, SAMPLE.infohash);
            && |grants| == 3
            && (grants[0].claimedAt, grants[0].expires) == (0, LeaseNanos(l0))
            && (grants[2].claimedAt, grants[2].expires) == (t2, t2 + LeaseNanos(l2))
  {
    var h, s := SAMPLE.infohash, Initial(config);
    FirstIngest(config, SAMPLE);
    ops := ClaimAgain(s, [OpIngest(SAMPLE, 0)], h, lengths, l0, 0);
    ops := ClaimAgain(s, ops, h, lengths, l1, t1);
    ops := ClaimAgain(s, ops, h, lengths, l2, t2);
  }

  /**
   * A lease that wraps below zero hands the row on at once, to a claim with an earlier clock reading:
   * three such claims do not follow one another in token order. Their intervals are empty.
   */
  lemma BackwardLeasesLoseOrder(config: int, lengths: iset<int>, back: int) returns (ops: seq<Op>)
    requires back in lengths && LeaseNanos(back) < 0
    ensures RequestsOnly(ops, lengths)
    ensures !InTokenOrder(Grants(Initial(config), ops, SAMPLE.infohash))
  {
    var d := LeaseNanos(back);
    ops := ThreeClaims(config, lengths, back, back, d, back, d + d);
    var grants := Grants(Initial(config), ops, SAMPLE.infohash);
    assert grants[0].expires > grants[2].claimedAt;
  }

  /**
   * The run in which two leases overlap: an ordinary claim, one whose length wraps below zero as soon
   * as the first lease is over, and an ordinary one on a clock that is a nanosecond behind. The first
   * and the third lease are both running at that reading.
   */
  lemma MixedLeasesOverlap(config: int, lengths: iset<int>, forth: int, back: int) returns (ops: seq<Op>)
    requires forth in lengths && back in lengths && LeaseNanos(back) < 0 < LeaseNanos(forth)
    ensures RequestsOnly(ops, lengths)
    ensures !Exclusive(Grants(Initial(config), ops, SAMPLE.infohash))
  {
    var p := LeaseNanos(forth);
    ops := ThreeClaims(config, lengths, forth, back, p, forth, p - 1);
    var grants := Grants(Initial(config), ops, SAMPLE.infohash);
    assert Live(grants[0], p - 1) && Live(grants[2], p - 1);
    assert Overlap(grants[0], grants[2]);
  }

  /** The lengths hold both one that runs forward and one that wraps below zero. */
  ghost predicate Mixed(lengths: iset<int>) {
    exists forth, back :: forth in lengths && back in lengths && LeaseNanos(back) < 0 < LeaseNanos(forth)
  }

  /** Leases are disjoint in any run that does not mix lengths of both signs. */
  lemma UnmixedLeasesExclude(config: int, ops: seq<Op>, h: string, lengths: iset<int>)
    requires RequestsOnly(ops, lengths) && !Mixed(lengths)
    ensures Exclusive(Grants(Initial(config), ops, h))
  {
    if LeasesRunForward(ops) {
      LeasesExclude(config, ops, h);
    } else {
      var i :| 0 <= i < |ops| && ops[i].OpClaim? && LeaseNanos(ops[i].leaseSeconds) < 0;
      forall j | 0 <= j < |ops| && ops[j].OpClaim? ensures LeaseNanos(ops[j].leaseSeconds) <= 0 {
        assert ops[i].leaseSeconds in lengths && ops[j].leaseSeconds in lengths;
      }
      GrantsAreEmpty(Initial(config), ops, h);
    }
  }

  ghost predicate AlwaysExclusive(lengths: iset<int>) {
    forall config, ops, h :: RequestsOnly(ops, lengths) ==> Exclusive(Grants(Initial(config), ops, h))
  }

  ghost predicate AlwaysInTokenOrder(lengths: iset<int>) {
    forall config, ops, h :: RequestsOnly(ops, lengths) ==> InTokenOrder(Grants(Initial(config), ops, h))
  }

  /**
   * Exactly which lengths a deployment may request: all its runs keep leases disjoint if and only if
   * it does not request both a length that is positive and one that wraps below zero.
   */
  lemma ExclusiveIffNotMixed(lengths: iset<int>)
    ensures AlwaysExclusive(lengths) <==> !Mixed(lengths)
  {
    if Mixed(lengths) {
      var forth, back :| forth in lengths && back in lengths && LeaseNanos(back) < 0 < LeaseNanos(forth);
      var ops := MixedLeasesOverlap(0, lengths, forth, back);
    } else {
      forall config, ops, h | RequestsOnly(ops, lengths) ensures Exclusive(Grants(Initial(config), ops, h)) {
        UnmixedLeasesExclude(config, ops, h, lengths);
      }
    }
  }

  /** All its runs keep leases in token order if and only if no length it requests wraps below zero. */
  lemma InTokenOrderIffForward(lengths: iset<int>)
    ensures AlwaysInTokenOrder(lengths) <==> forall l :: l in lengths ==> LeaseNanos(l) >= 0
  {
    if l :| l in lengths && LeaseNanos(l) < 0 {
      var ops := BackwardLeasesLoseOrder(0, lengths, l);
    } else {
      forall config, ops, h | RequestsOnly(ops, lengths) ensures InTokenOrder(Grants(Initial(config), ops, h)) {
        LeasesExclude(config, ops, h);
      }
    }
  }
}
