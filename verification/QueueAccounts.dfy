/** The six queue counters and how a claim moves releases between them. */
module QueueAccounts {
  import opened Basics
  import opened Ordering
  import opened StoreModel
  import opened StoreSteps
  import opened StoreQueries
  import AuditLog

  /** The four statuses partition the catalogue. */
  lemma StatusesPartition(rs: Releases, cap: nat, now: Instant)
    ensures var q := Stats(rs, cap, now);
            q.unmatched + q.matched + q.suppressed + q.exhausted == |rs|
  {
    var u, m := WithStatus(rs, Unmatched), WithStatus(rs, Matched);
    var s, e := WithStatus(rs, Suppressed), WithStatus(rs, Exhausted);
    assert u + m + s + e == rs.Keys;
    assert |rs| == |rs.Keys|;
    assert |u + m| == |u| + |m|;
    assert |u + m + s| == |u + m| + |s|;
  }

  /** For any tables: unmatched = available + leased + the unleased over-cap rows. */
  lemma UnmatchedSplits(rs: Releases, cap: nat, now: Instant)
    ensures var q := Stats(rs, cap, now);
            q.unmatched == q.available + q.leased + |Overdue(rs, cap, now)|
  {
    var a, l, o := Available(rs, cap, now), Leased(rs, now), Overdue(rs, cap, now);
    assert a + l + o == WithStatus(rs, Unmatched);
    assert |a + l| == |a| + |l|;
  }

  /** Under a fixed cap, unmatched = available + leased in every reachable state at every clock reading. */
  lemma FixedCapAccounts(config: int, ops: seq<Op>, now: Instant)
    requires FixedCap(ops, EffectiveCap(config))
    ensures var s := Run(Initial(config), ops);
            var q := Stats(s.db.releases, s.cap, now);
            q.unmatched == q.available + q.leased
  {
    var s := Run(Initial(config), ops);
    AuditLog.FixedCapStaysUnder(config, ops);
    UnmatchedSplits(s.db.releases, s.cap, now);
    assert Overdue(s.db.releases, s.cap, now) == {} by {
      forall h | h in s.db.releases ensures !SweepDue(s.db.releases[h], s.cap, now) {
        assert AuditLog.UnderCap(s.db.releases[h], s.cap);
      }
    }
  }

  /** Claim's sweep brings the deficit to zero, at its own clock reading and at any earlier one. */
  lemma ClaimClearsOverdue(db: Db, cap: nat, limit: int, leaseSeconds: int, now: Instant, locked: set<string>,
                           at: Instant)
    requires at <= now
    ensures Overdue(Claim(db, cap, limit, leaseSeconds, now, locked).releases, cap, at) == {}
    ensures var q := Stats(Claim(db, cap, limit, leaseSeconds, now, locked).releases, cap, at);
            q.unmatched == q.available + q.leased
  {
    var rs' := Claim(db, cap, limit, leaseSeconds, now, locked).releases;
    forall h | h in rs' ensures !SweepDue(rs'[h], cap, at) {
      ClaimRow(db, cap, limit, leaseSeconds, now, locked, h);
    }
    UnmatchedSplits(rs', cap, at);
  }

  lemma {:induction false} HashCount(keys: seq<Key>)
    requires forall i, j :: 0 <= i < j < |keys| ==> keys[i].hash != keys[j].hash
    ensures |HashesOf(keys)| == |keys|
    decreases |keys|
  {
    if keys != [] {
      var n := |keys| - 1;
      HashCount(keys[..n]);
      assert HashesOf(keys) == HashesOf(keys[..n]) + {keys[n].hash};
    }
  }

  lemma {:induction false} KeyCount(rs: Releases, hs: set<string>)
    requires hs <= rs.Keys
    ensures |set h | h in hs :: QueueKey(rs, h)| == |hs|
    decreases |hs|
  {
    if hs != {} {
      var h :| h in hs;
      KeyCount(rs, hs - {h});
      assert (set g | g in hs :: QueueKey(rs, g)) == (set g | g in hs - {h} :: QueueKey(rs, g)) + {QueueKey(rs, h)};
    }
  }

  /** A claim returns exactly min(limit, free claimable) distinct rows. */
  lemma ClaimCount(db: Db, cap: nat, limit: int, now: Instant, locked: set<string>)
    ensures |ClaimKeys(db, cap, limit, now, locked)|
         == Min(ClaimLimit(limit), |Available(db.releases, cap, now) - locked|)
    ensures |HashesOf(ClaimKeys(db, cap, limit, now, locked))| == |ClaimKeys(db, cap, limit, now, locked)|
  {
    var rs := Sweep(db.releases, cap, now);
    var all, keys := ClaimableKeys(rs, cap, now, locked), ClaimKeys(db, cap, limit, now, locked);
    TakeDescIsTop(all, ClaimLimit(limit));
    assert Available(rs, cap, now) == Available(db.releases, cap, now);
    assert all == set h | h in Available(rs, cap, now) - locked :: QueueKey(rs, h);
    KeyCount(rs, Available(rs, cap, now) - locked);
    ChosenAreDistinct(rs, cap, now, ClaimLimit(limit), locked);
    HashCount(keys);
  }

  /**
   * A claim returns the first free claimable rows in (published_at, infohash) descending order:
   * whatever it leaves behind sorts below everything it takes. With nothing locked this is the plain
   * head of the queue.
   */
  lemma ClaimTakesTheFirst(db: Db, cap: nat, limit: int, now: Instant, locked: set<string>)
    ensures Descending(ClaimKeys(db, cap, limit, now, locked))
    ensures forall h, t :: h in Available(db.releases, cap, now) - locked
                           && h !in HashesOf(ClaimKeys(db, cap, limit, now, locked))
                           && t in ClaimKeys(db, cap, limit, now, locked)
              ==> Below(QueueKey(db.releases, h), t)
  {
    var rs := Sweep(db.releases, cap, now);
    var all, keys := ClaimableKeys(rs, cap, now, locked), ClaimKeys(db, cap, limit, now, locked);
    TakeDescIsTop(all, ClaimLimit(limit));
    forall h, t | h in Available(db.releases, cap, now) - locked && h !in HashesOf(keys) && t in keys
      ensures Below(QueueKey(db.releases, h), t)
    {
      assert rs[h] == db.releases[h];
      assert QueueKey(rs, h) in all;
    }
  }

  /** Which counters one row is in before and after a claim; a row is taken when it ends up with a running lease. */
  ghost predicate RowMoves(r: Release, r': Release, taken: bool, cap: nat, now: Instant) {
    && (taken ==> Claimable(r, cap, now) && !HoldsLease(r, now))
    && (Claimable(r', cap, now) <==> Claimable(r, cap, now) && !taken)
    && (HoldsLease(r', now) <==> HoldsLease(r, now) || taken)
    && r'.status == (if SweepDue(r, cap, now) then Exhausted else r.status)
  }

  lemma ClaimRowMoves(db: Db, cap: nat, limit: int, leaseSeconds: int, now: Instant, locked: set<string>, h: string)
    requires h in db.releases
    ensures h in Claim(db, cap, limit, leaseSeconds, now, locked).releases
    ensures RowMoves(db.releases[h], Claim(db, cap, limit, leaseSeconds, now, locked).releases[h],
                     LeaseNanos(leaseSeconds) > 0 && h in HashesOf(ClaimKeys(db, cap, limit, now, locked)), cap, now)
  {
    ClaimRow(db, cap, limit, leaseSeconds, now, locked, h);
  }

  ghost predicate AllMove(rs: Releases, rs': Releases, taken: set<string>, cap: nat, now: Instant) {
    && rs'.Keys == rs.Keys && taken <= rs.Keys
    && forall h :: h in rs ==> RowMoves(rs[h], rs'[h], h in taken, cap, now)
  }

  lemma LeaseSetsMove(rs: Releases, rs': Releases, taken: set<string>, cap: nat, now: Instant)
    requires AllMove(rs, rs', taken, cap, now)
    ensures |Available(rs', cap, now)| == |Available(rs, cap, now)| - |taken|
    ensures |Leased(rs', now)| == |Leased(rs, now)| + |taken|
  {
    assert Available(rs', cap, now) == Available(rs, cap, now) - taken;
    assert taken <= Available(rs, cap, now);
    assert Leased(rs', now) == Leased(rs, now) + taken;
    assert Leased(rs, now) !! taken;
  }

  lemma StatusSetMoves(rs: Releases, rs': Releases, taken: set<string>, cap: nat, now: Instant, status: Status)
    requires AllMove(rs, rs', taken, cap, now) && status != Unmatched
    ensures |WithStatus(rs', status)|
            == |WithStatus(rs, status)| + (if status == Exhausted then |Overdue(rs, cap, now)| else 0)
  {
    var added := if status == Exhausted then Overdue(rs, cap, now) else {};
    assert WithStatus(rs', status) == WithStatus(rs, status) + added;
    assert WithStatus(rs, status) !! added;
  }

  /**
   * A claim moves exactly min(limit, free and available) releases from available to leased and every
   * overdue one to exhausted; nothing else in the queue changes. A lease whose length wraps to zero
   * or below is over at once, so then none moves to leased.
   */
  lemma ClaimMovesCounts(db: Db, cap: nat, limit: int, leaseSeconds: int, now: Instant, locked: set<string>)
    ensures var q := Stats(db.releases, cap, now);
            var q' := Stats(Claim(db, cap, limit, leaseSeconds, now, locked).releases, cap, now);
            var free := Available(db.releases, cap, now) - locked;
            var n := if LeaseNanos(leaseSeconds) > 0 then Min(ClaimLimit(limit), |free|) else 0;
            && q'.available == q.available - n
            && q'.leased == q.leased + n
            && q'.exhausted == q.exhausted + |Overdue(db.releases, cap, now)|
            && q'.matched == q.matched && q'.suppressed == q.suppressed
  {
    var rs, rs' := db.releases, Claim(db, cap, limit, leaseSeconds, now, locked).releases;
    var taken := if LeaseNanos(leaseSeconds) > 0 then HashesOf(ClaimKeys(db, cap, limit, now, locked)) else {};
    ClaimCount(db, cap, limit, now, locked);
    forall h | h in rs ensures h in rs' && RowMoves(rs[h], rs'[h], h in taken, cap, now) {
      ClaimRowMoves(db, cap, limit, leaseSeconds, now, locked, h);
    }
    forall h | h in taken ensures h in rs {
      LeasedWasClaimable(State(db, cap), OpClaim(limit, leaseSeconds, now, locked), h);
    }
    LeaseSetsMove(rs, rs', taken, cap, now);
    StatusSetMoves(rs, rs', taken, cap, now, Exhausted);
    StatusSetMoves(rs, rs', taken, cap, now, Matched);
    StatusSetMoves(rs, rs', taken, cap, now, Suppressed);
  }
}
