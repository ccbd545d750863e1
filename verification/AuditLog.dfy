/** The append-only match_events table determines every release row, and bounds the work on it. */
module AuditLog {
  import opened Basics
  import opened StoreModel
  import opened StoreSteps
  import Fencing

  /** What the audit log alone says about one release. */
  datatype Verdict = Verdict(
    status: Status, ref: Option<string>, confidence: Option<real>, attempts: nat, firstMatchedAt: Option<Instant>)

  function EventsOf(events: seq<MatchEvent>, h: string): seq<MatchEvent> {
    if events == [] then []
    else
      var rest := EventsOf(events[..|events| - 1], h);
      if events[|events| - 1].infohash == h then rest + [events[|events| - 1]] else rest
  }

  /** One logged outcome applied to what was known before it. */
  function Record(v: Verdict, e: MatchEvent): Verdict {
    match e.status
    case Unmatched => v.(attempts := v.attempts + 1)
    case Exhausted => v.(status := Exhausted, attempts := v.attempts + 1)
    case Suppressed => v.(status := Suppressed)
    case Matched => v.(status := Matched, ref := e.ref, confidence := e.confidence, firstMatchedAt := Some(e.createdAt))
  }

  function Replay(events: seq<MatchEvent>): Verdict {
    if events == [] then Verdict(Unmatched, None, None, 0, None)
    else Record(Replay(events[..|events| - 1]), events[|events| - 1])
  }

  function VerdictOf(r: Release): Verdict {
    Verdict(r.status, r.ref, r.confidence, r.attempts, r.firstMatchedAt)
  }

  /** Claim retires an over-cap row without logging it; otherwise row and log agree. */
  ghost predicate Agrees(r: Release, log: Verdict) {
    || VerdictOf(r) == log
    || (r.status == Exhausted && log.status == Unmatched && VerdictOf(r.(status := Unmatched)) == log)
  }

  predicate IsDecision(s: Status) { s == Matched || s == Suppressed }

  /** At most one terminal event, in last place. */
  ghost predicate TerminalLast(events: seq<MatchEvent>) {
    forall i :: 0 <= i < |events| - 1 ==> events[i].status == Unmatched
  }

  ghost predicate Faithful(r: Release, log: seq<MatchEvent>) {
    && Agrees(r, Replay(log))
    && TerminalLast(log)
    && (r.status == Unmatched ==> forall i :: 0 <= i < |log| ==> log[i].status == Unmatched)
    && |log| == r.attempts + (if IsDecision(r.status) then 1 else 0)
    && (r.status != Matched ==> r.ref == None && r.confidence == None && r.firstMatchedAt == None)
  }

  ghost predicate LogFaithful(db: Db, h: string) {
    if h in db.releases then Faithful(db.releases[h], EventsOf(db.events, h)) else EventsOf(db.events, h) == []
  }

  lemma EventsOfSnoc(events: seq<MatchEvent>, e: MatchEvent, h: string)
    ensures EventsOf(events + [e], h) == EventsOf(events, h) + (if e.infohash == h then [e] else [])
  {
    assert (events + [e])[..|events|] == events;
  }

  lemma SubmitKeepsFaithful(r: Release, log: seq<MatchEvent>, p: SubmitParams, cap: nat, now: Instant)
    requires Faithful(r, log) && r.status == Unmatched && ValidateSubmit(p).None?
    ensures Faithful(SubmitRow(r, p, cap, now), log + [EventFrom(p, FinalStatus(p, r.attempts, cap), now)])
    ensures VerdictOf(SubmitRow(r, p, cap, now)) == Replay(log + [EventFrom(p, FinalStatus(p, r.attempts, cap), now)])
  {
    var e := EventFrom(p, FinalStatus(p, r.attempts, cap), now);
    assert (log + [e])[..|log|] == log;
    assert VerdictOf(r) == Replay(log);
  }

  lemma RowKeepsFaithful(s: State, op: Op, h: string)
    requires h in s.db.releases && LogFaithful(s.db, h) && !Accepts(s, op, h)
    ensures h in Step(s, op).db.releases
    ensures Faithful(Step(s, op).db.releases[h], EventsOf(s.db.events, h))
  {
    StepRow(s, op, h);
    if Leases(s, op, h) {
      LeasedWasClaimable(s, op, h);
    }
  }

  lemma StepKeepsLog(s: State, op: Op, h: string)
    requires LogFaithful(s.db, h)
    ensures LogFaithful(Step(s, op).db, h)
  {
    StepTables(s, op);
    if op.OpSubmit? && Accepts(s, op, op.submission.infohash) {
      var r := s.db.releases[op.submission.infohash];
      EventsOfSnoc(s.db.events, EventFrom(op.submission, FinalStatus(op.submission, r.attempts, s.cap), op.now), h);
    }
    if h in s.db.releases {
      if Accepts(s, op, h) {
        StepRow(s, op, h);
        SubmitKeepsFaithful(s.db.releases[h], EventsOf(s.db.events, h), op.submission, s.cap, op.now);
      } else {
        RowKeepsFaithful(s, op, h);
      }
    } else if h in Step(s, op).db.releases {
      NewRow(s, op, h);
    }
  }

  /**
   * In every reachable state, whatever caps and clocks: attempts, ref, confidence and
   * first_matched_at of a release are the replay of its match events, a terminal event is last and
   * unique, and the log has one event per attempt plus one for a match or a suppression.
   */
  lemma {:induction false} LogDeterminesRow(config: int, ops: seq<Op>, h: string)
    ensures LogFaithful(Run(Initial(config), ops).db, h)
    decreases |ops|
  {
    if ops != [] {
      LogDeterminesRow(config, ops[..|ops| - 1], h);
      StepKeepsLog(Run(Initial(config), ops[..|ops| - 1]), ops[|ops| - 1], h);
    }
  }

  // ----- a fixed attempt cap -----

  /** Attempts stay below the cap, which only an exhausted release has reached. */
  ghost predicate UnderCap(r: Release, cap: nat) {
    if r.status == Exhausted then r.attempts == cap else r.attempts < cap
  }

  ghost predicate AllUnderCap(s: State) {
    forall h :: h in s.db.releases ==> UnderCap(s.db.releases[h], s.cap)
  }

  predicate KeepsCap(op: Op, cap: nat) {
    op.OpRestart? ==> EffectiveCap(op.queueMaxAttempts) == cap
  }

  lemma RowKeepsUnderCap(s: State, op: Op, h: string)
    requires h in s.db.releases && UnderCap(s.db.releases[h], s.cap) && KeepsCap(op, s.cap)
    ensures h in Step(s, op).db.releases && UnderCap(Step(s, op).db.releases[h], s.cap)
    ensures !Sweeps(s, op, h)
    ensures !Accepts(s, op, h) ==> VerdictOf(Step(s, op).db.releases[h]) == VerdictOf(s.db.releases[h])
  {
    StepRow(s, op, h);
    if Leases(s, op, h) {
      LeasedWasClaimable(s, op, h);
    }
  }

  lemma StepKeepsUnderCap(s: State, op: Op)
    requires AllUnderCap(s) && s.cap >= 1 && KeepsCap(op, s.cap)
    ensures AllUnderCap(Step(s, op)) && Step(s, op).cap == s.cap
  {
    var s' := Step(s, op);
    forall h | h in s'.db.releases ensures UnderCap(s'.db.releases[h], s.cap) {
      if h in s.db.releases {
        RowKeepsUnderCap(s, op, h);
      } else {
        NewRow(s, op, h);
      }
    }
  }

  /** Under a fixed cap every release stays within it, so claim never retires one behind the log's back. */
  lemma {:induction false} FixedCapStaysUnder(config: int, ops: seq<Op>)
    requires FixedCap(ops, EffectiveCap(config))
    ensures AllUnderCap(Run(Initial(config), ops))
    ensures Run(Initial(config), ops).cap == EffectiveCap(config)
    decreases |ops|
  {
    if ops != [] {
      FixedCapStaysUnder(config, ops[..|ops| - 1]);
      StepKeepsUnderCap(Run(Initial(config), ops[..|ops| - 1]), ops[|ops| - 1]);
    }
  }

  ghost predicate IsFold(db: Db, h: string) {
    h in db.releases ==> VerdictOf(db.releases[h]) == Replay(EventsOf(db.events, h))
  }

  /** Some claim of the run retired h because it found it over the cap. */
  ghost predicate WasSwept(s: State, ops: seq<Op>, h: string) {
    ops != [] && (WasSwept(s, ops[..|ops| - 1], h) || Sweeps(Run(s, ops[..|ops| - 1]), ops[|ops| - 1], h))
  }

  lemma LogAfter(s: State, op: Op, h: string)
    ensures !Accepts(s, op, h) ==> EventsOf(Step(s, op).db.events, h) == EventsOf(s.db.events, h)
    ensures Accepts(s, op, h) ==>
              EventsOf(Step(s, op).db.events, h) == EventsOf(s.db.events, h)
                + [EventFrom(op.submission, FinalStatus(op.submission, s.db.releases[h].attempts, s.cap), op.now)]
  {
    StepTables(s, op);
    if op.OpSubmit? && Accepts(s, op, op.submission.infohash) {
      var r := s.db.releases[op.submission.infohash];
      EventsOfSnoc(s.db.events, EventFrom(op.submission, FinalStatus(op.submission, r.attempts, s.cap), op.now), h);
    }
  }

  lemma StepFold(s: State, op: Op, h: string)
    requires h in s.db.releases && LogFaithful(s.db, h)
    ensures h in Step(s, op).db.releases && LogFaithful(Step(s, op).db, h)
    ensures Sweeps(s, op, h) ==> !IsFold(Step(s, op).db, h)
    ensures !Sweeps(s, op, h) ==> (IsFold(Step(s, op).db, h) <==> IsFold(s.db, h))
  {
    StepKeepsLog(s, op, h);
    LogAfter(s, op, h);
    if Accepts(s, op, h) {
      StepRow(s, op, h);
      SubmitKeepsFaithful(s.db.releases[h], EventsOf(s.db.events, h), op.submission, s.cap, op.now);
    } else {
      UnloggedMove(s, op, h, EventsOf(s.db.events, h));
    }
  }

  /** A step that logs nothing for h changes what the log knows of it only by retiring it. */
  lemma UnloggedMove(s: State, op: Op, h: string, log: seq<MatchEvent>)
    requires h in s.db.releases && !Accepts(s, op, h) && Faithful(s.db.releases[h], log)
    ensures h in Step(s, op).db.releases
    ensures Sweeps(s, op, h) ==> VerdictOf(Step(s, op).db.releases[h]) != Replay(log)
    ensures !Sweeps(s, op, h) ==> VerdictOf(Step(s, op).db.releases[h]) == VerdictOf(s.db.releases[h])
  {
    StepRow(s, op, h);
    if Leases(s, op, h) {
      LeasedWasClaimable(s, op, h);
    }
  }

  /** For every run, caps lowered or not: the row is the fold of its log unless a claim retired it unlogged. */
  lemma {:induction false} FoldIffNeverSwept(config: int, ops: seq<Op>, h: string)
    ensures h in Run(Initial(config), ops).db.releases ==>
              (IsFold(Run(Initial(config), ops).db, h) <==> !WasSwept(Initial(config), ops, h))
    ensures h !in Run(Initial(config), ops).db.releases ==> !WasSwept(Initial(config), ops, h)
    decreases |ops|
  {
    if ops != [] {
      var init, op := ops[..|ops| - 1], ops[|ops| - 1];
      var s := Run(Initial(config), init);
      FoldIffNeverSwept(config, init, h);
      LogDeterminesRow(config, init, h);
      if h in s.db.releases {
        StepFold(s, op, h);
      } else if h in Step(s, op).db.releases {
        NewRow(s, op, h);
        LogAfter(s, op, h);
      }
    }
  }

  /**
   * A run in which the fold fails: one unmatched submit under a cap of three, a restart with a cap
   * of one, and a claim once the lease is over. The row is exhausted and the log does not say so.
   */
  lemma LoweredCapBreaksFold(p: IngestParams) returns (ops: seq<Op>)
    requires IsCanonicalInfohash(p.infohash)
    ensures p.infohash in Run(Initial(3), ops).db.releases && !IsFold(Run(Initial(3), ops).db, p.infohash)
  {
    var h, s0 := p.infohash, Initial(3);
    var init := ClaimedAndReturned(p);
    var s3 := Run(s0, init);
    Fencing.RunSnoc(s0, init, OpRestart(1), h);
    var s4, claim := Step(s3, OpRestart(1)), Fencing.ClaimAt(1, 2 * SECOND);
    assert Sweeps(s4, claim, h);
    ops := init + [OpRestart(1)] + [claim];
    Fencing.RunSnoc(s0, init + [OpRestart(1)], claim, h);
    StepRow(s4, claim, h);
    assert ops[..|ops| - 1] == init + [OpRestart(1)];
    FoldIffNeverSwept(3, ops, h);
  }

  /** A release that was claimed for a second and submitted as unmatched once. */
  lemma ClaimedAndReturned(p: IngestParams) returns (ops: seq<Op>)
    requires IsCanonicalInfohash(p.infohash)
    ensures var s := Run(Initial(3), ops);
            && s.cap == 3 && p.infohash in s.db.releases
            && s.db.releases[p.infohash].attempts == 1 && s.db.releases[p.infohash].status == Unmatched
            && s.db.releases[p.infohash].leaseExpires == Some(SECOND)
  {
    var h, s0, first, claim := p.infohash, Initial(3), OpIngest(p, 0), Fencing.ClaimAt(1, 0);
    var unmatched := OpSubmit(SubmitParams(h, 1, "unmatched", "", None, ""), 0);
    Fencing.FirstIngest(3, p);
    assert [first] == [] + [first] && Run(s0, []) == s0;
    Fencing.RunSnoc(s0, [], first, h);
    var s1 := Step(s0, first);
    Fencing.SoleRowClaims(s1, h, 1, 0);
    Fencing.RunSnoc(s0, [first], claim, h);
    Fencing.RunSnoc(s0, [first] + [claim], unmatched, h);
    ops := [first] + [claim] + [unmatched];
  }

  lemma {:induction false} FixedCapNeverSweeps(config: int, ops: seq<Op>, h: string)
    requires FixedCap(ops, EffectiveCap(config))
    ensures !WasSwept(Initial(config), ops, h)
    decreases |ops|
  {
    if ops != [] {
      var init := ops[..|ops| - 1];
      var s := Run(Initial(config), init);
      FixedCapNeverSweeps(config, init, h);
      FixedCapStaysUnder(config, init);
      if h in s.db.releases {
        RowKeepsUnderCap(s, ops[|ops| - 1], h);
      }
    }
  }

  /**
   * Under a fixed cap the row is exactly the fold of its audit log, the log is no longer than the
   * cap, and the release is exhausted exactly when all its attempts are spent.
   */
  lemma RowIsFoldOfLog(config: int, ops: seq<Op>, h: string)
    requires FixedCap(ops, EffectiveCap(config))
    requires h in Run(Initial(config), ops).db.releases
    ensures var db, cap := Run(Initial(config), ops).db, EffectiveCap(config);
            && VerdictOf(db.releases[h]) == Replay(EventsOf(db.events, h))
            && |EventsOf(db.events, h)| <= cap
            && (db.releases[h].status == Exhausted <==> db.releases[h].attempts == cap)
  {
    FoldIffNeverSwept(config, ops, h);
    FixedCapNeverSweeps(config, ops, h);
    LogDeterminesRow(config, ops, h);
    FixedCapStaysUnder(config, ops);
  }

  // ----- bounded work -----

  /** The attempts a release may still spend. */
  function Slack(r: Release, cap: nat): nat {
    if r.status == Unmatched && r.attempts < cap then cap - r.attempts else 0
  }

  ghost function TotalSlack(rs: Releases, cap: nat): nat
    decreases |rs|
  {
    if rs == map[] then 0
    else
      var h :| h in rs;
      Slack(rs[h], cap) + TotalSlack(rs - {h}, cap)
  }

  lemma {:induction false} SlackSplits(rs: Releases, cap: nat, h: string)
    requires h in rs
    ensures TotalSlack(rs, cap) == Slack(rs[h], cap) + TotalSlack(rs - {h}, cap)
    decreases |rs|
  {
    var g :| g in rs && TotalSlack(rs, cap) == Slack(rs[g], cap) + TotalSlack(rs - {g}, cap);
    if g != h {
      SlackSplits(rs - {g}, cap, h);
      SlackSplits(rs - {h}, cap, g);
      assert rs - {g} - {h} == rs - {h} - {g};
    }
  }

  lemma {:induction false} SlackPointwise(rs: Releases, rs': Releases, cap: nat)
    requires rs.Keys == rs'.Keys && forall h :: h in rs ==> Slack(rs[h], cap) == Slack(rs'[h], cap)
    ensures TotalSlack(rs, cap) == TotalSlack(rs', cap)
    decreases |rs|
  {
    if rs != map[] {
      var h :| h in rs;
      SlackSplits(rs, cap, h);
      SlackSplits(rs', cap, h);
      assert (rs - {h}).Keys == (rs' - {h}).Keys;
      SlackPointwise(rs - {h}, rs' - {h}, cap);
    } else {
      assert rs' == map[];
    }
  }

  lemma SlackUpdate(rs: Releases, cap: nat, h: string, r: Release)
    ensures TotalSlack(rs[h := r], cap) == TotalSlack(rs - {h}, cap) + Slack(r, cap)
    ensures h in rs ==> TotalSlack(rs, cap) == TotalSlack(rs - {h}, cap) + Slack(rs[h], cap)
    ensures h !in rs ==> TotalSlack(rs, cap) == TotalSlack(rs - {h}, cap)
  {
    SlackSplits(rs[h := r], cap, h);
    assert rs[h := r] - {h} == rs - {h};
    if h in rs {
      SlackSplits(rs, cap, h);
    } else {
      assert rs - {h} == rs;
    }
  }

  /** The operation is a submit that goes through. */
  ghost predicate IsAccepted(s: State, op: Op) {
    op.OpSubmit? && Accepts(s, op, op.submission.infohash)
  }

  ghost predicate IsNew(s: State, op: Op) {
    op.OpIngest? && op.params.infohash !in s.db.releases && Adds(s, op, op.params.infohash)
  }

  lemma AcceptedSubmitLowersSlack(s: State, op: Op)
    requires AllUnderCap(s) && IsAccepted(s, op)
    ensures TotalSlack(Step(s, op).db.releases, s.cap) < TotalSlack(s.db.releases, s.cap)
    ensures |Step(s, op).db.releases| == |s.db.releases|
  {
    var h, rs, rs' := op.submission.infohash, s.db.releases, Step(s, op).db.releases;
    SlackUpdate(rs, s.cap, h, SubmitRow(rs[h], op.submission, s.cap, op.now));
    assert rs'.Keys == rs.Keys;
    assert |rs| == |rs.Keys| && |rs'| == |rs'.Keys|;
  }

  lemma NewReleaseAddsSlack(s: State, op: Op)
    requires IsNew(s, op)
    ensures TotalSlack(Step(s, op).db.releases, s.cap) == TotalSlack(s.db.releases, s.cap) + s.cap
    ensures |Step(s, op).db.releases| == |s.db.releases| + 1
  {
    var h, rs, rs' := op.params.infohash, s.db.releases, Step(s, op).db.releases;
    SlackUpdate(rs, s.cap, h, FreshRelease(op.params, op.now));
    assert rs'.Keys == rs.Keys + {h};
    assert |rs| == |rs.Keys| && |rs'| == |rs'.Keys|;
  }

  lemma OtherStepsKeepSlack(s: State, op: Op)
    requires AllUnderCap(s) && KeepsCap(op, s.cap) && !IsAccepted(s, op) && !IsNew(s, op)
    ensures TotalSlack(Step(s, op).db.releases, s.cap) == TotalSlack(s.db.releases, s.cap)
    ensures |Step(s, op).db.releases| == |s.db.releases|
  {
    var rs, rs' := s.db.releases, Step(s, op).db.releases;
    forall h | h in rs ensures h in rs' && Slack(rs'[h], s.cap) == Slack(rs[h], s.cap) {
      RowKeepsUnderCap(s, op, h);
    }
    forall h | h in rs' ensures h in rs {
      if h !in rs {
        NewRow(s, op, h);
      }
    }
    SlackPointwise(rs, rs', s.cap);
    assert |rs| == |rs.Keys| && |rs'| == |rs'.Keys|;
  }

  lemma OneMore(cap: nat, n: nat)
    ensures cap * (n + 1) == cap * n + cap
  {
  }

  /**
   * Bounded work over whole runs under a fixed cap: the accepted submits so far and the attempts
   * still available never exceed the cap times the number of releases, because each accepted
   * submit strictly lowers what is available and only a new release adds to it.
   */
  lemma {:induction false} WorkIsBounded(config: int, ops: seq<Op>)
    requires FixedCap(ops, EffectiveCap(config))
    ensures var db, cap := Run(Initial(config), ops).db, EffectiveCap(config);
            |db.events| + TotalSlack(db.releases, cap) <= cap * |db.releases|
    decreases |ops|
  {
    if ops != [] {
      var init, op := ops[..|ops| - 1], ops[|ops| - 1];
      var s := Run(Initial(config), init);
      WorkIsBounded(config, init);
      FixedCapStaysUnder(config, init);
      StepTables(s, op);
      if IsAccepted(s, op) {
        AcceptedSubmitLowersSlack(s, op);
      } else if IsNew(s, op) {
        NewReleaseAddsSlack(s, op);
        OneMore(s.cap, |s.db.releases|);
      } else {
        OtherStepsKeepSlack(s, op);
      }
    }
  }
}
