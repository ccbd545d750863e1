/**
 * The release store as a transition system: the three tables, what each SQL transaction does to
 * them, and runs of transactions. Row numbers of raw_items and match_events are their positions in
 * the two append-only tables.
 */
module StoreModel {
  import opened Basics
  import opened Ordering
  import opened Refs

  // ----- tables -----

  datatype Status = Unmatched | Matched | Suppressed | Exhausted

  datatype Release = Release(
    title: string,
    magnet: Option<string>,
    sizeBytes: Option<int>,
    publishedAt: Instant,
    sources: seq<string>,
    status: Status,
    ref: Option<string>,
    confidence: Option<real>,
    firstMatchedAt: Option<Instant>,
    attempts: nat,
    claimedAt: Option<Instant>,
    leaseExpires: Option<Instant>,
    token: nat,
    createdAt: Instant,
    updatedAt: Instant)

  datatype RawItem = RawItem(
    infohash: string, source: string, sourceId: string, title: string, url: string,
    publishedAt: Instant, ingestedAt: Instant)

  datatype MatchEvent = MatchEvent(
    infohash: string, status: Status, ref: Option<string>, confidence: Option<real>,
    reason: string, createdAt: Instant)

  type Releases = map<string, Release>

  datatype Db = Db(releases: Releases, rawItems: seq<RawItem>, events: seq<MatchEvent>)

  // ----- ingest -----

  datatype IngestParams = IngestParams(
    infohash: string, source: string, sourceId: string, title: string, url: string,
    magnet: string, sizeBytes: int, publishedAt: Instant)

  datatype IngestOutcome = New | Updated | Duplicate | Conflict

  predicate IsCanonicalChar(c: char) { '0' <= c <= '9' || 'a' <= c <= 'f' }

  /** Forty lowercase hex digits. */
  predicate IsCanonicalInfohash(s: string) {
    |s| == 40 && forall i :: 0 <= i < |s| ==> IsCanonicalChar(s[i])
  }

  function SeedMagnet(p: IngestParams): Option<string> {
    if p.magnet != "" then Some(p.magnet) else None
  }

  function SeedSize(p: IngestParams): Option<int> {
    if p.sizeBytes != 0 then Some(p.sizeBytes) else None
  }

  function Coalesce<T>(a: Option<T>, b: Option<T>): Option<T> {
    if a.Some? then a else b
  }

  function ItemFrom(p: IngestParams, now: Instant): RawItem {
    RawItem(p.infohash, p.source, p.sourceId, p.title, p.url, p.publishedAt, now)
  }

  /** The raw items of one release, in row order. */
  function ItemsOf(items: seq<RawItem>, h: string): (r: seq<RawItem>)
  {
    if items == [] then []
    else
      var rest := ItemsOf(items[..|items| - 1], h);
      if items[|items| - 1].infohash == h then rest + [items[|items| - 1]] else rest
  }

  predicate HasItem(items: seq<RawItem>, source: string, sourceId: string) {
    exists i :: 0 <= i < |items| && items[i].source == source && items[i].sourceId == sourceId
  }

  /** ORDER BY published_at DESC, id DESC LIMIT 1: the latest item, the higher row winning a tie. */
  function LatestItem(items: seq<RawItem>): RawItem
    requires items != []
  {
    var last := items[|items| - 1];
    if |items| == 1 then last
    else
      var best := LatestItem(items[..|items| - 1]);
      if last.publishedAt >= best.publishedAt then last else best
  }

  function EarliestPublished(items: seq<RawItem>): Instant
    requires items != []
  {
    var last := items[|items| - 1].publishedAt;
    if |items| == 1 then last else Min(EarliestPublished(items[..|items| - 1]), last)
  }

  /** Insertion into an ascending list without repeats. */
  function InsertText(s: seq<string>, x: string): seq<string> {
    if s == [] then [x]
    else if s[0] == x then s
    else if LexLess(x, s[0]) then [x] + s
    else [s[0]] + InsertText(s[1..], x)
  }

  /** array_agg(DISTINCT source ORDER BY source). */
  function SourcesOf(items: seq<RawItem>): seq<string> {
    if items == [] then []
    else InsertText(SourcesOf(items[..|items| - 1]), items[|items| - 1].source)
  }

  function FreshRelease(p: IngestParams, now: Instant): Release {
    Release(p.title, SeedMagnet(p), SeedSize(p), p.publishedAt, [p.source],
            Unmatched, None, None, None, 0, None, None, 0, now, now)
  }

  function RecomputeRow(r: Release, items: seq<RawItem>, p: IngestParams, now: Instant): Release
    requires items != []
  {
    r.(title := LatestItem(items).title,
       publishedAt := EarliestPublished(items),
       sources := SourcesOf(items),
       magnet := Coalesce(r.magnet, SeedMagnet(p)),
       sizeBytes := Coalesce(r.sizeBytes, SeedSize(p)),
       updatedAt := now)
  }

  function Ingest(db: Db, p: IngestParams, now: Instant): (Db, IngestOutcome) {
    var h := p.infohash;
    if !IsCanonicalInfohash(h) then (db, Duplicate)
    else if HasItem(db.rawItems, p.source, p.sourceId) then
      (db, if h in db.releases then Duplicate else Conflict)
    else
      var items := db.rawItems + [ItemFrom(p, now)];
      if h !in db.releases then
        (db.(releases := db.releases[h := FreshRelease(p, now)], rawItems := items), New)
      else
        assert items[..|items| - 1] == db.rawItems;
        var row := RecomputeRow(db.releases[h], ItemsOf(items, h), p, now);
        (db.(releases := db.releases[h := row], rawItems := items), Updated)
  }

  // ----- claim -----

  const DEFAULT_CLAIM_LIMIT: nat := 1
  const MAX_CLAIM_LIMIT: nat := 500
  const DEFAULT_LEASE_SECONDS: nat := 300
  const DEFAULT_MAX_ATTEMPTS: nat := 3

  function ClaimLimit(requested: int): (n: nat)
    ensures 1 <= n <= MAX_CLAIM_LIMIT
  {
    if requested <= 0 then DEFAULT_CLAIM_LIMIT
    else if requested > MAX_CLAIM_LIMIT then MAX_CLAIM_LIMIT else requested
  }

  /** The lease as a 64-bit count of nanoseconds; a huge request wraps around. */
  function LeaseNanos(requestedSeconds: int): int {
    Wrap64((if requestedSeconds <= 0 then DEFAULT_LEASE_SECONDS else requestedSeconds) * SECOND)
  }

  /** The attempt cap a store is configured with; a value that is not positive means the default. */
  function EffectiveCap(configured: int): (cap: nat)
    ensures cap >= 1
  {
    if configured <= 0 then DEFAULT_MAX_ATTEMPTS else configured
  }

  predicate LeaseOver(r: Release, now: Instant) {
    r.leaseExpires.None? || r.leaseExpires.value <= now
  }

  /** An unleased row whose attempts have reached the cap: claim retires it. */
  predicate SweepDue(r: Release, cap: nat, now: Instant) {
    r.status == Unmatched && r.attempts >= cap && LeaseOver(r, now)
  }

  predicate Claimable(r: Release, cap: nat, now: Instant) {
    r.status == Unmatched && r.attempts < cap && LeaseOver(r, now)
  }

  function SweepRow(r: Release, now: Instant): Release {
    r.(status := Exhausted, claimedAt := None, leaseExpires := None, updatedAt := now)
  }

  function LeaseRow(r: Release, now: Instant, expires: Instant): Release {
    r.(claimedAt := Some(now), leaseExpires := Some(expires), token := r.token + 1, updatedAt := now)
  }

  function Sweep(rs: Releases, cap: nat, now: Instant): Releases {
    map h | h in rs :: if SweepDue(rs[h], cap, now) then SweepRow(rs[h], now) else rs[h]
  }

  function LeaseAll(rs: Releases, chosen: set<string>, now: Instant, expires: Instant): Releases {
    map h | h in rs :: if h in chosen then LeaseRow(rs[h], now, expires) else rs[h]
  }

  function QueueKey(rs: Releases, h: string): Key
    requires h in rs
  {
    Key(rs[h].publishedAt, h)
  }

  /** FOR UPDATE SKIP LOCKED: rows that another open transaction holds are passed over. */
  function ClaimableKeys(rs: Releases, cap: nat, now: Instant, locked: set<string>): set<Key> {
    set h | h in rs && h !in locked && Claimable(rs[h], cap, now) :: QueueKey(rs, h)
  }

  function HashesOf(keys: seq<Key>): set<string> {
    set i | 0 <= i < |keys| :: keys[i].hash
  }

  /** The rows a claim takes: the first `limit` free claimable ones by (published_at, infohash) descending. */
  ghost function Chosen(rs: Releases, cap: nat, now: Instant, limit: nat, locked: set<string>): seq<Key> {
    Take(Desc(ClaimableKeys(rs, cap, now, locked)), limit)
  }

  /** Every key a claim selects is that of a free, claimable row. */
  lemma ChosenAreRows(rs: Releases, cap: nat, now: Instant, limit: nat, locked: set<string>)
    ensures forall k :: k in Chosen(rs, cap, now, limit, locked) ==>
              k.hash in rs && k.hash !in locked && Claimable(rs[k.hash], cap, now) && k == QueueKey(rs, k.hash)
  {
    TakeDescIsTop(ClaimableKeys(rs, cap, now, locked), limit);
  }

  /** A claim never selects a row twice. */
  lemma ChosenAreDistinct(rs: Releases, cap: nat, now: Instant, limit: nat, locked: set<string>)
    ensures var keys := Chosen(rs, cap, now, limit, locked);
            forall i, j :: 0 <= i < j < |keys| ==> keys[i].hash != keys[j].hash
  {
    var keys := Chosen(rs, cap, now, limit, locked);
    TakeDescIsTop(ClaimableKeys(rs, cap, now, locked), limit);
    ChosenAreRows(rs, cap, now, limit, locked);
    forall i, j | 0 <= i < j < |keys| ensures keys[i].hash != keys[j].hash {
      assert keys[i] in keys && keys[j] in keys;
      BelowIrreflexive(keys[i]);
    }
  }

  datatype ClaimedRelease = ClaimedRelease(
    infohash: string, claimToken: nat, attemptCount: nat, leaseExpires: Instant, rawItems: seq<RawItem>)

  /** What the caller of a claim receives for one leased row. */
  function ClaimedFrom(h: string, leased: Release, expires: Instant, items: seq<RawItem>): ClaimedRelease {
    ClaimedRelease(h, leased.token, leased.attempts, expires, ItemsOf(items, h))
  }

  ghost function ClaimKeys(db: Db, cap: nat, limit: int, now: Instant, locked: set<string>): seq<Key> {
    Chosen(Sweep(db.releases, cap, now), cap, now, ClaimLimit(limit), locked)
  }

  /** The claim transaction, given the rows that other open transactions hold while it selects. */
  ghost function Claim(db: Db, cap: nat, limit: int, leaseSeconds: int, now: Instant, locked: set<string>): Db {
    var chosen := HashesOf(ClaimKeys(db, cap, limit, now, locked));
    db.(releases := LeaseAll(Sweep(db.releases, cap, now), chosen, now, now + LeaseNanos(leaseSeconds)))
  }

  /** The leased rows as the caller receives them, in claim order. */
  function LoadClaimed(rs: Releases, keys: seq<Key>, expires: Instant, items: seq<RawItem>): (r: seq<ClaimedRelease>)
    requires forall k :: k in keys ==> k.hash in rs
  {
    if keys == [] then []
    else
      var last := keys[|keys| - 1];
      LoadClaimed(rs, keys[..|keys| - 1], expires, items) + [ClaimedFrom(last.hash, rs[last.hash], expires, items)]
  }

  // ----- submit -----

  datatype SubmitParams = SubmitParams(
    infohash: string, claimToken: int, status: string, ref: string, confidence: Option<real>, reason: string)

  datatype SubmitError = InvalidStatus | InvalidRef | NoSuchRelease | StaleLease | NoActiveLease

  /** The request check that runs before the clock is read. */
  function ValidateSubmit(p: SubmitParams): Option<SubmitError> {
    if p.status == "matched" then (if ValidRef(p.ref) then None else Some(InvalidRef))
    else if p.status == "unmatched" || p.status == "suppressed" then None
    else Some(InvalidStatus)
  }

  /** The status the transaction will write. */
  function FinalStatus(p: SubmitParams, attempts: nat, cap: nat): Status
    requires ValidateSubmit(p).None?
  {
    if p.status == "matched" then Matched
    else if p.status == "suppressed" then Suppressed
    else if attempts + 1 >= cap then Exhausted else Unmatched
  }

  function NewAttempts(p: SubmitParams, attempts: nat): nat {
    if p.status == "unmatched" then attempts + 1 else attempts
  }

  function NullableRef(status: Status, ref: string): Option<string> {
    if status == Matched then Some(ref) else None
  }

  function NullableConfidence(status: Status, confidence: Option<real>): Option<real> {
    if status == Matched || status == Suppressed then confidence else None
  }

  function SubmitRow(r: Release, p: SubmitParams, cap: nat, now: Instant): Release
    requires ValidateSubmit(p).None?
  {
    var final := FinalStatus(p, r.attempts, cap);
    match final
    case Matched =>
      r.(status := Matched, ref := Some(p.ref), confidence := NullableConfidence(final, p.confidence),
         firstMatchedAt := Coalesce(r.firstMatchedAt, Some(now)),
         claimedAt := None, leaseExpires := None, updatedAt := now)
    case Unmatched =>
      r.(attempts := NewAttempts(p, r.attempts), updatedAt := now)
    case _ =>
      r.(status := final, attempts := NewAttempts(p, r.attempts), ref := None, confidence := None,
         claimedAt := None, leaseExpires := None, updatedAt := now)
  }

  function EventFrom(p: SubmitParams, final: Status, now: Instant): MatchEvent {
    MatchEvent(p.infohash, final, NullableRef(final, p.ref), NullableConfidence(final, p.confidence), p.reason, now)
  }

  function CheckLease(r: Release, token: int, now: Instant): Option<SubmitError> {
    if r.token != token || r.leaseExpires.None? || r.leaseExpires.value <= now then Some(StaleLease)
    else if r.status != Unmatched then Some(NoActiveLease)
    else None
  }

  /** The reason a submit is turned down, if it is. */
  function SubmitVerdict(db: Db, p: SubmitParams, now: Instant): Option<SubmitError> {
    if ValidateSubmit(p).Some? then ValidateSubmit(p)
    else if p.infohash !in db.releases then Some(NoSuchRelease)
    else CheckLease(db.releases[p.infohash], p.claimToken, now)
  }

  function Submit(db: Db, cap: nat, p: SubmitParams, now: Instant): Db {
    if SubmitVerdict(db, p, now).Some? then db
    else
      var r := db.releases[p.infohash];
      db.(releases := db.releases[p.infohash := SubmitRow(r, p, cap, now)],
          events := db.events + [EventFrom(p, FinalStatus(p, r.attempts, cap), now)])
  }

  // ----- runs -----

  /** The tables together with the attempt cap the running process was configured with. */
  datatype State = State(db: Db, cap: nat)

  datatype Op =
    | OpIngest(params: IngestParams, now: Instant)
    | OpClaim(limit: int, leaseSeconds: int, now: Instant, locked: set<string>)
    | OpSubmit(submission: SubmitParams, now: Instant)
    | OpRestart(queueMaxAttempts: int)

  function Initial(queueMaxAttempts: int): State {
    State(Db(map[], [], []), EffectiveCap(queueMaxAttempts))
  }

  ghost function Step(s: State, op: Op): State {
    match op
    case OpIngest(p, now) => s.(db := Ingest(s.db, p, now).0)
    case OpClaim(limit, lease, now, locked) => s.(db := Claim(s.db, s.cap, limit, lease, now, locked))
    case OpSubmit(p, now) => s.(db := Submit(s.db, s.cap, p, now))
    case OpRestart(n) => s.(cap := EffectiveCap(n))
  }

  /**
   * Each operation carries the clock reading it took; readings need not be ordered. A claim also
   * carries the rows it had to pass over, so a run stands for concurrent executions too.
   */
  ghost function Run(s: State, ops: seq<Op>): State
  {
    if ops == [] then s else Step(Run(s, ops[..|ops| - 1]), ops[|ops| - 1])
  }

  lemma {:induction false} RunConcat(s: State, a: seq<Op>, b: seq<Op>)
    ensures Run(s, a + b) == Run(Run(s, a), b)
    decreases |b|
  {
    if b == [] {
      assert a + b == a;
    } else {
      var init := b[..|b| - 1];
      assert (a + b)[..|a + b| - 1] == a + init;
      RunConcat(s, a, init);
    }
  }

  /** The process keeps (or is restarted with) the same attempt cap. */
  predicate FixedCap(ops: seq<Op>, cap: nat) {
    forall i :: 0 <= i < |ops| && ops[i].OpRestart? ==> EffectiveCap(ops[i].queueMaxAttempts) == cap
  }
}
