/** The store's reads: the queue counters, and list_releases with its cursors and pages. */
module StoreQueries {
  import opened Basics
  import opened Ordering
  import opened Refs
  import opened StoreModel

  // ----- queue counters -----

  datatype QueueStats = QueueStats(
    available: nat, leased: nat, unmatched: nat, matched: nat, suppressed: nat, exhausted: nat)

  function WithStatus(rs: Releases, status: Status): set<string> {
    set h | h in rs && rs[h].status == status
  }

  function Available(rs: Releases, cap: nat, now: Instant): set<string> {
    set h | h in rs && Claimable(rs[h], cap, now)
  }

  predicate HoldsLease(r: Release, now: Instant) {
    r.status == Unmatched && r.leaseExpires.Some? && r.leaseExpires.value > now
  }

  function Leased(rs: Releases, now: Instant): set<string> {
    set h | h in rs && HoldsLease(rs[h], now)
  }

  /** Unmatched rows that neither counter sees: unleased and over the cap. */
  function Overdue(rs: Releases, cap: nat, now: Instant): set<string> {
    set h | h in rs && SweepDue(rs[h], cap, now)
  }

  function Stats(rs: Releases, cap: nat, now: Instant): QueueStats {
    QueueStats(|Available(rs, cap, now)|, |Leased(rs, now)|, |WithStatus(rs, Unmatched)|,
               |WithStatus(rs, Matched)|, |WithStatus(rs, Suppressed)|, |WithStatus(rs, Exhausted)|)
  }

  // ----- cursors -----

  const CURSOR_VERSION: int := 1
  const PATH_CATALOG: int := 0
  const PATH_DELTA: int := 1

  /** The text of a cursor: an envelope, or anything that is not the base64 of one with a readable key. */
  datatype CursorText =
    | Garbled
    | Envelope(version: int, ref: string, path: int, key: Instant, hash: string)

  function EncodeCursor(ref: string, path: int, at: Key): CursorText {
    Envelope(CURSOR_VERSION, ref, path, at.at, at.hash)
  }

  /** A cursor is only good for the ref and the path it was issued for. */
  function DecodeCursor(w: CursorText, expectRef: string, expectPath: int): Option<Key> {
    if w.Garbled? then None
    else if w.version != CURSOR_VERSION then None
    else if w.ref != expectRef then None
    else if w.path != expectPath then None
    else Some(Key(w.key, w.hash))
  }

  // ----- one page -----

  /** What a listing is restricted to: a ref, or any when empty, and optionally the matches after an instant. */
  datatype Filter = Filter(ref: string, since: Option<Instant>)

  datatype ReleaseQuery = ReleaseQuery(filter: Filter, limit: int, cursor: Option<CursorText>)

  datatype ReleaseItem = ReleaseItem(
    infohash: string, ref: string, title: string, sizeBytes: int,
    publishedAt: Instant, confidence: real, sources: seq<string>)

  datatype ReleasePage = ReleasePage(items: seq<ReleaseItem>, next: Option<CursorText>)

  datatype ListError = BadRef | BadCursor

  const DEFAULT_RELEASES_LIMIT: nat := 50
  const MAX_RELEASES_LIMIT: nat := 500

  function PageLimit(requested: int): (n: nat)
    ensures 1 <= n <= MAX_RELEASES_LIMIT
  {
    if requested <= 0 then DEFAULT_RELEASES_LIMIT
    else if requested > MAX_RELEASES_LIMIT then MAX_RELEASES_LIMIT else requested
  }

  function PathOf(f: Filter): int {
    if f.since.Some? then PATH_DELTA else PATH_CATALOG
  }

  /** The WHERE clause without the seek condition. */
  predicate Selected(r: Release, f: Filter) {
    && r.status == Matched
    && (f.ref == "" || r.ref == Some(f.ref))
    && (f.since.Some? ==> r.firstMatchedAt.Some? && r.firstMatchedAt.value > f.since.value)
  }

  /** The ORDER BY key: publication time on the catalogue path, first match time on the delta path. */
  function SortKey(r: Release, h: string, f: Filter): Key
    requires Selected(r, f)
  {
    if f.since.Some? then Key(r.firstMatchedAt.value, h) else Key(r.publishedAt, h)
  }

  predicate Beyond(k: Key, seek: Option<Key>) {
    seek.Some? ==> Below(k, seek.value)
  }

  function ScanKeys(rs: Releases, f: Filter, seek: Option<Key>): set<Key> {
    set h | h in rs && Selected(rs[h], f) && Beyond(SortKey(rs[h], h, f), seek) :: SortKey(rs[h], h, f)
  }

  /** The keys of one page, and the position the next one starts from if there is one. */
  datatype Cut = Cut(keys: seq<Key>, next: Option<Key>)

  /** ORDER BY key DESC LIMIT limit + 1 beyond the seek position; the extra row only tells that there is more. */
  ghost function PageCut(rs: Releases, f: Filter, seek: Option<Key>, limit: nat): (cut: Cut)
    requires limit >= 1
    ensures forall k :: k in cut.keys ==> k.hash in rs
  {
    var all := ScanKeys(rs, f, seek);
    TakeDescIsTop(all, limit + 1);
    var fetched := Take(Desc(all), limit + 1);
    assert forall k :: k in fetched[..Min(limit, |fetched|)] ==> k in fetched;
    if |fetched| > limit then Cut(fetched[..limit], Some(fetched[limit - 1])) else Cut(fetched, None)
  }

  function GetOr<T>(o: Option<T>, default: T): T {
    if o.Some? then o.value else default
  }

  function ItemOf(h: string, r: Release): ReleaseItem {
    ReleaseItem(h, GetOr(r.ref, ""), r.title, GetOr(r.sizeBytes, 0), r.publishedAt, GetOr(r.confidence, 0.0), r.sources)
  }

  ghost function ItemsAt(rs: Releases, keys: seq<Key>): (items: seq<ReleaseItem>)
    requires forall k :: k in keys ==> k.hash in rs
    ensures |items| == |keys| && forall i :: 0 <= i < |keys| ==> items[i] == ItemOf(keys[i].hash, rs[keys[i].hash])
  {
    seq(|keys|, i requires 0 <= i < |keys| => ItemOf(keys[i].hash, rs[keys[i].hash]))
  }

  /** The cursor a scan holds at the position `seek`. */
  function CursorAt(f: Filter, seek: Option<Key>): Option<CursorText> {
    if seek.None? then None else Some(EncodeCursor(f.ref, PathOf(f), seek.value))
  }

  ghost function PageFrom(rs: Releases, f: Filter, seek: Option<Key>, limit: nat): ReleasePage
    requires limit >= 1
  {
    var cut := PageCut(rs, f, seek, limit);
    ReleasePage(ItemsAt(rs, cut.keys), CursorAt(f, cut.next))
  }

  ghost function ListReleases(rs: Releases, q: ReleaseQuery): Result<ReleasePage, ListError> {
    if q.filter.ref != "" && !ValidRef(q.filter.ref) then Err(BadRef)
    else if q.cursor.None? then Ok(PageFrom(rs, q.filter, None, PageLimit(q.limit)))
    else
      var seek := DecodeCursor(q.cursor.value, q.filter.ref, PathOf(q.filter));
      if seek.None? then Err(BadCursor) else Ok(PageFrom(rs, q.filter, seek, PageLimit(q.limit)))
  }
}
