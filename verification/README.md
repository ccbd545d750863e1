# Takuhai: a verified model

Takuhai is a release index. Crawlers walk the pages of a source and emit posts; ingest normalises
each post's magnet to an infohash and stores it; a matcher claims releases from a leased work queue,
decides on them, and readers page through what was matched. This project models that path and proves
what holds of it over whole runs. `dafny verify dfyconfig.toml` checks everything.

Code that changes state step by step is modelled by methods with loops, and by classes whose fields
are the state: `Store.ReleaseStore` (three tables, one method per transaction or statement),
`Trigger.TakuhaiCrawlerTrigger` (the saved node state), `PageCache.Cache` (the map of entries), the
page walk in `Crawler`, the batch loop in `IngestBatch`, the reslicing in `Infohash`. Each method is
proved equal to a function of its inputs and the old state; the theorems are about those functions.

| files | what they hold |
|---|---|
| `Basics`, `Ordering`, `Text`, `Decimal`, `Radix` | instants and 64-bit wrap-around; text order and descending key lists; trimming and searching; decimal numerals; base 16 and base 32 |
| `StoreModel`, `StoreQueries`, `StoreSteps`, `Store` | the store as a transition system and its reads, the steps row by row, and the imperative store that implements them |
| `Fencing`, `AuditLog`, `Representative`, `QueueAccounts`, `Pagination`, `Refs` | theorems over all runs of the store |
| `ConcurrentClaims`, `ConcurrentReplies` | claims as begin, sweep, select, commit and abort steps, submits and ingests as transactions that hold their row until they end, under row locks; their serial explanation, for the tables and for what callers are told |
| `Infohash`, `RawPosts`, `IngestBatch` | the dedup key, and the batch loop with its retries |
| `CrawlModel`, `CrawlTurns`, `Crawler`, `CrawlChain`, `CrawlGrowth` | the answer of one crawl call read off a flat stream, one turn of the page walk, the nested loop, chains of calls, growth at the front |
| `Trigger`, `TriggerPasses`, `TriggerGrowth`, `TriggerHistory` | the polling node, passes over time, a pass over a growing archive, and passes one after the other over an archive that grows all the while |
| `PageCache`, `CachedCrawl`, `FrozenPages` | the cache under the fetcher, crawls and chains of crawls through it, and when such a chain is a chain over one static archive, whatever the source does meanwhile |

How to read it:

- A run is a sequence of operations, each with its own clock reading; readings need not be ordered. A
  claim also carries the rows other transactions hold while it selects. `OpRestart` changes the
  attempt cap. Where a theorem needs a cap that stays, it says `FixedCap`.
- Row ids are positions in the append-only tables. Text is a sequence of code points, ordered by
  code point. Instants are whole nanoseconds; the trigger compares whole milliseconds.
- The lease length is computed in 64 bits and wraps, as in the source, so a huge request may give a
  lease that ends before it starts. Such leases alone are empty intervals, which overlap nothing but
  do not follow one another in token order (`InTokenOrderIffForward`). Two leases run at the same
  instant in some run exactly when both signs are requested (`ExclusiveIffNotMixed`).
- In normalisation, code points and bytes agree on what is accepted: a text with a character outside
  ASCII is refused in both readings, and padding or line breaks, which the base32 decoder tolerates,
  leave fewer than 20 bytes out of 32 symbols.
- An archive is a sequence of pages indexed by page number from 0; pages beyond it are empty. Pages
  that cannot be fetched or parsed are sets, chosen afresh for every call. A poll that emits nothing
  has an empty batch where the node returns null. The trigger asks a service, a function of the
  request's number, page size and cursor; its theorems take services that answer as the crawler does.
- A cursor text of a listing is an envelope, or garbled: not the base64 of one with a readable key.

Where the code and its description differ, the model follows the code:

- `pkg/crawl/crawl.go:130-131` says has_more is set only when the next post is in the window. When the
  budget fills on the last row of a page the next page is not looked at and has_more is set anyway:
  `HasMoreExactly` gives the exact condition and `HasMoreWithNothingLeft` an instance.
- A claim retires unleased rows at or over the cap without logging an event. With a fixed cap there
  are none; after the cap is lowered the row is no longer the fold of its log: `FoldIffNeverSwept`,
  `LoweredCapBreaksFold`.
- `Crawl` keeps posts whose date could not be read, in year 1. The trigger takes that date at its word
  and ends the pass there: `UndatedPostEndsScan`, and `SiftIsExactIff` for when a pass is exact.
- `sources/dmhy/cache.go:17-19` says a failure stays immediately retryable. That holds of a fetch that
  fails. A body that does not parse is stored before it is parsed, so its page fails again until the
  entry expires: `RetryAfterParseFailureIff`.
- An "unmatched" submit keeps the lease and the token, so one claim may carry several submits.

## Model

| member | source | states |
|---|---|---|
| Store.CheckCanonical | internal/store/postgres/store.go:65-76 | The byte loop accepts exactly forty lowercase hex digits |
| Store.ReleaseStore.constructor | internal/store/postgres/store.go:55-60 | A new store is the initial state: empty tables, and the default attempt cap of 3 when the configured one is not positive |
| Store.ReleaseStore.UpsertTx | internal/store/postgres/store.go:125-156 | Insert-if-absent of the release, then of the raw item, then the recomputation, each with its exact effect on both tables and both flags |
| Store.ReleaseStore.RecomputeRepresentative | internal/store/postgres/store.go:158-184 | One pass over the raw items leaves title, published_at and sources at the latest, earliest and sorted distinct values, and fills magnet and size only when they were empty |
| Store.ReleaseStore.IngestN | internal/store/postgres/store.go:90-123 | The transaction equals the ingest step, conflict rollback included, and keeps the raw-item invariants |
| Store.ReleaseStore.ExhaustOldAttempts | internal/store/postgres/store.go:207-218 | The first UPDATE of a claim retires exactly the unleased rows at or over the cap |
| Store.SortDescending | internal/store/postgres/store.go:227-228 | ORDER BY instant, infohash descending with LIMIT: the first n of the one descending list of the keys |
| Store.ReleaseStore.SelectAndLease | internal/store/postgres/store.go:220-244 | The CTE leases exactly the first claimable rows that no other transaction holds, and nothing else |
| Store.ReleaseStore.LoadClaimed | internal/store/postgres/store.go:258-282 | The answer lists the leased rows in claim order, each with token, attempts, expiry and its own raw items |
| Store.ReleaseStore.Claim | internal/store/postgres/store.go:186-283 | Clamping, sweep, selection, lease and answer together equal the atomic claim step |
| Store.ReleaseStore.Submit | internal/store/postgres/store.go:301-400 | Request check, then token and lease, then status, then the transition and its event: error and new tables equal the submit step |
| Store.ReleaseStore.QueueStats | internal/store/postgres/store.go:427-452 | One scan computes the six counters as the sizes of the six sets of rows |
| Store.ReleaseStore.ListReleases | internal/store/postgres/store.go:468-586 | Validation, cursor decoding, the four queries, the extra row and the next cursor equal the listing function on the current rows |
| StoreSteps.StepRow | internal/store/postgres/store.go:90-400 | What any one transaction does to any one existing row: swept, leased, decided, extended by a raw item, or nothing |
| StoreSteps.StepTables | internal/store/postgres/store.go:140-149 | raw_items and match_events only ever grow at the end, by exactly the accepted post or outcome |
| StoreSteps.NewRow | internal/store/postgres/store.go:126-135 | A release comes into being only by ingest, unmatched, unclaimed and with no attempts |
| StoreSteps.TerminalAbsorbs | internal/store/postgres/store.go:329-334 | Matched, suppressed and exhausted are final: no run of operations changes decision, token, attempts or lease of such a row |
| StoreSteps.IngestKeepsDecision | internal/store/postgres/store.go:158-184 | Ingest never touches the queue or decision columns of an existing release, nor any other release |
| Fencing.RowFollowsItsClaims | internal/store/postgres/store.go:231-239 | After any run the token, claim time and lease of a row are those of its last claim, and tokens are 1, 2, 3, ... |
| Fencing.TokensStrictlyIncrease | internal/store/postgres/store.go:231-239 | Each claim of a release issues a strictly larger token than all before it |
| Fencing.SubmitOutcome | internal/store/postgres/store.go:317-334 | Exactly which submits go through, from history alone: unmatched, token of the last claim, lease running by the submit's own clock; the no-active-lease error is never returned |
| Fencing.SupersededTokenNeverAccepted | internal/store/postgres/store.go:329-331 | Once a later claim happened, no earlier token is ever accepted again, whatever runs in between |
| Fencing.LeasesExclude | internal/store/postgres/store.go:186-244 | When no requested length wraps below zero, the intervals [claimed_at, lease_expires_at) of all claims of a release share no instant and follow one another in token order, on arbitrary clocks |
| Fencing.OrdinaryLeaseRunsForward | internal/store/postgres/store.go:195-199 | Every request up to 9223372036 seconds gives a lease of positive length |
| Fencing.UnmixedLeasesExclude | internal/store/postgres/store.go:186-244 | No two leases of a release are ever running at the same instant, in any run that does not request both a positive length and one that wraps below zero |
| Fencing.MixedLeasesOverlap | internal/store/postgres/store.go:195-199 | For every pair of a positive and a negative length, a run in which two leases are running at the same instant |
| Fencing.ExclusiveIffNotMixed | internal/store/postgres/store.go:195-199 | All runs over a set of requested lengths keep leases disjoint if and only if the set does not hold both a positive length and one that wraps below zero |
| Fencing.BackwardLeasesLoseOrder | internal/store/postgres/store.go:195-199 | For every length that wraps below zero, a run whose (empty) leases do not follow one another in token order |
| Fencing.InTokenOrderIffForward | internal/store/postgres/store.go:195-199 | All runs over a set of requested lengths keep leases in token order if and only if none of them wraps below zero |
| AuditLog.LogDeterminesRow | internal/store/postgres/store.go:336-394 | In every reachable state, any caps and clocks: ref, confidence, attempts and first match are the replay of the match events, a terminal event is last and unique, and the log length is attempts plus one for a decision |
| AuditLog.FixedCapStaysUnder | internal/store/postgres/store.go:336-345 | Under a fixed cap attempts stay below it until the release is exhausted at exactly the cap |
| AuditLog.FoldIffNeverSwept | internal/store/postgres/store.go:207-218 | Whatever the caps: the row is the fold of its log if and only if no claim retired it unlogged |
| AuditLog.LoweredCapBreaksFold | internal/store/postgres/store.go:207-218 | A concrete run with a lowered cap after which the row is exhausted and its log says unmatched |
| AuditLog.FixedCapNeverSweeps | internal/store/postgres/store.go:207-218 | Under a fixed cap a claim never retires a row |
| AuditLog.RowIsFoldOfLog | internal/store/postgres/store.go:336-394 | Under a fixed cap every row is the fold of its audit log, which has at most cap events |
| AuditLog.AcceptedSubmitLowersSlack | internal/store/postgres/store.go:336-345 | Each accepted submit strictly lowers the attempts that remain over all releases |
| AuditLog.WorkIsBounded | internal/store/postgres/store.go:336-394 | Accepted submits so far plus attempts still available never exceed cap times releases |
| Representative.RepresentativeFieldsAreExact | internal/store/postgres/store.go:90-184 | After any run each release has a raw item; title, published_at and sources are the exact aggregates; magnet and size are the first non-empty ones ingested |
| Representative.RunKeepsItemsSound | internal/store/postgres/store.go:158-184 | After any run (source, source_id) is unique, raw items have their release, and the cached columns equal a recomputation |
| Representative.LatestIsGreatest | internal/store/postgres/store.go:161-166 | The title query picks the item with the greatest (published_at, id) |
| Representative.EarliestIsLeast | internal/store/postgres/store.go:167-170 | min(published_at) is attained and is a lower bound |
| Representative.SourcesAreSortedDistinct | internal/store/postgres/store.go:171-174 | The source list is strictly ascending and holds exactly the sources of the items |
| Representative.IngestOrderIrrelevant | internal/store/postgres/store.go:158-184 | Two runs that post the same distinct posts in any order, mixed with any other operations, agree on which releases exist, their published_at and their sources |
| QueueAccounts.StatusesPartition | internal/store/postgres/store.go:427-452 | The four statuses add up to all releases |
| QueueAccounts.UnmatchedSplits | internal/store/postgres/store.go:427-452 | Unmatched = available + leased + the unleased over-cap rows, for any tables |
| QueueAccounts.FixedCapAccounts | internal/store/postgres/store.go:427-452 | Under a fixed cap unmatched = available + leased in every reachable state |
| QueueAccounts.ClaimClearsOverdue | internal/store/postgres/store.go:207-218 | A claim brings the deficit to zero, at its clock reading and any earlier one |
| QueueAccounts.ClaimCount | internal/store/postgres/store.go:220-230 | A claim takes exactly min(limit, free claimable) distinct rows |
| QueueAccounts.ClaimTakesTheFirst | internal/store/postgres/store.go:227-229 | What a claim leaves behind sorts below everything it takes |
| QueueAccounts.ClaimMovesCounts | internal/store/postgres/store.go:186-244 | A claim moves exactly that many releases from available to leased and every overdue one to exhausted |
| Refs.ValidRefIffSplits | internal/cursor/cursor.go:27-27 | A ref is accepted exactly when it is a namespace, a colon and a value without line breaks, and the split is unique |
| Pagination.CursorIsBound | internal/cursor/cursor.go:85-139 | A cursor text decodes to a position if and only if it is the one issued for that position under its own ref and path; garbled texts, other versions, refs and paths are invalid |
| Pagination.CutLosesNothing | internal/store/postgres/store.go:490-524 | A selected row beyond the seek position is on the page or beyond the position the page hands out |
| Pagination.NothingIsMissed | internal/store/postgres/store.go:468-586 | A finished scan returns every release selected at its start, with arbitrary operations between pages and arbitrary limits |
| Pagination.CatalogRepeatsOnlyEarlier | internal/store/postgres/store.go:541-566 | On the catalogue path a release comes up again only after its published_at moved back |
| Pagination.DeltaNeverRepeats | internal/store/postgres/store.go:567-585 | On the delta path no release is returned twice |
| Pagination.NextDeltaReturnsIff | internal/store/postgres/store.go:567-585 | A release matched at some point is returned by a later finished delta scan if and only if the clock reading of the accepted submit was above its since |
| Pagination.PagesAreOneListing | internal/store/postgres/store.go:468-586 | With no writes in between the pages concatenate to the one sorted listing: the same keys and the same items |
| Pagination.ScanFinishes | internal/store/postgres/store.go:510-538 | Without writes a scan ends after at most as many requests as there are rows, and one |
| ConcurrentClaims.OpenClaimsHoldDisjointRows | internal/store/postgres/store.go:125-345 | In every interleaving of claims, submits and ingests, no row is held by two open transactions, and the rows open claims hold still satisfy their predicates |
| ConcurrentClaims.FatesAreExclusive | internal/store/postgres/store.go:201-205 | Every transaction that began is open, committed or aborted, and only one of these |
| ConcurrentClaims.InterleavingIsSerial | internal/store/postgres/store.go:201-283 | Once all claims have ended, the tables equal those of a serial run of atomic claims, submits and ingests; a claim passes over rows that open claims, submits and ingests held when it selected, and aborted transactions never happened |
| ConcurrentClaims.InterleavingIsFenced | internal/store/postgres/store.go:229-239 | In every interleaving rows follow numbered claims; leases are disjoint and in token order when no length wraps below zero, and disjoint whenever lengths of both signs are not mixed |
| ConcurrentReplies.InterleavingRepliesAreSerial | internal/store/postgres/store.go:201-283 | Each committed claim returns the releases, tokens, attempts, expiries and raw items its atomic counterpart returns in the serial run, and every submit and ingest gets the reply it gets there |
| Infohash.IsHex40 | internal/infohash/infohash.go:64-72 | The index loop accepts exactly hex digits of either case |
| Infohash.CanonicalKey | internal/infohash/infohash.go:50-62 | The two lengths of a bare btih, hex and base32, and nothing else |
| Infohash.NormalizeInfohash | internal/infohash/infohash.go:29-60 | The reslicing method equals the normalisation function on every input |
| Infohash.NormalizeIff | internal/infohash/infohash.go:22-48 | A value has key k if and only if its payload spells, in hex or base32 of any case, the 20 bytes whose lowercase hex is k |
| Infohash.SameKeyIffSameDigest | internal/infohash/infohash.go:22-25 | Two spellings share a key if and only if they spell the same 20 bytes |
| Infohash.NormalizeIsCanonical | internal/infohash/infohash.go:22-25 | Every key is forty lowercase hex digits |
| Infohash.NormalizeFixesKeys | internal/infohash/infohash.go:50-56 | The fixed points of normalisation are exactly the canonical keys |
| Infohash.NormalizeTwice | internal/infohash/infohash.go:22-25 | Normalising a key again is the identity |
| Infohash.BareSpelling | internal/infohash/infohash.go:30-33 | White space around a bare spelling does not change its key |
| Infohash.EmbeddedSpelling | internal/infohash/infohash.go:30-44 | A spelling in the first btih field of a magnet or urn has the key it has on its own, whatever surrounds the field, and with white space around the value |
| Infohash.NormalizeReadsPayload | internal/infohash/infohash.go:37-47 | The early skip of magnets and v2 urns turns away nothing the bare case would have taken |
| Radix.Base32RoundTrip | internal/infohash/infohash.go:57-59 | Base32 text of a digest decodes to that digest (section 6 of RFC 4648) |
| Radix.HexEncodeReads | internal/infohash/infohash.go:57-59 | Base16 text of a digest is canonical and reads back (section 8 of RFC 4648) |
| Radix.SpellingsDenoteOneNumber | internal/infohash/infohash.go:57-59 | The base16 and base32 spellings of a digest denote the same number, most significant digit first |
| IngestBatch.NextJob | internal/rest/ingest.go:145-161 | Normalisation and the field copy of one post |
| IngestBatch.CallStore | internal/rest/ingest.go:161-171 | One store call: its outcome, or an error with the transaction rolled back or applied all the same |
| IngestBatch.IngestBatch | internal/rest/ingest.go:140-187 | The loop over posts with its buckets and early return equals the batch function, for any pattern of database faults |
| IngestBatch.BatchPostsCanonicalKeys | internal/rest/ingest.go:145-161 | The store's guard against non-canonical keys is unreachable from the batch loop |
| IngestBatch.CountsAreExact | internal/rest/ingest.go:140-187 | Every processed post is in exactly one bucket; releases grow by New and raw items by New + Updated, up to one applied failing commit |
| IngestBatch.BatchIsARun | internal/rest/ingest.go:140-187 | A batch is a run of store steps up to the post it stopped at |
| IngestBatch.BatchKeepsDecisions | internal/rest/ingest.go:140-187 | A batch never changes status, token, lease or attempts of an existing release, and logs nothing |
| IngestBatch.RepostIsNoOp | internal/store/postgres/store.go:109-122 | Posting a whole batch again, after any operations by anyone, changes no table and counts nothing as new or updated |
| IngestBatch.RetryReachesCleanRun | internal/rest/ingest.go:140-187 | However often and wherever a batch failed, with claims, submits and restarts in between, a successful retry reaches the releases and raw items of one clean posting, up to timestamps |
| Decimal.ItoaReadsBack | pkg/crawl/crawl.go:320-322 | Every 64-bit integer is read back as written |
| CrawlModel.CursorRoundTrip | pkg/crawl/crawl.go:295-322 | A formatted cursor parses to the same page and offset |
| Crawler.WalkRows | pkg/crawl/crawl.go:204-241 | The inner loop over the rows of a page: where it stops, with which cursor and has_more |
| Crawler.VisitPage | pkg/crawl/crawl.go:168-246 | One turn of the outer loop on a fetched page, a failed page or an empty page |
| Crawler.WalkPages | pkg/crawl/crawl.go:168-246 | The outer loop reaches the answer of the archive, or the first failing page it needs, and counts the pages fetched |
| CrawlTurns.TurnLeads | pkg/crawl/crawl.go:168-246 | From any point of a walk, a turn on the page of the archive stops with the answer, or goes on with the rest of the stream still ahead |
| Crawler.Crawl | pkg/crawl/crawl.go:137-247 | One request equals the answer read off the flat stream: posts, cursor, has_more, stop reason, page counts, and the error at the first page that fails |
| CrawlChain.StreamIsArchive | pkg/crawl/crawl.go:185-198 | The rows a walk meets are the pages before the first run of threshold empty pages, and it stops at the last page of that run |
| CrawlChain.CallTerminates | pkg/crawl/crawl.go:168-198 | A call, answered or failing, fetches at most (last non-empty page - start page + 1, or none) + threshold pages, and none for a malformed cursor |
| CrawlChain.ResumesAfter | pkg/crawl/crawl.go:217-241 | The cursor after a row resumes at exactly the next row, mid-page and at a page seam |
| CrawlChain.ResumeEqualsFlatWalk | pkg/crawl/crawl.go:137-247 | At every moment of a chain the concatenated posts are a prefix of the flat walk, for any page sizes, failures and moving cutoffs; a finished chain has all of the tightest window and nothing beyond the loosest |
| CrawlChain.FinishedChainIsExact | pkg/crawl/crawl.go:137-247 | With one cutoff a finished chain is exactly the in-window prefix of the archive up to its floor |
| CrawlChain.FailuresAreTransparent | pkg/crawl/crawl.go:168-183 | Calls that fail leave no trace: the chain without them is the same |
| CrawlChain.HasMoreExactly | pkg/crawl/crawl.go:217-241 | has_more is set exactly when the budget fills and a further post is in the window or the last row ends its page |
| CrawlChain.HasMoreWithNothingLeft | pkg/crawl/crawl.go:235-241 | A concrete archive on which has_more is set and the next call is empty |
| CrawlGrowth.GrowthLosesNothing | pkg/crawl/crawl.go:153-166 | When in-window posts appear at the front between calls of an archive cut into fixed-size pages, a finished chain has still returned every in-window post of the first archive |
| Trigger.TakuhaiCrawlerTrigger.StartPassIfNeeded | integrations/n8n/src/nodes/TakuhaiCrawlerTrigger/TakuhaiCrawlerTrigger.node.ts:184-194 | A pass starts only when none is open; its floor is the watermark, or now minus the lookback |
| Trigger.TakuhaiCrawlerTrigger.FinishSavedPass | integrations/n8n/src/nodes/TakuhaiCrawlerTrigger/TakuhaiCrawlerTrigger.node.ts:196-202 | The watermark becomes the start of the pass and the rest is cleared |
| Trigger.TakuhaiCrawlerTrigger.Collect | integrations/n8n/src/nodes/TakuhaiCrawlerTrigger/TakuhaiCrawlerTrigger.node.ts:143-152 | The scan of a response: posts above the floor and not after the start, ended by the first post at or below the floor |
| Trigger.TakuhaiCrawlerTrigger.RunRequests | integrations/n8n/src/nodes/TakuhaiCrawlerTrigger/TakuhaiCrawlerTrigger.node.ts:115-160 | The request loop with its cap, its shrinking page size and its saved cursor equals its specification, for a service that may answer each request differently |
| Trigger.TakuhaiCrawlerTrigger.Poll | integrations/n8n/src/nodes/TakuhaiCrawlerTrigger/TakuhaiCrawlerTrigger.node.ts:92-181 | One poll equals its specification: new state, emitted batch, thrown error |
| TriggerPasses.SiftIsExactIff | integrations/n8n/src/nodes/TakuhaiCrawlerTrigger/TakuhaiCrawlerTrigger.node.ts:143-152 | The scan emits exactly the posts between floor and start if and only if none of them stands behind a post at or below the floor |
| TriggerPasses.UndatedPostEndsScan | integrations/n8n/src/nodes/TakuhaiCrawlerTrigger/TakuhaiCrawlerTrigger.node.ts:144-148 | A post without a date ends the scan: what follows it is lost |
| TriggerPasses.PassEmits | integrations/n8n/src/nodes/TakuhaiCrawlerTrigger/TakuhaiCrawlerTrigger.node.ts:103-181 | The batches of a pass concatenate to exactly one scan of the archive, the watermark becomes the pass start, and the pass ends after at most one poll more than there are rows |
| TriggerPasses.PassCompletes | integrations/n8n/src/nodes/TakuhaiCrawlerTrigger/TakuhaiCrawlerTrigger.node.ts:115-164 | Every pass comes to its end: going on polling the archive finishes it |
| TriggerPasses.BatchesAreBounded | integrations/n8n/src/nodes/TakuhaiCrawlerTrigger/TakuhaiCrawlerTrigger.node.ts:115-126 | No batch exceeds its batch size |
| TriggerPasses.PassesTileTime | integrations/n8n/src/nodes/TakuhaiCrawlerTrigger/TakuhaiCrawlerTrigger.node.ts:184-202 | Over any number of passes of a newest-first archive that gains only posts newer than the last pass start, everything between the first floor and the last start is emitted exactly once |
| TriggerGrowth.GrowingPassMissesNothing | integrations/n8n/src/nodes/TakuhaiCrawlerTrigger/TakuhaiCrawlerTrigger.node.ts:103-181 | A pass whose archive grows at the front between polls and between requests emits every post of the first archive between floor and start at least once |
| TriggerHistory.BatchIsDue | integrations/n8n/src/nodes/TakuhaiCrawlerTrigger/TakuhaiCrawlerTrigger.node.ts:136-165 | Whatever the service answers, a poll emits only posts after the floor and not after the start of its pass |
| TriggerHistory.GrownPassesMissNothing | integrations/n8n/src/nodes/TakuhaiCrawlerTrigger/TakuhaiCrawlerTrigger.node.ts:103-203 | Over any number of passes, with posts appearing between and during them, every post of the last archive between the first floor and the last start is emitted at least once, and nothing outside that time is |
| PageCache.KeysAreDistinct | sources/dmhy/cache.go:42-44 | Different (sortID, page) pairs never share a key |
| PageCache.Cache.Lookup | sources/dmhy/cache.go:63-71 | A lookup gives an unexpired entry or nothing |
| PageCache.Cache.Store | sources/dmhy/cache.go:73-84 | The sweep drops exactly the expired entries and the new one is stored |
| PageCache.Cache.Fetch | sources/dmhy/cache.go:48-61 | The wrapped fetcher serves hits, asks upstream on misses and stores successes only |
| PageCache.HitIsRecentFetch | sources/dmhy/cache.go:48-71 | A hit is the body a successful fetch of the same page returned less than ttl before |
| PageCache.NoRefetchWithinTtl | sources/dmhy/cache.go:10-17 | Within ttl of a successful fetch the source is not asked for that page again |
| PageCache.MissIff | sources/dmhy/cache.go:48-71 | A call goes upstream exactly when no fetch of the same page succeeded less than ttl before |
| PageCache.ServedBy | sources/dmhy/cache.go:48-71 | Every body a call is served is that of one fetch of the same page, its own or an earlier one less than ttl old |
| PageCache.ServesIsUnique | sources/dmhy/cache.go:48-71 | At most one fetch serves a call |
| PageCache.PutLeavesFreshOnly | sources/dmhy/cache.go:73-84 | With a positive ttl an insertion leaves fresh entries only and drops no fresh one |
| CachedCrawl.WalkThroughCache | sources/dmhy/cache.go:48-61 | The page walk as a loop over a cache object equals its specification on the trace of fetches |
| CachedCrawl.CrawlThroughCache | sources/dmhy/cache.go:48-61 | A whole call over a cache object equals its specification, and leaves the cache of the longer trace |
| CachedCrawl.CallIsShown | sources/dmhy/cache.go:48-71 | A call whose lookups show the pages of one archive fetches its pages once each, first to last, and returns what the crawler returns on that archive, failing where a fetch failed or a body did not parse |
| CachedCrawl.ChainIsShown | sources/dmhy/cache.go:48-71 | A chain of calls whose lookups show the pages of one archive, with failures and abandoned calls, holds what a chain of the same page sizes and cutoffs over that archive holds |
| FrozenPages.ShowsOneArchiveIff | sources/dmhy/cache.go:48-71 | The lookups of a chain show the pages of one archive if and only if they show no page in two versions |
| FrozenPages.FrozenChainIsStatic | sources/dmhy/cache.go:10-15 | While the entries a chain is served stay fresh, the chain is a chain of crawls of one static archive, even when the source changes meanwhile |
| FrozenPages.ShortChainIsStatic | sources/dmhy/cache.go:10-15 | From an empty cache a chain whose last lookup comes less than ttl after its first fetch is a chain over one static archive, whatever the source does |
| FrozenPages.AgreeingChainIsStatic | sources/dmhy/cache.go:48-84 | A chain of any length is one over a static archive when any two fetches of one page got the same body |
| FrozenPages.ConsistentChainIsStatic | sources/dmhy/cache.go:48-84 | A chain that is shown no page in two versions is a chain of crawls of the archive it was shown |
| FrozenPages.ExpiryShowsTwoVersions | sources/dmhy/cache.go:66-70 | The bound is exact: a lookup at the instant an entry expires may show a second version of the page |
| FrozenPages.FinishedChainReadsArchive | sources/dmhy/cache.go:48-84 | A finished chain that saw no page in two versions has read exactly the window of the archive it was shown, down to its floor |
| FrozenPages.CachedCallIsStatic | sources/dmhy/cache.go:48-84 | Corollary for a source that stays as it is: a call through the cache returns what the crawler returns on the archive of the source |
| FrozenPages.CachedChainIsStatic | sources/dmhy/cache.go:48-84 | Corollary for a source that stays as it is: the chain is a chain over the archive of the source |
| FrozenPages.CachedChainReadsArchive | sources/dmhy/cache.go:48-84 | Corollary for a source that stays as it is: a finished chain has read exactly the window of its archive down to its floor |
| FrozenPages.RetryAfterFetchFailure | sources/dmhy/cache.go:48-61 | After a fetch that failed, the next lookup of the page goes upstream and gives what the source answers then |
| FrozenPages.RetryAfterParseFailureIff | sources/dmhy/cache.go:48-84 | After a body that did not parse, the next lookup of the page gives rows exactly when the entry has expired and the source then answers a body that parses |

## Left out

- HTTP handlers and their request checks, JSON bodies, status codes, the MCP server, metrics, logging, configuration and health.
- HTML and size parsing, `ParseLookback` and `parseDurationMs`: pages arrive as posts or as an error, durations as numbers.
- Pagination.CursorIsBound: does not model the base64 and JSON bytes of an envelope, only that a text is one or is garbled.
- Store.ReleaseStore.ListReleases: takes the cursor as such a text, so which byte strings are garbled is not modelled.
- `GetRelease`, `ResolveMagnets` and `CatalogStats`: plain reads that would only add easy members.
- Gaps in serial ids, text collation (code-point order stands for it), and rounding of timestamps to microseconds.
- Overflow of tokens, attempt counts and page numbers beyond their database or 64-bit width; archives are required to fit where a cursor is written.
- The single statements inside a submit or an ingest: it takes its row at once, and its effects fall at its end. One that is turned down before it opens a transaction waits for that row too, though nothing depends on it.
- Reads inside concurrent claims: listings and counters are taken between committed states.
- The rate limiter and real network fetching; the source is an archive with failing pages.
- A request of the trigger that throws: the state is modelled as the method leaves it, but what n8n then persists is not, and the theorems about passes take polls whose requests succeed.
- Posts without a published_at text in a crawl response: the crawler always sends one.
- Date and lookback values outside the range of a JavaScript date.
- PageCache.Cache.Fetch: calls are sequential, so two misses of the same page at the same time are not covered.
