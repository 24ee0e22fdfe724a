# Verified model of the platform's stateful protocols

This project models the parts of an IoT platform (device catalogs, video sessions, job
queues, device registration, licensing, MQTT sessions, device shadows) whose correctness
depends on interleaving, on the history of a run, or on a transformation being reversible,
and proves what they are meant to keep. The program is written in Go with PostgreSQL; here
each part has

* a specification on values: what one mutex section, one transaction or one loop does,
* where the program updates things in place, an object or a loop that is proved to do
  exactly that,
* theorems over every input, every run or every interleaving of the specified steps, and
* outcome theorems, which say in terms of rows, times and answers what a step comes to and
  exactly when, without naming the function that specifies it.

| file | about |
|---|---|
| `CatalogModel`, `CatalogCoordinator`, `CatalogConcurrency`, `CatalogPages`, `CatalogOutcomes` | the GB28181 catalog coordinator: mutex sections, interleaved calls, merging of pages |
| `VideoTables`, `VideoStore`, `VideoFence`, `VideoOutcomes` | streams, viewer sessions and jobs as transactions, and the fence between stopping a stream and admitting a viewer |
| `LeasedJobs`, `MemoryJobStore`, `LeaseFencing`, `JobWorker`, `WorkerOutcomes` | the leased job queue, its fencing tokens, and the worker with its retries |
| `NonceStore`, `Register`, `RegisterService`, `RegisterRuns`, `RegisterCache` | one-time nonces, and REGISTER with digest authentication and its retransmission cache |
| `LicenseClock` | the high-water mark of the license clock and device admission |
| `SessionRegistry`, `AccessServer`, `SessionOutcomes` | MQTT sessions: takeover, late disconnections, the sweeper |
| `Percent`, `OpenQuery`, `QueryForms` | percent-encoding (sections 2.1 and 2.3 of RFC 3986) and canonical queries |
| `OpenRate` | the token bucket, over real numbers |
| `JsonWalk` | the search for repeated keys in a JSON token stream (section 4 of RFC 8259) |
| `Manifest`, `ManifestOutcomes` | the HLS playlist rewriter (section 4.1 of RFC 8216) |
| `Shadow` | the last-writer-wins device shadow |
| `Prelude` | optional values and the byte order of strings |

The playlist theorems hold for any rules about tags and segment paths; `Manifest.GATEWAY` has the
program's own. `Percent` models both `rfc3986` and the path escaping of the standard library.

`dafny verify dfyconfig.toml` checks everything.

## Where the program keeps less than one might expect

* A refresh can be pending and stale at once: `start` does not look at `stale` the second
  time. `OverlapOnlyByLateInstall` says exactly when.
* A catalog page refused for a conflict keeps its earlier items (`RejectedPageEffect`), and
  one refused because the refresh then has too many items stays merged, so that the refresh
  never commits (`TooManyKeepsPage`, `OverfullNeverCommits`).
* The stop job of a stream is inserted with `DO NOTHING` under the stream's ID. If the stored
  one is over, or its six attempts are spent and its last lease has run out, the last viewer
  leaving leaves nothing that will be worked on, and the stream stays `stopping` and refuses
  viewers for good, as far as these transactions go (`StopLeavesWorkIff`,
  `SecondCycleStrands`, `SixDeadWorkersStrand`, `StrandedForever`).
* A create that is repeated word for word is refused as a conflict if the viewer was put on a
  stream of another ID than it proposed (`RepeatGrantedIff`).
* The Retry-After of a clock that lags the last refill can be too short
  (`RetryAfterTooShort`; `RetryAfterIsLeastWait` has the condition).
* A device can go offline although it was heard within the grace period: a report reads the
  clock before it waits for the session, so a late one sets the session back
  (`HeardButOffline`; `GraceMeansSilenceIff` has the condition).
* The bars in the key of the transaction cache are ambiguous if one peer's address text
  ends with a bar and another peer's address, which only the zone of an IPv6 address could
  bring about (`KeyCollides`, `KeyTellsApartIff`).
* A qop in capitals is accepted, but digested in lower case (`CapitalQop`,
  `DigestIsTheStandardOneIff`).
* An admission reads the clock twice and compares only the first reading with the mark
  (`AdmittedLongBefore`, `HowFarTheClockMayGoBack`).
* For generic products the row timestamp of a shadow survives a change of pond or product
  (`TimestampOfAnotherPond`, `RowTimestamps`).

## Model

| member | source | states |
|---|---|---|
| `CatalogConcurrency.FlagsNameTheirGoroutine` | internal/gbcatalog/catalog.go:95-255 | in every interleaving of Start, AcceptPage and Expire, `committing` is set exactly while one goroutine is inside ReplaceCatalog for that same object with those same items, `staling` exactly while one is inside markStale for that refresh, and never both |
| `CatalogConcurrency.RecheckNeverFails` | internal/gbcatalog/catalog.go:182-186 | the recheck after a successful ReplaceCatalog holds in every run, so a catalog that was replaced is never answered with ErrStore |
| `CatalogConcurrency.OneReplacementPerRefresh` | internal/gbcatalog/catalog.go:171-190 | over any run at most one ReplaceCatalog succeeds per device and serial number, every completed refresh has one with as many items as announced, and nothing is both pending and completed |
| `CatalogConcurrency.CompletedOnlyGrows` | internal/gbcatalog/catalog.go:83-91 | a completed refresh is never forgotten, overwritten or started again, however a run goes on |
| `CatalogConcurrency.CompletedStays` | internal/gbcatalog/catalog.go:83-91 | one step keeps every completed refresh |
| `CatalogConcurrency.PendingAndStaleCanOverlap` | internal/gbcatalog/catalog.go:83-91 | for every refresh there is a run after which it is pending and stale at once, because the second look in start does not consult `stale` |
| `CatalogConcurrency.OverlapOnlyByLateInstall` | internal/gbcatalog/catalog.go:83-91 | a step makes a refresh pending and stale at once if and only if it is the second section of start, installing a refresh that became stale meanwhile and is not completed |
| `CatalogConcurrency.InvRun` | internal/gbcatalog/catalog.go:45-255 | the inductive invariant that ties calls under way to flags, objects and the record of replaced catalogs holds in every reachable state |
| `CatalogConcurrency.InvStep` | internal/gbcatalog/catalog.go:45-255 | every event keeps that invariant |
| `CatalogPages.PagesCommitTheirUnion` | internal/gbcatalog/catalog.go:95-191 | valid pages of one refresh that agree with each other, fed in any order and with any repetition before the deadline, commit exactly when their union has the announced size, and then exactly that union once |
| `CatalogPages.FeedCollects` | internal/gbcatalog/catalog.go:132-191 | after each page of such a feed the coordinator either holds exactly the union so far or has committed it |
| `CatalogPages.UnionMeaning` | internal/gbcatalog/catalog.go:132-144 | the union of consistent pages holds every item of every page and nothing else |
| `CatalogModel.MergeSucceedsIffClean` | internal/gbcatalog/catalog.go:132-144 | merging a page stops if and only if some item contradicts what is known or an earlier item of the page |
| `CatalogModel.RejectedPageEffect` | internal/gbcatalog/catalog.go:132-144 | a page stopped by a contradiction keeps what was merged before it; it changes nothing if and only if all earlier channels were known |
| `CatalogModel.TooManyKeepsPage` | internal/gbcatalog/catalog.go:132-148 | a page is refused as invalid exactly if it merges cleanly and the refresh then has more items than announced; all of it stays merged |
| `CatalogConcurrency.OverfullNeverCommits` | internal/gbcatalog/catalog.go:145-162 | a refresh that holds more items than it announced never commits in any continuation, while its object lasts |
| `CatalogModel.MergeGrows` | internal/gbcatalog/catalog.go:132-144 | merging never changes or drops a known item and adds items of the page only |
| `CatalogModel.MergeHolds` | internal/gbcatalog/catalog.go:131-144 | a merge that is not stopped holds every item of the page, and reports a duplicate exactly when nothing was new |
| `CatalogModel.SnapshotUnique` | internal/gbcatalog/catalog.go:155-159 | a set of items has only one listing in strictly increasing channel order, so the order of map iteration cannot show |
| `CatalogCoordinator.Coordinator.LookUpSection` | internal/gbcatalog/catalog.go:45-69 | the first section of start answers what is known about the refresh and changes nothing |
| `CatalogCoordinator.Coordinator.InstallSection` | internal/gbcatalog/catalog.go:83-92 | the second section of start keeps an existing refresh or allocates a new pending object |
| `CatalogCoordinator.Coordinator.MergePage` | internal/gbcatalog/catalog.go:131-144 | the loop over the page items leaves the pending object with the merge of its items and the page |
| `CatalogCoordinator.Coordinator.ListItems` | internal/gbcatalog/catalog.go:155-159 | the listing handed to the store is the strictly sorted listing of the collected items |
| `CatalogCoordinator.Coordinator.InsertSorted` | internal/gbcatalog/catalog.go:159 | inserting an item keeps the listing strictly sorted and complete |
| `CatalogCoordinator.Coordinator.AcceptSection` | internal/gbcatalog/catalog.go:103-162 | the main section of AcceptPage does what the section function says, branch by branch |
| `CatalogCoordinator.Coordinator.CommitFailedSection` | internal/gbcatalog/catalog.go:165-180 | after a failed commit only the same object loses its flag |
| `CatalogCoordinator.Coordinator.CommitDoneSection` | internal/gbcatalog/catalog.go:182-190 | after a successful commit the refresh moves from pending to completed if the object is still committing |
| `CatalogCoordinator.Coordinator.ExpireSection` | internal/gbcatalog/catalog.go:198-218 | the section of Expire refuses, does nothing, or marks the refresh as going stale |
| `CatalogCoordinator.Coordinator.StaleFailedSection` | internal/gbcatalog/catalog.go:231-238 | a failed MarkStale takes the flag off whatever is pending under the key |
| `CatalogCoordinator.Coordinator.StaleDoneSection` | internal/gbcatalog/catalog.go:241-245 | a successful MarkStale moves the refresh from pending to stale without looking who is pending |
| `CatalogCoordinator.Coordinator.Start` | internal/gbcatalog/catalog.go:45-93 | start alone, with its store call, leaves the tables and gives the answer the section functions say |
| `CatalogCoordinator.Coordinator.Conclude` | internal/gbcatalog/catalog.go:164-190 | the end of AcceptPage after the main section, with its store calls |
| `CatalogCoordinator.Coordinator.AcceptPage` | internal/gbcatalog/catalog.go:95-191 | a whole call that runs alone leaves the tables and gives the answer the section functions say |
| `CatalogCoordinator.AloneReachesAccept` | internal/gbcatalog/catalog.go:95-191 | the interleaved machine, run for one call alone, reaches what the AcceptPage method is proved to do |
| `CatalogCoordinator.AloneFinishes` | internal/gbcatalog/catalog.go:103-191 | the same for the part of the call after start |
| `CatalogCoordinator.CheckPage` | internal/gbcatalog/validation.go:23-41 | the validation loop accepts exactly the pages with valid, consistent items whose number fits the announced one |
| `VideoFence.OutstandingStopFences` | internal/mediapg/store.go:174-238 | in every reachable state of create, stop, claim, revalidate and finish, the stream of an outstanding stop job is stopping and has no live viewer |
| `VideoFence.FenceNeverSupersedes` | internal/mediapg/jobs.go:154-173 | revalidating a stop job under a current lease never reports it superseded |
| `VideoFence.StoppedMeansStopped` | internal/mediapg/job_finish.go:152-158 | a stop finished as stopped under a current lease finds no live viewer, leaves the stream stopped with every session of it closed, and its job succeeded |
| `VideoFence.StopLeavesWorkIff` | internal/mediapg/store.go:211-236 | the last viewer leaving leaves a stop job that will be worked on if and only if none was stored for the stream or the stored one is still to be worked on; otherwise the stream is left stranded |
| `VideoFence.WorkableMeaning` | internal/mediapg/jobs.go:26-28 | a job is to be worked on exactly if some time from now on a claim takes it or a lease of it runs |
| `VideoFence.SixDeadWorkersStrand` | internal/mediapg/jobs.go:26-28 | there is a run in which six workers claim the stop job and die: the job is still running in the table, and the stream is stopping for good |
| `VideoFence.StrandedForever` | internal/mediapg/helpers.go:76-95 | a stopping stream whose stop job is over, or out of attempts with its last lease run out, is never moved again, and no new viewer is ever admitted to its camera and source version |
| `VideoFence.StrandedStays` | internal/mediapg/helpers.go:76-95 | one step keeps such a stream as it is |
| `VideoFence.SecondCycleStrands` | internal/mediapg/store.go:228-229 | there is a run of create, stop, claim, finish, create and stop that leaves a stream stopping with its stop job over |
| `VideoFence.IssuedLeaseIsGenuine` | internal/mediapg/jobs.go:13-60 | a lease handed out by ClaimJob carries the payload its job still has |
| `VideoFence.RunKeeps` | internal/mediapg/job_finish.go:14-161 | the invariant that links streams, index, sessions and stop jobs holds after every run in time order |
| `VideoFence.StepKeeps` | internal/mediapg/job_finish.go:14-161 | every transaction keeps that invariant |
| `VideoFence.CreateKeeps` | internal/mediapg/store.go:57-153 | admission keeps it: a stream that is being stopped takes no viewer |
| `VideoFence.StopKeeps` | internal/mediapg/store.go:174-238 | release keeps it: the stop job is stored only once the last live viewer is gone |
| `VideoFence.ClaimKeeps` | internal/mediapg/jobs.go:13-60 | claiming keeps it |
| `VideoFence.RevalidateKeeps` | internal/mediapg/jobs.go:62-173 | revalidating keeps it |
| `VideoFence.FinishKeeps` | internal/mediapg/job_finish.go:14-114 | finishing keeps it |
| `VideoFence.TimePasses` | internal/mediapg/helpers.go:76-95 | the invariant survives the passing of time, since sessions only expire |
| `VideoStore.Store.CreatePlayback` | internal/mediapg/store.go:57-153 | the transaction leaves the tables the specification says, also when it rolls back |
| `VideoStore.Store.Ensure` | internal/mediapg/helpers.go:76-95 | the stream of the camera and version is found or made, and refused while stopping |
| `VideoStore.Store.Join` | internal/mediapg/store.go:113-147 | what follows when the start job exists already |
| `VideoStore.Store.Insert` | internal/mediapg/store.go:111-113 | an insert that does nothing where the key exists, and says whether it did |
| `VideoStore.Store.StopOwnedPlayback` | internal/mediapg/store.go:174-238 | the last live viewer to leave puts the stream in stopping and asks for a stop job |
| `VideoStore.Store.ClaimJob` | internal/mediapg/jobs.go:13-60 | hands out the first claimable job not locked elsewhere, with its lease, and none exactly if there is none |
| `VideoStore.Store.RevalidateJob` | internal/mediapg/jobs.go:62-173 | answers for a held lease, and fences the stream for a stop |
| `VideoStore.Store.Scan` | internal/mediapg/job_finish.go:64-101 | the row loop finds a foreign row if there is one, and otherwise counts waiting and live viewers |
| `VideoStore.Store.FinishJob` | internal/mediapg/job_finish.go:14-114 | moves job, stream and sessions as specified, or gives the lease up and changes nothing |
| `VideoStore.Store.FinishStreamAndSessions` | internal/mediapg/job_finish.go:116-161 | the successive updates of stream and sessions add up to the specified end state |
| `VideoStore.FirstExists` | internal/mediapg/jobs.go:27-29 | among jobs with a time and an ID the claim order has a first one |
| `LeaseFencing.OneAcceptableLease` | internal/mediajobs/store.go:152-202 | of all leases ever issued for a job at most one is acceptable at a time, and it is the last one |
| `LeaseFencing.SupersededOrFinishedIsRefused` | internal/mediajobs/validation.go:35-37 | a lease that was superseded or finished is refused by RevalidateJob and FinishJob forever after, in every continuation of the run and at every clock reading |
| `LeaseFencing.ReclaimOnlyAfterLeaseEnd` | internal/mediajobs/store.go:123-149 | a running job is claimed again only at a clock reading at or past the end of its current lease |
| `LeaseFencing.LeaseHoldsUntilItsEnd` | internal/mediajobs/store.go:123-149 | while a lease runs, nothing but its own finish takes the job from it |
| `LeaseFencing.InvStep` | internal/mediajobs/store.go:98-202 | every operation keeps that |
| `LeaseFencing.DeadForever` | internal/mediajobs/store.go:152-202 | a lease whose token the row no longer has never gets it back |
| `JobWorker.ClaimsAreConserved` | internal/mediajobs/store.go:123-149 | in every run the claims made and the claims left add up to what enqueueing allotted, so claims are finite and attempts never exceed six |
| `JobWorker.StepSpends` | internal/mediajobs/store.go:123-149 | a claim spends exactly one attempt and no other operation gives or takes any |
| `JobWorker.TerminalStays` | internal/mediajobs/store.go:174-202 | a job that has ended stays as it ended |
| `JobWorker.RetriesAreBounded` | internal/playback/service.go:510-551 | when finishes come from the worker, no job is retryable after its last attempt and all its retries together put it off by at most 31 seconds |
| `JobWorker.DelaysAddUp` | internal/playback/service.go:531-549 | the doubling delays of n retries add up to 0, 1, 3, 7, 15 and 31 seconds |
| `MemoryJobStore.MemoryStore.Enqueue` | internal/mediajobs/store.go:61-79 | adds a scheduled entry, or refuses an invalid or repeated job and changes nothing |
| `MemoryJobStore.MemoryStore.SetAuthorization` | internal/mediajobs/store.go:81-96 | replaces the authorization of one entry |
| `MemoryJobStore.MemoryStore.SortedIds` | internal/mediajobs/store.go:108-122 | the sort lists every entry, earliest available first and ties by ID |
| `MemoryJobStore.MemoryStore.Select` | internal/mediajobs/store.go:108-136 | the scan finds the first eligible job in that order, and none exactly if there is none |
| `MemoryJobStore.MemoryStore.ClaimJob` | internal/mediajobs/store.go:98-150 | leases that job for the given time with one more attempt, and changes nothing else |
| `MemoryJobStore.MemoryStore.RevalidateJob` | internal/mediajobs/store.go:152-172 | grants exactly the acceptable leases, with the freshness of the source recomputed |
| `MemoryJobStore.MemoryStore.FinishJob` | internal/mediajobs/store.go:174-202 | stores the outcome under an acceptable lease whose target fits, and otherwise changes nothing |
| `MemoryJobStore.ProcessMediaJob` | internal/playback/service.go:396-453 | one turn of the worker claims, revalidates, calls the provider and finishes as specified |
| `MemoryJobStore.Decide` | internal/playback/service.go:510-551 | maps the outcome of a provider call to the specified job result |
| `OpenQuery.CanonicalKeepsMeaning` | internal/core/open_auth.go:33-65 | a canonical query decodes to the same multiset of pairs as the query it came from |
| `OpenQuery.SameCanonicalIffSamePairs` | internal/core/open_auth.go:33-65 | two queries that canonicalise have the same canonical form if and only if they decode to the same multiset of pairs |
| `OpenQuery.CanonicalIsIdempotent` | internal/core/open_auth.go:33-65 | canonicalising a canonical query changes nothing |
| `OpenQuery.CanonicalOpenQuery` | internal/core/open_auth.go:33-65 | the loop, the in-place sort and the joining compute the canonical form, or fail exactly on malformed items |
| `OpenQuery.EncodeItems` | internal/core/open_auth.go:38-54 | the loop decodes and encodes every item, and fails exactly on a malformed one |
| `OpenQuery.EncodeItem` | internal/core/open_auth.go:40-53 | one item is cut, decoded and encoded again |
| `OpenQuery.SortStable` | internal/core/open_auth.go:55-60 | the sort by key and value computes the sorted list of the specification |
| `OpenQuery.SortOrdered` | internal/core/open_auth.go:55-60 | which is ordered |
| `OpenQuery.SortKeepsElements` | internal/core/open_auth.go:55-60 | and a permutation |
| `OpenQuery.OrderedUnique` | internal/core/open_auth.go:55-60 | and the only ordered permutation |
| `Percent.EncodeRoundTrip` | internal/core/open_auth.go:188-202 | percent-decoding undoes rfc3986 on every byte string |
| `Percent.EncodeLacks` | internal/core/open_auth.go:188-202 | no reserved character survives encoding |
| `Percent.EncodeBytes` | internal/core/open_auth.go:188-202 | the byte loop computes the encoding |
| `Percent.SplitJoin` | internal/core/open_auth.go:38-64 | splitting at a separator undoes joining parts that lack it |
| `Percent.JoinSplit` | internal/core/open_auth.go:38-64 | joining undoes splitting, and no part holds the separator |
| `OpenRate.WindowBound` | internal/core/open_rate.go:18-26 | however requests arrive in time order, in any stretch of length d of a run at most burst + d * perMinute / 60 are admitted |
| `OpenRate.AdmissionsSplit` | internal/core/open_auth.go:166-181 | what a run admits is what its stretches admit |
| `OpenRate.AdmissionsSpendCredit` | internal/core/open_rate.go:18-26 | the admissions of a run are paid for by the tokens at its start and the refill while it lasts |
| `OpenRate.RetryAfterIsLeastWait` | internal/core/open_rate.go:18-26 | the Retry-After of a throttled request is the least whole number of seconds after which an idle key is admitted if and only if the clock lags the last refill by no more than rounding the missing time up gives away; so always at or past the last refill |
| `OpenRate.RetryAfterTooShort` | internal/core/open_rate.go:18-26 | a key told to come back after one second that is not admitted then |
| `OpenRate.AdmitsAfter` | internal/core/open_rate.go:18-26 | an idle key without a whole token is admitted exactly once the time past the last refill covers what is missing |
| `OpenRate.AdmitsIffWholeToken` | internal/core/open_rate.go:18-26 | a request is admitted exactly if the refilled bucket has a whole token |
| `OpenRate.Configure` | internal/core/open_rate.go:10-16 | settings are accepted exactly within their bounds, and then give a positive rate of perMinute per minute and the burst asked for, at least one |
| `OpenRate.KeyRow.Spend` | internal/core/open_auth.go:166-181 | an admitted request writes tokens and refill time, a throttled one writes nothing |
| `JsonWalk.FoundIffSomeObjectRepeats` | internal/license/parsing.go:125-165 | what the walk looks for is found if and only if some object at some depth has two members with equal keys |
| `JsonWalk.Decoder.Walk` | internal/license/parsing.go:128-163 | on a stream that goes on with a value, the walk answers whether the value repeats a key, and an answer of no has read exactly its tokens |
| `JsonWalk.Decoder.WalkMembers` | internal/license/parsing.go:136-152 | the same for the members of an object and the set of keys seen |
| `JsonWalk.Decoder.WalkItems` | internal/license/parsing.go:153-159 | the same for the items of an array |
| `JsonWalk.HasDuplicateKeys` | internal/license/parsing.go:125-165 | on the tokens of any JSON text the answer is true if and only if some object repeats a key |
| `JsonWalk.FoundInMembersIff` | internal/license/parsing.go:136-152 | looking for each key among those seen before finds exactly the repeated keys and those in the values |
| `Manifest.RewriteRoundTrip` | internal/playback/service.go:285-337 | an answered playlist is within the size limit, has as many lines as the input with every tag line in place and a gateway URL for every segment, and resolving each URL through the stored mappings gives back the normalised input exactly |
| `Manifest.AnsweredInput` | internal/playback/service.go:286-296 | an answered input had carriage returns only in front of newlines: normalising it dropped those and a final newline, nothing else |
| `Manifest.UrlRoundTrip` | internal/playback/service.go:314-316 | the last part of a rewritten URL decodes to the mapping ID, and the URL is no tag line |
| `Manifest.RewriteManifest` | internal/playback/service.go:285-337 | the validation, rewriting and checking loops answer as specified, error cases included |
| `Manifest.FindSegments` | internal/playback/service.go:292-309 | the first loop accepts exactly the allowed playlists and collects the segment lines |
| `Manifest.ReplaceSegments` | internal/playback/service.go:310-317 | the second loop overwrites exactly the segment lines and requests one mapping for each |
| `Manifest.SegmentsForth` | internal/playback/service.go:292-309 | every line that is no tag is collected, at its rank |
| `Manifest.SegmentsBack` | internal/playback/service.go:292-309 | every collected line is no tag |
| `Manifest.PatternSuffices` | internal/playback/service.go:349-374 | the character checks refuse nothing the pattern allows: a path is valid if and only if it has the form of a recorded segment at a real time |
| `NonceStore.StoreStaysBounded` | internal/gb/nonce.go:23-92 | over every run no nonce is both open and used, the two maps hold at most 4096 nonces together, and hold only what was issued, as it was issued |
| `NonceStore.TakenAsIssued` | internal/gb/nonce.go:63-92 | a nonce is handed out only with the record it was issued with and only before it expires |
| `NonceStore.TakenOnce` | internal/gb/nonce.go:63-92 | every nonce is handed out at most once, whatever the clock does |
| `NonceStore.TakenIffStillOpen` | internal/gb/nonce.go:23-92 | asking for an issued nonce hands it out if and only if it has not expired and was not handed out, pruned or evicted since it was issued |
| `NonceStore.OpenUntilEnded` | internal/gb/nonce.go:23-92 | an issued nonce is open, with its record, exactly until one of those happens |
| `NonceStore.GoneForGood` | internal/gb/nonce.go:63-92 | a nonce that has left the open entries never returns |
| `NonceStore.EvictionMakesRoom` | internal/gb/nonce.go:40-58 | an eviction takes exactly one nonce, out of both maps together |
| `NonceStore.MemoryNonceStore.Oldest` | internal/gb/nonce.go:41-52 | the scan of both maps finds a nonce of least expiry |
| `NonceStore.MemoryNonceStore.Issue` | internal/gb/nonce.go:23-61 | refuses an invalid peer, a missing expiry or a failing random source and changes nothing; otherwise the eviction loop ends, evicts a nonce of least expiry if the store is full, and the new nonce is open |
| `NonceStore.MemoryNonceStore.Consume` | internal/gb/nonce.go:63-92 | prunes what has expired, then hands the nonce out, or refuses it as used or unknown |
| `Register.FreshRepliesOwnTheirNonce` | internal/gb/digest.go:63-122 | in every interleaving of calls, every 200 that did not come from the cache consumed a nonce of its own, issued for the same device, realm, peer and URI |
| `Register.CachedRepliesRepeat` | internal/gb/digest.go:67-71 | a 200 from the cache repeats the result of an earlier fresh one for the same transaction, peer and device |
| `Register.CacheStaysBounded` | internal/gb/digest.go:160-177 | the cache never holds more than 1024 transactions |
| `Register.KeyTellsApartIff` | internal/gb/digest.go:144 | the key with bars tells transactions, peers and devices apart for all transaction IDs, with or without bars, if and only if no peer address ends with a bar and another peer address |
| `Register.KeyCollides` | internal/gb/digest.go:144 | where one does, two different transactions have the same key |
| `Register.DigestIsTheStandardOneIff` | internal/gb/digest.go:15-39 | for every accepted spelling of qop the digest hashes the text of section 3.2.2.1 of RFC 2617 if and only if qop is left out or in lower case |
| `Register.CapitalQop` | internal/gb/digest.go:15-39 | a qop of "AUTH" is accepted and digested as "auth" |
| `Register.RunKeeps` | internal/gb/digest.go:63-177 | in every reachable state calls and fresh replies are backed by distinct handed-out nonces, and cached results by fresh replies |
| `Register.StepKeeps` | internal/gb/digest.go:63-177 | every section keeps that |
| `RegisterService.Service.Challenge` | internal/gb/digest.go:41-61 | a nonce is issued exactly to a known device at an allowed peer if the random source yields one, bound to device, realm, peer and URI for sixty seconds |
| `RegisterService.Service.Transaction` | internal/gb/digest.go:143-158 | prunes what has expired and answers what is stored under the key |
| `RegisterService.Service.RememberTransaction` | internal/gb/digest.go:160-177 | makes room by dropping one entry if the cache is full, and stores the result |
| `RegisterService.Service.HandleRegister` | internal/gb/digest.go:63-122 | one call does to cache and nonces what the specification says and gives the same answer |
| `RegisterService.AloneIsHandled` | internal/gb/digest.go:63-122 | the interleaved sections of a call, run without interleaving, do what the whole call does |
| `RegisterRuns.RightAnswerEndsIn200Iff` | internal/gb/digest.go:63-122 | in every interleaving, a call that answers its challenge rightly and has come to its end was answered 200 if and only if the nonce was not expired, handed out, pruned or evicted when it asked for it and not expired when the answer was checked, the lifetime is allowed, and the device store took the registration |
| `RegisterRuns.AcceptedIff` | internal/gb/digest.go:86-108 | the part of that up to the lifetime |
| `RegisterRuns.StepPhase` | internal/gb/digest.go:63-122 | events of other calls leave a call where it is, and its own take it on |
| `LicenseClock.MarkNeverFalls` | internal/core/license_clock.go:62-83 | the high-water mark never goes down in any run |
| `LicenseClock.MarkIsGreatestAccepted` | internal/core/license_clock.go:62-83 | the mark is the greatest reading accepted so far |
| `LicenseClock.ClockGoneBackStopsAdmission` | internal/core/license_runtime.go:100-182 | after a reading more than five minutes behind an accepted one, nothing is admitted or imported until someone reconciles at or past the accepted reading |
| `LicenseClock.ExpiryOnceSeenEndsAdmission` | internal/core/license_runtime.go:100-182 | once a reading at or past the expiry was accepted, no device is admitted under that license at readings earlier than five minutes before expiry, or at or past it |
| `LicenseClock.HowFarTheClockMayGoBack` | internal/core/license_runtime.go:149 | the second reading of an admission keeps that bound for all clocks that go back by no more than b between the two readings if and only if b is at most how far the mark is past the expiry, or the license only starts inside the window |
| `LicenseClock.AdmittedLongBefore` | internal/core/license_runtime.go:149 | a run in which a reading at expiry was accepted and a device is then admitted at a reading long before the window |
| `LicenseClock.ExpiryOnceSeenEndsFeatures` | internal/license/license.go:116-133 | features are never granted outside that window |
| `LicenseClock.LicenseRows.ObserveLicenseClock` | internal/core/license_clock.go:62-83 | raises the mark, or latches the error, as specified |
| `LicenseClock.LicenseRows.ReconcileLicenseClock` | internal/core/license_clock.go:32-60 | clears the latch exactly at or past the mark |
| `LicenseClock.LicenseRows.CheckLicenseClock` | internal/core/license_runtime.go:172-182 | passes exactly the readings an observation would |
| `LicenseClock.LicenseRows.CheckDeviceAdmission` | internal/core/license_runtime.go:100-162 | admits exactly if the clock, a stored license that checks out, its validity and the quota allow it |
| `LicenseClock.LicenseRows.Admit` | internal/core/license_runtime.go:100-162 | an admission adds one device |
| `SessionRegistry.OnlineIsLastAccepted` | internal/access/access.go:212-221 | in every interleaving a session is online exactly if the last status event the handler accepted for its device said so |
| `SessionRegistry.SweepersAreBounded` | internal/access/access.go:344-380 | at most sixteen workers hold a slot, a session is marked as being checked exactly while a worker is queued for it, and never are two |
| `SessionRegistry.OfflineIsJustified` | internal/access/access.go:298-380 | an offline event comes only from the disconnection of the current client, or from a sweep of a session that has no client or was last written a grace period before; a session goes offline by such an event only |
| `SessionRegistry.GraceMeansSilenceIff` | internal/access/access.go:344-380 | in every reachable state, that the grace period is over means that nothing was heard of the device all through it, for every time of a sweep, if and only if the reading it was last heard with is the greatest |
| `SessionRegistry.HeardButOffline` | internal/access/access.go:161-196 | there is a run in which a device goes offline within the grace period, because a report that read the clock earlier took the session later |
| `SessionRegistry.RunHeard` | internal/access/access.go:186-196 | in every reachable state a session was last written with the reading its device was last heard with |
| `SessionRegistry.CurrentClientStays` | internal/access/access.go:235-319 | a current client stays so until another one connects for the device or its own disconnection ends |
| `SessionRegistry.CurrentClientGoesOfflineBySilence` | internal/access/access.go:344-380 | meanwhile its device goes offline only by a sweep, and only after a whole grace period in which nothing was heard of it wherever the readings of the device do not go back |
| `SessionRegistry.ReplacedClientNeverActs` | internal/access/access.go:321-342 | a client that was replaced may never act as the device again unless it connects for it once more |
| `SessionRegistry.RunKeeps` | internal/access/access.go:235-380 | the invariants behind these hold in every reachable state |
| `SessionRegistry.StepKeeps` | internal/access/access.go:235-380 | every section keeps them |
| `AccessServer.Session.SetOnline` | internal/access/access.go:212-221 | going online is always reported, going offline only once, and the flag follows the accepted event |
| `AccessServer.Server.LookUp` | internal/access/access.go:224-233 | finds the session or creates it, and leaves all others alone |
| `AccessServer.Server.Connected` | internal/access/access.go:252-271 | makes the client current and reports the device online, unless it was taken over or revoked |
| `AccessServer.Server.Reported` | internal/access/access.go:186-196 | a report of a connected device is a heartbeat |
| `AccessServer.Server.Disconnected` | internal/access/access.go:310-318 | only the current client takes its device offline |
| `AccessServer.Server.Work` | internal/access/access.go:367-377 | the worker looks again before it takes the device offline |
| `AccessServer.Server.Start` | internal/access/access.go:352-366 | the sweep marks a session exactly if it is due and a slot is free |
| `AccessServer.Server.Sweep` | internal/access/access.go:344-380 | the sweep starts distinct due sessions within the slots, and leaves out one that is due and free only if the slots are gone |
| `Shadow.ShadowHoldsWinners` | internal/core/pipeline.go:129-174 | after any list of reports, each by either upsert, the shadow holds, for every metric reported since the pond or product last changed, the greatest timestamp and the last-arriving value with it, and nothing from before the change |
| `Shadow.ConvergesIff` | internal/core/pipeline.go:151-156 | under one pond and product every order of arrival gives the same values, stamps and timestamp if and only if the newest reports of each metric agree on its value |
| `Shadow.SameFold` | internal/core/generic_ingestion.go:107-112 | repeating reports makes no difference either |
| `Shadow.FoldTs` | internal/core/pipeline.go:145-159 | the timestamp of the row is the greatest since a water report last came from another pond or product |
| `Shadow.RowTimestamps` | internal/core/generic_ingestion.go:121 | it is the greatest since the pond or product last changed if and only if every earlier report that a generic one let count has one since the change that is at least as new |
| `Shadow.TimestampOfAnotherPond` | internal/core/generic_ingestion.go:121 | a row that keeps the timestamp of a report from another pond |
| `Shadow.SignalOfLastWater` | internal/core/pipeline.go:167-172 | the signal column is computed by the last water report and left alone by generic ones |
| `Shadow.DistinctTimesAgree` | internal/core/pipeline.go:151-156 | which they do whenever different reports have different timestamps |
| `Shadow.Shadows.TakeNewer` | internal/core/pipeline.go:151-156 | the loop over the metrics takes exactly the values that are not older |
| `Shadow.Shadows.ShadowUpsert` | internal/core/generic_ingestion.go:92-123 | the upsert writes the specified row for one device and leaves the others alone |
| `CatalogOutcomes.PageGoesStaleIff` | internal/gbcatalog/catalog.go:124-130 | the main section of AcceptPage leads to MarkStale if and only if the refresh is pending, not completed, carries neither flag and its deadline has come; only the flag is then set, the collected items stay |
| `CatalogOutcomes.PageCommitsIff` | internal/gbcatalog/catalog.go:124-162 | it leads to ReplaceCatalog if and only if the refresh is open, the deadline has not come, and the page brings it without contradiction to the announced number of channels; what it hands over is exactly the known items and those of the page |
| `CatalogOutcomes.ExpireGoesStaleIff` | internal/gbcatalog/catalog.go:198-219 | Expire leads to MarkStale if and only if the refresh is pending, carries neither flag and is due; otherwise nothing changes |
| `CatalogOutcomes.FailedStoreCallReopens` | internal/gbcatalog/catalog.go:164-180 | after a failed ReplaceCatalog or MarkStale the refresh is open again with all it had collected, and nothing else changed |
| `CatalogOutcomes.StoreCallSettles` | internal/gbcatalog/catalog.go:182-190 | after a successful one it is pending no more: completed after ReplaceCatalog, stale after MarkStale |
| `CatalogOutcomes.StartOpensUnlessKnown` | internal/gbcatalog/catalog.go:83-91 | a start that comes back from the store opens the refresh, empty and without flags, unless it is pending or completed meanwhile, when nothing changes |
| `CatalogOutcomes.LatePageAlone` | internal/gbcatalog/catalog.go:124-130 | a late page alone with a working store makes the refresh stale, replaces nothing and is answered ErrDeadline; if MarkStale fails the refresh is as before and the caller gets that error |
| `CatalogOutcomes.PageRefusedAtStart` | internal/gbcatalog/catalog.go:45-82 | a page with another announced number is answered ErrInvalid, one of a stale refresh ErrDeadline, one whose StartRefresh fails with that error; nothing changes |
| `CatalogOutcomes.TimelyPageAnswer` | internal/gbcatalog/catalog.go:131-191 | before the deadline a page is answered as a conflict exactly if it contradicts, as invalid if there are too many channels, as incomplete if some are missing, as complete if the catalog was replaced, and as a duplicate exactly if it brought no new channel |
| `CatalogOutcomes.PageBesideOrAfter` | internal/gbcatalog/catalog.go:104-123 | a page of a completed refresh is answered complete and duplicate, one that meets a commit incomplete, one that meets a refresh going stale ErrDeadline |
| `CatalogOutcomes.ReplacementsBeginInTime` | internal/gbcatalog/catalog.go:95-191 | over every run, every catalog that was replaced was handed to ReplaceCatalog by a page read before the deadline of its refresh |
| `CatalogOutcomes.CommittedItemsCameInTime` | internal/gbcatalog/catalog.go:95-191 | over every run, every item of a replaced catalog was brought by a page of that refresh read before its deadline |
| `CatalogOutcomes.PendingItemsCameInTime` | internal/gbcatalog/catalog.go:131-144 | over every run, so was every item of a pending refresh |
| `VideoOutcomes.FinishTakenIff` | internal/mediapg/job_finish.go:14-114 | over every run, a finish under a lease of the run is taken if and only if the lease is current, the camera still has the source version of the job and, for a start, a viewer whose session has not expired is waiting; otherwise the lease is lost and nothing changes |
| `VideoOutcomes.ReadyMeansReady` | internal/mediapg/job_finish.go:116-142 | a start finished as ready leaves the stream ready, its job succeeded and exactly the waiting sessions of that stream ready; every other row is as it was |
| `VideoOutcomes.FailureFailsWhoWaits` | internal/mediapg/job_finish.go:128-142 | a job finished as failed, unknown or disabled, and a start that was skipped, leave the stream failed and exactly the waiting sessions failed; those that were ready stay ready, the job is failed or cancelled |
| `VideoOutcomes.RetryLeavesViewers` | internal/mediapg/job_finish.go:123-127 | a job to be tried again waits until the given time, its stream is starting or stopping, and no session changes |
| `VideoOutcomes.StopEndsStopped` | internal/mediapg/job_finish.go:143-160 | a stop that is skipped or done finds only closed or expired sessions and leaves the stream stopped; a stop that is done closes the expired ones |
| `VideoOutcomes.StartReportedStopped` | internal/mediapg/job_finish.go:152-157 | a start that reports itself stopped leaves the stream ready and no session changed, since somebody is waiting for it |
| `VideoOutcomes.ClaimOutcome` | internal/mediapg/jobs.go:26-58 | a claim takes exactly the jobs with an attempt left that are due or whose lease has run out, spends one attempt, leases for the time asked, and sets the stream of a start going unless it is ready, stopping or stopped |
| `VideoOutcomes.RevalidateOnlyTells` | internal/mediapg/jobs.go:62-173 | over every run revalidating changes no row, and answers lost exactly for a lease that is not current |
| `VideoOutcomes.AdmittedIff` | internal/mediapg/store.go:57-153 | a new viewer is admitted if and only if nothing refuses the caller, the stream of the camera can be joined or made, the token is unused, and the stored start job, if any, is about that stream; whoever is refused changes nothing |
| `VideoOutcomes.AdmittedMeans` | internal/mediapg/store.go:100-150 | the admitted session is ready at once exactly if the start has succeeded and the stream is ready, and waits otherwise; a start job is stored if none was, left alone while under way, and followed by one of this session if it had ended |
| `VideoOutcomes.RepeatGrantedIff` | internal/mediapg/store.go:84-97 | however a run goes on after a viewer was admitted, the same request made again changes nothing; it is granted with the session as it is by then if and only if it proposed the stream the viewer was put on, and refused as a conflict otherwise |
| `VideoOutcomes.LeavingMeans` | internal/mediapg/store.go:203-236 | a viewer who leaves has its session revoked and no other; the stream goes to stopping and gets its stop job, unless one was stored, exactly if no viewer that has not expired remains |
| `VideoOutcomes.RunLinks` | internal/mediapg/store.go:100-150 | in every reachable state each job is about a stream and a session that exist and belong together |
| `WorkerOutcomes.SixTries` | internal/playback/service.go:510-551 | a newly enqueued job whose calls keep failing for reasons that may pass is retryable after each of its first five turns, due 1, 2, 4, 8 and 16 seconds after the turn and claimable from then on, and failed for good after the sixth |
| `WorkerOutcomes.TurnEnds` | internal/playback/service.go:396-453 | a turn of the worker spends one attempt; the job has then succeeded exactly if the call did, is retryable exactly if the call failed for a reason that may pass and fewer than six attempts are used, is unknown, failed or cancelled exactly under the stated conditions, and is left leased if its target is another |
| `WorkerOutcomes.WorkedEnds` | internal/playback/service.go:510-551 | the same for every finish the worker makes in a run of the queue |
| `WorkerOutcomes.NoEarlyEnd` | internal/playback/service.go:531-551 | over every run, a job whose calls fail for reasons that may pass is waiting, being worked on, or has used all six attempts |
| `WorkerOutcomes.LateTurnLeavesClaim` | internal/mediajobs/store.go:123-202 | a turn that outlives its lease leaves the job claimed, to be claimed again exactly from the end of the lease on if an attempt is left |
| `WorkerOutcomes.EnqueuedIff` | internal/mediajobs/store.go:61-79 | a job is enqueued exactly if it is valid and new, and is then claimable exactly from the time asked for, or from now on |
| `RegisterCache.RetransmissionIff` | internal/gb/digest.go:67-71 | in every interleaving a valid request with a transaction ID is answered from the cache if and only if a fresh reply of its key was stored less than sixty seconds before and has since been neither replaced, nor evicted, nor pruned by a lookup at or past those sixty seconds; the answer repeats that very result, and otherwise the call goes on to authentication |
| `RegisterCache.RepliesSay` | internal/gb/digest.go:98-121 | every fresh 200 says the device and peer of its own request, registered at the reading of the moment the device store took it, online until the lifetime asked for has passed, and offline exactly if none was asked for |
| `RegisterCache.RememberAnswers` | internal/gb/digest.go:160-178 | a call that was registered ends with its fresh reply, and its result is stored for sixty seconds if it has a transaction ID |
| `RegisterRuns.OneGuessPerNonce` | internal/gb/nonce.go:63-92 | in every interleaving an issued nonce is worth one guess: once a call has asked for it, right or wrong, no later call is let in with it |
| `RegisterService.RegisteredIff` | internal/gb/digest.go:63-122 | one call in one state ends with 200 if and only if the request is valid and either the cache has its transaction, or the challenge is answered rightly, the lifetime is zero or between one minute and one hour, and the device store takes the registration |
| `RegisterService.RefusedBecause` | internal/gb/digest.go:63-122 | each error is answered exactly, or only, where its cause is the first to apply |
| `Register.DigestMadeIff` | internal/gb/digest.go:15-39 | a digest is made exactly of authorizations with MD5 or no algorithm, texts that fit, a response, and no qop or auth with a client nonce and eight hex digits |
| `NonceStore.ReplayIffRemembered` | internal/gb/nonce.go:63-92 | over every run, asking again for a nonce that was handed out is answered as a replay if and only if it has not expired and has not been pruned or evicted since, and as unknown otherwise |
| `SessionOutcomes.GoesOfflineIff` | internal/access/access.go:298-380 | a device goes offline if and only if its session is online, the handler accepts the event, and its current client finishes disconnecting or a queued worker finds it without a client or past its grace period |
| `SessionOutcomes.GoesOnlineIff` | internal/access/access.go:186-271 | a device is reported online if and only if the handler accepts the event and the device connects without being refused or reports over a live connection |
| `SessionOutcomes.LeavingEnds` | internal/access/access.go:310-318 | the end of the current client's disconnection leaves the session without a client whatever the handler says, and offline if it accepts |
| `SessionOutcomes.LookedUpRow` | internal/access/access.go:224-233 | looking a device up makes it a session that is offline and without a client, once |
| `SessionOutcomes.ConnectedRow` | internal/access/access.go:252-271 | a connection that is not refused becomes the current one, heard now, and may act for the device; a refused one changes nothing |
| `SessionOutcomes.ReportedRow` | internal/access/access.go:186-196 | a report over a live connection moves the last reading and nothing else unless it brings the device online; without a client it changes nothing |
| `SessionOutcomes.SweepStartsIff` | internal/access/access.go:352-366 | a sweep starts a worker exactly for a session that is online, unchecked, and without a client or silent for the grace period, if a slot is free |
| `SessionOutcomes.WorkedRow` | internal/access/access.go:367-377 | a worker takes the mark away, and takes the device offline exactly if it still finds it so and the handler accepts |
| `SessionOutcomes.DisconnectionTakesOffline` | internal/access/access.go:298-319 | a current client that disconnects with nothing in between and a handler that accepts leaves its device offline, reported so, and without a client |
| `SessionOutcomes.SilenceTakesOffline` | internal/access/access.go:344-380 | a sweep and its worker take a silent online session offline |
| `LicenseClock.AdmittedIff` | internal/core/license_runtime.go:100-162 | one more device is admitted exactly if the clock holds and a stored license is genuine, ours, begun, not over and has room |
| `LicenseClock.ImportedIff` | internal/core/license_import.go:49-105 | a license is taken in exactly if the clock holds and it is genuine, ours, begun and not over |
| `LicenseClock.AdmittedUnderGenuineLicense` | internal/core/license_runtime.go:100-162 | no run that starts without a license admits a device under one that is not genuine or not ours, or that was not in force both when it was taken in and when the device came |
| `LicenseClock.PermanentLicenseAdmits` | internal/core/license_runtime.go:100-162 | a run that takes in a permanent license of ours admits at every later reading until the quota is reached, and no further |
| `OpenRate.WholeTokensAtOnce` | internal/core/open_rate.go:18-26 | of any number of requests at one instant exactly as many are admitted as the bucket holds whole tokens |
| `OpenRate.WholeBurstAtOnce` | internal/core/open_rate.go:18-26 | a key idle long enough is admitted for the whole configured burst at once, and for no more |
| `OpenRate.SteadyIsAdmitted` | internal/core/open_rate.go:18-26 | requests no closer than one token takes to refill are all admitted once the first one is |
| `OpenRate.OneTokenEach` | internal/core/open_auth.go:171-181 | an admission costs exactly one token of the refilled bucket, a throttled request nothing |
| `QueryForms.CanonicalIff` | internal/core/open_auth.go:33-53 | a raw query has a canonical form if and only if it is empty or the key and the value of each item are well escaped and decode to Unicode text |
| `QueryForms.ItemSays` | internal/core/open_auth.go:40-51 | an item says its decoded key and value, cut at the first equals sign; without one the value is empty |
| `OpenQuery.JoinedDecodes` | internal/core/open_auth.go:33-65 | writing any list of pairs encoded and joined, and decoding that, gives the list back in order |
| `QueryForms.ValidIffEncodes` | internal/core/open_auth.go:42-48 | a byte string passes the UTF-8 check exactly if it is the encoding of some sequence of Unicode scalar values (section 3 of RFC 3629) |
| `QueryForms.DecodableIffWellEscaped` | internal/core/open_auth.go:41-48 | exactly the strings in which every percent sign is followed by two hex digits can be decoded |
| `QueryForms.DecodedInPlace` | internal/core/open_auth.go:41-48 | anywhere in a string a plain character decodes to itself and an escape, in capitals or not, to the byte it names |
| `QueryForms.EncodeByteIs` | internal/core/open_auth.go:188-202 | unreserved characters stand for themselves, every other byte is a percent sign and its two hex digits in capitals |
| `ManifestOutcomes.AnsweredIff` | internal/playback/service.go:285-337 | a playlist is answered if and only if the rewriter is configured, every line is allowed, the answer is within the limit and the store confirms just the mappings it was asked for; the answer is the input line by line with the URL of the next mapping for each segment; a failing store and a wrong number of mappings have their own errors |
| `Shadow.ScopeOfLastReport` | internal/core/pipeline.go:160-174 | the row is that of the pond, product, tenant and model the last report named |

## Left out

- HTTP handlers, request binding, the MQTT broker library, WeChat clients, logging and metrics: plumbing around libraries that are not part of this model.
- Camera replacement and invalidation: it runs at a weaker isolation level than the video transactions, so atomic steps would not be faithful to it.
- Tenant, membership, role and license checks inside the video transactions: each appears as one input that says whether, and with which error, the transaction is refused.
- `FOR UPDATE SKIP LOCKED`: the rows other transactions have locked are an input of `ClaimJob`; each transaction reads the database clock once.
- Error codes stored with video jobs and sessions, notifications and their queue (the same lease shape as the media jobs).
- Cryptography and randomness: MD5 is a parameter, tokens, nonces and mapping IDs are inputs that do not repeat.
- Cancellation of contexts: a call into a store may fail at any time, whatever the reason.
- Floating-point rounding in the token bucket, and the resolution of timestamps: times are integers or real numbers.
- Text encodings: strings are sequences of bytes, each a character below 256 where it matters, and XML is not modelled. JSON texts appear as the tokens of a valid text, because both callers of the walk check validity first.
- VideoStore.Store.ClaimJob: the first job in the order of the query is chosen by its property, as the database does, not by a scan; payloads always decode.
- RegisterService.Service.HandleRegister: peers are compared by the text of their address, and which prefixes a device allows is an input.
- NonceStore.MemoryNonceStore.Issue: the exit for an empty store is not modelled, since a full store cannot take it.
- AccessServer.Server.Sweep: models one sweep with no other step in between; `SessionRegistry` has its looks at single sessions interleaved with everything else.
- AccessServer.Server.Connected: the entry in the device map and the change of the session are one step.
- Shadow.Shadows.ShadowUpsert: values are texts, and the signal column is the text it is computed from.
- LicenseClock.LicenseRows.CheckDeviceAdmission: whether the signature, the key ID and the digest of a stored license check out is an input.
- Retention of deduplicated messages, alarms, topic ACLs, paging, port allocation and input validators: they would only add easy members.
