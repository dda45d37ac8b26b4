# A model of one inventory sync run

This project models one run of the sync engine, from the feed to the exit code, and proves what the
repository promises about it. `dafny verify dfyconfig.toml` checks the whole project.

What is modelled:

- **The write loop** (`SyncMachine`). One call of `sync_records` is a state machine whose steps are
  the atomic steps of the main thread (submit, `wait`, collect, `as_completed`, leave by exception),
  of the worker threads (take a task, read the breaker, send, get an answer, record it, complete the
  future) and of the requests on the wire. Reading the breaker and recording an outcome are separate
  steps, and so are a request's effect and its answer (how far a run can go past the trip, and does,
  is in `SyncOutcome` and `SyncOvershoot`). A run is any sequence of enabled steps, so a theorem
  about all runs holds for every schedule. What becomes of each request is an input (`SyncFates`),
  and every input has its runs (`SyncReach`). `SyncLoop` has the program itself, with its loops over
  the rows, over what `wait` returned and over `as_completed`, and the task body, each running while
  any other threads do anything the machine allows.
- **The circuit breaker** (`Breaker`), as a class, as a value, and as what a history of outcomes means.
- **The destination** (`Destination`): a map from key to fields. A request merges its payload into
  the record that its URL addresses. A request that failed may or may not have taken effect, at once
  or later, during this run or a later run of the same batch, once or several times (a retried PATCH).
- **The key in the URL** (`ODataKey`, `Utf8`): quote doubling, UTF-8 and percent-encoding on the
  client's side; on the server's side a reader written from sections 2.1 and 2.3 of RFC 3986, RFC 3629
  and section 2 of OData Version 4.0 Part 2: URL Conventions. The machine's requests go through both.
- **Validation and deduplication** (`Load`, `Dedupe`), whole and chunked, with the chunk iterator.
- **The token lock** (`Token`): many threads, a cache that may expire at any moment, token requests
  that may be refused.
- **The run as a whole** (`Runner`): hooks, write loop, summary numbers, exit code, and run after run.

A threshold below one acts as one (`Breaker.Limit`), a window below one as one
(`SyncMachine.Window`), and at most `Concurrency` = min(workers, window) requests are out at once
(`SyncOutcome.RequestsOut`).
With fewer than one worker the executor refuses to start and the run exits with 1.

## Where the code and its documentation disagree

The model follows the code.

- `dedupe_last_seen_chunks` is documented to return "the same columns" even for an empty iterable of
  chunks; with no chunks at all it returns none (`Load.DedupeChunks`). Such a feed is also accepted
  without any column check, which is the only difference between chunked and whole validation in what
  is accepted (`Load.ChunkedValidationAgrees`); on rejection the chunked error is that of the first
  bad chunk alone (`Load.DedupeChunks`).
- It is documented to act exactly as deduplicating the concatenated feed does. It returns the same
  rows, but in the same order if and only if no key of the feed overtakes another: comes first,
  and then comes back after the other's last row (`Dedupe.TheTwoAgree`,
  `Dedupe.SameOrderIffNoneOvertakes`; `Dedupe.TheOrdersDiffer` has such a feed).
  The destination does not see the difference (`Load.BothPathsLeaveTheSame`).
- `acquire_bearer_token` is documented to spare every queued thread its own token request. It does so
  if and only if a token is left that has not expired (`Token.SecondLookDecides`); after a refusal
  the next thread asks again (`Token.ARefusalIsRepeated`). `Token.RequestsBalance` has the exact
  count of requests, and exactly when they are no more than one for each expiry and one to begin
  with: always, as long as nothing has been refused.

## Model

| member | source | states |
|---|---|---|
| Breaker.BreakerEqualsHistory | shared/lag-service-kit/src/lag_service_kit/circuit_breaker.py:63-117 | over every sequence of recorded outcomes, tripped if and only if it contains a run of as many failures as the limit; before the trip the counter is the length of the trailing run |
| Breaker.AnnouncedOnce | shared/lag-service-kit/src/lag_service_kit/circuit_breaker.py:97-117 | at most one `record_failure` call is told it tripped the breaker, and one is if it is tripped: the one that completes the first long enough run |
| Breaker.LatchHolds | shared/lag-service-kit/src/lag_service_kit/circuit_breaker.py:90-95 | no later outcome changes a tripped breaker |
| Breaker.TrippedHasFailures | shared/lag-service-kit/src/lag_service_kit/circuit_breaker.py:110-117 | a tripped breaker has seen at least as many failures as its limit |
| Breaker.OutageTripsAtLimit | shared/lag-service-kit/src/lag_service_kit/circuit_breaker.py:110-117 | when nothing succeeds it trips exactly at the limit |
| Breaker.ConsecutiveFailureCircuitBreaker.constructor | shared/lag-service-kit/src/lag_service_kit/circuit_breaker.py:63-66 | a fresh breaker is closed with an empty history |
| Breaker.ConsecutiveFailureCircuitBreaker.IsTripped | shared/lag-service-kit/src/lag_service_kit/circuit_breaker.py:68-79 | true if and only if the recorded outcomes hold a sustained run of failures |
| Breaker.ConsecutiveFailureCircuitBreaker.RecordSuccess | shared/lag-service-kit/src/lag_service_kit/circuit_breaker.py:81-95 | adds a success to the history, resets the counter unless tripped, never changes the latch |
| Breaker.ConsecutiveFailureCircuitBreaker.RecordFailure | shared/lag-service-kit/src/lag_service_kit/circuit_breaker.py:97-117 | adds a failure to the history; true if and only if this failure completes the first sustained run |
| ODataKey.KeyRoundTrip | shared/lag-data-utils/src/lag_data_utils/clients/odata.py:171-207 | for every key, the server reads exactly that key back from the URL, whatever quotes, slashes, parentheses or percent signs it has |
| ODataKey.UrlInjective | shared/lag-data-utils/src/lag_data_utils/clients/odata.py:203-207 | for fixed names, different keys have different URLs |
| ODataKey.PathShape | shared/lag-data-utils/src/lag_data_utils/clients/odata.py:171-207 | the encoded key holds only unreserved characters and `%XX` triples; the entity path is one segment with exactly two raw quotes |
| ODataKey.QuotesRoundTrip | shared/lag-data-utils/src/lag_data_utils/clients/odata.py:171 | a literal with its quotes doubled ends at its closing quote and nowhere else, and reads back as the value |
| ODataKey.PercentRoundTrip | shared/lag-data-utils/src/lag_data_utils/clients/odata.py:172 | percent-decoding undoes the encoding of any octets, whatever follows |
| Utf8.RoundTrip | shared/lag-data-utils/src/lag_data_utils/clients/odata.py:172 | a strict UTF-8 decoder undoes the encoding of every string |
| Utf8.Layout | shared/lag-data-utils/src/lag_data_utils/clients/odata.py:172 | each character has the octets section 3 of RFC 3629 gives it |
| ODataKey.CharacterEncodings | shared/lag-data-utils/src/lag_data_utils/clients/odata.py:171-172 | wherever it stands in a key, an unreserved character stands for itself, a quote becomes `%27%27`, any other character one upper-case triple for each of its octets |
| ODataKey.PlainKeyIsItself | tests/unit/lag_data_utils/test_odata_client.py:34-42 | a key of unreserved characters is in the URL as it is |
| ODataKey.QuotedAndSlashed | tests/unit/lag_data_utils/test_odata_client.py:45-74 | between plain texts a quote is encoded as `%27%27` and a slash as `%2F` |
| ODataKey.UnreservedIs | shared/lag-data-utils/src/lag_data_utils/clients/odata.py:172 | the characters left alone are those of section 2.3 of RFC 3986 |
| Destination.SendIsUpsert | shared/lag-data-utils/src/lag_data_utils/clients/odata.py:231-237 | a request reaches the record of its item's key and no other |
| Destination.UpsertExtends | shared/lag-data-utils/src/lag_data_utils/clients/odata.py:213-221 | requests that land extend the set of rows laid over the destination; order and repetition leave no trace |
| Destination.ApplyAllIsOverlay | shared/lag-data-utils/src/lag_data_utils/clients/odata.py:213-221 | with distinct keys a clean pass in order equals the batch laid over the destination as a set |
| Destination.ApplyAllHolds | shared/lag-data-utils/src/lag_data_utils/clients/odata.py:213-221 | a clean pass leaves each item's fields under its key, keeps its other fields and every other record, and adds no other key |
| Destination.CleanPassAbsorbsPart | docs/design-decisions/concurrency-and-resilience.md:95-101 | a clean pass over a destination that part of the batch has reached leaves what it would have left without that part |
| SyncInvariants.BooksKept | shared/lag-service-kit/src/lag_service_kit/runners/odata.py:322-335 | every step keeps the main thread's books: window, partition of the submitted rows, position |
| SyncInvariants.WindowKept | shared/lag-service-kit/src/lag_service_kit/runners/odata.py:289-298 | every step keeps futures submitted but not yet counted, those `wait` returned included, within the window |
| SyncInvariants.AccountsKept | shared/lag-service-kit/src/lag_service_kit/runners/odata.py:211-248 | every step keeps the breaker equal to its history, the history equal to the calls, no skip before the trip, and overshoot plus requests still out below the concurrency |
| SyncInvariants.FifoKept | shared/lag-service-kit/src/lag_service_kit/runners/odata.py:306-312 | every step keeps tasks started in submission order |
| SyncInvariants.TrafficKept | shared/lag-service-kit/src/lag_service_kit/runners/odata.py:211-221 | every step keeps: a request is out only for a row whose task found the breaker closed, and a confirmed one has taken effect |
| SyncInvariants.DeliveredKept | shared/lag-service-kit/src/lag_service_kit/runners/odata.py:216-221 | every step keeps the destination equal to the old one with the rows that took effect laid over it |
| SyncInvariants.Invariants | shared/lag-service-kit/src/lag_service_kit/runners/odata.py:314-337 | all of these hold in every state of every run |
| SyncOutcome.Conservation | shared/lag-service-kit/src/lag_service_kit/runners/odata.py:322-337 | in every state the window holds all futures submitted but not yet counted, every row is exactly one of unsubmitted, in flight, returned by `wait` or counted, and the counts sum to the rows counted; at a normal end to the number of records |
| SyncOutcome.RequestsOut | shared/lag-service-kit/src/lag_service_kit/runners/odata.py:272-275 | in every state of every run no more requests are out than min(workers, window) |
| SyncOutcome.BoundedOvershoot | shared/lag-service-kit/src/lag_service_kit/runners/odata.py:211-248 | in every schedule, the outcomes recorded after the tripping one and the requests still out number at most the concurrency less one |
| SyncOvershoot.OvershootIsReached | shared/lag-service-kit/src/lag_service_kit/runners/odata.py:211-248 | for every pool, window and threshold and every batch of at least limit + concurrency - 1 records, some schedule records concurrency less one outcomes after the tripping one, and returns the most failures an outage can |
| SyncOvershoot.OvershootNeedsABatch | shared/lag-service-kit/src/lag_service_kit/runners/odata.py:211-248 | in every tripped run, limit plus the outcomes recorded after the tripping one number at most the records, so the condition on the batch is exact |
| SyncOutcome.OutageReport | shared/lag-service-kit/src/lag_service_kit/runners/odata.py:211-245 | if every request fails, nothing is created or updated, failures lie between min(records, limit) and limit + concurrency - 1, and all the rest is skipped |
| SyncOutcome.SkippedMeansFailed | shared/lag-service-kit/src/lag_service_kit/runners/base.py:206-245 | a skipped record implies at least as many failed ones as the limit; so no failures if and only if every record was created or updated |
| SyncOutcome.AbortBehaviour | shared/lag-service-kit/src/lag_service_kit/runners/odata.py:222-226 | counts are returned only if no task raised; otherwise the call ends by a task's exception after every submitted row finished, and unsubmitted rows are never requested |
| SyncOutcome.UnwindingIsFinal | shared/lag-service-kit/src/lag_service_kit/runners/odata.py:322-335 | once an exception is on its way out nothing more is submitted or counted and nothing can be returned |
| SyncDelivery.ScheduleIndependence | shared/lag-service-kit/src/lag_service_kit/runners/odata.py:314-337 | two runs of a batch in which the same rows' requests took effect leave the same destination, whatever the schedules, pools, windows and thresholds |
| SyncDelivery.NothingElseIsTouched | shared/lag-service-kit/src/lag_service_kit/runners/odata.py:216-221 | at any moment each record is as it was or holds its new fields over its old ones; no key outside the batch changes |
| SyncDelivery.FailureFreeRunIsACleanPass | shared/lag-service-kit/src/lag_service_kit/runners/odata.py:314-337 | a run that reports no failure leaves what one sequential clean pass leaves |
| SyncDelivery.ChainDelivers | shared/lag-service-kit/src/lag_service_kit/circuit_breaker.py:33-38 | after any series of runs, each cut off anywhere, the destination is the original with exactly the rows laid over it that took effect in any of them |
| SyncDelivery.RerunConverges | shared/lag-service-kit/src/lag_service_kit/circuit_breaker.py:33-38 | after any series of failed, tripped, aborted or killed runs, one run without failures leaves exactly a clean pass over the original destination |
| SyncDelivery.ReportsAreTruthful | shared/lag-service-kit/src/lag_service_kit/runners/odata.py:247-248 | a record reported created was not there before the run; one reported updated was, unless a late or retried request intervened |
| SyncDelivery.ReportedIsWritten | shared/lag-service-kit/src/lag_service_kit/runners/odata.py:247-248 | in every run, failed ones included, a record reported created or updated is in the destination with its payload over what it held before |
| SyncDelivery.SkippedIsUntouched | shared/lag-service-kit/src/lag_service_kit/runners/odata.py:197-200 | in every run a skipped record that no earlier run left a request for was never requested and is in the destination as it was before |
| SyncDelivery.RerunReportsUpdates | tests/acceptance/test_idempotent_sync.py:79-109 | over a destination that holds the batch nothing is reported created, and without failures everything is reported updated |
| SyncProgress.Progress | shared/lag-service-kit/src/lag_service_kit/runners/odata.py:322-335 | in every state that has not ended, whatever is to become of the requests, the program can take a step that has it so |
| SyncProgress.WorkFalls | shared/lag-service-kit/src/lag_service_kit/runners/odata.py:322-335 | every such step uses up work, and late requests use none |
| SyncProgress.RunsAreBounded | shared/lag-service-kit/src/lag_service_kit/runners/odata.py:322-335 | no run takes more than ten steps a row, and four |
| SyncProgress.EveryRunCanEnd | shared/lag-service-kit/src/lag_service_kit/runners/odata.py:322-337 | every run can be carried to a return or an exception, for any fates of the requests that have not met theirs yet |
| SyncFates.EveryRunHasFates | shared/lag-service-kit/src/lag_service_kit/runners/odata.py:211-248 | for every run there are fates of its requests that it follows |
| SyncFates.FollowsKept | shared/lag-service-kit/src/lag_service_kit/runners/odata.py:211-248 | every step that a fate allows keeps the run following all fates |
| SyncFates.FatesDecide | shared/lag-service-kit/src/lag_service_kit/runners/odata.py:211-248 | whatever the schedule, a run that has ended returned if no task broke, and returned without failures if and only if every request was answered, and then skipped nothing |
| SyncReach.FatesAreMet | shared/lag-service-kit/src/lag_service_kit/runners/odata.py:211-248 | for all fates of the requests some run follows them to its end, and nothing else takes effect |
| SyncReach.HealthyReport | shared/lag-service-kit/src/lag_service_kit/runners/odata.py:247-248 | whatever the schedule, if every request is answered the run returns, the records that were missing are counted created, the others updated, none failed or skipped, and the destination is a clean pass |
| SyncReach.AHealthyRun | shared/lag-service-kit/src/lag_service_kit/runners/odata.py:314-337 | over every destination there is such a run |
| SyncReach.ARequestFails | shared/lag-service-kit/src/lag_service_kit/runners/odata.py:222-245 | any row's request can fail, having taken effect or not, in a run that returns and counts it failed |
| SyncReach.ALateEffect | shared/lag-service-kit/src/lag_service_kit/runners/odata.py:222-245 | such a request can still take effect after the run has returned |
| SyncReach.ATaskRaises | shared/lag-service-kit/src/lag_service_kit/runners/odata.py:205-209 | any row's task can raise, its request having taken effect or not, and the call then ends by exception |
| SyncSequential.SkippedAfterTheFirstRun | shared/lag-service-kit/src/lag_service_kit/circuit_breaker.py:110-117 | in a plain loop a row is skipped if and only if a run of failures as long as the limit lies before it; otherwise it gets its own answer |
| SyncSequential.SequentialRefinement | shared/lag-service-kit/src/lag_service_kit/runners/odata.py:306-312 | with one request at a time, whether by one worker or a window of one, every outcome at every moment is the plain loop's |
| SyncLoop.Session.Take | shared/lag-service-kit/src/lag_service_kit/runners/odata.py:322-335 | each atomic step extends the run, and recording is a call of the shared breaker object |
| SyncLoop.Session.Wait | shared/lag-service-kit/src/lag_service_kit/runners/odata.py:325-328 | returns at least one completed future unless there are none to wait for, and the rest |
| SyncLoop.Session.FutureResult | shared/lag-service-kit/src/lag_service_kit/runners/odata.py:329-330 | counts exactly the outcome the future holds, or raises |
| SyncLoop.Session.Shutdown | shared/lag-service-kit/src/lag_service_kit/runners/odata.py:322 | leaving by exception waits for every submitted task and submits none |
| SyncLoop.CountDone | shared/lag-service-kit/src/lag_service_kit/runners/odata.py:329-330 | the loop over what `wait` returned counts all of it, or stops at an exception |
| SyncLoop.CountRest | shared/lag-service-kit/src/lag_service_kit/runners/odata.py:334-335 | the final loop counts every future left, or stops at an exception |
| SyncLoop.SubmitRow | shared/lag-service-kit/src/lag_service_kit/runners/odata.py:324-333 | one turn of the loop over the rows submits exactly the next row, after counting all that `wait` returned if the window was full, or ends by exception |
| SyncLoop.SyncLoop | shared/lag-service-kit/src/lag_service_kit/runners/odata.py:314-337 | the loops are a run of the machine that ends: with that state's counts in `result`, or by exception |
| SyncLoop.CallUpsert | shared/lag-data-utils/src/lag_data_utils/clients/odata.py:231-237 | the call comes back as is its request's fate: with a response, after the request took effect in this run, 201 if and only if the destination it took effect on had no such record; or with a transport error, or any other |
| SyncLoop.UpsertOne | shared/lag-service-kit/src/lag_service_kit/runners/odata.py:211-248 | whatever other threads do: no call once the breaker is open, and none only with it open; otherwise status 201 gives created, any other status updated, a transport error failed, any other exception raises; created if and only if the request found no record |
| SyncLoop.SyncRecords | shared/lag-service-kit/src/lag_service_kit/runners/odata.py:250-337 | the call is a run of the machine in which the requests meet their fates, and returns with its counts or ends by exception; no failures if and only if every request is answered; counts sum to the records; a skip implies enough failures; only records of the batch change; no failures means a clean pass; no workers means an exception and no request |
| Dedupe.KeepLastIsTheLastOccurrences | shared/lag-service-kit/src/lag_service_kit/dedupe.py:29-32 | the whole-feed result is the subsequence of last occurrences, all of them, in feed order |
| Dedupe.KeepLastSeen | shared/lag-service-kit/src/lag_service_kit/dedupe.py:11-25 | one row for each key of the feed, the last seen |
| Dedupe.ScanMeans | shared/lag-service-kit/src/lag_service_kit/dedupe.py:68-75 | the dictionary holds the last row under every key of the feed |
| Dedupe.ScanOrder | shared/lag-service-kit/src/lag_service_kit/dedupe.py:68-75 | its keys are in order of their first rows |
| Dedupe.DictLastSeen | shared/lag-service-kit/src/lag_service_kit/dedupe.py:52-67 | its values are one row for each key of the feed, the last seen |
| Dedupe.LastSeenIsUniqueUpToOrder | shared/lag-service-kit/src/lag_service_kit/dedupe.py:52-56 | one last-seen row per key leaves no choice but the order |
| Dedupe.TheTwoAgree | shared/lag-service-kit/src/lag_service_kit/dedupe.py:29-83 | the two results are permutations of each other |
| Dedupe.SameOrderIffNoneOvertakes | shared/lag-service-kit/src/lag_service_kit/dedupe.py:52-56 | for every feed the two results are the same sequence if and only if no key comes back after the last row of a key that first came later |
| Dedupe.TheOrdersDiffer | shared/lag-service-kit/src/lag_service_kit/dedupe.py:52-56 | an instance: on the feed a, b, a the results are b, a and a, b |
| Load.StripLeavesNothing | shared/lag-service-kit/src/lag_service_kit/validation.py:92 | a stripped value is empty if and only if it was all white space |
| Load.WhiteSpaceIs | shared/lag-service-kit/src/lag_service_kit/validation.py:92 | stripping removes the 29 white-space characters |
| Load.ValidateMeans | shared/lag-service-kit/src/lag_service_kit/validation.py:62-98 | accepted, unchanged, if and only if every required column is there and every key is a text with something besides white space; otherwise the error names the missing columns, or, if none is missing, the number of rows without a real key |
| Load.AcceptableMeans | services/inventory-sync-engine/runners/base.py:138-162 | a feed, by either read path, is accepted if and only if every frame has every required column and every row a real key |
| Load.ChunkedValidationAgrees | services/inventory-sync-engine/runners/base.py:138-162 | chunked validation accepts if and only if whole validation does, or there are no chunks |
| Load.ChunkStream.Next | services/inventory-sync-engine/runners/base.py:161 | takes the next chunk from the source, or none at the end |
| Load.ChunkStream.NextValidated | services/inventory-sync-engine/runners/base.py:161-162 | reads one chunk and yields it or its validation error |
| Load.AssignRows | shared/lag-service-kit/src/lag_service_kit/dedupe.py:74-75 | assigning a chunk's rows takes the dictionary of the feed so far to that of the longer feed |
| Load.DedupeChunks | shared/lag-service-kit/src/lag_service_kit/dedupe.py:68-83 | the result depends on the concatenated feed only, not on how it was cut; on rejection exactly the chunks up to the first bad one were read |
| Load.LoadRecords | services/inventory-sync-engine/runners/base.py:196-202 | fails if and only if validation rejects the feed, with the error of the feed or of its first bad chunk; otherwise one last-seen row for each key of the feed and every key real, in the order of the read path |
| Load.LoadedKeysAreDistinct | services/inventory-sync-engine/runners/base.py:196-202 | what was loaded makes a batch with distinct keys |
| Load.BothPathsLeaveTheSame | services/inventory-sync-engine/runners/base.py:196-202 | both read paths load the same rows and lead to the same destination |
| Token.BalancedKept | shared/lag-data-utils/src/lag_data_utils/clients/dataverse.py:314-325 | every step keeps: every token issued has expired or is cached, every request has brought a token, been refused or is out |
| Token.OneRefreshPerExpiry | shared/lag-data-utils/src/lag_data_utils/clients/dataverse.py:300-325 | in every interleaving at most one thread is in the token request, refreshes number at most expiries + 1, and no call returns a token replaced before it began |
| Token.EveryCallHasItsStory | shared/lag-data-utils/src/lag_data_utils/clients/dataverse.py:314-325 | in every interleaving a call whose first look finds a token returns that one; whose second look does, that one; and otherwise it has sent a request and ends with what that brought |
| Token.ResultOfACall | shared/lag-data-utils/src/lag_data_utils/clients/dataverse.py:314-337 | a token that a call returns was cached at some moment of the call; a call that raises looked twice in vain, sent a request and was refused |
| Token.TheBoundIsReached | shared/lag-data-utils/src/lag_data_utils/clients/dataverse.py:300-325 | for every number of expiries some run has one refresh more |
| Token.SecondLookDecides | shared/lag-data-utils/src/lag_data_utils/clients/dataverse.py:318-325 | in every state of every run a thread that has the lock asks for a token if and only if every token issued so far has expired |
| Token.RequestsBalance | shared/lag-data-utils/src/lag_data_utils/clients/dataverse.py:303-312 | the exact number of token requests in every state; they exceed one per expiry and one more if and only if refusals, a cached token and a request that is out are more than one together; never without refusals |
| Token.ARefusalIsRepeated | shared/lag-data-utils/src/lag_data_utils/clients/dataverse.py:300-312 | there is an interleaving in which a refusal makes a second thread ask again with no expiry |
| Token.NoDeadlock | shared/lag-data-utils/src/lag_data_utils/clients/dataverse.py:314-325 | while a thread is in a call, some thread can take its next step |
| Token.Client.Lock | shared/lag-data-utils/src/lag_data_utils/clients/dataverse.py:318 | the lock is obtained once its holder leaves, whatever else happens |
| Token.Client.LookUnderLock | shared/lag-data-utils/src/lag_data_utils/clients/dataverse.py:318-325 | after a miss a call ends with a token or with a refusal of its own |
| Token.Client.AcquireBearerToken | shared/lag-data-utils/src/lag_data_utils/clients/dataverse.py:314-337 | returns a token no older than the newest at its start that was cached at some moment of the call, or raises, and then only after its own request was refused |
| Runner.Records | shared/lag-service-kit/src/lag_service_kit/runners/base.py:169 | records come back if and only if the source and the feed are good, and can be written |
| Runner.Summarise | shared/lag-service-kit/src/lag_service_kit/runners/base.py:206-223 | for a result with any further counts: the three core counts come first, all counts reported add up to all counts of the result, the number of records comes last |
| Runner.Run | shared/lag-service-kit/src/lag_service_kit/runners/base.py:162-245 | once the feed is loaded and the pool can start, 0 if and only if every request is answered; then every record is confirmed and every row delivered, field by field; otherwise each row was delivered or its record is as it was; no other key changes; the summary has the counts of a run of the write loop and accounts for every key of the feed; a run that stops before the write loop sends nothing |
| Runner.CleanPassDelivers | shared/lag-service-kit/src/lag_service_kit/runners/base.py:131-136 | a clean pass over the batch puts the payload of every row that no later row supersedes under the text of its key, over the record's earlier fields, and moves no other key |
| Runner.PartDelivers | shared/lag-service-kit/src/lag_service_kit/runners/base.py:131-136 | part of a clean pass delivers each such row so or leaves its record as it was, and moves no other key |
| Runner.SeriesLeavesPart | docs/design-decisions/concurrency-and-resilience.md:95-101 | after any series of runs of one batch, however set up and however ended, the original destination has part of the batch laid over it |
| Runner.ExitZeroConverges | docs/design-decisions/concurrency-and-resilience.md:95-101 | after any such series, a run that exits 0 leaves exactly a clean pass over the original destination, every row delivered, and late requests change nothing afterwards |

## Left out

- HTTP sessions, timeouts, connection pooling and the retry policy: one `upsert_record` call is a step with an open outcome; a retried or late PATCH is a request that takes effect again or later.
- The destination's statuses: 201 is taken to answer exactly the requests that created a record, any other status the others.
- A PATCH of an older, different feed that is still on the wire when a run starts; late requests are those of the same batch.
- `build_payload`: the payload is a fixed function of the row; a payload that cannot be built is an exception of the task.
- pandas: type inference per chunk, renaming of odd column names, NaN as a dictionary key; cells are missing or text, rows are maps, and the deduplicated frame takes its columns from the first chunk.
- Lone surrogates in keys, which cannot be encoded: Dafny's characters exclude them.
- Entity set and key names that are not plain: `ODataKey.PlainNames` is assumed where a URL is read back.
- MSAL's own request deduplication and the text of its errors: a look at the cache gives nothing or a token.
- Settings, Key Vault, logging, message text, readers of CSV, JSON and Parquet, `get_record`, `query_records`, `delete_record`, the mock demo and the infrastructure scripts.
- Exceptions that `run` does not catch (interpreter exit, keyboard interrupt) as exit codes; a killed run is a run cut off anywhere in `SyncDelivery.RerunConverges`.
- Fairness of thread scheduling: `SyncProgress` shows that runs cannot go on forever or get stuck, not how soon a given thread runs.
