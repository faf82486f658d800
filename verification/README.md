# Bittuly, modelled and proved

A model in Dafny of the four hard parts of the URL shortener and of its session tokens, with proofs about
every run of them. `dafny verify dfyconfig.toml` checks everything.

- **Clicks** (`ClickCounts`, `ClickProtocol`, `ClickGuarantees`, `ClickExactness`, `ClickTask`). Broker, consumer loop and table as a
  state machine whose steps are publishing, delivery, taking a delivery, the timer, a flush that commits or fails, ack,
  nack and a crash. `ClickTask.Task` is the loop with its mutable variables, proved against those steps.
- **Retries** (`RetryProtocol`, `RetryGuarantees`, `RetryDelays`, `RetryTermination`, `RetryWorker`, `UserWipe`). A deletion event on its way
  from the main queue over the 3, 9 and 27 second queues to the dead-letter queue, driven by a counter header and by queue names
  computed as text; and what handling it does to the table and to Redis.
- **The table** (`UrlTable`, `Reactivation`, `Codec`, `Digits`). The SELECT, INSERT, code UPDATE, COMMIT and reactivating UPDATE of any
  number of callers, interleaved; base-62 codes and hexadecimal cursors, with the integer widths of the code.
- **Pages and repositories** (`DescendingOrder`, `Keyset`, `Pagination`, `Browsing`, `Repositories`, `RepoAgreement`). Keyset pagination
  over a table that stays or changes; the SQL and the in-memory repository as classes, and their agreement.
- **Redirects** (`RedirectCache`, `RedirectGuarantees`, `RedisKeys`, `DeletionBound`, `RedirectHandler`, `DeletionRuns`, `CreationBound`). Any number of pods with their
  own caches, Redis with expiry, a lagging replica and detached Redis writes, over one clock. `RedirectHandler.Pod` is the
  two handlers in place.
- **Sessions** (`Cookies`, `Sessions`, `SessionCookies`). The cookie parser, the guard with its renewal over whole runs with
  ideal signatures, and a browser that keeps cookies for their Max-Age.

In each part the steps carry a history (who a code was created for, which clicks were acknowledged, on whose authority
a token was signed) that the program itself does not keep; the theorems relate the real state to that history.

## Findings

Where the code and what is said about it differ, the model follows the code.

- Deletion evicts Redis and not the pods' own caches (README.md:154 says it evicts both), so a pod may go on redirecting for up to three
  seconds (`PodsRedirectUntilThen`); and a background write, a resolved load or a lagging replica can bring the link back
  for longer (`DeletedLinkComesBack`). `DeletionIsFinalExactlyWhenQuiet` is the exact condition.
- A crash between the DELETE and the DELs of a user's deletion leaves codes in Redis for good: the redelivered DELETE returns no
  codes (`CrashLosesTheEviction`). `WipedCodeStaysExactlyWhenLeftBehind` is the exact condition.
- Clicks are counted at least once, not exactly once: a failed flush keeps the batch and requeues the messages
  (`OneClickCountedTwice`, and exactly when: `ExactIffNothingCountedTwice`).
- The access cookie lives as long as the access token, while an expired token is still accepted for the leeway. A browser
  that honours Max-Age has dropped the cookie before the guard would renew it, and is refused although its refresh token is good for
  30 days; README.md:205 promises silent rotation (`BrowserSession`, `RenewalOnlyWhenLate`).
- A logout that arrives with an expired access token sets fresh cookies after the cleared ones (`LogoutThatRenews`), and one
  without a live token does not reach the handler and clears nothing (`LogoutSticks`).
- An expired refresh token in the place of the access token opens the renewal path as an expired access token does
  (`RefreshTokenOpensRenewal`).
- Two callers that both find a link expired both reactivate it, and the second overwrites the live expiry of the first
  (`LiveLinkReactivated`; without such a caller in between it cannot happen: `ReactivationHitsWhatWasSeen`).
- The in-memory repository does not clamp the page limit (`PagesAgreeExactly`), and refusing a link uses up an id of the SQL
  sequence only (`RepositoriesAgree`).

## Assumptions

- The broker accepts publishes and acknowledgements, and a flush that reports failure has not committed.
- Publishers attach string headers only, as the tracing context does (libs/shared/src/rabbitmq.rs:110-115).
- Ids are drawn from a sequence that is never reset. For the comparison of the repositories, ids stay below 2^63 - 1.
- base62::encode is positional notation over 62 distinct digits without leading zeros.
- The database runs each statement atomically; an INSERT waits for an uncommitted row with its key.
- Pods, Redis and the database read one clock; computing a TTL and SETEX are one step.
- Signatures are ideal, and equal claims give equal tokens. The leeway of the expiry check is a parameter.
- A request is authorised and its tokens are signed at one instant.

## Model

| member | source | states |
|---|---|---|
| ClickGuarantees.NoClickIsLost | services/consumer-service/src/main.rs:116-207 | over every schedule with failed flushes, requeues and crashes: a row present at every flush of its code counts at least the distinct well-formed clicks acknowledged for it |
| ClickGuarantees.ClickLedgerBalances | services/consumer-service/src/main.rs:126-206 | the exact ledger per code over every run: flushed + in memory + dropped by crashes = acknowledged + outstanding + requeued; `total_clicks` is the sum of the batch |
| ClickExactness.ExactIffNothingCountedTwice | services/consumer-service/src/main.rs:149-165 | exactly-once is not a property; a code is flushed exactly as often as acknowledged if and only if at every ack of the run the batch held no more clicks of it than were outstanding, and no crash fell between a flush of it and the ack |
| ClickExactness.FlushedIsAckedAndTwice | services/consumer-service/src/main.rs:149-165 | the exact surplus: flushed, and stored for rows present throughout, is acknowledged plus the clicks that each step of the run counted twice |
| ClickExactness.OneClickCountedTwice | services/consumer-service/src/main.rs:156-165 | the run that shows it, for every click: failed flush, redelivery into the kept batch, flush; two stored where one was published and acknowledged |
| ClickExactness.ExactIfNothingRequeued | services/consumer-service/src/main.rs:161-163 | with nothing requeued for a code, it is flushed exactly as often as acknowledged |
| ClickExactness.CleanRunsCountExactly | services/consumer-service/src/main.rs:139-155 | without a failed flush and without a crash, rows count exactly the acknowledged clicks |
| ClickGuarantees.EachEventIsInOnePlace | services/consumer-service/src/main.rs:126-165 | every published click is queued, buffered, handled or acknowledged, and only one of these |
| ClickGuarantees.SettlingTag | services/consumer-service/src/main.rs:149-163 | one cumulative ack or nack of the remembered tag settles every handled click, nothing still buffered, and leaves only messages that are not UTF-8 outstanding |
| ClickGuarantees.AckSplits | services/consumer-service/src/main.rs:150-162 | a cumulative tag ("up to and including") splits the deliveries without losing or doubling an event |
| ClickGuarantees.StepKeepsInv | services/consumer-service/src/main.rs:124-206 | the protocol invariant (tag order, tag coverage, conservation, ledger, memory bound) is kept by every step |
| ClickGuarantees.MemoryIsBounded | services/consumer-service/src/main.rs:130-165 | between iterations at most 16 clicks plus one per consecutive failure are in memory, fewer than 17 after a success |
| ClickGuarantees.FlushesAtSeventeen | services/consumer-service/src/main.rs:130-135 | a delivery starts a flush exactly if it is a well-formed click that brings the batch to seventeen or more |
| ClickGuarantees.TimerFlushesWhatThereIs | services/consumer-service/src/main.rs:170-171 | the timer starts a flush exactly if a click is in memory |
| ClickGuarantees.SleepsOfAStreak | services/consumer-service/src/main.rs:157-160 | over every schedule, the sleeps of a failure streak are 3, 9, then 27 seconds each |
| ClickGuarantees.LostExactly | services/consumer-service/src/main.rs:367-373 | when a row is there at every flush of its code, in terms of the steps of the schedule |
| ClickTask.Task.Flush | services/consumer-service/src/main.rs:139-166 | the flush in place: on success the batch is written, acknowledged and cleared; on failure the task sleeps, requeues and keeps the batch |
| ClickTask.Task.OnDelivery | services/consumer-service/src/main.rs:126-169 | the stream arm updates the variables as a legal schedule of the protocol does; text that is not UTF-8 is neither counted nor remembered |
| ClickTask.Task.OnTick | services/consumer-service/src/main.rs:170-204 | the timer arm likewise; an empty batch is left alone |
| ClickTask.Task.Run | services/consumer-service/src/main.rs:117-206 | any sequence of arms, with deliveries, publishes and row changes arriving between arms and inside a flush, leads where the protocol leads and keeps its invariant and the memory bound in the mutable variables |
| ClickTask.ArmIsASchedule | services/consumer-service/src/main.rs:124-206 | the select loop never gets stuck: each arm is a legal schedule back to selecting |
| ClickTask.TurnsAreASchedule | services/consumer-service/src/main.rs:124-206 | a whole run of the loop, with what the broker and the table do meanwhile, is one legal schedule |
| ClickTask.IncrementClickCounts | services/consumer-service/src/main.rs:358-380 | the statement adds to each stored count exactly the clicks batched for its code |
| ClickTask.BackoffDelay | services/consumer-service/src/main.rs:157-160 | the delay is 3 seconds after no earlier failure, 9 after one, 27 after two or more |
| ClickCounts.BatchedUpdateIsFold | services/consumer-service/src/main.rs:358-380 | whatever table the UPDATE..FROM leaves is the one that counting the clicks one by one leaves, for every click list with those multiplicities, in any order |
| ClickCounts.RepeatedCodeLosesClicks | services/consumer-service/src/main.rs:367-373 | why the keys must be distinct: UPDATE..FROM applies one joined row per target, so a code listed twice loses a delta |
| ClickCounts.CountAllAdds | services/consumer-service/src/main.rs:130-131 | counting a click list adds each row the multiplicity of its code, whatever the order |
| ClickCounts.StatementAddsBatch | services/consumer-service/src/main.rs:367-377 | the statement on rows does to the counts by short code what the protocol model says |
| ClickCounts.Unzip | services/consumer-service/src/main.rs:362-365 | splitting the map gives parallel arrays with each code once, whatever the iteration order |
| RetryGuarantees.EventsAreConserved | services/consumer-service/src/main.rs:221-346 | a deletion event is in exactly one place, plus one for each crash of the schedule that fell between a republication of it and its acknowledgement |
| RetryGuarantees.QueuesHoldWhatTheySay | services/consumer-service/src/main.rs:288-336 | messages in the 3, 9 and 27 second queues carry counters 1, 2 and 3, dead letters carry 3 after at least 39 seconds; payload and application headers are as published |
| RetryGuarantees.OutcomesFitThePayload | services/consumer-service/src/main.rs:223-223 | only events that parse settle, only those that do not are discarded, and neither was altered |
| RetryGuarantees.AtMostFourAttempts | services/consumer-service/src/main.rs:288-338 | no crash-free schedule takes an event up more than four times |
| RetryGuarantees.TargetIsDeclared | services/consumer-service/src/main.rs:296-311 | the computed queue name is that of a declared queue exactly when the counter is not negative |
| RetryGuarantees.WaitedClosedForm | services/consumer-service/src/main.rs:310-310 | the delay spent by counter r is (3^(r+1) - 3) / 2 seconds |
| RetryDelays.HeadLeavesExactly | services/consumer-service/src/main.rs:56-69 | the head of a delay queue can leave it exactly from 3000, 9000 or 27000 milliseconds after it entered, and no other queue expires messages |
| RetryDelays.PromptDelays | services/consumer-service/src/main.rs:288-338 | when the broker and the consumer lose no time, failed events enter the queues exactly 0, 3, 12 and, as dead letters, 39 seconds after publication |
| RetryDelays.ThirtyNineSeconds | services/consumer-service/src/main.rs:288-338 | for every event, a run that fails four times and makes it a dead letter after 39 seconds |
| RetryGuarantees.ForwardingKeepsContent | services/consumer-service/src/main.rs:319-334 | forwarding sets x-retry-count to the next count and changes nothing else; a dead letter is forwarded as it is |
| RetryGuarantees.StepKeepsInv | services/consumer-service/src/main.rs:221-346 | contents, places and attempts are kept by every step of broker and consumer, crashes included |
| RetryTermination.MovesUseWork | services/consumer-service/src/main.rs:288-338 | a measure over all messages shrinks with every delivery, expiry, handling and acknowledgement; only publishing adds to it |
| RetryTermination.MovesAreBounded | services/consumer-service/src/main.rs:288-338 | without crashes a run makes at most 21 moves per published event |
| RetryTermination.SomethingCanMove | services/consumer-service/src/main.rs:56-81 | with work left some move is possible after at most 27 seconds; with none left nothing is in flight |
| RetryWorker.Reroute | services/consumer-service/src/main.rs:288-336 | the failure branch, with header, delay and queue name computed as the code does, publishes what the protocol says where it says |
| RetryWorker.HandleDelivery | services/consumer-service/src/main.rs:223-344 | one delivery: wipe, reroute or discard, then acknowledge, are the protocol steps, whatever arrives in between |
| RetryWorker.Consume | services/consumer-service/src/main.rs:222-345 | the while-let loop, with messages arriving and time passing before and during each delivery, leads where the protocol leads and keeps its invariant |
| RetryWorker.ConsumingIsASchedule | services/consumer-service/src/main.rs:222-345 | a whole run of the loop is one legal schedule of the protocol |
| UserWipe.WipedCodeStaysExactlyWhenLeftBehind | services/consumer-service/src/main.rs:256-279 | when a deletion event is acknowledged, Redis still holds the code of a wiped row if and only if its DEL failed, the consumer died before sending it, or a background write came after it, and nothing has dropped the code since |
| UserWipe.CleanWipesLeaveNothing | services/consumer-service/src/main.rs:272-276 | a code none of this happens to is gone from Redis once its eviction is not under way |
| UserWipe.CrashLosesTheEviction | services/consumer-service/src/main.rs:256-279 | the run that shows it, for every event and code: a crash between the DELETE and the DEL, and a redelivered DELETE that returns nothing |
| UserWipe.WipeTakesAllRows | services/consumer-service/src/main.rs:257-263 | the DELETE takes exactly the rows of the user, and exactly their codes are up for eviction |
| UserWipe.QueuesKeepTheirInvariant | services/consumer-service/src/main.rs:221-346 | with the table and Redis added, the queues still follow the retry protocol and keep its invariant |
| UserWipe.EvictCodes | services/consumer-service/src/main.rs:272-276 | the loop of DELs removes from Redis exactly the codes whose DEL was answered, and is the evictions of the protocol |
| UrlTable.TableIsSound | services/url-service/src/repository.rs:63-132 | after any interleaving of statements of any calls: one row per link and user, every committed row under the base-62 code of its own id, codes unique, 1 to 11 characters |
| UrlTable.SettingCodeSucceeds | services/url-service/src/repository.rs:118-127 | the code UPDATE inside the transaction never meets the uniqueness constraint on short_code |
| UrlTable.CodeNeverTaken | docker/postgres-urls/init/01-init.sql:6-6 | no row, committed or not, has the code of an id in a transaction |
| UrlTable.CodesAreNotReused | docker/postgres-urls/init/01-init.sql:5-6 | once a row is deleted no later row has its id or its code |
| UrlTable.OwnersOverRun | docker/postgres-urls/init/01-init.sql:5-5 | what a committed id was created for never changes, and a deleted row does not come back |
| Reactivation.RowsGoByTheirOwner | services/url-service/src/repository.rs:190-200 | a row goes exactly when its owner deletes it or all rows of its owner are wiped |
| Reactivation.RowsChangeBy | services/url-service/src/repository.rs:79-97 | counting adds to the clicks, reactivating sets the requested expiry, and nothing else changes a row |
| Reactivation.ReactivationHitsWhatWasSeen | services/url-service/src/repository.rs:79-93 | a call reactivates a row only if that was expired when it looked, and overwrites the expiry it saw unless another call reactivated the row in between |
| Reactivation.LiveLinkReactivated | services/url-service/src/repository.rs:79-93 | a run from the empty table in which two callers have seen the row expired and the second overwrites the live expiry of the first |
| UrlTable.StepKeepsInv | services/url-service/src/repository.rs:63-200 | the table invariant is kept by every statement, commit, abort, reactivation, deletion, wipe and click count |
| UrlTable.CallOnItsOwn | services/url-service/src/repository.rs:63-132 | run without interference, the select / insert / set-code / commit statements amount to one atomic operation, including the id burnt on a refused link |
| Codec.ShortCodeDecodes | services/url-service/src/repository.rs:118-118 | the short code of an id decodes back to the id |
| Codec.ShortCodeUnique | services/url-service/src/repository.rs:118-118 | a text that denotes n without leading zero is the short code of n |
| Codec.CodeOfInjective | services/url-service/src/repository.rs:118-118 | distinct 64-bit ids have distinct codes, the cast to unsigned 128 bits included |
| Codec.ShortCodeLength | services/url-service/src/repository.rs:118-118 | codes of 64-bit ids have 1 to 11 characters |
| Codec.ShortCodeOfOne | services/url-service/src/services.rs:56-56 | the code of id 1 is "1" |
| Codec.AccumulateExact | services/url-service/src/handlers.rs:38-38 | the overflow-checked digit loop fails exactly on a foreign character or when the number leaves the 64-bit range |
| Codec.ParseHexExact | services/url-service/src/handlers.rs:38-46 | what the cursor parser accepts and returns, in terms of positional notation, sign included |
| Codec.DecodeCursorExact | services/url-service/src/handlers.rs:36-48 | for every cursor parameter: the first page exactly if it is absent or empty, an id exactly if the text denotes it, 400 exactly if it denotes no 64-bit number |
| Codec.SomeCursors | services/url-service/src/handlers.rs:36-48 | absent, empty, lower and upper case, signed and malformed parameters by hand |
| Codec.HexAlphabet | services/url-service/src/repository.rs:182-182 | sixteen digits, written in lower case and read in either, and no other character |
| Codec.CursorRoundTrip | services/url-service/src/handlers.rs:36-48 | a printed cursor decodes to the same id exactly when the id is not negative; otherwise it is answered with 400 |
| Digits.ReadsBack | services/url-service/src/repository.rs:118-118 | positional digits read back, in any base |
| Digits.WritesBack | services/url-service/src/repository.rs:181-185 | canonical digits are the ones written |
| Pagination.WholeListing | services/url-service/src/repository.rs:148-188 | starting without a cursor on a fixed table, the pages list the user's matching rows once, in descending id order, in max(1, ceil(n / limit)) pages, for every limit after the clamp |
| Pagination.NoDuplicates | services/url-service/src/repository.rs:159-187 | with inserts and deletes between the pages the ids strictly descend |
| Pagination.NothingMissed | services/url-service/src/repository.rs:175-187 | when the cursor runs out, every row that matched at each page call has been returned |
| Pagination.NothingInvented | services/url-service/src/repository.rs:159-173 | what is on a page matched in the table it was read from |
| Pagination.BrowsingEnds | services/url-service/src/repository.rs:163-166 | the cursor runs out after at most 2 + (highest id - 1) / limit calls, whatever is inserted meanwhile |
| Browsing.BrowsingIsStable | services/url-service/src/repository.rs:148-200 | along any run of the service, once the cursors have run out, every link that matched when browsing began and is still there at the last call has come, and none came twice |
| Pagination.PageCursor | services/url-service/src/repository.rs:181-185 | a page has a cursor exactly when rows remain, and the handler decodes it to the id of its last row |
| Pagination.PageRows | services/url-service/src/repository.rs:155-179 | a page holds the first rows of the listing, unaltered |
| Keyset.NextPageContinues | services/url-service/src/repository.rs:163-163 | the rest of the list is what lies under the last id of the page |
| Keyset.PagesForIsCeiling | services/url-service/src/repository.rs:155-175 | the page count is the ceiling of rows / limit, at least one |
| Repositories.PgUrlRepo.AddShortenUrl | services/url-service/src/repository.rs:63-132 | the call in place has exactly the effect and outcome of the statements it runs |
| Repositories.ShortenKeepsItsPromise | services/url-service/src/repository.rs:79-131 | a link the user has is given the new expiry exactly if it has expired and is else refused with nothing changed; a new one is stored as requested |
| Repositories.MockShortenKeepsItsPromise | services/url-service/src/mock.rs:36-63 | the in-memory repository promises the same |
| Repositories.PgUrlRepo.GetUrlsPage | services/url-service/src/repository.rs:148-188 | "fetch limit + 1 and pop" returns the page of the specification |
| Repositories.PgUrlRepo.DeleteUrl | services/url-service/src/repository.rs:190-200 | the row goes and its code is returned exactly if it is there and the caller owns it; every other row stays as it is |
| Repositories.DeletionIsTheStatement | services/url-service/src/repository.rs:191-193 | the deletion is the statement of the table, enabled exactly for the owner, and returns the base-62 code of the id |
| Repositories.MockUrlRepo.AddShortenUrl | services/url-service/src/mock.rs:28-64 | the in-memory call: reactivate, refuse, or insert under the next counter value |
| Repositories.MockUrlRepo.GetUrlsPage | services/url-service/src/mock.rs:78-115 | "collect, sort, filter, truncate" returns the page of its specification; the search is ignored |
| Repositories.MockUrlRepo.DeleteUrl | services/url-service/src/mock.rs:117-127 | the entry goes and its code is returned exactly if it is there and the caller owns it; every other entry stays as it is |
| Repositories.SortNewestFirst | services/url-service/src/mock.rs:92-92 | the sort returns the same rows, newest first |
| Repositories.ListUrls | services/url-service/src/mock.rs:86-100 | collecting, sorting and filtering under the cursor lists the matching rows in descending order |
| RepoAgreement.PagesAgreeExactly | services/url-service/src/mock.rs:78-115 | the two repositories return the same page and cursor on every table exactly for the limits 1 to 100 |
| RepoAgreement.RepositoriesAgree | services/url-service/src/mock.rs:28-127 | from empty, any run of shorten and delete calls gets the same outcomes from both, up to one order-preserving renaming of ids for the whole run |
| RepoAgreement.StepAgrees | services/url-service/src/mock.rs:28-64 | each call keeps the correspondence and is answered alike |
| RepoAgreement.PagesCorrespond | services/url-service/src/mock.rs:78-115 | pages of corresponding tables hold corresponding rows in the same order, and corresponding cursors |
| RedirectGuarantees.RedirectsGoToTheAssignedUrl | services/url-service/src/handlers.rs:109-203 | over all interleavings of creation, deletion, reactivation, replica lag, cache fills and late background writes on any number of pods, a redirect goes to the one URL the code was created for |
| RedirectGuarantees.StepKeepsCoherent | services/url-service/src/handlers.rs:109-203 | every L1 entry, Redis entry, pending write, load and replica row agrees with that assignment after every step |
| RedirectGuarantees.RedirectsExpire | services/url-service/src/handlers.rs:143-178 | a redirect stems from an expiry e the row held: served by e if loaded from the table, and before e + 1s + 3s plus the time the pod took to store the answer if it came through Redis |
| RedirectGuarantees.TtlOvershoot | services/url-service/src/handlers.rs:143-150 | the whole-second TTL overshoots or undershoots the expiry by less than a second |
| RedisKeys.WrittenKeyLives | services/url-service/src/handlers.rs:143-150 | a key written for a link that expires a second ahead or later redirects from then on until at most a second before the expiry, and no longer than a second after it, if nobody writes or evicts it |
| RedisKeys.LastingKeyLives | services/url-service/src/handlers.rs:151-156 | the key of a link without expiry stays until it is written or evicted |
| RedisKeys.WrittenLinkSurvivesOutage | services/url-service/src/handlers.rs:117-168 | so requests of other pods are redirected in that time, with the replica down |
| RedisKeys.RedirectsEndInFourSeconds | services/url-service/src/handlers.rs:143-178 | if pods store what they are told at once, no redirect for a link read with an expiry comes four seconds after it or later |
| RedisKeys.GoneIsForgotten | services/url-service/src/handlers.rs:173-178 | a 410 drops the entry and only that, so a reactivated link is redirected at the next request without waiting |
| RedirectGuarantees.StepKeepsTimely | services/url-service/src/handlers.rs:125-178 | the expiry bounds of every cached value are kept by every step |
| DeletionBound.DeletionIsFinalExactlyWhenQuiet | services/url-service/src/handlers.rs:205-224 | three seconds after a deletion every answer that any schedule gives from a cache entry is a 404 if and only if nothing that names the link is left in Redis, in a pending write, in a resolved load or on its way to the replica |
| DeletionBound.QuietDeletionIsFinal | services/url-service/src/handlers.rs:205-224 | after a quiet deletion every answer from a cache entry is 404 from three seconds on, whatever happens |
| DeletionBound.WriteResurfaces | services/url-service/src/handlers.rs:140-160 | a background write left pending brings a deleted link back |
| DeletionRuns.DeletedLinkComesBack | services/url-service/src/handlers.rs:140-160 | a run from the empty system: row deleted, DEL done, replica caught up, and the pending write of an earlier load brings the link back |
| DeletionRuns.PodsRedirectUntilThen | services/url-service/src/handlers.rs:211-218 | the three seconds are needed: for every time short of them, a run from the empty system in which a pod redirects that long after a quiet deletion |
| CreationBound.CreatedLinkIsFoundExactlyWhenVisible | services/url-service/src/handlers.rs:114-168 | the dual: while a created row stays, a 404 three seconds later or more is possible if and only if the replica may still be read without the row or a load has resolved to a miss |
| CreationBound.CreatedLinkIsFound | services/url-service/src/handlers.rs:114-168 | once that is over, no pod answers 404 from three seconds on, in any schedule that keeps the row |
| RedirectHandler.DeletionIsASchedule | services/url-service/src/handlers.rs:205-224 | the delete handler is a legal schedule: the row goes, then the Redis key if Redis can be reached, and no pod cache |
| RedirectHandler.HandledDeletionIsFinal | services/url-service/src/handlers.rs:205-224 | after a handled deletion that the replica has followed, the link can be answered three seconds later or more if and only if the DEL failed and Redis held it, an effective write is pending, or a load has resolved to it |
| RedirectHandler.RequestsAfterQuietDeletion | services/url-service/src/handlers.rs:109-224 | any request three seconds after a quiet deletion gets 404, or 503 exactly when the table cannot be asked and the pod holds no answer |
| RedirectHandler.RequestIsASchedule | services/url-service/src/handlers.rs:109-203 | a request on its own is a legal schedule of the redirect protocol, with Redis or the replica up or down |
| RedirectHandler.ColdRequestReadsTheTable | services/url-service/src/handlers.rs:125-170 | with nothing cached and the replica up to date, the answer is the URL until the expiry, 410 after it, 404 exactly for unknown codes |
| RedirectHandler.LookupFindsAssigned | services/url-service/src/handlers.rs:170-203 | what a request of a reachable world is redirected to is what the code was created for |
| RedirectHandler.Pod.GetOriginalUrl | services/url-service/src/handlers.rs:109-203 | the handler in place: the new cache, Redis and pending writes are those of the schedule, the status follows the entry, every redirect publishes one click, 410 drops the entry |
| RedirectHandler.Pod.DeleteUrl | services/url-service/src/handlers.rs:205-224 | the delete handler in place: 204, 404 or 500, Redis evicted, the pod cache untouched |
| Cookies.ParsingInvertsWriting | libs/shared/src/jwt.rs:121-127 | for any list of trimmed pairs and other pieces, written with any padding, parsing returns the first value bound to the name |
| Cookies.EveryHeaderIsWritten | libs/shared/src/jwt.rs:121-127 | every header is such a writing, so this gives the answer for every header and name |
| Cookies.SentCookiesAreRead | libs/shared/src/jwt.rs:121-127 | the "n1=v1; n2=v2" form of section 4.2.1 of RFC 6265 gives back the first value for each name and none for the others |
| Sessions.HandlersRunInSessions | libs/shared/src/jwt.rs:168-236 | over whole runs, a protected handler runs for a user only if it presented an access or refresh token of theirs that is still accepted, with a chain of issues back to a login or verified signup, never more than 30 days plus leeway apart |
| Sessions.RunsExactlyFor | libs/shared/src/jwt.rs:168-236 | for any cookie header: a handler runs for a user exactly for a live access token of theirs, or an outlived session token in its place and a live refresh token of theirs; refresh and signup tokens never pass for access tokens |
| Sessions.TokenLifetimes | libs/shared/src/jwt.rs:16-18 | access, refresh and signup tokens are accepted for 15 minutes, 30 days and 10 minutes and the leeway, each only as what it is |
| Sessions.StepKeepsInv | services/auth-service/src/services.rs:39-162 | what is known of every issued token (type, lifetime, authority) is kept by signups, logins, verifications, renewals and updates |
| Sessions.IdleSessionsEnd | libs/shared/src/jwt.rs:16-17 | without a new issue for 30 days plus leeway no cookie works for a user |
| Sessions.NoSessionWithoutSignIn | services/auth-service/src/services.rs:76-135 | nobody acts for a user who never logged in or verified a signup |
| SessionCookies.Exchange.JwtAuth | libs/shared/src/jwt.rs:168-198 | the guard writing to request and response is the guard of the model; a refused request changes nothing |
| SessionCookies.Exchange.RefreshAccessToken | libs/shared/src/jwt.rs:200-236 | the renewal hands the handler access claims and appends the new cookies after the handler has answered |
| SessionCookies.Exchange.SetTokenCookies | libs/shared/src/jwt.rs:131-154 | both cookies are appended, each with the lifetime of its token as Max-Age |
| SessionCookies.Exchange.ClearTokenCookies | libs/shared/src/jwt.rs:158-166 | both cookies are appended empty with Max-Age 0 |
| SessionCookies.HeaderIsRead | libs/shared/src/jwt.rs:121-127 | the guard reads from the Cookie header what the browser holds |
| SessionCookies.BrowserSession | libs/shared/src/jwt.rs:131-236 | a browser that honours Max-Age is let in exactly as long as it holds the access cookie; it is renewed only in the time by which the response was later than the leeway |
| SessionCookies.RenewalOnlyWhenLate | libs/shared/src/jwt.rs:141-146 | the renewal is within reach of such a browser if and only if the response took longer than the leeway |
| SessionCookies.OutcomeByCookies | libs/shared/src/jwt.rs:168-236 | what the guard does for a browser, by the tokens it holds |
| SessionCookies.LogoutSticks | libs/shared/src/jwt.rs:189-235 | a logout rids the browser of its session if and only if it presented a live access token, or had nothing left and presented nothing that renews |
| SessionCookies.LogoutThatRenews | libs/shared/src/jwt.rs:229-235 | a run from the empty system in which a browser logs out and holds fresh tokens afterwards |
| SessionCookies.RefreshTokenOpensRenewal | libs/shared/src/jwt.rs:183-196 | a run from the empty system in which an outlived refresh token in the access cookie opens the renewal of another user |
| SessionCookies.SignedInBrowserIsLetIn | libs/shared/src/jwt.rs:131-190 | the tokens set by a login come back with the next request and let it in |

## Left out

- The web client, nginx, Kubernetes and docker configuration; of the SQL schema only the sequence and the uniqueness constraints are used.
- Connection setup, pools, telemetry, metrics, health endpoints and configuration.
- bcrypt, JWT cryptography, SMTP and OTP randomness: a verified OTP and a correct password are steps that may happen.
- Moka, Redis and RabbitMQ internals: eviction is a step that may happen at any time; the `x-death` headers the broker adds and message expiry behind a longer-waiting head are not modelled beyond first-in first-out.
- The page limit of 20 when none is asked for, and the blank search that counts as none (services/url-service/src/handlers.rs:50-51).
- ILIKE: the search is an arbitrary predicate on rows.
- A requester that waited for another's load and answers from it after the entry is gone: answers are given from live entries of the pod.
- Flushes that fail after committing, failed acks and nacks, failed publishes, and a stream error that ends the deletion loop.
- Counters are unbounded: 64-bit overflow of click counts and 32-bit overflow of consecutive failures are not modelled.
- A counter header below zero: the code would compute a power with a wrapped exponent; no publisher sends one, and the model drops such a message as unroutable.
- `created_at` and `updated_at` of rows; the in-memory repository does not touch `updated_at` on reactivation.
- In the redirect protocol the Redis evictions after a user's rows are wiped are evictions at any time; `UserWipe` ties them to the wipe.
- The click event published for a redirect is counted in `Pod.clicks` and not linked to the click protocol's queue.
- A missing JWT_SECRET, tokens that cannot be put in a header, and the `HttpOnly`, `Secure`, `SameSite` and `Path` attributes.
- DeletionBound.QuietDeletionIsFinal: is about answers given from a live entry; a 503 is covered by RequestsAfterQuietDeletion, and a requester whose answer is delayed after its lookup is not covered, since nothing bounds that delay.
- DeletionBound.DeletionIsFinalExactlyWhenQuiet: is about answers given from a live entry, for the same reason.
- RedirectHandler.HandledDeletionIsFinal: takes the replica to follow at the instant of the deletion; for a later one DeletionIsFinalExactlyWhenQuiet applies to the world at that time.
- CreationBound.CreatedLinkIsFound: is about answers given from a live entry.
- Auth handlers and validation: single branches.
