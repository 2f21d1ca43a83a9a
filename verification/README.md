# Stellar compliance kit: verified models of its concurrent engines

Below its calls into the Stellar SDK the kit contains a number of small engines with state: a listener
that pumps contract events into handlers, a job that keeps a denylist in step with a sanctions provider,
and the caches, queues, limiters and breakers around them. This project models those engines in Dafny and
proves what each of them keeps over every run.

An `async` function is modelled as the steps between its awaits, so every interleaving is a sequence of
method calls (or of actions). A class has the fields of the object or closure it models. Its ghost fields
record what has happened so far, and `Valid()` ties the two together, so a property of `Valid()` is a
property of every run, from the constructor on. Clocks are inputs that never run backwards; whether a call to the outside succeeds,
and in which order overlapping calls end, is left open.

| file | what it models |
|---|---|
| `EventPump.dfy` | the listener: its poll loop, its cursor, one or several workers on a page, the retries of a handler, the dead-letter queue it may be given, `stop` |
| `Lanes.dfy` | the lane scheduler of a page, and the orders of handling that pages keep |
| `DeadLetter.dfy` | the dead-letter queue, its file, and replay |
| `Webhook.dfy` | the batching webhook sender |
| `SanctionsSync.dfy`, `SyncIntake.dfy`, `Executor.dfy` | the sanctions sync across cut-off runs, its input side, and its bounded executor |
| `ResultCache.dfy`, `SingleFlight.dfy` | the provider result cache as a function of its history, and as an object with overlapping callers |
| `WriteQueue.dfy` | the promise chain behind the checkpoint store and the audit file |
| `Semaphore.dfy` | an abstract FIFO semaphore and the two implementations of it |
| `CircuitBreaker.dfy`, `RateLimiter.dfy`, `Revocation.dfy` | the breaker, the sliding window, the revocation store |
| `Csv.dfy`, `CsvProvider.dfy` | the RFC 4180 reader, a printer for it, and the watchlist loaded from a file |
| `Registry.dfy`, `LabelEscape.dfy` | verdicts of several providers, Prometheus label escaping |
| `Lists.dfy`, `Numbers.dfy`, `OrderedMap.dfy`, `Wrappers.dfy` | lists, the smaller of two numbers, the insertion-ordered `Map`, `Option` |

## Where the code does not do what it says

Each of these but the last comes with the condition under which the promise is kept, and with an input at
which it fails.

- `executeConcurrent` never returns when its deadline passes in the windowed branch with items left
  (sanctions-oracle/src/sync.ts:448-460). `ExecuteConcurrent` states exactly when, and that one more pass of
  the loop then changes nothing; `RunsEnd` and `HungForEver` carry it over to the sync. The same function
  runs one item at a time when `concurrency` equals or exceeds the number of items, as `Peak` of its trace
  shows.
- Replay promises that failures remain queued (horizon-listener/src/deadLetterQueue.ts:129). With two
  different records of one event this may fail: removal is by event id and takes the oldest.
  `FailedTwinExample` is such a queue; `SafeToReplay` says which queues are safe to replay whatever the sends
  answer, and `FailuresRemainExactly` for which answers the promise is kept.
- A dead-letter file whose last line lacks its line feed is loaded, but the next append runs into that line,
  and from then on the file cannot be loaded at all. `AppendDecodes` and `FileDeadLetterQueue.Enqueue` give
  the exact condition, `LostLineFeedExample` a file.
- Replay counts an entry that was sent and whose removal then throws as delivered and as failed, and the entry
  is gone from the queue but back after a restart (`LapsedRewriteExample`). The counts add up to the attempts
  exactly if there is no such entry (`Replay`, `LapsesNone`), and the last rewrite decides what a restart
  finds (`LastRewriteDecides`).
- The CSV reader takes a CR followed by a blank line ended by LF for one CRLF, and drops a leading byte order
  mark that belongs to the data when it is not quoted (`JoinedLineEndsExample`, `LostMarkExample`);
  `RoundTripExact` says that nothing else goes wrong.
- A sync that throws may have changed the denylist all the same: by its first write, if that was reported as
  failed and took effect (`FailedWriteLandsExample`). `AbortAddsAtMostOne` says that it did nothing else.
- A rate limit store shared by limiters with different windows is swept with the window of the first call, so
  a longer limiter may let through more than its maximum (`SharedStoreRun`, for every two windows).
  `RateLimitStore.Consume` says that a call decides by what is remembered, and `FindsExactly` that this is all
  that counts exactly if no shorter window is on record for the key.
- With one window and different limits, `resetAt` may name a moment at which the retry is refused as well
  (`EarlyResetRun`). `ResetIsRight` says exactly when it is the right one.
- `maxDurationMs` is used but never declared in `syncSanctionsToDenylist` (sanctions-oracle/src/sync.ts:483),
  and `handler` and `onGap` are undeclared in the listener. The deadline is modelled as a test that answers
  false a number of times and then true; the branches that need the others are left out.

## Model

| member | source | states |
|---|---|---|
| EventPump.NextCursorAdvances | horizon-listener/src/eventSource.ts:198-266 | after a page of any size the next cursor, the RPC's own or the fallback (last event id, else the cursor sent, else empty), denotes the end of the page |
| EventPump.HorizonListener.Run | horizon-listener/src/listener.ts:249-385 | for every script of polls, handler results and `stop` calls, a run ends with the first turn in which `stop` takes effect or `maxRetries` polls in a row have failed, and not before; it handles exactly the events of the pages fetched, each as scripted and as often as `eventRetry` says, and leaves the handled events the log up to the cursor, without gap or duplicate and in an order that keeps what the setting promises, as do the single calls of the handlers; a dead-letter queue has gained exactly the events that failed for good, in the order in which they did, and its file still decodes to its entries iff it gained none or had ended cleanly; so unless an enqueuing fails each of these events was delivered or is in the queue. A later run goes on from there |
| EventPump.HorizonListener.RunTurn | horizon-listener/src/listener.ts:253-384 | one turn: the failure count, when the backfill ends, and how the turn ends, including in which turns there is a sleep that `stop` can break (after a failed poll or an empty page, and in poll mode after a live page, but never between backfill pages) |
| EventPump.HorizonListener.TakePage | horizon-listener/src/listener.ts:332-337 | the whole page is handled before the cursor moves, also when `stop` is called during the page; at each handler call the cursor has passed only handled events |
| EventPump.HorizonListener.ProcessPage | horizon-listener/src/listener.ts:390-420 | each event of the page is handled once, whatever fails: in page order with one worker, and otherwise in an order that `OrderKept` allows |
| EventPump.HorizonListener.ProcessLanes | horizon-listener/src/listener.ts:402-419 | for every order of the single calls of overlapping handlers, retries included, the workers handle each event of the page once, as often as its retries ask for; if the contract is the ordering key, all calls for an event come before any for the next one of its contract; as many workers start as there are contracts, or else events, on the page, if `concurrency` allows; and the page ends |
| EventPump.HorizonListener.ProcessInTurn | horizon-listener/src/listener.ts:394-399 | with one worker the calls for an event, retries included, all come before those for the next |
| EventPump.HorizonListener.ProcessEvent | horizon-listener/src/listener.ts:422-484 | the handler is called until it succeeds or the allowed calls have failed; then the event is delivered, or appended with its error to the dead-letter queue, or lost exactly if there is no sink or it throws |
| EventPump.AsConfigured | horizon-listener/src/listener.ts:436-484 | case by case: without `eventRetry` one call is allowed, with it `maxRetries` calls but one at least, and by default three; the event is delivered iff its handler fails fewer times, and else is in the sink iff there is one that does not throw |
| EventPump.OverExactly | horizon-listener/src/listener.ts:253-384 | a run is over after a turn iff it was the last of `maxRetries` failed polls in a row (one at least), or `stop` came while polling, while a page was handled, or during a sleep, and there is a sleep iff the poll failed, the page was empty or, in poll mode and once the backfill has met an empty page, after any page |
| EventPump.DeliveredOrQueued | horizon-listener/src/listener.ts:435-484 | with the queue's `enqueue` as `onEventFailure`, every event of the log handled since some earlier moment was delivered or is an entry of the queue, with its own id and error, in any order of handling |
| EventPump.PageKeepsCalls | horizon-listener/src/listener.ts:390-420 | over all pages the handlers were called as often as each event's record says, and in an order that keeps what the setting promises, call by call |
| EventPump.NoGap | horizon-listener/src/listener.ts:332-337 | over all runs, and with any number of workers, every event of the log up to the cursor is handled |
| EventPump.HandledOnce | horizon-listener/src/listener.ts:332-337 | and no event id is handled twice |
| EventPump.ContractsInOrder | horizon-listener/src/listener.ts:387-420 | over all runs, and with any number of workers, two events of one contract are handled in log order when the contract is the ordering key |
| EventPump.HorizonListener.HandledInOrder | horizon-listener/src/listener.ts:387-420 | of the listener, over all runs: with concurrency 1 the k-th event handled is the k-th of the log, and with the contract as ordering key two events of one contract are handled in log order |
| EventPump.HorizonListener.CalledInOrder | horizon-listener/src/listener.ts:387-420 | and so for every two calls of handlers, retries included |
| EventPump.KeysOfPage | horizon-listener/src/listener.ts:402-408 | without an ordering key every event of a page has a lane of its own, and with it every contract has |
| EventPump.OneAtATime | horizon-listener/src/listener.ts:394-399 | with concurrency 1 the handled events are the log itself, in order |
| EventPump.PageKeepsOrder | horizon-listener/src/listener.ts:332-337 | adding a page that was handled to its end keeps all this |
| EventPump.TrailingIsExhausted | horizon-listener/src/listener.ts:267-307 | the attempt counter reaches the limit exactly when that many polls in a row have failed |
| Lanes.BuildLanes | horizon-listener/src/listener.ts:402-408 | there is one lane for each key on the page, holding that key's events in page order, and the lanes come in the order of their first events |
| Lanes.LanesMean | horizon-listener/src/listener.ts:402-408 | event by event: a lane holds exactly the positions of its key, ascending, no two lanes have one key, and a lane stands before those that begin later |
| Lanes.LaneScheduler.constructor | horizon-listener/src/listener.ts:410-419 | as many workers start as `concurrency` and the number of different keys allow, each on the first event of a lane of its own |
| Lanes.LaneScheduler.Finish | horizon-listener/src/listener.ts:411-417 | whichever handler ends next, the pool stays sound and goes where `Advance` says |
| Lanes.AdvanceSound | horizon-listener/src/listener.ts:410-417 | the invariant of every interleaving: lanes held by at most one worker, progress in order, taken lanes finished or held, no worker idle while a lane waits |
| Lanes.CallNext | horizon-listener/src/listener.ts:387-420 | whichever busy worker calls its handler next, for the first time or again, no event of the lane is called after a later one |
| Lanes.CallsJoin | horizon-listener/src/listener.ts:387-420 | calls of pages handled one after the other keep, together, what each page keeps |
| Lanes.EachKeyInOrder | horizon-listener/src/listener.ts:387-420 | at every moment the finished events of a contract are a prefix of its events on the page |
| Lanes.OneInFlightPerKey | horizon-listener/src/listener.ts:387-420 | no two events of one contract are in flight |
| Lanes.NeverTwice | horizon-listener/src/listener.ts:387-420 | in every interleaving no event is handled twice |
| Lanes.PagesJoin | horizon-listener/src/listener.ts:387-420 | pages handled one after the other keep, together, what each of them keeps |
| Lanes.KeptInOrder | horizon-listener/src/listener.ts:387-420 | keeping each contract's subsequence means that two events of it are never swapped |
| Lanes.AllHandled | horizon-listener/src/listener.ts:387-420 | when no worker is busy every event was handled exactly once, each contract's in page order: a page is never stuck |
| Executor.ExecuteConcurrent | sanctions-oracle/src/sync.ts:431-461 | for every completion order items start once each in list order until the deadline, all started calls are waited for, and the largest number under way is exactly the limit (or 1 outside the windowed branch); pass after pass the windowed loop arrives where nothing is under way and nothing may start, and it fails to end iff something is left, that is iff the deadline passes before the last start, every further pass then leading to the same point |
| Executor.HangExample | sanctions-oracle/src/sync.ts:448-460 | two items, a limit of one and a deadline during the first call are enough |
| Executor.PeakIsHighest | sanctions-oracle/src/sync.ts:431-461 | the peak meant is the largest number of calls begun and not ended at any moment |
| Executor.PassGoesOn | sanctions-oracle/src/sync.ts:448-460 | one pass of the loop starts items until the window is full, the list is empty or the deadline has passed, and ends only after some call has ended, if one is under way |
| SyncIntake.Prepare | sanctions-oracle/src/sync.ts:523-555 | the dedupe loops compute the canonical valid addresses (with the denylist when reconciling) and the malformed entries |
| SyncIntake.IntakeIsComplete | sanctions-oracle/src/sync.ts:523-555 | every entry is checked in canonical form or reported as given, never both; nothing is checked twice, and nothing else is checked |
| SyncIntake.ChosenOrder | sanctions-oracle/src/sync.ts:523-555 | both lists are in the order in which their members first appear in the input |
| SyncIntake.Resume | sanctions-oracle/src/sync.ts:560-582 | the resume loop splits the addresses by the checkpoint |
| SyncIntake.HalvesAreTheList | sanctions-oracle/src/sync.ts:560-582 | skipped and pending are together the list, counted with repetitions |
| SyncIntake.HalvesInOrder | sanctions-oracle/src/sync.ts:560-582 | and each is in the order of the list |
| SanctionsSync.StepSafe | sanctions-oracle/src/sync.ts:560-804 | no action of a run, no cut-off and restart, and no late effect of a call that failed or that a cut-off run had under way, be it a whole stale checkpoint set, breaks the invariant over denylist, checkpoint, lists and phase |
| SanctionsSync.EndsMean | sanctions-oracle/src/sync.ts:720-803 | a write or removal reported as done has changed the denylist and is listed as done; one reported as failed is listed as failed, has changed the denylist if it landed and may do so later if not, and as a write stops the run iff no write has succeeded |
| SanctionsSync.MarksMean | sanctions-oracle/src/sync.ts:560-803 | an address whose record landed is skipped by a run that resumes; one whose record failed and did not land is not recorded, but may be later; a clean address that could not be recorded counts as failed, a removed one as not removed |
| SanctionsSync.CutOffLeaves | sanctions-oracle/src/sync.ts:560-803 | a cut-off leaves denylist and checkpoint as they are, and every call under way may still land |
| SanctionsSync.NeverWrong | sanctions-oracle/src/sync.ts:643-664 | at every moment of any series of cut-off and failing runs the denylist has gained only addresses given to the sync, flagged, not listed in the snapshot and not below the minimum score, and lost only cleared ones that the snapshot lists, when reconciling; a checkpointed address is clean, on the list as asked or off it as asked, and never a match below the score |
| SanctionsSync.ResumedRunCompletes | sanctions-oracle/src/sync.ts:720-803 | a run that ends without errors and unprocessed addresses leaves exactly the denylist asked for, whatever was cut off before it and whenever its stray calls landed |
| SanctionsSync.DenylistAsAnswered | sanctions-oracle/src/sync.ts:643-803 | the same in terms of the provider's answers: every address given that is flagged, not in the snapshot and not below the minimum score (a missing score is not below) is then on the denylist, every one that is not flagged and in the snapshot is off it if the run reconciles, and all others are as they were |
| SanctionsSync.ListsAsAnswered | sanctions-oracle/src/sync.ts:643-664 | in the result of a run an address that was checked is under flagged, needsReview, cleared or clean exactly by its answer, the minimum score, the snapshot and whether the run reconciles |
| SanctionsSync.SameAsUninterrupted | sanctions-oracle/src/sync.ts:560-803 | that denylist is the one of a single uninterrupted run |
| SanctionsSync.ResultIsAPartition | sanctions-oracle/src/sync.ts:628-684 | the addresses split, with multiplicity, into skipped, unprocessed, flagged, needsReview, cleared, failed and clean; written is within flagged minus the snapshot and disjoint from removed |
| SanctionsSync.AbortAddsAtMostOne | sanctions-oracle/src/sync.ts:753-763 | when a run throws it has tried one write only, the first, which was reported as failed, and no removal; calls that landed late apart, the denylist is as it was when the run started or has gained that one address |
| SanctionsSync.FailedWriteLandsExample | sanctions-oracle/src/sync.ts:753-763 | and it may have: a run that throws with the address on the denylist |
| SanctionsSync.CleanRunExample | sanctions-oracle/src/sync.ts:560-803 | a run of one flagged address, step by step, to its clean end |
| SanctionsSync.OnlyWhatWasTried | sanctions-oracle/src/sync.ts:720-803 | at every moment, calls that landed late apart, what a run has added to the denylist is among the writes it reports as done or failed, and what it took off among the removals |
| SanctionsSync.DryRunsOnlyLook | sanctions-oracle/src/sync.ts:700-719 | dry runs, however many and however cut off, leave the denylist as it was |
| SanctionsSync.RunsEnd | sanctions-oracle/src/sync.ts:628-803 | a run has a next step of its own iff it does not hang, that is, unless it is windowed, past its deadline, with no call under way and addresses left; each step brings the end nearer, whatever the order of completions, and nothing from outside takes it further off |
| SanctionsSync.HungForEver | sanctions-oracle/src/sync.ts:448-460 | a run that hangs is at that point after anything that may happen, short of a restart |
| SanctionsSync.RunIsTrace | sanctions-oracle/src/sync.ts:628-684 | the checks of any run, with any failures, form a trace as `executeConcurrent` makes them: begun once each in list order, ended after they began, never more under way than the window |
| SanctionsSync.TraceIsRun | sanctions-oracle/src/sync.ts:628-684 | and every such trace, whatever the provider answers, is that of a run |
| SanctionsSync.CheckPending | sanctions-oracle/src/sync.ts:628-684 | the checking phase, driven by `ExecuteConcurrent`: it takes the run to where the checks are over, the addresses the deadline left still to do, and the run goes on, or it hangs, exactly as the executor does |
| SanctionsSync.WriteFlagged | sanctions-oracle/src/sync.ts:720-763 | the loop over the flagged addresses, with its `continue` and its rethrow, takes the machine through its writes to the removals or to an abort |
| SanctionsSync.RemoveCleared | sanctions-oracle/src/sync.ts:766-803 | the loop over the cleared addresses takes the machine through its removals |
| ResultCache.HoldsTheLatest | sanctions-oracle/src/sync.ts:61-95 | after any series of accesses the cache holds exactly the last `maxEntries` distinct addresses, in the order of last access, whatever expired |
| ResultCache.HoldsThatMany | sanctions-oracle/src/sync.ts:81-95 | the cache holds `maxEntries` addresses, or all there ever were if they are fewer, and it is the oldest that are missing |
| ResultCache.RecentOrder | sanctions-oracle/src/sync.ts:61-95 | the order meant is that of the last occurrence in the series |
| ResultCache.SmallerIsSuffix | sanctions-oracle/src/sync.ts:81-95 | a smaller cache holds the newest part of a larger one |
| ResultCache.ServedExactly | sanctions-oracle/src/sync.ts:61-76 | an access is served from the cache iff its address is among the latest and its last load is no older than the TTL, and then with that load's answer |
| ResultCache.EntriesAreLastLoads | sanctions-oracle/src/sync.ts:81-95 | an entry is always what the last load of its address brought |
| SingleFlight.ProviderResultCache.Get | sanctions-oracle/src/sync.ts:61-76 | the object's lookup is the history model's |
| SingleFlight.ProviderResultCache.Set | sanctions-oracle/src/sync.ts:81-95 | the object's store and its eviction loop are the history model's |
| SingleFlight.ProviderResultCache.GetOrLoad | sanctions-oracle/src/sync.ts:110-145 | a hit is served at once, a miss joins the running load of its address, and only without one starts a load |
| SingleFlight.ProviderResultCache.FinishLoad | sanctions-oracle/src/sync.ts:130-143 | every caller that joined gets this load's outcome, and no other caller settles or changes; an in-flight entry of another load stays, also after a clear |
| SingleFlight.ProviderResultCache.OneLoadPerAddress | sanctions-oracle/src/sync.ts:110-146 | of the loads begun since the last clear at most one per address is running |
| WriteQueue.PromiseChain.Load | sanctions-oracle/src/checkpoint.ts:138-141 | only the oldest unsettled call can read, and a failed one lets the next proceed |
| WriteQueue.PromiseChain.Store | sanctions-oracle/src/checkpoint.ts:141-146 | what is written back was read from the current value: the stored value is the calls that took effect, one at a time in call order |
| WriteQueue.PromiseChain.Overwrite | sanctions-oracle/src/checkpoint.ts:148-152 | the same for operations that do not read, a reset or an appended line |
| CheckpointStore.NoLostUpdates | sanctions-oracle/src/checkpoint.ts:128-153 | an address is stored iff it was at first, or a mark of it took effect, and no reset took effect since |
| CheckpointStore.ResolvedMarksAreStored | sanctions-oracle/src/checkpoint.ts:128-153 | of the store itself, at any moment of any interleaving: an address whose `markComplete` has resolved is stored unless a reset called later took effect |
| CheckpointStore.StoredWasMarked | sanctions-oracle/src/checkpoint.ts:128-153 | and a stored address was there at first or belongs to a `markComplete` call that took effect, with no reset since |
| AuditLog.FileIsTheWrittenLines | sanctions-oracle/src/auditLog.ts:24-42 | the file is its first content and then the written lines in call order |
| AuditLog.ResolvedLinesAreWritten | sanctions-oracle/src/auditLog.ts:24-42 | a line whose call has resolved is in the file, right behind the lines of the earlier calls that took effect |
| FifoSemaphore.HistoryHolds | shared/src/semaphore.ts:48-146 | over every run at most `limit` slots are held, none is free while someone waits, grants and then the queue are the uncancelled arrivals in order, and the held slots are those granted and not given back |
| FifoSemaphore.GoneByOwnWish | shared/src/semaphore.ts:76-139 | only who cancels leaves the queue without a slot, and only who holds a slot gives it back |
| SharedSemaphore.Semaphore.Acquire | shared/src/semaphore.ts:92-144 | a slot is taken at once iff fewer than `limit` are in use, and otherwise the caller goes to the end of the queue, as the abstract semaphore steps; an aborted signal changes nothing |
| SharedSemaphore.Semaphore.Drain | shared/src/semaphore.ts:65-74 | grants from the head of the queue while there are slots |
| SharedSemaphore.Semaphore.Release | shared/src/semaphore.ts:76-89 | frees the slot, or hands it to the longest waiting if there is one, as one abstract step; a second release does nothing |
| SharedSemaphore.Semaphore.Fail | shared/src/semaphore.ts:122-139 | a timeout or abort takes exactly that waiter out of the queue and never a slot; after a grant it does nothing |
| SharedSemaphore.DrainedAfterLeave | shared/src/semaphore.ts:65-89 | freeing a slot and draining is one hand-over |
| ProviderSlots.Slots.Acquire | sanctions-oracle/src/rateLimitedProvider.ts:237-246 | the slot counter takes the same abstract step |
| ProviderSlots.Slots.Release | sanctions-oracle/src/rateLimitedProvider.ts:249-257 | so does the hand-over that leaves the counter alone |
| CircuitBreaker.Breaker.GetState | sanctions-oracle/src/circuitBreakerProvider.ts:67-72 | the reported state is a function of the completed calls and the clock |
| CircuitBreaker.Breaker.BeginCheck | sanctions-oracle/src/circuitBreakerProvider.ts:89-95 | a call is let through iff the breaker is closed, or the cooldown is over and no probe is out, and is a probe in the second case only; it always is let through while the failures in a row are fewer than the threshold and none of them ended a probe |
| CircuitBreaker.Breaker.EndCheck | sanctions-oracle/src/circuitBreakerProvider.ts:96-111 | a completion, however late, is recorded in completion order; a success closes the breaker, a failure opens it iff it ends a probe or makes the run of failures as long as the threshold, and the probe flag holds iff a probe is running |
| CircuitBreaker.TrippedAtLatest | sanctions-oracle/src/circuitBreakerProvider.ts:101-107 | `openedAt` is the time of the latest trip that no success has followed |
| CircuitBreaker.NoCallBeforeCooldown | sanctions-oracle/src/circuitBreakerProvider.ts:89-95 | no call starts before the cooldown of any unrecovered trip has passed, nor while a probe is out |
| CircuitBreaker.ClosedExactly | sanctions-oracle/src/circuitBreakerProvider.ts:96-107 | for every history the breaker is closed iff the failures since the last success are fewer than the threshold and none of them ended a probe |
| CircuitBreaker.TripsExactly | sanctions-oracle/src/circuitBreakerProvider.ts:101-107 | a failure since the last success is a trip iff it ended a probe or was the threshold-th or a later one |
| CircuitBreaker.ClosedBelowThreshold | sanctions-oracle/src/circuitBreakerProvider.ts:101-107 | while closed, the failures in a row are fewer than the threshold |
| CircuitBreaker.TrailingRun | sanctions-oracle/src/circuitBreakerProvider.ts:96-107 | the failure counter is the length of the run of failures since the last success |
| RateLimiter.RateLimitStore.Consume | sep10-auth/src/rate-limiter.ts:61-91 | with a window and a limit of its own in every call: a request is refused iff `maxRequests` of the remembered ones are in the window, and exactly those and the request itself, if allowed, are remembered then; a refusal is right by the full history in any case, and as long as no shorter window has pruned the key the decision is that of the full history; after a refusal a retry finds a place from a definite moment on, which is `resetAt` if all calls for the key agree |
| RateLimiter.RateLimitStore.Sweep | sep10-auth/src/rate-limiter.ts:93-103 | a sweep at any moment keeps, of every key, exactly the requests in the window of the first call, and drops empty keys; a window no longer than that still finds all that counts |
| RateLimiter.FindsExactly | sep10-auth/src/rate-limiter.ts:70-103 | for any record of a key: calls with this window are sure to find every request that counts iff it is no longer than the windows on record, and otherwise a key with that record may have forgotten the one request that counts |
| RateLimiter.TermsKept | sep10-auth/src/rate-limiter.ts:61-103 | calls for a key that agree on window and limit, and sweeps with no shorter window, stay on record as agreeing |
| RateLimiter.SharedStoreRun | sep10-auth/src/rate-limiter.ts:61-103 | for every two windows a run of one store in which a limiter that allows one request lets two through within its window |
| RateLimiter.ResetIsRight | sep10-auth/src/rate-limiter.ts:77-83 | after a refusal, `resetAt` is the moment from which on a retry finds a place iff the remembered request `maxRequests` places from the end is as old as the oldest |
| RateLimiter.EarlyResetRun | sep10-auth/src/rate-limiter.ts:61-91 | a run with one window and two limits in which the retry at `resetAt` is refused |
| RateLimiter.BurstBound | sep10-auth/src/rate-limiter.ts:75-83 | no window of that length, wherever it begins, holds more than `maxRequests` allowed requests |
| RateLimiter.AllowedKeepsSpacing | sep10-auth/src/rate-limiter.ts:75-90 | allowed requests `maxRequests` places apart stay at least a window apart |
| RateLimiter.EarliestRetry | sep10-auth/src/rate-limiter.ts:77-83 | a full window is full until its oldest request leaves, and not then |
| RateLimiter.PruningIsInvisible | sep10-auth/src/rate-limiter.ts:93-103 | forgetting requests that have left the window changes no later decision |
| Revocation.VictimIsLeast | sep10-auth/src/revocation.ts:81-111 | the evicted entry is the oldest expired, else the oldest temporary, else the oldest permanent one |
| Revocation.VictimExactly | sep10-auth/src/revocation.ts:81-111 | the same in terms of the end dates: the first entry whose end has come, else the first that has an end, else the first |
| Revocation.RevocationStore.Revoke | sep10-auth/src/revocation.ts:71-113 | the new entry is last and the rest keeps its order; nothing else changes while the limit is kept, and otherwise exactly the victim goes, or everything if the limit is zero |
| Revocation.RevocationStore.Evict | sep10-auth/src/revocation.ts:75-112 | the three passes together evict that one entry |
| Revocation.RevocationStore.EvictExpired | sep10-auth/src/revocation.ts:81-92 | the first pass takes the oldest expired entry, or shows that there is none |
| Revocation.RevocationStore.EvictTemporary | sep10-auth/src/revocation.ts:94-104 | the second pass takes the oldest temporary entry, or shows that there is none |
| Revocation.RevocationStore.IsRevoked | sep10-auth/src/revocation.ts:59-69 | an address that is reported as revoked was last revoked without an end or with one still to come; without a limit this holds the other way round too, although expired entries were dropped |
| Revocation.VerdictIsLastCall | sep10-auth/src/revocation.ts:59-69 | the verdict of a call history is that of the last call for the address |
| Revocation.RevocationStore.Unrevoke | sep10-auth/src/revocation.ts:115-117 | lifts the standing revocation |
| Revocation.TracksBounded | sep10-auth/src/revocation.ts:71-113 | an eviction leaves only standing revocations, within the limit |
| Webhook.Sender.Send | horizon-listener/src/webhook.ts:185-197 | batches and buffer are the sends in order; a batch goes out exactly when `batchSize` events are together, at once if the batch size is at most one, and the timer is set iff something is buffered |
| Webhook.Sender.BatchSizes | horizon-listener/src/webhook.ts:185-214 | at every moment fewer than `batchSize` events are kept back, and every batch has at least one and at most `batchSize` |
| Webhook.Sender.Flush | horizon-listener/src/webhook.ts:203-214 | the buffered events become one batch; nothing happens when there are none |
| Webhook.Sender.EndDelivery | horizon-listener/src/webhook.ts:215-221 | the promises of exactly this batch's events settle, with its outcome, once |
| Webhook.EndOk | horizon-listener/src/webhook.ts:203-222 | batches occupy consecutive stretches of the sends, so settling one leaves all others alone |
| DeadLetter.LoadDump | horizon-listener/src/deadLetterQueue.ts:66-78 | a written queue is read back entry for entry |
| DeadLetter.FileDeadLetterQueue.Open | horizon-listener/src/deadLetterQueue.ts:66-78 | a queue begins with the entries of its file, and there is none iff a line that is not blank does not decode |
| DeadLetter.AppendDecodes | horizon-listener/src/deadLetterQueue.ts:84-88 | after an append the file decodes to what it did and the entry if only JSON's white space follows its last line feed, and otherwise to nothing at all |
| DeadLetter.LostLineFeedExample | horizon-listener/src/deadLetterQueue.ts:66-88 | a file without its last line feed is loaded, and cannot be once an entry is appended |
| DeadLetter.FileDeadLetterQueue.Enqueue | horizon-listener/src/deadLetterQueue.ts:84-88 | entry and line are appended; a file that decoded to the entries still does iff it ended cleanly, and cannot be loaded if it did not |
| DeadLetter.GrewSynced | horizon-listener/src/deadLetterQueue.ts:84-88 | after any number of appends it still does iff there were none or it ended cleanly before the first, and otherwise it cannot be loaded |
| DeadLetter.FileDeadLetterQueue.Remove | horizon-listener/src/deadLetterQueue.ts:90-94 | the first entry with the id leaves the list, whether or not the file can be rewritten; if it can, the file decodes to the rest, and if not, the removal throws |
| DeadLetter.FileDeadLetterQueue.Clear | horizon-listener/src/deadLetterQueue.ts:96-99 | an empty queue, and an empty file unless the write fails |
| DeadLetter.Replay | horizon-listener/src/deadLetterQueue.ts:131-148 | the oldest `limit` entries are sent once each, each send and each rewrite of the file ending as it may; unless it is a dry run the delivered ones are taken out of the queue, and those whose removal throws are counted twice |
| DeadLetter.LapsesNone | horizon-listener/src/deadLetterQueue.ts:138-146 | delivered and failed add up to the attempts iff no delivered entry's rewrite failed |
| DeadLetter.LastRewriteDecides | horizon-listener/src/deadLetterQueue.ts:101-107 | a file is rewritten whole, so if the last rewrite of a replay succeeds the file decodes to the queue, whatever failed before |
| DeadLetter.LapsedRewriteExample | horizon-listener/src/deadLetterQueue.ts:138-146 | one delivered entry whose rewrite fails counts as delivered and failed, and is back after a restart |
| DeadLetter.ReplayTakesOldest | horizon-listener/src/deadLetterQueue.ts:138-146 | for each id the entries that leave the queue are its oldest ones, as many as were delivered, and the others stay in order |
| DeadLetter.ReplayConserves | horizon-listener/src/deadLetterQueue.ts:138-146 | counted by id, what leaves the queue is what was delivered, even with duplicate ids |
| DeadLetter.ReplayLeavesTheRest | horizon-listener/src/deadLetterQueue.ts:138-146 | without a failed twin the undelivered entries remain, in order, before the untried ones |
| DeadLetter.FailuresRemainExactly | horizon-listener/src/deadLetterQueue.ts:127-146 | for every queue, equal records counted: failures remain queued iff for each id the records delivered are the oldest ones |
| DeadLetter.SafeToReplay | horizon-listener/src/deadLetterQueue.ts:127-146 | what a caller can check before the call: failures remain queued whatever the sends answer iff no two different records among the entries tried share an id |
| DeadLetter.TwinsDecide | horizon-listener/src/deadLetterQueue.ts:127-146 | if no two records are equal, failures remain queued iff no entry is redelivered after an older one with the same id failed |
| DeadLetter.FailedTwinExample | horizon-listener/src/deadLetterQueue.ts:127-146 | two records of one event for which they do not |
| Csv.ParseCsv | sanctions-oracle/src/csvProvider.ts:38-78 | the index loop computes `Parse` |
| Csv.ParseConcat | sanctions-oracle/src/csvProvider.ts:45-77 | two texts cut at a row boundary, not inside a CRLF and not before a mark, parse to the rows of the one and then of the other |
| Csv.RoundTripExact | sanctions-oracle/src/csvProvider.ts:38-78 | for every admissible quoting and mix of line ends the printed table is read back iff no CR runs into a bare LF and no unquoted mark leads |
| Csv.JoinedLineEndsExample | sanctions-oracle/src/csvProvider.ts:63-68 | a row ended by CR before a blank line ended by LF: two rows are printed, one is read |
| Csv.LostMarkExample | sanctions-oracle/src/csvProvider.ts:38-39 | a table whose only field is the byte order mark, unquoted, is read back empty |
| Csv.QuotedRoundTrip | sanctions-oracle/src/csvProvider.ts:38-78 | with every field quoted any table survives under any mix of LF, CRLF and CR |
| Csv.BareRoundTrip | sanctions-oracle/src/csvProvider.ts:38-78 | with minimal quoting any table survives under LF and CRLF |
| Csv.CanonicalForm | sanctions-oracle/src/csvProvider.ts:38-78 | whatever was read, well-formed or not, can be printed and read back unchanged |
| Csv.FormatExample | sanctions-oracle/src/csvProvider.ts:38-78 | one row of a file, character by character: a bare field, a comma in quotes, a doubled quote |
| Csv.OpenEndedRoundTrip | sanctions-oracle/src/csvProvider.ts:73-76 | a last row without a line end is kept iff it is not a single empty field |
| CsvProvider.CsvSanctionsProvider.LoadCsv | sanctions-oracle/src/csvProvider.ts:92-136 | after loading, each account maps to the sources of all rows that name it, each once, in order of first mention, and to nothing if none does |
| CsvProvider.CsvSanctionsProvider.CheckAddress | sanctions-oracle/src/csvProvider.ts:138-144 | an account is flagged iff some row below the header names it, in whatever form it is asked for; named by one row, it reports that row's second field without the white space around it, or the default source if that is blank |
| CsvProvider.SourcesIffListed | sanctions-oracle/src/csvProvider.ts:104-130 | an account has a source iff a row names it |
| CsvProvider.SourcesAreListed | sanctions-oracle/src/csvProvider.ts:104-130 | the sources of an account are those its rows bring, and no other |
| CsvProvider.JoinedSources | sanctions-oracle/src/csvProvider.ts:140 | several sources are joined by commas |
| CsvProvider.HeaderIsSkipped | sanctions-oracle/src/csvProvider.ts:103-104 | of a printed table all rows but the first are loaded |
| Registry.ProviderRegistry.Register | sanctions-oracle/src/ProviderRegistry.ts:98-108 | a taken name is refused, a new one goes last with the next index |
| Registry.ProviderRegistry.Unregister | sanctions-oracle/src/ProviderRegistry.ts:110-112 | exactly that provider goes and the order stays |
| Registry.WinnerLeads | sanctions-oracle/src/ProviderRegistry.ts:252-272 | the priority winner is a voter, least by priority and registration index |
| Registry.WinnerByNumbers | sanctions-oracle/src/ProviderRegistry.ts:252-272 | the winner's priority number is no larger than any voter's, it has none only if no voter has one, and among equals it is the one registered first |
| Registry.FlagsExactly | sanctions-oracle/src/ProviderRegistry.ts:171-272 | for every list of answers: no verdict iff nobody is registered or no vote counts; an address is flagged iff some flag counts, or there are more flags than clear answers, or as many and ties flag, or the flag is that of the provider that leads by priority and registration; a failure counts as a flag in the fail-closed mode only |
| Registry.ScoreExactly | sanctions-oracle/src/ProviderRegistry.ts:186-190 | the score of a verdict is the highest of the scores of the answers that agree with it, and there is none iff they have none |
| Registry.VotesAsAnswered | sanctions-oracle/src/ProviderRegistry.ts:153-184 | a provider that answered votes as it answered, and one that failed votes for a flag, in the fail-closed mode only, with its error for a source |
| Registry.BackersAgree | sanctions-oracle/src/ProviderRegistry.ts:215-250 | the sources named are those of the votes that agree with the verdict |
| Registry.WinnerIgnoresOrder | sanctions-oracle/src/ProviderRegistry.ts:262-270 | the winner does not depend on the order of the votes |
| Registry.PriorityMonotone | sanctions-oracle/src/ProviderRegistry.ts:252-272 | raising answers, errors among them, never clears a verdict of the priority policy |
| Registry.NeverUnflags | sanctions-oracle/src/ProviderRegistry.ts:171-272 | under all three policies, raising answers from clear or from an error to flagged, or counting errors as flags, never turns a flagged verdict clear |
| Registry.TopScoreIsHighest | sanctions-oracle/src/ProviderRegistry.ts:186-190 | the reported score is that of an agreeing vote and none is higher |
| LabelEscape.PassesAreOne | metrics/src/index.ts:29-31 | the three whole-string replacements are one character-wise map |
| LabelEscape.EscapesEachCharacter | metrics/src/index.ts:29-31 | a backslash, a line feed and a quote become a backslash and a backslash, an n and a quote, every other character stays, and a value is escaped character by character |
| LabelEscape.UnescapeInverts | metrics/src/index.ts:25-31 | a left-to-right unescape gets every value back |
| LabelEscape.EscapedIsContained | metrics/src/index.ts:25-31 | the escaped value has no raw line feed and no unescaped quote |

## Left out

- EventPump.HorizonListener.ProcessLanes: a handler's call is one moment; what two overlapping calls do to each other inside the handlers is theirs. An event is recorded, and given to the sink, at the moment of its last call.
- EventPump.HorizonListener.Run: a handler that never settles, which would hold up its page for ever. With a sink other than the queue, what the sink does with an event.
- EventPump.HorizonListener.TakePage: polls that fail say only that they fail; a missing start ledger, a timeout and an RPC error are not told apart.
- SyncIntake.Prepare: address normalisation and StrKey validation are parameters.
- SanctionsSync.StepSafe: runs are modelled on values, one action for each stretch between awaits, because a run may be cut off at any of them; the three loops are also given as methods that drive the machine. A call that failed, or that was under way at a cut-off, may take effect at any later moment, and more than once, and any later moment may bring back a set of marks made earlier while a recording is among those calls.
- SanctionsSync.ResumedRunCompletes: the inputs, the denylist snapshot among them, and the provider's answers are the same in every run; a store is given (without a checkpoint nothing is skipped or recorded).
- SanctionsSync.NeverWrong: the single-flight map around the provider is left out here, as no address is checked twice in a run; `SingleFlight.dfy` has it.
- ResultCache.HoldsTheLatest: accesses one at a time whose loads succeed; overlapping ones are in `SingleFlight.dfy`.
- WriteQueue.PromiseChain.Load: serialisation and a value that does not parse count as a failed read. `FileCheckpointStore` is declared twice with the same name; the Redis store stands for the queued one.
- SharedSemaphore.Semaphore.Acquire: positive integer limits; an infinite limit, fractional and rejected limits are not part of this model.
- RateLimiter.BurstBound: windows and limits that agree in all calls for a key; `SharedStoreRun` shows what happens when they do not.
- Revocation.RevocationStore.Revoke: address revocations only; those of single tokens are simpler, without a limit.
- DeadLetter.FileDeadLetterQueue.Enqueue: a failing append leaves file and entries as they were (the listener's model has such a failure as a sink that throws); an append that is cut short is not modelled. JSON is any codec that meets `CodecOk`; that a line decodes to something of the right shape is not checked, as in the program.
- DeadLetter.Replay: nothing else changes the queue during a replay.
- Webhook.Sender.Send: delivery itself, with its retries, signatures and HTTP, only succeeds or fails.
- Csv.ParseCsv: characters are code points, not UTF-16 units, so lone surrogates do not occur.
- Registry.NeverUnflags: how sources are written into one string.
- `HorizonListener.events()` and skipping a pruned range: they rest on names the code does not declare.
- `withRetry`, the rate-limited provider's retries and back-off delays: bounded loops around an outside call.
- Counters, gauges and histograms, the folding of too many series, logging and tracing.
- Everything that is Stellar SDK work, HTTP, routing, tokens, command-line parsing or user interface.
