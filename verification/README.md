# Restaurant platform: verified model

A Dafny model of the parts of the platform whose correctness hangs on ordering, retries and
data rewrites: the desktop till's offline sync engine, four database transformations, and four
small algorithms of the web client and its scripts. `dafny verify dfyconfig.toml` checks it all.

## What is modelled

**The push protocol** (`LocalStore`, `PendingOps`, `SyncProtocol`, `Idempotency`, `PerOperation`,
`DirectAttempts`, `TenantChange`, `SyncSafety`, `RunTasks`, `LateFailures`, `OfflinePayments`, `PushRun`,
`Draining`, `Paths`, `OfflineRequests`, `Answers`, `Histories`, `ShellRows`, `DesktopShell`).
The till's queue, its push runs, the requests on their way and the server's idempotency middleware
are one transition system. A run is a list of actions; each action is one atomic step of one party,
and its arguments are the environment's choices: which request is looked up next, which status a
route returns, whether a bookkeeping write fails, which answer is lost, when a process restarts.
Nothing limits the interleaving, so overlapping timer ticks are ordinary runs. `DesktopShell` holds
the TypeScript statement by statement, as methods on a class that stands for the SQLite file; each
method is proved against the function that the transition system uses. What those functions do is
then said without them: `OfflineRequests` relates a queued row to the request of the renderer,
`ShellRows` the cached rows and cursors to the answers they came from, `Answers` and `Histories`
what servers and push runs have said to the actions of a run.

The environment's contract: a 2xx answer of a route means that the operation was carried out
and any other answer that it was not; `randomUUID` never repeats (an offline request whose
draws are not fresh is no step); the token a request bears may resolve to any restaurant, or to
none. Before a request is queued the shell tries it directly; that attempt bears no key, and if it
was sent the server may carry it out at any time.

**At most once is not unconditional.** `src/app/idempotency/middleware.py:4-6` and
`src/app/idempotency/models.py:8-16` say that a replayed request is never applied again. The code
looks the key up, lets the route run and writes the key afterwards, so a second request with the
same key is let through while the first is still running, or when its write failed. The model
follows the code. `Idempotency.AtMostOnce` proves the promise for every run in which a request is
let through only while its key is neither in progress nor done without a record;
`Idempotency.AdmissionIsSafeIff` proves that this guard is exact; `Idempotency.AtMostOnceIfWhole`
proves the promise without any condition for a server that handles a request in one piece and
never fails to write, and `PerOperation.QueuedAtMostOnce` turns it from keys to operations, for a
queued operation whose own requests all resolve to one restaurant; `DirectAttempts.ResendDoublesIff`
says exactly which resends such a server recognizes, and `TenantChange.DoneForTwoIff` exactly when
an operation can still be carried out for two. `DirectAttempts.DoneTwiceIff` counts the
direct attempt as well and says exactly when a request can be carried out twice. The remaining
lemmas of these modules construct the runs in which that happens.

**The menu cache** (`MenuCache`, `MenuMisses`), **offline drafts** (`OfflineDrafts`) and the **print queue**
(`PrintQueue`, `PrintSettling`) are transition systems of their own, against an arbitrary server or
printer. Agreement of the menu cache is kept through a run if and only if every commit and every
arriving answer meets its guard (`MenuCache.CacheAgreesIff`), and the invariant asks for no more
than is needed (`MenuCache.AgreementIsExact`). A commit brings every entry with its own stamp, so it
stands for edits and for a change of token alike.

**Relational transformations.** `ForeignKeys` proves a general theorem about plans of DELETE and
SET NULL statements, and `PurgeOrders` applies it to the purge script. `OrderNumbers` and
`StaffIdentity` rest on `RowNumber`, the meaning of `ROW_NUMBER()`, and `Digits` reads decimal
numbers back. `CustomerStats` covers the statistics backfill, the refresh that follows a status
change, and the writes to orders that no refresh follows.

**Client algorithms.** `WhatsAppMarkup` (the token scanner), `OptimisticDeletes` (the review
dialog), `FloorSeed` (table reconciliation), `ListPager` (the clamped pager).

### Overlapping and serialized ticks

`desktop/src/main/scheduler.ts:11-15` starts a tick every interval, whether or not the one before
has ended, and print flushes have three independent starters.

| theorem | holds for |
|---|---|
| `SyncProtocol.InvHolds`, `SyncSafety.NoOperationIsLost`, `UnfinishedIsSentAgain`, `StatusesAreSound`, `KeysIdentifyOperations` | every run, overlapping or not |
| `OfflineRequests.RequestsCarryWhatWasQueued`, `EveryRequestStaysQueued`, `Answers.AnswersComeFromTheRoute`, `Histories.HistoriesTell`, `StatusesTell`, `SyncSafety.RestartResendsUnfinished` | every run, overlapping or not |
| `OfflinePayments.PaymentsMatchLedger`, `DiscardedPaymentStaysQueued` | every run, overlapping or not |
| `Idempotency.AtMostOnce` | every run, overlapping or not, that admits the key quietly |
| `Idempotency.AtMostOnceIfWhole` | every run, overlapping or not, of a server that handles a request in one piece |
| `DirectAttempts.ResendDoublesIff` | two sequential push runs against such a server, under whatever tokens |
| `Idempotency.LostAnswerDoubles`, `FailedBookkeepingDoubles` | counterexamples in which no two ticks overlap |
| `PerOperation.QueuedAtMostOnce`, `DirectAttempts.DoneTwiceIff` | every run, overlapping or not, of a server that handles a request in one piece, in which the requests for the operation in question resolve to one tenant |
| `TenantChange.DoneForTwoIff` | every point of every run of such a server, overlapping or not, under whatever tokens; the condition is exact |
| `LateFailures.SyncedIsStableIff` | every point of every run, overlapping or not; the condition is exact |
| `SyncSafety.SerialHolds`, `SyncedIsFinal` | serialized ticks; `LateFailureUndoesSynced` is an overlapping counterexample |
| `Draining.QueueCountsEnqueues` | every run, overlapping or not |
| `Draining.RunDrains` | serialized ticks, with any other steps in between |
| `PushRun.SettleAllSettles`, `CleanRunDrains`, `CleanRunConserves`, `PushSyncIsARun` | one push run that nothing interleaves with |
| `MenuCache.StepKeepsAgreementIff`, `CacheAgreesIff`, `AgreementIsExact`, `MenuMisses.SwitchIsSafeIff` | every run, overlapping or not, however entries are stamped; the conditions are exact |
| `MenuCache.ArrivalIsSafeIff`, `AppliedPullCoversSnapshot` | every run, overlapping or not, whose entries are stamped in the order of their commits; `MenuMisses.LateStampFoolsComparison` is a counterexample beyond that |
| `MenuCache.SerializedCacheAgreesIff`, `SerializedCacheAgrees` | serialized pulls and atomic write-throughs |
| `MenuMisses.MissedIsNeverPulled` | serialized pulls and atomic write-throughs; `OverlapBringsBack` is an overlapping counterexample |
| `MenuMisses.TokenChangeLosesMenu` | counterexample in which nothing overlaps |
| `MenuMisses.ThreePullsLoseAnEdit`, `SlowWriteThroughLosesAnEdit` | counterexamples that overlap |
| `MenuCache.NothingLeavesTheCache` | every run, overlapping or not |
| `OfflineDrafts.DraftsAreIsolated`, `DraftsCountedIff` | every run, overlapping or not |
| `PrintQueue.PrintedAtMostOnce`, `StartIsSafeIff`, `QueuedMidFlushStays` | every run, overlapping or not |
| `PrintSettling.SettledIsStableIff`, `FlushSettlesWhatItRead` | every run, overlapping or not; the former's condition is exact |
| `PrintSettling.SettledIsFinal` | flushes that do not overlap, with any other steps and restarts in between; `OverlapUnsettles` is an overlapping counterexample |
| `PrintSettling.FlushSettlesExactly` | the same, with no restart since the flush in question started |
| `PrintQueue.SerializedPrintsOnce` | flushes that do not overlap, and restarts only while no job is at the printer; `PrintSettling.RestartIsSafeIff` proves that guard exact, and `RestartReprints` is a counterexample without it |
| `PrintQueue.FlushSettlesPending`, `PrintSettling.FlushIsARun` | one flush that nothing interleaves with |

## Model

| member | source | states |
|---|---|---|
| DesktopShell.LocalDb.constructor | desktop/src/main/db.ts:7-67 | a new database: nothing queued, cached or owed, no cursor |
| DesktopShell.EnqueueOp | desktop/src/main/pendingOps.ts:22-39 | the operation is appended as pending with no attempts; nothing else changes |
| DesktopShell.MarkOpStatus | desktop/src/main/pendingOps.ts:70-79 | the status of the rows with that id is overwritten whatever it was |
| DesktopShell.SelectOpen | desktop/src/main/sync.ts:138-140 | the loop over the queue returns the open operations that `SendOrderIsExact` characterizes |
| DesktopShell.SetNetworkOnline | desktop/src/main/offlineStore.ts:179-192 | the connection flag and its last error are replaced, and the time of the state it is now in and no other |
| DesktopShell.SaveLocalOrder | desktop/src/main/offlineStore.ts:29-50 | an order is filed under its own positive id or else under a random one that is not positive, with the content and marks given; an update keeps the offline mark of the row, and no other row changes |
| DesktopShell.QueueOfflinePayment | desktop/src/main/offlineStore.ts:59-88 | a payment row and its ledger operation are added together, under one client payment id |
| DesktopShell.QueueLocalPrint | desktop/src/main/offlineStore.ts:90-106 | the job is appended as pending |
| DesktopShell.ResolveConflict | desktop/src/main/offlineStore.ts:216-230 | retry makes a conflict pending, discard makes it synced, and rows that are not in conflict stay |
| DesktopShell.HandleOfflineRequest | desktop/src/main/main.ts:120-166 | what one failed request other than GET adds to orders, payments, print jobs and queue |
| OfflineRequests.RequestIsQueued | desktop/src/main/main.ts:157-164 | the last row of the queue is the request as the renderer made it: its method, path and body, create exactly for a POST, the fourth segment of its path as entity or else "unknown"; for a payment the row before is its ledger entry, with the body's amount, tender and order id, "0" and "cash" when they are empty |
| OfflineRequests.PaymentIsStored | desktop/src/main/offlineStore.ts:59-88 | a payment is stored under its id as queued with the same values, and no other payment changes |
| OfflineRequests.DraftIsFiled | desktop/src/main/main.ts:124-130 | an order POST files an offline draft with the body's content, marked as created offline if the row is new; no other order changes |
| OfflineRequests.TicketsAreQueued | desktop/src/main/main.ts:131-154 | an order adds its kitchen ticket and a payment its receipt, each pending, and nothing else is printed |
| OfflineRequests.RequestsCarryWhatWasQueued | desktop/src/main/sync.ts:146-162 | in every run each request that a push sends carries the method, path and body of one offline request of the renderer, or the ledger entry of its payment, and its key names just that |
| OfflineRequests.EveryRequestStaysQueued | desktop/src/main/pendingOps.ts:22-39 | in every run each offline request is in the queue from then on, as it was made |
| Paths.IncludesIff | desktop/src/main/main.ts:125-139 | a path includes a text exactly if it can be cut into something before it, the text and something after it |
| Paths.EntityIff | desktop/src/main/main.ts:158-158 | the entity is the text between the third and the fourth slash, and "unknown" exactly when there is no third slash |
| DesktopShell.PushOne | desktop/src/main/sync.ts:146-186 | the rows with the operation's id become conflict for a 409, synced for 200 to 299 and failed for everything else, no other row changes, and only a 2xx settles a payment: the one that the ledger entry names |
| LocalStore.StatusAfterIff | desktop/src/main/sync.ts:162-185 | synced is for a 2xx, conflict for a 409, failed for a lost answer or any other status |
| DesktopShell.PushSync | desktop/src/main/sync.ts:132-144 | a push run sends the operations open at its start in queue order and settles each by its own outcome |
| DesktopShell.FinishPullMenu | desktop/src/main/sync.ts:43-87 | all rows are upserted and the cursor moves to the latest stamp seen; an error or a refusal changes neither |
| ShellRows.PulledDishes | desktop/src/main/sync.ts:66-87 | each pulled id holds the body and stamp of its last row in the answer, and every other id is as before |
| ShellRows.MenuCursorIsLatest | desktop/src/main/sync.ts:66-87 | the new cursor is the old one or the stamp of a row, and none of them is later |
| DesktopShell.WriteThroughMenu | desktop/src/main/main.ts:99-112 | dishes read by the renderer are upserted, one without a stamp as of now, and the cursor stays |
| ShellRows.ListedDishes | desktop/src/main/main.ts:99-112 | each listed id holds the body of its last row, with that row's stamp or else the time of arrival, and every other id is as before |
| DesktopShell.FinishPullOrders | desktop/src/main/sync.ts:89-130 | pulled orders are upserted under the server's ids and the orders cursor moves to the latest text seen |
| ShellRows.PulledOrders | desktop/src/main/sync.ts:110-128 | each pulled id holds the content and stamp of its last row in the answer, and its offline mark if it had one, else none; every other id is as before |
| ShellRows.OrdersCursorIsLatest | desktop/src/main/sync.ts:113-130 | the new cursor is the old one or the stamp of a row, and no row is stamped later; a stamp is the non-empty updated time, else the non-empty creation time, else now |
| DesktopShell.WriteThroughOrders | desktop/src/main/main.ts:113-117 | listed orders are saved one by one as copies, not as drafts |
| ShellRows.ListedOrders | desktop/src/main/main.ts:113-117 | each listed id holds the content of its last row as a copy stamped now, with its offline mark if it had one; every other id is as before |
| DesktopShell.FlushLocalPrintJobs | desktop/src/main/offlineStore.ts:149-177 | a flush hands over the jobs pending at its start, each gets its own outcome, and printed and failed add up to their number |
| PendingOps.ReadOrderIsSorted | desktop/src/main/pendingOps.ts:41-44 | the queue is read by creation time and then row id, every row exactly once |
| PendingOps.SendOrderIsExact | desktop/src/main/sync.ts:138-143 | a push run sends exactly the rows that are pending or failed, each once, in that order |
| PendingOps.SendOrderIsFifo | desktop/src/main/pendingOps.ts:41-44 | while the clock does not run backwards this is the order of enqueueing |
| IsoTime.TextOrderIsTimeOrder | desktop/src/main/pendingOps.ts:36-43 | comparing two ISO timestamps as text is comparing them as times |
| IsoTime.StampOrderIsTimeOrder | src/app/menu/schemas.py:80 | so is comparing two stamps of the server as text, although their fraction is left out when it is zero |
| IsoTime.TextShape | desktop/src/main/pendingOps.ts:36-36 | the text of an instant is its fields, most significant first, each in as many decimal digits as the standard format has and followed by its mark |
| IsoTime.QueueIsFifo | desktop/src/main/pendingOps.ts:22-44 | operations stamped by such a clock are sent first in, first out |
| SyncProtocol.HandleOfflineOps | desktop/src/main/main.ts:139-164 | the offline branch appends the request, and a ledger entry before it when it is a payment |
| SyncProtocol.StepKeepsInv | desktop/src/main/sync.ts:132-186 | every step of every party keeps the protocol's invariant |
| SyncProtocol.InvHolds | desktop/src/main/scheduler.ts:11-15 | the invariant holds in every run: unique ids, runs and requests carry rows of the table, statuses and recorded successes tell the truth |
| Idempotency.StepExposure | src/app/idempotency/middleware.py:72-88 | only letting a request through raises the number of times its key can still be carried out |
| Idempotency.AtMostOnce | src/app/idempotency/middleware.py:56-132 | a key that is let through quietly is carried out at most once, whatever overlaps, gets lost or restarts |
| Idempotency.ExposureIsExact | src/app/idempotency/middleware.py:56-132 | a state can end in a double application if and only if done and in-progress requests of the key add up to two |
| Idempotency.AdmissionIsSafeIff | src/app/idempotency/middleware.py:72-88 | letting a request through is safe exactly when its key is neither in progress nor done |
| Idempotency.WholeIsARun | src/app/idempotency/middleware.py:56-132 | handling a request in one piece is three steps of the protocol |
| Idempotency.SettledHolds | src/app/idempotency/models.py:8-16 | between whole steps nothing is half done and what is done is recorded |
| Idempotency.AtMostOnceIfWhole | alembic/versions/852192d4f5ec_idempotency_keys.py:38-43 | with such a server every key is carried out at most once in every run |
| Idempotency.LostAnswerDoubles | src/app/idempotency/middleware.py:72-115 | a run from the empty state: a resend arrives while the first request is still running, and the key is carried out twice |
| Idempotency.FailedBookkeepingDoubles | src/app/idempotency/middleware.py:116-130 | a run from the empty state: a success whose record was not written is carried out again |
| PerOperation.QueuedAtMostOnce | src/app/idempotency/middleware.py:1-6 | with such a server an operation of the queue whose own requests resolve to one tenant is carried out at most once, however often it is sent and whatever the other requests bear |
| DirectAttempts.DoneTwiceIff | desktop/src/main/main.ts:87-164 | a request can be carried out twice if and only if its direct attempt was carried out or is on its way, and its queued copy was carried out or can still be sent |
| DirectAttempts.CarryOut | desktop/src/main/sync.ts:132-186 | an operation that is not synced, or is held by a run, or is on its way can still be carried out |
| DirectAttempts.ClosedRun | desktop/src/main/sync.ts:132-186 | one of which none of that holds is never sent again |
| DirectAttempts.DirectAttemptDoubles | desktop/src/main/main.ts:87-95 | so every request of whatever kind that is tried, fails and is queued can be carried out twice |
| DirectAttempts.PaymentIsPostedTwice | desktop/src/main/main.ts:139-164 | one push run in which nothing goes wrong carries out both operations of an offline payment, under different keys |
| DirectAttempts.TwoTenantsDouble | desktop/src/main/main.ts:78-80 | after a change of token a resent operation is carried out for a second restaurant |
| DirectAttempts.ResendDoublesIff | src/app/idempotency/middleware.py:56-90 | after a lost answer a resend is carried out again unless the method is POST, PATCH, PUT or DELETE and both tokens resolve to the same restaurant |
| TenantChange.DoneForTwoIff | desktop/src/main/main.ts:78-80 | from any point of any run an operation can be carried out for two restaurants if and only if it can be sent again, or requests for it under two restaurants were carried out or are on their way |
| SyncSafety.NoOperationIsLost | desktop/src/main/pendingOps.ts:22-39 | rows are never deleted, and key, method, path, payload and order never change, between any two points of any run |
| SyncSafety.UnfinishedIsSentAgain | desktop/src/main/sync.ts:138-143 | an operation with no 2xx, 409 or discard is selected by the next push run |
| SyncSafety.RestartResendsUnfinished | desktop/src/main/sync.ts:132-143 | a restart forgets the push runs but no operation: the next run has every such operation among its tasks |
| SyncSafety.StatusesAreSound | desktop/src/main/sync.ts:162-185 | synced means a 2xx or a discard, conflict means a 409, failed means a lost answer or any other status, an accepted operation was carried out, attempts stay zero |
| Histories.HistoriesTell | desktop/src/main/sync.ts:146-186 | the histories of a run hold exactly what its actions did: which operations got a 2xx, a 409 or neither, were discarded while in conflict, were tried directly, were carried out directly |
| Histories.StatusesTell | desktop/src/main/sync.ts:162-185 | so in every run each status is explained by an action of the run, and an operation with no 2xx, 409 or discard is selected by the next push |
| Answers.AnswersComeFromTheRoute | src/app/idempotency/middleware.py:72-131 | in every run each answer has the status that the route gave to a request with the same key: a replay repeats what was said first |
| SyncSafety.KeysIdentifyOperations | desktop/src/main/sync.ts:154-162 | two requests bear the same key exactly when they are for the same operation and tenant |
| SyncSafety.SerialHolds | desktop/src/main/scheduler.ts:11-15 | with serialized ticks at most one run is active and its tasks are different open operations |
| SyncSafety.SyncedIsFinal | desktop/src/main/pendingOps.ts:70-79 | with serialized ticks an operation that is synced stays synced in every continuation |
| SyncSafety.LateFailureUndoesSynced | desktop/src/main/pendingOps.ts:70-79 | a run from the empty state in which two overlapping push runs turn an accepted operation back into a failed one |
| RunTasks.TasksAfterStep | desktop/src/main/sync.ts:141-143 | a run loses its awaited task exactly when it settles it, and no task otherwise |
| LateFailures.StepKeepsExclusive | desktop/src/main/sync.ts:162-185 | no step but the start of a run makes a task shared or settled |
| LateFailures.SyncedIsStableIff | desktop/src/main/pendingOps.ts:70-79 | whatever the runs under way do next, no synced row is turned back, if and only if every task is pending or failed in the table and what two runs share can only fail for either |
| OfflinePayments.PaymentsMatchLedger | desktop/src/main/offlineStore.ts:59-88 | in every run payments and ledger operations correspond one to one, and a payment is synced exactly when its own ledger operation was accepted |
| OfflinePayments.DiscardedPaymentStaysQueued | desktop/src/main/offlineStore.ts:216-230 | a ledger operation can be synced by a discard alone, and its payment then stays queued |
| PushRun.SettleAllSettles | desktop/src/main/sync.ts:141-143 | after a run each sent operation has the status of its own outcome and every other one is as before |
| PushRun.CleanRunDrains | desktop/src/main/sync.ts:132-186 | with nothing in between, a run of 2xx answers leaves no operation pending or failed and touches no other |
| Draining.QueueCountsEnqueues | desktop/src/main/pendingOps.ts:22-39 | in every run the counts of the four statuses sum to the number of operations enqueued: one for a failed request, two for a payment |
| Draining.RunDrains | desktop/src/main/sync.ts:132-144 | with serialized ticks, once a push run that got only 2xx answers has ended, each operation that was open at its start is synced, whatever was enqueued or resolved meanwhile |
| PushRun.CleanRunConserves | desktop/src/main/sync.ts:132-186 | with nothing in between, a clean run moves exactly the open operations to synced |
| PushRun.PushSyncIsARun | desktop/src/main/sync.ts:132-186 | the method's effect is reached by a run of the protocol, so the theorems on runs cover the code |
| MenuCache.AgreementIsExact | desktop/src/main/sync.ts:43-87 | cache and pulls agree with the server if and only if the cache is right and no single pull under way can make it wrong |
| MenuCache.StepKeepsAgreementIff | desktop/src/main/sync.ts:43-87 | each step keeps that agreement if and only if it meets its guard |
| MenuCache.CommitKeepsCoverageIff | src/app/menu/service.py:304-310 | a commit leaves a cursor's claim true if and only if each changed dish is stamped beyond the cursor or cached in that version |
| MenuCache.CacheAgreesIff | desktop/src/main/sync.ts:43-87 | in every run, whatever overlaps and however entries are stamped, agreement holds after each step if and only if each step met its guard |
| MenuCache.ArrivalIsSafeIff | desktop/src/main/sync.ts:66-87 | in every run whose edits are stamped in commit order, an answer keeps the agreement if and only if none of its rows within a cursor in use is older than the row it overwrites, the comparison that the upsert omits; otherwise some continuation loses it |
| MenuCache.AppliedPullCoversSnapshot | desktop/src/main/sync.ts:43-87 | in every such run, applying a pull makes the cache right for everything changed up to its snapshot |
| MenuCache.SnapshotsHold | src/app/menu/service.py:284-312 | in every such run each answer on its way is what the server held at some moment |
| MenuCache.SerializedCacheAgreesIff | desktop/src/main/sync.ts:43-87 | with serialized pulls and atomic write-throughs agreement holds throughout if and only if every changed dish is beyond the cursors in use or known when it is committed |
| MenuCache.SerializedCacheAgrees | desktop/src/main/sync.ts:43-87 | so it holds when edits are stamped in order, and the cursor never goes back |
| MenuCache.NothingLeavesTheCache | src/app/menu/service.py:284-312 | what the server archives or deletes stays in the cache in every run |
| MenuMisses.MissedIsNeverPulled | desktop/src/main/sync.ts:43-87 | with serialized pulls a dish that the cursor has passed unseen is brought by no later pull, until it is edited again or the renderer lists it |
| MenuMisses.OverlapBringsBack | desktop/src/main/scheduler.ts:11-15 | pulls that overlap can move the cursor back and bring a missed dish after all |
| MenuMisses.SwitchIsSafeIff | desktop/src/main/main.ts:78-80 | a change of token keeps the agreement if and only if each dish of the new list is stamped beyond the cursors in use or cached as it is |
| MenuMisses.TokenChangeLosesMenu | desktop/src/main/main.ts:78-80 | a serialized run: after a change of token a dish of the second restaurant, last changed before the cursor, stays missing however many pulls follow |
| MenuMisses.LateStampFoolsComparison | desktop/src/main/sync.ts:66-87 | when an edit is stamped earlier than the version it replaces, an answer can pass the comparison of stamps and still lose it |
| MenuMisses.ThreePullsLoseAnEdit | desktop/src/main/scheduler.ts:11-15 | three interleaved pulls leave an old version under a cursor that claims the new one |
| MenuMisses.SlowWriteThroughLosesAnEdit | desktop/src/main/main.ts:99-112 | so does a renderer's answer that reaches the cache after a newer pull |
| OfflineDrafts.DraftsAreIsolated | desktop/src/main/offlineStore.ts:29-50 | rows under local ids are what the offline creates filed there would leave alone, and rows under server ids what all other actions would leave alone |
| OfflineDrafts.DraftsCountedIff | desktop/src/main/offlineStore.ts:34-37 | there are as many drafts as offline creates exactly when no body brings a server id and the random local ids differ |
| OfflineDrafts.CreateSparesCopiesIff | desktop/src/main/offlineStore.ts:34-50 | an offline create leaves the server's copies alone exactly when it brings no server id, or the same draft with the same time is filed under that id already |
| PrintQueue.StepExposure | desktop/src/main/offlineStore.ts:149-177 | only starting a flush raises how often jobs can reach the printer, by the jobs pending then |
| PrintQueue.PrintedAtMostOnce | desktop/src/main/offlineStore.ts:149-177 | if no flush starts over a job that another one has read, every job is handed over at most once |
| PrintQueue.StartIsSafeIff | desktop/src/main/main.ts:71-76 | starting a flush can print a job twice if and only if a pending job is with another flush or was handed over |
| PrintQueue.SerializedPrintsOnce | desktop/src/main/offlineStore.ts:149-177 | flushes that do not overlap hand each job over at most once, and each settled job exactly once, when restarts find no job at the printer |
| PrintQueue.QueuedMidFlushStays | desktop/src/main/offlineStore.ts:90-106 | a job queued while flushes are under way stays pending until another flush starts |
| PrintQueue.FlushSettlesPending | desktop/src/main/offlineStore.ts:149-177 | with nothing in between, a flush settles exactly the jobs pending at its start, each by its own outcome |
| PrintSettling.SettledIsStableIff | desktop/src/main/offlineStore.ts:162-174 | whatever the flushes under way do next, no settled job changes its status, if and only if no two of them hold the same job and none holds a settled one |
| PrintSettling.OverlapUnsettles | desktop/src/main/offlineStore.ts:162-174 | two flushes over one job, the second failing: from the empty queue, a job that was printed ends as failed |
| PrintSettling.SettledIsFinal | desktop/src/main/offlineStore.ts:162-174 | with serialized flushes a status moves only out of pending, through restarts as well |
| PrintSettling.FlushSettlesWhatItRead | desktop/src/main/offlineStore.ts:149-177 | in every run, once a flush has ended each job that was pending at its start is settled |
| PrintSettling.FlushSettlesExactly | desktop/src/main/offlineStore.ts:149-177 | with serialized flushes and any other steps in between, an ended flush has settled exactly the jobs pending at its start, and those queued meanwhile are still pending |
| PrintSettling.RestartIsSafeIff | desktop/src/main/main.ts:70-76 | from any point of such a run, the flush after a restart can print a job again if and only if a job was at the printer |
| PrintSettling.RestartReprints | desktop/src/main/offlineStore.ts:162-174 | a restart during a print: one job, no overlap, and it is handed over twice |
| PrintSettling.FlushIsARun | desktop/src/main/offlineStore.ts:149-177 | the method's effect is reached by a run, so the theorems on runs cover the code |
| ForeignKeys.ChildFirstPreservesIntegrity | scripts/purge_orders.py:1-24 | a plan that deals with every referring column first keeps every key satisfied after each of its statements |
| ForeignKeys.DischargedStays | scripts/purge_orders.py:96-129 | a reference that one statement has removed does not come back |
| ForeignKeys.Survivors | scripts/purge_orders.py:96-136 | which rows and columns a plan leaves, said of the database before it |
| PurgeOrders.Session.Execute | scripts/purge_orders.py:99-101 | a statement that would leave a dangling key is refused and the transaction rolled back |
| PurgeOrders.RunBlock | scripts/purge_orders.py:99-129 | each of the script's loops advances through its part of the plan with the keys satisfied, or everything is undone |
| PurgeOrders.Purge | scripts/purge_orders.py:78-151 | the script either runs its whole plan and frees the tables, or leaves the database as it was; it succeeds exactly when the plan is executable, and then leaves of every table what `PurgeLeaves` says |
| PurgeOrders.PurgeIsChildFirst | scripts/purge_orders.py:25-62 | the table lists are in child-first order for every declared key, unless a coupon redemption is in the way |
| PurgeOrders.ListsAreComplete | scripts/purge_orders.py:25-62 | the script's lists are exactly the keys that the migrations declare into orders and into payment transactions |
| PurgeOrders.RedemptionBlocks | alembic/versions/f1a2b3c4d5e6_wallet_tickets_coupons.py:132-132 | a redemption of a purged order's coupon makes the purge fail |
| PurgeOrders.PurgeSucceedsIff | scripts/purge_orders.py:96-136 | the purge goes through if and only if there is no such redemption |
| PurgeOrders.PurgeLeaves | scripts/purge_orders.py:96-136 | of the database after a successful purge, table by table: a row is gone exactly when it belongs to a purged order, a survivor has lost exactly its soft pointers to purged orders, a dining table of the restaurant has status 0, and nothing else differs |
| PurgeOrders.OnlyStatusChanges | scripts/purge_orders.py:139-145 | the dining tables have the same ids as before, those of the restaurant differ in status alone, and all others not at all |
| PurgeOrders.PurgeOutcome | scripts/purge_orders.py:96-151 | afterwards the keys hold, the orders left are those of the other restaurants, nothing points at a purged one and the restaurant's tables are free |
| RowNumber.NumberIsMonotone | alembic/versions/o8h9i0j1k2l3_orders_unique_order_number.py:29-32 | row numbers follow the order within a partition |
| RowNumber.NumberIsOnto | alembic/versions/o8h9i0j1k2l3_orders_unique_order_number.py:29-32 | every number from 1 to the partition's size is given out |
| RowNumber.NumberCountsEarlier | alembic/versions/o8h9i0j1k2l3_orders_unique_order_number.py:29-32 | a row's number is one more than the number of rows before it, by time and then id |
| OrderNumbers.SuffixIsInjective | alembic/versions/o8h9i0j1k2l3_orders_unique_order_number.py:36-36 | number and rank can be read back from a suffixed number |
| OrderNumbers.SuffixIsRank | alembic/versions/o8h9i0j1k2l3_orders_unique_order_number.py:25-39 | what follows the old number of a renamed order is "-DUP" and a text that reads as its rank |
| OrderNumbers.DecimalReads | alembic/versions/o8h9i0j1k2l3_orders_unique_order_number.py:36-36 | the digits of a rank, read in base ten, give the rank back |
| OrderNumbers.ConstraintHoldsIff | alembic/versions/o8h9i0j1k2l3_orders_unique_order_number.py:25-43 | the unique constraint holds after the update exactly when no order already bore a number that the update hands out |
| OrderNumbers.MigrationSucceedsIff | alembic/versions/o8h9i0j1k2l3_orders_unique_order_number.py:25-43 | with the column's 32 characters the migration goes through exactly when in addition no repeated number is too long for the suffix of its last copy |
| OrderNumbers.NothingLost | alembic/versions/o8h9i0j1k2l3_orders_unique_order_number.py:22-39 | no row is lost, only numbers are extended, and exactly the earliest order of each number keeps it |
| OrderNumbers.TakenExample | alembic/versions/o8h9i0j1k2l3_orders_unique_order_number.py:41-43 | three orders on which the migration fails |
| StaffIdentity.StaffCodesAreABijection | alembic/versions/a8b9c0d1e2f3_branch_scoped_staff_login.py:69-84 | within a restaurant the codes are exactly 1..N, each held once, in hire order |
| StaffIdentity.DrawCode | alembic/versions/a8b9c0d1e2f3_branch_scoped_staff_login.py:45-47 | the rejection loop ends with an unused code of eight letters of the alphabet |
| StaffIdentity.CodeIsReadable | alembic/versions/a8b9c0d1e2f3_branch_scoped_staff_login.py:26-28 | a store code is eight capital letters and digits, and I, O, 0 and 1 are not among them |
| StaffIdentity.BackfillStoreIdentity | alembic/versions/a8b9c0d1e2f3_branch_scoped_staff_login.py:32-54 | every restaurant gets a code of its own, on any random tape that keeps reaching unused codes |
| CustomerStats.GroupedDescribes | alembic/versions/a1b2c3d4e5f6_backfill_customer_order_stats.py:37-44 | each group holds its customer's placed count, delivered sum and first and last placed time, and only customers with an order have one |
| CustomerStats.BackfillIsExact | alembic/versions/a1b2c3d4e5f6_backfill_customer_order_stats.py:30-48 | customers with an order get exactly those values, all others keep theirs |
| CustomerStats.BackfillSyncsIff | alembic/versions/a1b2c3d4e5f6_backfill_customer_order_stats.py:1-12 | every customer is right afterwards if and only if those without an order had their creation defaults |
| CustomerStats.BackfillTwice | alembic/versions/a1b2c3d4e5f6_backfill_customer_order_stats.py:30-48 | a second backfill changes nothing |
| CustomerStats.RecomputeDescribes | src/app/ordering/service.py:549-570 | the refresh makes one customer right and changes no other |
| CustomerStats.BackfillIsRecompute | src/app/ordering/service.py:411-445 | the migration and the refresh compute the same values |
| CustomerStats.StepKeepsRightIff | src/app/ordering/service.py:549-557 | each write to orders leaves a customer's columns right if and only if it meets its guard: an unrefreshed insert or removal is a draft, an unrefreshed total is not of a delivered order, an unrefreshed status keeps its standing |
| CustomerStats.TransitionRepairs | src/app/ordering/fsm.py:164-168 | a refreshed status change makes its customer right, whatever was wrong before |
| CustomerStats.AggregatorOrderDesyncs | src/app/aggregators/service.py:155-170 | an aggregator's confirmed order makes the columns wrong until a transition of the customer's |
| CustomerStats.RightThroughoutIff | src/app/ordering/service.py:549-557 | a customer is right after every step of a run if and only if every step meets its guard |
| CustomerStats.RightSinceTransition | src/app/ordering/fsm.py:164-168 | from a transition on it is right as long as the writes after it meet theirs |
| CustomerStats.StatsStayInSync | alembic/versions/a1b2c3d4e5f6_backfill_customer_order_stats.py:5-10 | after the backfill, in every run of inserts, edits, status changes and removals, a customer stays right if and only if each unrefreshed write meets its guard |
| WhatsAppMarkup.Regex.Exec | frontend/src/components/MessageBubble.tsx:7-7 | one call finds the leftmost match from the stored index and moves the index past it, or back to 0 |
| WhatsAppMarkup.TokenEndIff | frontend/src/components/MessageBubble.tsx:7-7 | what matches at a position is exactly a star, underscore or tilde, a run that is not empty and holds neither the mark nor a newline, and the mark again |
| WhatsAppMarkup.Emit | frontend/src/components/MessageBubble.tsx:21-27 | one turn of the loop appends the plain text before the match and the styled piece |
| WhatsAppMarkup.FormatWhatsApp | frontend/src/components/MessageBubble.tsx:16-30 | the token loop computes the leftmost parse and leaves the shared expression at index 0 |
| WhatsAppMarkup.NextTokenIsLeftmost | frontend/src/components/MessageBubble.tsx:20-20 | what is found is such a token, and none starts before it; when nothing is found there is none |
| WhatsAppMarkup.ParseIsUnique | frontend/src/components/MessageBubble.tsx:20-29 | there is only one way to cut the text into tokens and pieces of plain text between them, with no token in plain text |
| WhatsAppMarkup.ParseCharacterized | frontend/src/components/MessageBubble.tsx:20-29 | a list of pieces is the scanner's result if and only if it is that cut |
| WhatsAppMarkup.FormatRoundTrip | frontend/src/components/MessageBubble.tsx:16-30 | putting the delimiters back gives the text, and styled pieces are non-empty and free of delimiter and newline |
| OptimisticDeletes.Dialog.constructor | frontend/src/components/MenuReviewDialog.tsx:29-30 | the dialog opens on the menu's dishes with the first one selected |
| OptimisticDeletes.Dialog.OnRemove | frontend/src/components/MenuReviewDialog.tsx:68-77 | a click takes the row out and captures it, unless it is unknown or already being deleted |
| OptimisticDeletes.Dialog.Resume | frontend/src/components/MenuReviewDialog.tsx:78-92 | the end of a request unlocks the id, and a failure puts the captured row back |
| OptimisticDeletes.Dialog.ApplyLocal | frontend/src/components/MenuReviewDialog.tsx:64-66 | a saved dish replaces the shown row with its id |
| OptimisticDeletes.IdsArePartitioned | frontend/src/components/MenuReviewDialog.tsx:64-92 | in every interleaving the shown, in-flight and deleted ids together are the original ids, each once, and the selection is shown or empty |
| OptimisticDeletes.ClickTakesOut | frontend/src/components/MenuReviewDialog.tsx:68-77 | a click leaves every other dish where it was, and the clicked one is shown no more |
| OptimisticDeletes.SelectionMoves | frontend/src/components/MenuReviewDialog.tsx:74-76 | the selection stays unless the clicked dish was selected, and is then the first one left, if any |
| OptimisticDeletes.SettledList | frontend/src/components/MenuReviewDialog.tsx:64-92 | once all requests have ended the list is the original without exactly the successful deletes |
| OptimisticDeletes.RollbackAppends | frontend/src/components/MenuReviewDialog.tsx:82-83 | a rollback always appends: the row can never be there already |
| OptimisticDeletes.VersionsSurviveIff | frontend/src/components/MenuReviewDialog.tsx:64-92 | in every run every dish is shown or kept in the version saved last, at each point, if and only if no save changes a dish that is being deleted |
| OptimisticDeletes.SaveIsKeptIff | frontend/src/components/MenuReviewDialog.tsx:64-66 | a save is kept exactly when the dish is not being deleted or the captured version is the same |
| OptimisticDeletes.RollbackLosesEdit | frontend/src/components/MenuReviewDialog.tsx:81-84 | a save during a delete that fails is undone |
| FloorSeed.Tables.Reconcile | scripts/seed_demo_tables.py:86-120 | the loop over rows, dictionary and spare list has the rows and counters of the specification |
| FloorSeed.HomesDiffer | scripts/seed_demo_tables.py:86-99 | no row serves two targets, so each spare row is used at most once |
| FloorSeed.SpareIff | scripts/seed_demo_tables.py:88-91 | a row is spare exactly if no target bears its label |
| FloorSeed.SeedReachesLayout | scripts/seed_demo_tables.py:86-120 | every target label ends up in its place; as many rows are created as labels that no row bears outnumber the rows that no target names, the rest are reused; none is deleted, and a row that serves no target stays as it was |
| FloorSeed.LabelsStayDistinct | scripts/seed_demo_tables.py:86-120 | distinct labels stay distinct |
| FloorSeed.SecondRunChangesNothing | scripts/seed_demo_tables.py:83-85 | a second run relabels, creates and changes nothing |
| FloorSeed.TargetIsLiveIff | scripts/seed_demo_tables.py:73-81 | a target is on the live floor exactly when the row that serves it was not archived or another row stood there already |
| FloorSeed.ArchivedSpareStaysHidden | scripts/seed_demo_tables.py:93-99 | one archived spare row takes a target's place and stays hidden |
| ListPager.PageIsInRange | frontend/src/components/ListPager.tsx:32-46 | for any held page the page shown exists, shows exactly positions first to last, and is empty only with the list |
| ListPager.PagesAreTheList | frontend/src/components/ListPager.tsx:32-46 | the pages one after the other are the list |

## Where the code and its documentation differ

- `src/app/idempotency/middleware.py:4-6` and `src/app/idempotency/models.py:8-16` promise that a
  replay is never applied again; see "At most once is not unconditional" above.
- `scripts/purge_orders.py` presents its lists as complete; the migrations also declare a key from
  `coupon_redemptions` to `coupons`, and `PurgeOrders.PurgeSucceedsIff` is the exact consequence.
- `alembic/versions/o8h9i0j1k2l3_orders_unique_order_number.py:22-24` disambiguates before the
  constraint is added; `OrderNumbers.ConstraintHoldsIff` says when that is enough.
- `scripts/seed_demo_tables.py:1-2` seeds a floor with live data; the script reads archived rows as
  well and never clears the mark, and `FloorSeed.TargetIsLiveIff` is the exact consequence.
- `src/app/ordering/service.py:552-556` and the migration say that the statistics are kept in step.
  Placed orders are inserted without a refresh by `src/app/aggregators/service.py:155-170`,
  `src/app/ordering/resale.py:137-150`, `src/app/ordering/service.py:1510-1528` and
  `src/app/tickets/service.py:272-290`, and `src/app/payments/service.py:502-541` changes totals in any
  status; `CustomerStats.StepKeepsRightIff` is the exact consequence.
- `desktop/src/main/offlineStore.ts:29-50` files an offline order that brings a positive id among the
  server's copies; `OfflineDrafts.CreateSparesCopiesIff` is the exact consequence.

## Left out

- The synchronous print flush, which counts before its promises settle; the shell uses the asynchronous one.
- The printer's own failover, the remote print poller, the auto-updater, the token store and the Electron windows: input and output.
- The GET fallbacks that read the caches when offline: plain reads without a rule of their own.
- A crash between two statements of the offline branch: each handler call is one step of the protocol.
- A route that carries an operation out and then answers with an error, and a primary-key collision of generated ids: excluded by the environment's contract.
- A query string in an operation's path: the server's key would hold the path without it; operation ids alone already separate the keys.
- Completeness of the pulled orders: the server returns at most a hundred, so only the upserts and the cursor are modelled.
- SwitchIsSafeIff: a pull or GET under way bears the token it was started with; here it is answered from the list of the moment.
- SerializedCacheAgrees: assumes stamps in commit order; `SerializedCacheAgreesIff` is the statement without that.
- AtMostOnce: holds for keys admitted quietly, which the middleware does not ensure; `AdmissionIsSafeIff` shows that nothing weaker would do.
- AtMostOnceIfWhole: is about keys, which hold the restaurant; `QueuedAtMostOnce` is about operations.
- PushSync: nothing happens between its awaited requests; `RunDrains` and the theorems on runs cover what may.
- SettleAllSettles: the same; what is settled while other steps go on is `RunDrains`.
- CleanRunDrains: the same.
- CleanRunConserves: the same, and `QueueCountsEnqueues` is the count over whole runs.
- FlushLocalPrintJobs: nothing happens between its awaited prints; `FlushSettlesExactly` covers what may.
- FlushSettlesPending: the same.
- HandleOfflineRequest: the print flushes that the branch starts are steps of `PrintQueue`, not of this method.
- ResendDoublesIff: is about a request that queues one operation; a payment queues two, each under its own key.
- ConstraintHoldsIff: leaves the column's width to `MigrationSucceedsIff`.
- RecomputeDescribes: the usual order time columns that the refresh also writes are not modelled.
- PrintQueue: jobs are taken in row order, which the query without ORDER BY does not promise; no theorem depends on it.
- BackfillStoreIdentity: the location uuid, a second draw independent of the code, is not modelled.
- FormatWhatsApp: takes the text after bullet and double-star rewriting; React keys are not modelled.
- OnRemove: handlers see the state of the last render, and clicks between a click and its render are not modelled.
- Reconcile: takes any layout with distinct labels; the script's own 25 rows are one such layout and are not repeated here.
- StatsStayInSync: the usual order time columns and the column widths are not modelled, nor is moving an order to another customer.
- Purge: the mark of a table is an integer with 0 for available; row contents other than keys and that mark are left abstract.
- Dispatch, wallet, loyalty, marketing and the other services: outside the scope of this model.
- `scripts/delete_restaurants.py` and `scripts/reset_test_data.py`: integrity is not a goal they meet.
