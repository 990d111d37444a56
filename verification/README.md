# Verified model of the MCP gateway's core

The project models six groups of the gateway in Dafny 4.11 and proves what each keeps over every run:
the windowed report and approval sync, the data cache and its single flight, the audit queue, the
rate limiters and the account lockout, the connector registry, and the management tables with the
OpenAPI activation that writes to them. `dafny verify dfyconfig.toml` checks everything.

| file | what it models |
|---|---|
| `Common.dfy` | results and the sequence vocabulary shared by the rest |
| `Decimal.dfy` | the log id parser and printer, and decimal text compared as text |
| `Paging.dfy`, `Capped.dfy` | listing a window page by page, a range segment by segment, and the newest-first collector |
| `Windows.dfy`, `Tables.dfy` | the bisection into bounded batches, the sync window, the upserts and the window queries |
| `SyncRuns.dfy`, `SyncGaps.dfy` | one sync run, any sequence of runs, and where the no-loss guarantee ends |
| `CacheValues.dfy`, `ConnectionCache.dfy`, `SingleFlight.dfy` | admission and stored copies, the TTL cache against its history, `get_or_load` under interleaving |
| `AuditQueue.dfy` | the bounded audit queue, its worker and its shutdown |
| `Limiters.dfy`, `BoundedLimiters.dfy` | the three limiters against the plain history of their calls |
| `Lockout.dfy` | the account row as a lockout machine |
| `JsonTree.dfy`, `Manifests.dfy`, `Registry.dfy` | bounded JSON trees, connector manifests and the registry |
| `Management.dfy`, `Transactions.dfy`, `Stores.dfy` | the management transactions, when each succeeds and what it leaves, and the store methods that do it row by row |
| `Revisions.dfy`, `Services.dfy`, `Activation.dfy` | what all runs of these transactions keep, and the activation among other writers |

How the pieces are shaped:

- Loops and updated fields of the source are methods with loops and classes; each is proved equal to a
  specification function or tied to a history, and the properties are lemmas about those.
- Beside the specification function of an operation stands a lemma, most often named `...Exactly`, that
  says in other terms when the operation succeeds, what it then leaves, and how it fails otherwise.
- A concurrent protocol is a state machine whose steps are the source's lock bodies or transactions;
  its properties hold in every reachable state of every execution.
- Every reply of the upstream is free. A listing is a function of the range it is for, the segment and
  the cursor, and no two requests of a run agree in all three: no range is listed twice
  (`NoRangeIsListedTwice`, `NoWindowIsListedTwice`), the segments of a range are distinct
  (`SegmentsTile`), and so are the cursors of a segment (`PagingTerminatesOnDistinctCursors`). Details
  and write failures are functions of the record and its batch window.

Where the obvious claim is false, the code is kept and the exact condition is proved:

- Records from the first attempt's window start on are never lost exactly when the cursor was readable
  then and not ahead of the clock, or the first run to save it began in the same second
  (`NothingIsLostExactly`); otherwise the start slips to the first saving run's window and a record can
  be lost (`SlippedStartLosesARecord`). Forced and reset runs leave a gap exactly when their window
  starts after the covered span (`GapsAppearExactly`).
- A report detail that is not a JSON object is stored as a complete row with time 0 and then missed by
  queries (`RowIsSoundExactly`, `MalformedReportIsMissed`); an approval in that case is stored as partial.
- An invalidation is final exactly when no load of its connection is in flight that may still be stored
  (`InvalidationIsFinalExactly`); from any reachable state with one, the load can be stored afterwards
  and served to the next caller (`LoadInFlightOutlivesInvalidation`).
- A shutdown of the audit queue can leave accepted events behind. Without fatal inserts it does in some
  continuation exactly when, at the request, an event is queued and the worker's poll has timed out, or
  the worker is dying or gone; where inserts may be fatal, also when an insert comes before the last
  queued event (`ShutdownStrandsNothingExactly`, `TimeoutExitCanStrand`). A dying worker still counts as
  alive, so a submit then starts no other one (`DyingWorkerCanStrand`).
- The lock deadline is a `DATETIME` column without fractional digits, which keeps the nearest second.
  A lock therefore lasts its full 15 minutes exactly when the locking attempt's clock reads a whole
  second or at least half a second past one (`LockIsFullExactly`). Only the first six failures of a count
  can lie within 15 minutes (`AtMostFiveExactly`), and whether any continuation makes them do so can be
  read off the first failure, the fifth and the clock (`BoundHoldsExactly`); a run in which they do is
  `SixWrongPasswordsInFifteenMinutes`. After an expired lock the old failure count is still read, so one
  more failure locks again.
- A revision published on a connection that went from disabled back to draft is not the one activation
  would take if an older one is still pending (`PublishedIsPendingExactly`, `StalePendingIsReachable`).
- The repository's README says that direct mode bypasses the cache; the runtime caches direct and hybrid
  reads and bypasses stored ones (app/connectors/runtime.py:494-518). `SingleFlight` models the cached path.
- The sliding-window limiter takes its window on every call. A call is decided by its whole window,
  whatever its limit, exactly when no allowed call in that window was pruned by an earlier, shorter one
  (`WholeWindowCountsExactly`, with `ShortWindowForgets` as a failing input); windows that do not grow
  never prune such a call (`LongWindowsAreExact`, `FixedWindowsAreExact`).

## Model

| member | source | states |
|---|---|---|
| Decimal.PrintedIdIsReadBack | app/mcp_logs_admin.py:511-518 | every id the log listing prints, 1 to 2^63-1, is accepted by the delete parser and means the same number; others are refused |
| Decimal.AcceptedTextIsPrinted | app/mcp_logs_admin.py:73-85 | every text the parser accepts is exactly what the printer gives for the id it returns |
| Decimal.RangeByText | app/mcp_logs_admin.py:80-84 | comparing length and then text rejects exactly the canonical texts whose number exceeds the bound |
| Decimal.NumberIdExactly | app/mcp_logs_admin.py:73-77 | a numeric id is accepted, as itself, exactly from 1 to 2^53-1 |
| Decimal.RefusedTextExactly | app/mcp_logs_admin.py:78-85 | which texts are refused, and for which of the three reasons |
| Decimal.TextOrderIsNumeric | app/mcp_logs_admin.py:80-84 | equal-length digit texts compare as text as their numbers do |
| Paging.PagingTerminatesOnDistinctCursors | app/wecom/sync.py:28-81 | a window is read in at most 1000 requests over pairwise distinct cursors, following the pages, and ends well only on a last page |
| Paging.ChainIsReadWhole | app/wecom/sync.py:41-81 | a well-formed chain of at most 1000 pages is read whole, a longer one is refused and never cut short |
| Paging.WindowEndsAsItMust | app/wecom/sync.py:41-81 | how the reading of a window ends is fixed by its pages: well on a last page, else with the error the last page read deserves, or after 1000 of them |
| Paging.FetchIdentifiers | app/wecom/sync.py:41-81 | the page loop with its `seen` and `seen_cursors` sets computes the first-occurrence dedup of the pages it walked, or the walk's error |
| Paging.SyncRange | app/wecom/sync.py:172-229 | the segmented loop, whose `seen` set spans all segments, is the first-occurrence dedup of what each segment alone returns, or the first failure |
| Paging.SplitRange | app/wecom/approval_sync.py:141-218 | the loop returns the cuts of the range by the resource's segment length, which `SegmentsTile` describes |
| Paging.SegmentsTile | app/wecom/sync.py:176-181 | the cuts meet end to end from the start of the range to its end; each but the last is exactly a segment long, and the last is neither empty nor longer |
| Paging.SegmentsOfAResource | app/wecom/approval_sync.py:15 | reports are cut every 30 days, approvals every 31 |
| Paging.RangeIsListedExactly | app/wecom/sync.py:172-229 | a range is listed exactly when each of its segments is, as what they list with every id where it first occurs |
| Paging.RangeIsComplete | app/wecom/sync.py:146-229 | if single windows are listed completely, a range of any length is: nothing missing, nothing twice, nothing foreign |
| Capped.Collector.CollectWindow | app/wecom/sync.py:98-129 | the recursive collector and its shared `seen` set compute the collector's specification and the set's next value |
| Capped.SyncRangeCapped | app/wecom/sync.py:131-143 | the backwards segment loop computes the capped listing |
| Capped.NoWindowIsListedTwice | app/wecom/sync.py:98-143 | a whole capped listing never lists one window twice, within a segment or in two of them |
| Capped.CappedListingIsBounded | app/wecom/sync.py:84-143 | against any upstream: no id twice and at most `max_records` ids |
| Capped.CappedListingIsNewest | app/wecom/approval_sync.py:79-138 | the listing is complete for the whole range or exactly full, and no omitted record is 60 s or more newer than a returned one |
| Capped.CappedListingIsNewestFirst | app/wecom/sync.py:98-143 | at every cut between segments nothing older precedes anything newer |
| Capped.SplitWindowListsNewerFirst | app/wecom/sync.py:117-129 | of a window that is split, the newer half stands before the older one |
| Capped.CappedListingFailsExactly | app/wecom/sync.py:98-143 | a capped listing fails exactly when the last window it asks for does, with that error, and is empty where nothing is asked for |
| Windows.BatchesTileTheRange | app/wecom/dispatch.py:33-49 | batches are adjacent or repeats of one leaf, tile the range, and hold at most `limit` ids each |
| Windows.BatchesAreTheRange | app/wecom/dispatch.py:33-49 | the batches together list the range completely, without duplicates |
| Windows.BatchesArePlaced | app/wecom/dispatch.py:33-49 | every id lies in the window of its batch, even when a later listing fails |
| Windows.BisectionFailsExactly | app/wecom/dispatch.py:33-49 | a bisection fails exactly when the last range it lists answers with an error; every earlier one answered |
| Windows.BisectionSucceeds | app/wecom/dispatch.py:33-49 | it succeeds where no listing inside the range fails |
| Windows.BatchesAreCutWell | app/wecom/dispatch.py:38-49 | every batch is a run of the listing of its own range: the whole of it, or of a range of at most 60 s a chunk that is full unless it is the last |
| Windows.DepthIsLogarithmic | app/wecom/dispatch.py:43-49 | the bisection is at most k deep when the span is at most 60 times 2^k |
| Windows.NoRangeIsListedTwice | app/wecom/dispatch.py:33-49 | the bisection never lists one range twice, so each listing may answer differently |
| Windows.IncrementalWindow | app/wecom/dispatch.py:89-100 | a non-forced window reaches back a day from the cursor or from now, whichever is earlier, and its fallback branch is never taken |
| Windows.ForcedWindow | app/wecom/dispatch.py:89-93 | a forced window ignores the cursor and reaches back the lookback, but a day at least |
| Windows.CursorIsReadExactly | app/wecom/dispatch.py:94-95 | a stored cursor is readable exactly when it is a non-empty text of digits, and then as its value |
| Windows.SavedCursorIsReadBack | app/db.py:433-446 | a saved cursor is read back as the same number |
| Tables.AnyAssignmentOrderIsMerge | app/db.py:260-284 | in whatever order the columns are assigned, as long as every one occurs, the row is chosen whole |
| Tables.UpdateOrderIsMerge | app/db.py:332-358 | the statement's own column order is such an order |
| Tables.UpsertsKeepTheLastComplete | app/db.py:245-296 | after any upserts the row is the last complete one if there was one, else the last partial one |
| Tables.WritesOfOneKey | app/db.py:245-296 | writing a key changes no other; a new key ends with its last complete row, or else its last |
| Tables.MatchesExactly | app/db.py:299-313 | a row matches a window exactly when its record may lie there as far as the row tells |
| Tables.AnswersAreExact | app/db.py:372-386 | an answer holds only rows that meet the window, newest first, and leaves out only rows no newer than it, and none while there is room |
| Tables.AnswersExist | app/db.py:372-386 | whatever the table holds, every query has such an answer |
| Tables.StoredRecordIsFound | app/db.py:299-313 | a stored record is in the answer of every window query containing its true time, unless rows at least as new fill the limit |
| SyncRuns.SyncStore.Upsert | app/db.py:260-284 | inserting, or assigning column after column in place, is the whole-row choice |
| SyncRuns.SyncStore.SyncOne | app/wecom/dispatch.py:216-339 | one run's loops, counters, upserts and its cursor saved only after a clean end are the run's specification |
| SyncRuns.StoreBatchesFacts | app/wecom/dispatch.py:242-322 | storing only adds rows, counts each pulled record once as stored or failed, and without write errors stores all of them |
| SyncRuns.PulledIsStoredOrFailed | app/wecom/dispatch.py:225-322 | in every run pulled equals stored plus write errors |
| SyncRuns.RunsEndExactly | app/wecom/dispatch.py:216-339 | a run counts exactly what it pulled, missed and could not write, reports failure exactly when its last listing or the saving failed, and saves its cursor exactly when nothing failed |
| SyncRuns.CleanRunsSave | app/wecom/dispatch.py:216-339 | where it can begin and no listing, write or saving fails, the new cursor reads back as the run's start and every listed record is stored |
| SyncRuns.RunsWriteExactly | app/wecom/dispatch.py:242-322 | each listed record is written with its own batch window, and every other row stays as it was |
| SyncRuns.WrittenRowIsExact | app/wecom/dispatch.py:246-311 | each column of a written row, and when the row is partial |
| SyncRuns.RowIsSoundExactly | app/wecom/dispatch.py:246-311 | a written row is findable by the true time exactly when its detail states that time, is missing, or is a malformed approval |
| SyncRuns.MalformedReportIsMissed | app/wecom/dispatch.py:259-309 | a report detail that is not an object is stored with time 0 and missed by queries for its time |
| SyncRuns.RunKeepsTableSound | app/wecom/dispatch.py:242-335 | any run, forced or not, failing or not, leaves every row findable by its record's true time |
| SyncRuns.SavingRunCoversItsWindow | app/wecom/dispatch.py:333-335 | a run that saves its cursor has stored every record of its window submitted before it began |
| SyncRuns.SpanStartsAtTheFirstSave | app/wecom/dispatch.py:333-335 | until a run saves it the cursor stays, so the synced span starts at the window of the first run that saves, computed from the first attempt's cursor |
| SyncRuns.KeptStart | app/wecom/dispatch.py:94-97 | a later window starts where the first attempt's did exactly when the cursor was readable and not ahead of the first clock, or no second passed |
| SyncRuns.NothingIsLost | app/wecom/dispatch.py:78-100 | over any non-forced runs failing anywhere, every record from the first attempt's window start where that counts, and from the first saving run's in any case, up to the latest saving run's start is in the table |
| SyncRuns.SyncedRecordIsFound | app/db.py:372-386 | end to end: such a record is in every query answer whose window contains its time, though its detail fetch failed, limit aside |
| SyncGaps.NothingIsLostExactly | app/wecom/dispatch.py:78-100 | whatever the table, the upstream and the runs, nothing from the first attempt's window start on is lost exactly when the cursor was readable then and not ahead of the clock, or the first save was by a run begun in the same second |
| SyncGaps.SlippedStartLosesARecord | app/wecom/dispatch.py:94-97 | otherwise there are timely runs against an honest upstream in which a record at the first attempt's window start is never stored though the cursor passes it |
| SyncGaps.GapsAppearExactly | app/wecom/dispatch.py:91-111 | forced runs and runs after a reset keep coverage exactly when their window starts no later than the covered span ends |
| CacheValues.AdmittedValueIsKept | app/connections/cache.py:180-203 | the stored copy of an admitted value loses no key or element: only long strings are cut and tuples become lists |
| CacheValues.SafeValueIsBounded | app/connections/cache.py:180-203 | whatever it is given, the stored copy has no sensitive key, long text, raw bytes or wide container at any depth |
| CacheValues.AdmittedExactly | app/connections/cache.py:95-127 | a value is free of anything sensitive exactly when each of its parts may be kept at its depth |
| CacheValues.CacheableExactly | app/connections/cache.py:134-157 | arguments can be a cache key exactly when each of their parts may be, whatever their texts say |
| CacheValues.ArgumentsShareAKeyExactly | app/connections/cache.py:134-177 | two cacheable calls share a cache key exactly when their arguments are the same up to key order and tuples taken for lists |
| ConnectionCache.ConnectionCache.Get | app/connections/cache.py:226-242 | a read returns the live value of the key as the history of puts and invalidations gives it, and drops its entry exactly when that has expired |
| ConnectionCache.ConnectionCache.Put | app/connections/cache.py:244-275 | a put succeeds exactly for a positive ttl, valid identifiers, cacheable arguments and an admitted value, and is then the newest event |
| ConnectionCache.AdmitsExactly | app/connections/cache.py:263-269 | which values are admitted, part by part |
| ConnectionCache.ScopesAreExact | app/connections/cache.py:215-224 | when a call has a cache key, and that it is one of its own connection and tool |
| ConnectionCache.CallsShareAScopeExactly | app/connections/cache.py:160-224 | two calls have one key exactly when connection, tool and arguments agree |
| ConnectionCache.ConnectionCache.InvalidateConnection | app/connections/cache.py:363-370 | drops and counts the entries of exactly one connection |
| ConnectionCache.HitIsTheLatestLivePut | app/connections/cache.py:226-275 | a hit is exactly the stored copy of the latest put of the same connection, tool and canonical arguments, younger than its ttl and not invalidated since |
| ConnectionCache.HitLosesNothing | app/connections/cache.py:264-275 | what a hit returns keeps every key and element of what was put |
| SingleFlight.OneOwnerPerKey | app/connections/cache.py:307-361 | in every reachable state an in-flight entry exists for a key exactly while one task owns its load, and only one does |
| SingleFlight.WaitersAreReleased | app/connections/cache.py:317-355 | a waiter can go on exactly once its owner's load is over, by a value, an error or a cancellation |
| SingleFlight.WaitersFollowTheLoad | app/connections/cache.py:317-357 | what a waiter does is fixed by how the load it waited for ended: an error or unusable ttl gives the load error, a cancellation a cancellation, a refused value makes it load alone, an admitted one gives what the creator's second look found |
| SingleFlight.FoundIsTheStoredCopy | app/connections/cache.py:341-343 | that second look finds the stored copy of the put as long as it is the latest of its key, unexpired and not invalidated |
| SingleFlight.LoneTasksAnswerTheirLoad | app/connections/cache.py:324-328 | a task that loads alone answers with that load and nothing else |
| SingleFlight.CallersStepExactly | app/connections/cache.py:301-318 | a look into the cache is answered by the live value, and else the caller waits for the load in flight or begins one others will find |
| SingleFlight.CreatorsEndWithTheirOwn | app/connections/cache.py:329-357 | the caller whose load is shared still loads, or holds and answers only what the end of that very load gave it |
| SingleFlight.CreatorsAnswerTheirLoad | app/connections/cache.py:329-357 | its answer is the value its own load gave, its own error (also for an unusable ttl) or its own cancellation, according to how that load ended |
| SingleFlight.OutcomesAreFinal | app/connections/cache.py:330-355 | no step takes an outcome back, so a released waiter stays released |
| SingleFlight.SharedValuesWereAdmitted | app/connections/cache.py:317-343 | every value handed out by a hit or a shared load is the stored copy of an admitted value put under the caller's own key |
| SingleFlight.HitWasLive | app/connections/cache.py:226-242 | under any interleaving a hit is the latest put of its key, younger than its ttl and not invalidated since, in the very state in which the caller's look into the cache was answered |
| SingleFlight.InvalidationIsFinalExactly | app/connections/cache.py:329-370 | after any execution, no load begun before an invalidation is ever stored after it exactly when none of the connection is in flight that may still be stored |
| SingleFlight.LoadInFlightOutlivesInvalidation | app/connections/cache.py:329-370 | from any reachable state with such a load, the invalidation can be followed by its store and by a hit of it for a new caller |
| AuditQueue.AlwaysSound | app/mcp_audit.py:155-206 | at every step accepted events are delivered, in hand and queued in order, the pending count matches, each refused submit is counted once, and the queue stays bounded |
| AuditQueue.EventsAreTakenWhileThereIsRoom | app/mcp_audit.py:155-180 | while the writer accepts, an event is taken exactly when there is room, and else counted as dropped with nothing else changed |
| AuditQueue.WorkersDrain | app/mcp_audit.py:184-206 | after a stop that strands nothing, and without fatal inserts, the worker alone delivers every accepted event and leaves |
| AuditQueue.TrueShutdownDeliveredAll | app/mcp_audit.py:208-235 | a true shutdown means every accepted event was handed to the insert exactly once, in order |
| AuditQueue.ShutdownStrandsNothingExactly | app/mcp_audit.py:155-233 | in every continuation of a shutdown request no event is queued once the worker is gone, exactly when at the request nothing is queued or the worker has still to look at the queue; and, with fatal inserts, no insert comes before the last queued event |
| AuditQueue.StrandedForEver | app/mcp_audit.py:208-235 | once the worker is gone after a stop nothing moves: a queued event stays for ever, and shutdown can succeed exactly when there is none |
| AuditQueue.LeavingAfterAnInsertIsClean | app/mcp_audit.py:203-204 | a worker that stops after an insert leaves nothing behind |
| AuditQueue.TimeoutExitCanStrand | app/mcp_audit.py:184-189 | an execution in which a worker that stops after a timed-out poll leaves an accepted event behind |
| AuditQueue.DyingWorkerCanStrand | app/mcp_audit.py:118-126 | an execution in which an event submitted while a worker is dying is accepted and left with no worker, though no shutdown was requested |
| Limiters.SlidingWindowRateLimiter.Allow | app/connectors/runtime.py:215-226 | for any limit and window of the call, it is allowed exactly when fewer than `limit` calls of its key were allowed in the window, as far back as no earlier, shorter window has pruned |
| Limiters.WholeWindowCountsExactly | app/connectors/runtime.py:215-226 | a call is decided by its whole window for every limit exactly when no allowed call of the window was forgotten, and else counts fewer |
| Limiters.ShortWindowForgets | app/connectors/runtime.py:215-226 | a run of the limiter in which a third call is allowed with limit two though two allowed calls lie in its window |
| Limiters.LongWindowsAreExact | app/connectors/runtime.py:215-226 | no shorter window before it is enough for a call to count its whole window |
| Limiters.FixedWindowsAreExact | app/connectors/runtime.py:215-226 | with one window for each key every call is decided by the count of its last window |
| Limiters.PruneTimestamps | app/mcp_audit.py:321-324 | popping stale times from the front leaves the pruned deque |
| Limiters.PruneCounts | app/mcp_audit.py:321-324 | pruning from the front leaves exactly as many times as the whole history has in the window |
| Limiters.NoWindowExceedsTheLimit | app/connectors/runtime.py:215-226 | with a fixed limit no window of any position holds more allowed calls of a key |
| Limiters.EvictionOnlyForgets | app/mcp_audit.py:349-352 | what a limiter counts really happened, so a refusal is earned; without eviction it counts everything |
| BoundedLimiters.AuthWriteLimiter.AllowWithNotice | app/mcp_audit.py:336-368 | allowed by exact counting since the key's last eviction, within `max_buckets`; only a new key in a full table evicts, and then the key that was served longest ago; warns on the first refusal of an episode |
| BoundedLimiters.WarnsOncePerEpisode | app/mcp_audit.py:353-364 | a refused call is told to warn exactly when no earlier refusal lies in its episode, which only an empty window or an eviction ends |
| BoundedLimiters.RevealLimiter.Allow | app/admin_connections.py:951-972 | the same decisions though saturation is checked before room is made |
| Lockout.AccountStore.Authenticate | app/tenant_auth/store.py:108-168 | succeeds exactly for a correct password on a row with the hash read before that is active, or locked with its deadline passed; counts a wrong one there and locks at five; any other row, a disabled one or one still locked, stays as it is, unlogged |
| Lockout.AccountStore.UpsertAccount | app/tenant_auth/store.py:171-194 | resets failures, keeps the row sound and starts a new count |
| Lockout.AccountStore.SetAccountStatus | app/tenant_auth/store.py:197-216 | resets failures of an existing row, refuses any other status |
| Lockout.WrongPasswordKeepsSound | app/tenant_auth/store.py:131-158 | active rows hold fewer than five failures, locked rows the deadline of the last one, and from the sixth on each failure is after the deadline before it |
| Lockout.AtMostFiveExactly | app/tenant_auth/store.py:19-20 | a count of evaluated failures has at most five in every half-open 15 minutes exactly when it has at most five or its sixth is 15 minutes after its first |
| Lockout.BoundHoldsExactly | app/tenant_auth/store.py:108-158 | from every reachable row and clock, all further wrong passwords keep to five in any 15 minutes exactly when the fifth failure's deadline, or the earliest one still possible, is 15 minutes after the first failure; before any failure they may not |
| Lockout.AtMostFiveInShorterIntervals | app/tenant_auth/store.py:19-20 | any half-open 15 minutes less half a second hold at most five evaluated wrong passwords, without a condition |
| Lockout.LockIsFullExactly | app/tenant_auth/store.py:27 | a lock lasts its full time exactly when the locking clock reads a whole second or at least half a second past one |
| Lockout.SixWrongPasswordsInFifteenMinutes | app/tenant_auth/store.py:141-158 | a run of the account store in which six wrong passwords are evaluated within 15 minutes |
| JsonTree.Freezer.Freeze | app/connectors/registry.py:39-86 | the counting walk accepts exactly the acceptable trees whose size keeps the count within 4096, and returns their frozen copy |
| JsonTree.FreezesExactly | app/connectors/registry.py:39-86 | a tree passes exactly when it has at most 4096 nodes and each of them may stand at its depth |
| JsonTree.FrozenIsAnImmutableCopy | app/connectors/registry.py:34-86 | the frozen tree is the same tree, and nothing in it can be written to |
| JsonTree.FreezingIsIdempotent | app/connectors/registry.py:34-86 | a frozen tree passes again, unchanged |
| JsonTree.ThawUndoesFreeze | app/connectors/runtime.py:47-52 | thawing a frozen plain JSON tree gives the tree back |
| Manifests.ValidateManifest | app/connectors/registry.py:89-200 | the loop over tools with its identifier set computes the validated manifest or rejects |
| Manifests.ValidatesExactly | app/connectors/registry.py:89-200 | a manifest is accepted exactly under the source's checks, each written out |
| Manifests.ValidationKeepsTheManifest | app/connectors/registry.py:176-200 | an accepted manifest keeps key, version, modes, sync support and, tool by tool, names, operation, timeout and cache ttl; its schemas are frozen copies that thaw to those sent |
| Manifests.ValidationIsIdempotent | app/connectors/registry.py:89-200 | a validated manifest passes again, unchanged, and claims the same names |
| Registry.AcceptedBatchPasses | app/connectors/registry.py:317-338 | the accepted part of the greedy selection always passes as a batch, and unchanged |
| Registry.FitsExactly | app/connectors/registry.py:256-282 | which manifests fit beside the keys and identifiers already claimed |
| Registry.BatchPassesExactly | app/connectors/registry.py:299-338 | a batch passes exactly when the greedy selection rejects nothing of it |
| Registry.SelectionIsGreedy | app/connectors/registry.py:317-338 | a manifest is accepted exactly when valid, fit, and in collision neither with the base nor an earlier accepted one; every other is rejected once |
| Registry.AddingKeepsSound | app/connectors/registry.py:367-375 | registering a fitting manifest keeps keys and identifiers disjoint and each identifier with one owner |
| Registry.ConnectorRegistry.Register | app/connectors/registry.py:218-233 | registers exactly the valid manifests that fit, else changes nothing, and keeps the registry sound |
| Registry.ConnectorRegistry.ClearDiscovered | app/connectors/registry.py:235-248 | drops exactly the package discoveries with their identifiers |
| Registry.ConnectorRegistry.PartitionDiscoveredBatch | app/connectors/registry.py:317-338 | the loop computes the greedy selection without changing the registry |
| Registry.ConnectorRegistry.ReplaceDiscovered | app/connectors/registry.py:340-365 | replaces all discoveries by a batch that passes as a whole, keeping the registry sound, or changes nothing |
| Transactions.StatusesMoveExactly | app/connections/store.py:230-240 | which moves of a connection's status are legal |
| Transactions.ServicesMoveExactly | app/mcp_services/store.py:691-695 | which moves of a service's status are legal |
| Transactions.CreatesExactly | app/connections/store.py:1569-1637 | when a connection is created, and the row and credentials it then has |
| Transactions.UpdatesExactly | app/connections/store.py:1640-1706 | when an update succeeds, every field of the row it writes, and which error it gives otherwise |
| Transactions.UseCaseUpdatesExactly | app/admin_connections.py:1282-1323 | the use case updates exactly where the store does, a declarative connection never to active and only with the configuration of the expected version |
| Transactions.DisablesExactly | app/connections/store.py:1758-1786 | the owner can always disable; status and version change and nothing else |
| Transactions.DeletesExactly | app/connections/store.py:652-698 | an owned connection without bindings can be deleted, and only it goes; else which error |
| Transactions.ReplacesCredentialsExactly | app/connections/store.py:1789-1823 | when the credentials are replaced, by exactly those sent; else which error |
| Transactions.ReplacesPoliciesExactly | app/connections/store.py:1966-1993 | when the policies are replaced, by exactly those sent, each under its tool; else which error |
| Transactions.SavesExactly | app/connections/store.py:701-800 | when a revision is saved, as an unpublished row; else which error |
| Transactions.PublishesExactly | app/connections/store.py:1287-1365 | when a revision is published, the two configuration keys it sets, and which error otherwise |
| Transactions.ActivatesExactly | app/connections/store.py:1368-1438 | when a revision is activated, the row it leaves, and that every other configuration key stays |
| Transactions.ActivationFailsExactly | app/connections/store.py:1368-1438 | which error an activation gives |
| Transactions.DeletesRevisionExactly | app/connections/store.py:1131-1284 | when a revision is deleted: a draft always, a published one only unselected and unbound; else which error |
| Transactions.MovesServicesExactly | app/mcp_services/store.py:698-751 | when a service changes its status, and which error otherwise |
| Transactions.ReplacesBindingsExactly | app/mcp_services/store.py:1054-1136 | when a snapshot of bindings is taken, row by row, and which error otherwise |
| Transactions.RetiresExactly | app/tenant_lifecycle.py:119-145 | a retirement disables each connection and service of the tenant that is not, with one more version, and touches nothing else |
| Stores.ManagementStore.UpdateConnection | app/connections/store.py:1640-1706 | commits or changes nothing; a commit writes one row, legally and with the next version, never activates a declarative connection, and keeps the store valid where a declarative configuration is sent back unchanged |
| Stores.ManagementStore.DisableConnection | app/connections/store.py:1758-1786 | succeeds exactly for the owner, from every status; only that row changes and its configuration stays, and the store stays valid |
| Stores.ManagementStore.DeleteConnection | app/connections/store.py:652-698 | refuses exactly an owned connection that some binding uses; otherwise only that row goes, and the store stays valid |
| Stores.PublishEffect | app/connections/store.py:1287-1365 | which selector pair a publication sets, read through the pairs' own readers, and what stays |
| Stores.DeleteRevisionEffect | app/connections/store.py:1131-1284 | after a deletion no current and no pending selector of the tenant's connections names the revision |
| Stores.ManagementStore.CreateConnection | app/connections/store.py:1569-1637 | inserts the row and its credentials one by one as one commit that keeps the store valid |
| Stores.ManagementStore.ReplaceCredentials | app/connections/store.py:1789-1823 | deletes and inserts the credentials and bumps the version as one commit that changes nothing else and keeps the store valid |
| Stores.ManagementStore.ReplaceToolPolicies | app/connections/store.py:1966-1993 | deletes and inserts the policies and bumps the version as one commit, or fails on a tool named twice; keeps the store valid |
| Stores.ManagementStore.SaveRevision | app/connections/store.py:701-800 | a commit inserts one unpublished row under a key that was free and changes nothing else; the store stays valid |
| Stores.ManagementStore.PublishRevision | app/connections/store.py:1287-1365 | a commit publishes one row and sets exactly one selector pair, the current one of a draft and else the pending one; status, other pair and other revisions stay, and the store stays valid |
| Stores.ManagementStore.ActivateRevision | app/connections/store.py:1368-1438 | a commit takes exactly the revision that was staged and published, leaves no pending selector and touches one row; the store stays valid |
| Stores.ManagementStore.DeleteRevision | app/connections/store.py:1131-1284 | a commit removes one row that no selector of any connection of the tenant names; the store stays valid |
| Stores.ManagementStore.UpdateServiceStatus | app/mcp_services/store.py:698-751 | a commit moves one service along its table at the expected version and changes nothing else; the store stays valid |
| Stores.ManagementStore.ValidateSnapshot | app/mcp_services/store.py:974-1003 | the growing casefold sets accept exactly the snapshots of this service without two clashing rows |
| Stores.ManagementStore.ReplaceBindings | app/mcp_services/store.py:1054-1136 | checks, deletes and inserts row by row as one commit that keeps the store valid, or fails and changes nothing |
| Revisions.SelectorsNamePublishedRevisions | app/connections/store.py:1287-1438 | in every reachable state each selector of a declarative connection names an existing published revision of it, and an active one has a current selector and no pending one |
| Revisions.RevisionsNeverChange | app/connections/store.py:1234-1284 | no transaction alters a revision's content or withdraws a publication, and none deletes a published revision that a connection selects |
| Revisions.ConnectionsMoveLegally | app/connections/store.py:230-240 | under every action, a retirement included, a connection's status moves only along the transition table, each move takes one version, a declarative connection becomes active only through its activation, and none goes away while a binding uses it |
| Revisions.RetireKeepsSound | app/tenant_lifecycle.py:119-145 | disabling all connections and services of a tenant at once keeps every selector naming a published revision |
| Revisions.UpdateKeepsSound | app/admin_connections.py:1282-1323 | the update use case keeps the selectors, because a version determines its configuration |
| Revisions.PublishedIsPendingExactly | app/admin_connections.py:294-312 | what was just published is what activation will take exactly when the connection was disabled or nothing else was left pending |
| Revisions.StalePendingIsReachable | app/connections/store.py:1344-1350 | a run after which an older pending revision stands before a newer publication |
| Services.BindingsStaySound | app/mcp_services/store.py:1054-1136 | over all runs every binding's connection exists with its service's tenant, aliases and connection tools stay unique under casefold, and no binding is ever broken |
| Services.ReplaceIsExact | app/mcp_services/store.py:1092-1119 | a replacement leaves the service with exactly the snapshot and every other service's bindings untouched |
| Services.DisabledServicesKeepTheirBindings | app/mcp_services/store.py:691-751 | a service's status moves only along its table, each change takes one version, and a disabled service's bindings stay as they are |
| Activation.SuccessfulActivationIsExact | app/admin_connections.py:2314-2429 | under any interleaving with other writers, tenant retirement among them, a success means version exactly three above the expected one, no other change in between, exactly the sent credentials and analysed revision, and one policy for each of its tools: enabled unless it is an unselected write tool, writing exactly where it is a selected one |
| Activation.ActivationInTheTables | app/admin_connections.py:2345-2429 | on success the current selector names the published analysed revision, none is pending, only write tools were selected, and input and test passed |
| Activation.OwnStepsCommitOnlyTheirTransactions | app/admin_connections.py:2359-2429 | the use case commits nothing but its three transactions, each in its own phase |
| Activation.UndisturbedActivationSucceedsExactly | app/admin_connections.py:2314-2429 | undisturbed it succeeds exactly when the staged and published revision is the analysed one at the expected version, the input fits, only write tools were selected, tool keys are distinct, the tenant is live, the connection is a draft or disabled, and its test passes, all said of the tables alone |
| Activation.ChangesMoveTheVersion | app/connections/store.py:1640-1823 | every committed change to a connection's row, credentials or policies, by a retirement too, moves its version by one, and a deleted id does not come back |
| Activation.StagedRevisionStays | app/connections/store.py:1131-1204 | a staged revision cannot be taken away or altered under a running activation |

## Left out

- Check-ins, which repeat the report path without details; the address-book cache; the sync locks (a run that does not get its lock is an attempt that does nothing).
- SQL text, DDL, migrations, and row locks beyond "a transaction is one step". Text equality in SQL is taken as exact: the tables' collation is not modelled.
- The order of query answers below the sort key, and the descriptive columns of a row, which one `title` column stands for. Record ids are numbers compared only for equality.
- Encryption, digests, password hashing and random ids: digests are taken as injective, ids as never given out twice.
- Redaction, credential-shape and control-character heuristics, the version pattern, and the declarative validator: left open as predicates. `app/connectors/declarative` is not part of this model.
- Object identity: cycles met while freezing JSON, and the aliasing that `copy.deepcopy` and read-only views prevent.
- Float rounding of clocks: times are real numbers.
- The entry-point name that discovery compares with a manifest's key, and the read-only accessors of the registry.
- Tokens, sessions, domain files, alias renames, single tool policies and the upsert variant of connection creation, which no use case calls or which touch none of the modelled tables.
- The account, token, domain-file and audit effects of a tenant retirement; legacy backfill and default services.
- The gateway's session and tool-list caches, routes, transport and user interface.
- What JSON-schema checks of configurations and credentials and the connection test decide: in the activation their outcomes are given.
- The runtime's policy resolution, timeouts and cache gate around `get_or_load`, and the pace of the audit queue's drop warnings.
- JsonTree.Freezer.Freeze: does not model the check of active object identities, because its inputs are finite trees; a cyclic value is one that this check refuses at its first repetition.
