# Verified models of the adblock-compiler's stateful core

This project models the parts of the adblock-compiler repository whose behaviour is a protocol, a history or a
round trip, and proves what they keep over every run. Each module follows one source file. Code that updates an object
is a class whose methods are proved against functions on plain values; the run theorems are then proved about those
functions.

| module | source | what is modelled |
|---|---|---|
| `RateLimiter`, `RateLimiterHistory` | `worker/rate-limiter-do.ts` | the fixed-window counter with partial durable writes, restore on wake-up and the expiry alarm; and the same seen only through the log of its clients' calls |
| `CompilationCoordinator` | `worker/compilation-coordinator.ts` | the lock and result hand-off, with the two turns of `/complete` and `/fail` interleaved with everything else, and the polling waiters |
| `IncrementalCompiler`, `CacheKey`, `ContentHash` | `src/compiler/IncrementalCompiler.ts` | the per-source loop over a shared cache, the printed cache key, the 32-bit fallback hash |
| `WebSocketSessions` | `worker/websocket.ts` | the session table of one connection: admission, cancellation racing completion, removal timers, close |
| `Presence` | `worker/ws-hibernation-do.ts` | presence records of hibernating WebSockets |
| `JsonPointer`, `RefChecker` | `scripts/generate-cloudflare-schema.ts` | JSON Pointer reading against RFC 6901, and the walk that reports unresolved references |
| `Migration` | `scripts/migrate-d1-to-neon.ts` | batching, the parameterised insert, and retrying over failing batches |
| `SchemaUpload` | `scripts/upload-cloudflare-schema.ts` | upload, enable, delete, with a failure at any call |
| `HeaderGenerator` | `src/compiler/HeaderGenerator.ts` | printing a list header and reading it back |

Environment facts that the models take as given: a Durable Object handler runs to completion between storage calls (the
input gate), an object has one pending alarm, storage is restored before the first request, and clocks never go back.
What the network, a database, the compiler, a timer or a client does next is always left open.

## What the proofs found

Where the code does less than one would hope, the model follows the code and the exact condition is proved.

- The rate limiter's request schema speaks of a sliding window (`worker/rate-limiter-do.ts:61`); the code keeps a fixed
  one. `RateLimiterHistory.Most` is the exact maximum of allowed calls in a closed interval of any length: never
  exceeded (`RateMaximum`) and always reached by some run (`RateBoundIsReached`). For k whole windows it is at most
  `(k+1)*limit - 1`, with equality while k is at most the window's length in milliseconds (`MostOfWholeWindows`).
- Two clients hold the coordinator's lock if and only if some acquire is granted while a holder remains
  (`ExclusionFailsExactlyByGrant`). That cannot happen next, at any point of a run, if and only if nobody has settled
  another client's round and the object was never evicted while the lock was held (`ExclusionIsLostExactlyByBreach`). A
  client that settles only as a holder, once, leaves eviction as the only cause (`MutualExclusion`); the flag is held in
  memory only (`worker/compilation-coordinator.ts:16-19`), so that cause is real.
- The repository's own client breaks the discipline: the catch around its `/complete` call also sends `/fail`
  (`worker/handlers/compile.ts:79-100`), so a completion whose answer is lost is followed by a second settlement, which
  may end another client's round (`LostAnswerBreaksExclusion`). Two settlements past their check do the same
  (`DoubleCompletionBreaksExclusion`).
- An empty result or error body is falsy, so its waiters are told that there is no result (`EmptyBodyHidesTheResult`).
- The limit of three counts the session table, not the work. In every run the unfinished compiles are those the limit
  counts, those orphaned, and those still being cancelled (`UnfinishedWorkIsBounded`); at most three are ever unfinished
  if and only if each admission finds fewer than three of these together (`LimitHoldsExactly`). A run with four exists
  (`FourCompilesAtOnce`). Closing the connection stops no work and starts the count again at none
  (`CloseForgetsTheWork`).
- A removal timer deletes whichever session has the id when it fires. Until the connection closes, no running session is
  lost from the table, nor could be by anything pending, if and only if no compile is admitted under an id that a
  pending timer or an unsettled compile belongs to (`OrphansComeExactlyFromReuse`); a client that never reuses an id is
  therefore safe (`FreshIdsKeepEverySession`), and one that does can lose a session (`StaleTimerOrphansASession`).
- Following a pointer agrees with RFC 6901 on every document if and only if its last segment is not an inherited
  JavaScript property name: `#/components/toString` counts as resolved (`AgreesWithRfcExactly`). The code cites
  section 3 of RFC 6901 for unescaping; evaluation is defined in section 4.
- Retrying a migration with the same batches converges from every starting table if and only if no two batches offer
  different rows under one key (`RetryConvergesExactly`). With uniform columns and distinct conflict values it converges
  even if every run reads the rows in another order and cuts them differently (`AnyBatchingConverges`).
- The pointer syntax and the header have exact conditions too: the empty path (`PrintRoundTrip`), and values that are
  untrimmed or span lines (`RoundTripExactly`).
- In a dry run of a table with rows, `inserted + skipped` is 0, not the number of rows (`MigrateTable`).

## Model

| member | source | states |
|---|---|---|
| `RateLimiter.RateLimiterDO.constructor` | worker/rate-limiter-do.ts:109-126 | waking up restores count, window end and limit from storage, absent entries as 0 |
| `RateLimiter.RateLimiterDO.PostIncrement` | worker/rate-limiter-do.ts:134-239 | one increment over fields, partial durable writes and alarm; a malformed request changes nothing; afterwards memory is again what a wake-up would restore |
| `RateLimiter.RateLimiterDO.ResetCounter` | worker/rate-limiter-do.ts:242-247 | reset clears fields and storage together |
| `RateLimiter.RateLimiterDO.Alarm` | worker/rate-limiter-do.ts:254-257 | the alarm leaves count, window end and limit at 0, storage empty and no alarm pending |
| `RateLimiter.AlarmsAndResetsClearEverything` | worker/rate-limiter-do.ts:242-257 | after any run that ends in an alarm or a reset, memory and storage are empty and the alarm is used up |
| `RateLimiter.WakingReadsStorageOnly` | worker/rate-limiter-do.ts:116-125 | what hibernation leaves depends on storage alone, not on the memory that is lost |
| `RateLimiter.MemoryIsAlwaysRestorable` | worker/rate-limiter-do.ts:116-125 | after any legal run the fields equal what the constructor would read back |
| `RateLimiter.SimilarRuns` | worker/rate-limiter-do.ts:181-257 | a run with alarms and a run without stay indistinguishable to clients: equal fields, or one cleared after the window's end |
| `RateLimiter.HibernationAndAlarmsAreInvisible` | worker/rate-limiter-do.ts:116-125 | two runs with the same client calls give the same replies, wherever they hibernate and whichever alarms fire |
| `RateLimiterHistory.ClientRunIsExact` | worker/rate-limiter-do.ts:177-239 | from any state that summarises the log so far, every later reply is the one the log calls for |
| `RateLimiterHistory.EveryReplyIsExact` | worker/rate-limiter-do.ts:181-238 | with changing limits and windows, a call is allowed exactly when fewer than its own maxRequests were allowed since the window opened; rejections never count; remaining, resetAt and status reports are exact |
| `RateLimiterHistory.StatusIsExact` | worker/rate-limiter-do.ts:150-159 | what /status answers at any moment of any run, expired windows included: zeros after an alarm or reset, else the last window's count, limit, end and remainder |
| `RateLimiterHistory.BudgetStep` | worker/rate-limiter-do.ts:181-238 | each step pays for the call it allows out of a budget of calls still possible before a time |
| `RateLimiterHistory.RateMaximum` | worker/rate-limiter-do.ts:177-239 | fixed limit and window, no reset: a closed interval of any length holds at most Most allowed calls, for every run with any hibernations and alarms |
| `RateLimiterHistory.RateBound` | worker/rate-limiter-do.ts:177-239 | in particular k whole windows hold at most (k+1)*limit - 1 |
| `RateLimiterHistory.MostOfWholeWindows` | worker/rate-limiter-do.ts:177-203 | for k whole windows the exact maximum is at most (k+1)*limit - 1, and equal to it while k is at most the window in milliseconds |
| `RateLimiterHistory.RateBoundIsReached` | worker/rate-limiter-do.ts:181-203 | for every limit, window and interval length some run reaches the maximum exactly |
| `CompilationCoordinator.Coordinator.HandleAcquire` | worker/compilation-coordinator.ts:108-123 | granted exactly when nothing is in flight; clears result and error |
| `CompilationCoordinator.Coordinator.FinishComplete` | worker/compilation-coordinator.ts:136-142 | the second turn of complete, whatever happened since the first |
| `CompilationCoordinator.Coordinator.FinishFail` | worker/compilation-coordinator.ts:156-161 | the second turn of fail |
| `CompilationCoordinator.Coordinator.HandleWait` | worker/compilation-coordinator.ts:168-210 | at most 300 sleeps whatever others do; a timeout exactly when 30 s have gone; on every exit the waiter is uncounted and nothing else is touched |
| `CompilationCoordinator.SleptWhileInFlight` | worker/compilation-coordinator.ts:176-201 | every check before the answer, so every check before a timeout, saw a round in flight and less than 30 s gone |
| `CompilationCoordinator.FieldsReflectHistory` | worker/compilation-coordinator.ts:62-209 | with no client discipline and evictions anywhere: the last effect determines the fields, in flight excludes result and error, these exclude each other, waiters counts the active waits |
| `CompilationCoordinator.RunCountsWaiters` | worker/compilation-coordinator.ts:168-209 | in any interleaving of the state machine waiters equals the number of active waits; that each exit of a wait uncounts it is what HandleWait proves of the code |
| `CompilationCoordinator.AnswersAreTruthful` | worker/compilation-coordinator.ts:176-205 | a waiter gets a result if and only if the last effect is a completion with that non-empty body, and correspondingly for failure, sleeping, timeout, and no result, which follows nothing, an eviction or an empty body |
| `CompilationCoordinator.NoResultMeansNeverAcquired` | worker/compilation-coordinator.ts:191-197 | with non-empty bodies, no result is answered exactly when no round was granted since the last eviction |
| `CompilationCoordinator.EmptyBodyHidesTheResult` | worker/compilation-coordinator.ts:177-197 | a run in which a completed round with an empty body is reported as no result |
| `CompilationCoordinator.WaitersPollAtMost300Times` | worker/compilation-coordinator.ts:172-201 | in every interleaving no waiter polls more than 300 times before its last check |
| `CompilationCoordinator.SleepingCountsAPoll` | worker/compilation-coordinator.ts:176-201 | a waiter that sleeps again has made one more poll and changes nothing; one that is answered leaves |
| `CompilationCoordinator.LostBodyChangesNothing` | worker/compilation-coordinator.ts:136-156 | a settlement whose body never arrives ends without any effect |
| `CompilationCoordinator.TurnsTakeEffectInOrder` | worker/compilation-coordinator.ts:199-200 | what others do during a sleep takes effect turn by turn |
| `CompilationCoordinator.ExclusionFailsExactlyByGrant` | worker/compilation-coordinator.ts:108-123 | two clients hold the lock in a run if and only if some acquire is granted while another holder remains |
| `CompilationCoordinator.ExclusionIsLostExactlyByBreach` | worker/compilation-coordinator.ts:108-162 | throughout a run at most one client holds the lock and no acquire could change that, if and only if nobody settles while another holds it and no eviction happens while it is held |
| `CompilationCoordinator.BreachLetsAnotherIn` | worker/compilation-coordinator.ts:108-162 | after such a breach the remaining holder cannot settle and the next acquire of another client is granted beside it |
| `CompilationCoordinator.MutualExclusion` | worker/compilation-coordinator.ts:108-162 | if only holders settle, once each, exclusion is guarded throughout if and only if no eviction happens while the lock is held, and then no settlement is refused and each ends its own round |
| `CompilationCoordinator.DoubleCompletionBreaksExclusion` | worker/compilation-coordinator.ts:128-143 | a run without the discipline that ends with two holders |
| `CompilationCoordinator.LostAnswerBreaksExclusion` | worker/handlers/compile.ts:79-100 | a run in which only one client settles, twice as the repository's client may, and two others end up as holders |
| `CacheKey.KeyIsInjective` | src/compiler/IncrementalCompiler.ts:250-253 | equal keys if and only if same source, type and transformations, for arbitrary source strings and separable names |
| `CacheKey.AbsentMeansDefault` | src/compiler/IncrementalCompiler.ts:251-252 | an absent type has the key of adblock and of no other type, absent transformations that of none |
| `CacheKey.KeyText` | src/compiler/IncrementalCompiler.ts:251-252 | the key in literal text |
| `CacheKey.ColonInTypeNameCollides` | src/compiler/IncrementalCompiler.ts:250-253 | the naming hypothesis is needed: a colon in a type name would make two different sources share a key; no SourceType has one |
| `ContentHash.FallbackHash` | src/compiler/IncrementalCompiler.ts:298-304 | the masked shift loop computes the polynomial in 31 reduced into signed 32 bits; the magnitude is at most 2^31 |
| `ContentHash.MagnitudeFolds` | src/compiler/IncrementalCompiler.ts:304 | the magnitude is the polynomial modulo 2^32, folded at 2^31 |
| `ContentHash.TurnIsHorner` | src/compiler/IncrementalCompiler.ts:301-302 | one turn with its two truncations is one Horner step modulo 2^32 |
| `ContentHash.PolynomialAppends` | src/compiler/IncrementalCompiler.ts:299-303 | appending a code unit multiplies the polynomial by 31 and adds the unit |
| `IncrementalCompiler.Compiler.ServeSource` | src/compiler/IncrementalCompiler.ts:171-211 | one source: cache hit, download and store, stale fallback, or failure |
| `IncrementalCompiler.Compiler.CompileSources` | src/compiler/IncrementalCompiler.ts:157-212 | one result per source, the recompiled and cached lists, 500 ms saved per hit; throws exactly at the first source with neither download nor entry, keeping what was cached before |
| `IncrementalCompiler.HistoryFollows` | src/compiler/IncrementalCompiler.ts:170-212 | over any history each cache entry is the latest kept download of the very source it is looked up for |
| `IncrementalCompiler.Provenance` | src/compiler/IncrementalCompiler.ts:170-272 | from an empty cache, after any history, exactly when a source is served from cache (entry present, at most maxCacheAge old, no forced refresh), downloaded, served stale, or makes the compile throw, and with whose rules |
| `IncrementalCompiler.ReportIsExact` | src/compiler/IncrementalCompiler.ts:161-212 | a source is listed as recompiled exactly when it is no cache hit, and as cached exactly when it is a hit or a fallback, at its place in source order; the hits are counted |
| `IncrementalCompiler.ReportFollowsHistory` | src/compiler/IncrementalCompiler.ts:161-272 | the same lists and count in terms of the latest download of each source |
| `IncrementalCompiler.CacheIsTransparent` | src/compiler/IncrementalCompiler.ts:170-212 | with faithful downloads every served source gets the plain download's rules |
| `IncrementalCompiler.CompileIsTransparent` | src/compiler/IncrementalCompiler.ts:168-212 | a compile that does not throw yields one result per source, in order, equal to plain downloading, marked as cached unless just downloaded |
| `WebSocketSessions.Connection.HandleCompile` | worker/websocket.ts:225-264 | a used id is refused as duplicate, an unused one as too many if three sessions run, else a new running session is stored and announced |
| `WebSocketSessions.Connection.FinishCompile` | worker/websocket.ts:306-357 | after the await: silent if cancelled, else completed or failed with message and timer; a throw after a cancellation fails the session |
| `WebSocketSessions.Connection.HandleCancel` | worker/websocket.ts:370-399 | only a running session in the table is cancelled |
| `WebSocketSessions.Connection.RemoveAfterDelay` | worker/websocket.ts:335-337 | a timer removes whatever session has the id |
| `WebSocketSessions.Connection.HandleClose` | worker/websocket.ts:118-127 | closing empties the table |
| `WebSocketSessions.StepKeepsInvariant` | worker/websocket.ts:225-399 | every event keeps the admission limit and every session's conversation in one of five shapes, and no session runs again |
| `WebSocketSessions.SessionsAreAdmittedAndExclusive` | worker/websocket.ts:225-399 | in every reachable state at most 3 sessions in the table run, none returns to running, and no session is told both complete and cancelled |
| `WebSocketSessions.RequestsAreAnsweredExactly` | worker/websocket.ts:225-399 | in every reachable state each compile and each cancellation is refused with its code exactly in its case, the fourth at exactly 3 running, and carried out otherwise |
| `WebSocketSessions.FourthIsRefused` | worker/websocket.ts:235-243 | with three sessions running a fourth compile only gets the refusal |
| `WebSocketSessions.SettlementIsExact` | worker/websocket.ts:306-357 | status, message and timer for every way a compile ends, for a running and for a cancelled session |
| `WebSocketSessions.EndedSessionsAreRemoved` | worker/websocket.ts:335-399 | in every reachable state a session in the table runs or has a removal timer pending that takes it out |
| `WebSocketSessions.TimersAreConserved` | worker/websocket.ts:335-399 | in every run the pending and the fired timers of a session are together as many as the messages that told its end, at most two |
| `WebSocketSessions.OthersKeepListed` | worker/websocket.ts:225-399 | messages and settlements orphan no running session, even under reused ids, and a timer is only pending for a session that has ended |
| `WebSocketSessions.OrphansComeExactlyFromReuse` | worker/websocket.ts:225-399 | until close, over every run: no running session leaves the table, nor could by any pending timer or failure, if and only if no compile is admitted under an id that a pending timer or unsettled compile belongs to |
| `WebSocketSessions.FreshIdsKeepEverySession` | worker/websocket.ts:225-399 | until close, if no id is reused every running session is in the table under its id and cancelling it works |
| `WebSocketSessions.StepIsSafeExactly` | worker/websocket.ts:225-399 | one event, short of close, endangers a running session if and only if it is an admission under a pending id |
| `WebSocketSessions.UnfinishedWorkIsBounded` | worker/websocket.ts:231-244 | in every reachable state the unfinished compiles are the at most 3 counted ones, the orphans and those still being cancelled, each once |
| `WebSocketSessions.FreshIdsBoundTheWork` | worker/websocket.ts:231-244 | until close, with fresh ids at most 3 sessions run at all and only cancelled ones come on top |
| `WebSocketSessions.LimitHoldsExactly` | worker/websocket.ts:231-244 | over every run, at most 3 compiles are ever unfinished if and only if each admission finds fewer than 3 running, orphaned or still being cancelled |
| `WebSocketSessions.CloseForgetsTheWork` | worker/websocket.ts:118-127 | close leaves every compile unfinished, orphans what runs, and lets any id be admitted at once |
| `WebSocketSessions.FourCompilesAtOnce` | worker/websocket.ts:231-244 | the limit is exceeded by a cancellation: a run with four unfinished compiles |
| `WebSocketSessions.StaleTimerOrphansASession` | worker/websocket.ts:354-399 | a run in which a stale timer removes a running session that then cannot be cancelled |
| `Presence.WsHibernation.Accept` | worker/ws-hibernation-do.ts:146-165 | accepting stores one record under the fresh tag |
| `Presence.WsHibernation.UpdateLastActivity` | worker/ws-hibernation-do.ts:344-350 | a message touches an existing record's last activity only |
| `Presence.WsHibernation.Remove` | worker/ws-hibernation-do.ts:304-320 | close, error and disconnect each delete the one record |
| `Presence.WsHibernation.LoadAllSessions` | worker/ws-hibernation-do.ts:332-342 | every stored record once, in listing order |
| `Presence.PresenceEqualsHistory` | worker/ws-hibernation-do.ts:146-325 | the stored sessions are exactly those accepted and not yet removed, with their tag, connectedAt, userId and the time of their last message |
| `Presence.StoredUnderItsTag` | worker/ws-hibernation-do.ts:102 | every record is stored under the session prefix and its own tag |
| `Presence.RemovedForGood` | worker/ws-hibernation-do.ts:344-350 | nothing that arrives later revives a removed session |
| `Presence.ActivityFollowsConnection` | worker/ws-hibernation-do.ts:159-164 | connectedAt is never after lastActivity under a forward clock |
| `JsonPointer.PrintRoundTrip` | scripts/generate-cloudflare-schema.ts:64-67 | printing a path and cutting it back gives the same segments if and only if the path is not empty |
| `JsonPointer.UnescapeUndoesEscape` | scripts/generate-cloudflare-schema.ts:66-67 | the two ordered replacements undo RFC 6901's escaping of any segment |
| `JsonPointer.ReplacesFirstAndGoesOn` | scripts/generate-cloudflare-schema.ts:67 | replaceAll on any text, malformed escapes included: the first pair is replaced and the rest treated after it; without a pair nothing changes |
| `JsonPointer.SplitIsExact` | scripts/generate-cloudflare-schema.ts:67 | the parts hold no slash and join to the text again, for any text |
| `JsonPointer.EscapeTexts` | scripts/generate-cloudflare-schema.ts:66-67 | the escapes of RFC 6901 in literal text, with its example ~01 |
| `JsonPointer.ElementsAreMembers` | scripts/generate-cloudflare-schema.ts:73 | JavaScript element names are exactly RFC 6901's array indices |
| `JsonPointer.ResolvableIsResolved` | scripts/generate-cloudflare-schema.ts:68-75 | what RFC 6901 resolves is never taken for unresolved |
| `JsonPointer.MissingMemberExactly` | scripts/generate-cloudflare-schema.ts:73-75 | where a path goes on from a missing member: the prototype, an inherited function, an array's length, or nowhere |
| `JsonPointer.OutsideResolvesExactly` | scripts/generate-cloudflare-schema.ts:68-75 | the paths that resolve outside the document, in closed form |
| `JsonPointer.AgreesWithRfcExactly` | scripts/generate-cloudflare-schema.ts:68-75 | following a path agrees with RFC 6901 on all documents if and only if its last segment is no inherited property name |
| `JsonPointer.PrintedPathResolves` | scripts/generate-cloudflare-schema.ts:64-76 | resolving a printed path reaches what the path names |
| `RefChecker.Checker.ResolvePointer` | scripts/generate-cloudflare-schema.ts:64-76 | the loop decides whether following all segments reaches a defined value |
| `RefChecker.Checker.VisitRef` | scripts/generate-cloudflare-schema.ts:90-95 | a reference is checked once, when first met |
| `RefChecker.Checker.Walk` | scripts/generate-cloudflare-schema.ts:78-100 | the recursive walk meets the node's references in document order |
| `RefChecker.ValidateLocalRefs` | scripts/generate-cloudflare-schema.ts:60-104 | the returned list is the report of all references met |
| `RefChecker.ReportIsExact` | scripts/generate-cloudflare-schema.ts:89-95 | the report of any sequence of met references holds the unresolved local ones once each, in order of first occurrence |
| `RefChecker.AllRefsAreMet` | scripts/generate-cloudflare-schema.ts:78-100 | the walk meets a reference if and only if some path ending in $ref leads to it |
| `RefChecker.MetExactlyWhereTheyStand` | scripts/generate-cloudflare-schema.ts:78-100 | the walk meets a string if and only if it stands somewhere in the document as a local $ref |
| `RefChecker.ReportHoldsWhatStands` | scripts/generate-cloudflare-schema.ts:60-104 | a string is reported if and only if it stands somewhere and does not resolve |
| `RefChecker.ReportIsInDocumentOrder` | scripts/generate-cloudflare-schema.ts:82-99 | of two reported strings the earlier has a place in the document before all places of the later |
| `RefChecker.ValidationIsExact` | scripts/generate-cloudflare-schema.ts:60-104 | no duplicates, exactly the local references that occur and do not resolve, in first-occurrence order |
| `RefChecker.ReportAgainstRfc` | scripts/generate-cloudflare-schema.ts:60-104 | nothing that RFC 6901 resolves is reported; what it does not resolve is, unless it ends in an inherited property name |
| `Migration.ChunkArray` | scripts/migrate-d1-to-neon.ts:179-185 | the chunks concatenate to the array, all full but the last, none empty |
| `Migration.ChunksAreUnique` | scripts/migrate-d1-to-neon.ts:179-185 | array and size determine the chunks, so every run sends the same batches |
| `Migration.BuildBatchInsert` | scripts/migrate-d1-to-neon.ts:191-217 | placeholder r*cols+c+1 stands for column c of row r, absent values as null; nothing for no rows |
| `Migration.StatementDenotesBatch` | scripts/migrate-d1-to-neon.ts:200-211 | executed by its placeholders, each VALUES clause stores its own row: the first row's columns, each with the row's own value, null only where it is absent or null |
| `Migration.InsertBatches` | scripts/migrate-d1-to-neon.ts:291-305 | the batches go out in order; inserted counts rows of acknowledged batches, errors the others |
| `Migration.MigrateTable` | scripts/migrate-d1-to-neon.ts:233-316 | inserted + skipped = rows and skipped = 0 exactly when no batch failed; a dry run or failed read touches nothing |
| `Migration.DeliveredAgainstAll` | scripts/migrate-d1-to-neon.ts:291-308 | all rows are counted as inserted exactly when no batch failed |
| `Migration.ErrorsAreFailedBatches` | scripts/migrate-d1-to-neon.ts:300-304 | the number of errors is the number of failed batches |
| `Migration.InsertedAreDeliveredRows` | scripts/migrate-d1-to-neon.ts:298-299 | the inserted count is the number of rows of the batches that did not fail |
| `Migration.InsertAtKey` | scripts/migrate-d1-to-neon.ts:214 | ON CONFLICT DO NOTHING keeps present rows and takes a batch's first row under a new key |
| `Migration.RetryConvergesExactly` | scripts/migrate-d1-to-neon.ts:291-305 | any failing runs and then a clean one equal the clean run alone, from every table, if and only if no two batches offer different rows under one key |
| `Migration.DistinctRowsConverge` | scripts/migrate-d1-to-neon.ts:179-308 | rows with distinct values in the conflict column converge from every table when every run sends the same batches, for every batch size and any columns |
| `Migration.AnyBatchingConverges` | scripts/migrate-d1-to-neon.ts:179-308 | rows with uniform columns and distinct conflict values converge from every table to exactly the old table and the new rows, whatever order and batches each run uses and whichever batches fail |
| `SchemaUpload.FindEnabled` | scripts/upload-cloudflare-schema.ts:175-219 | an enabled schema other than the given one, or none such exists |
| `SchemaUpload.FindEnabledIsFirst` | scripts/upload-cloudflare-schema.ts:175-219 | the first such schema is found |
| `SchemaUpload.MostRecentIsNewest` | scripts/upload-cloudflare-schema.ts:220-225 | with readable dates no schema is newer than the chosen one |
| `SchemaUpload.MostRecentIsFirstNewest` | scripts/upload-cloudflare-schema.ts:220-225 | of several newest schemas the first is chosen, and unreadable dates never win |
| `SchemaUpload.NothingNewer` | scripts/upload-cloudflare-schema.ts:220-225 | a schema that none is newer than stays chosen, as does one whose own date is unreadable |
| `SchemaUpload.UnchangedIsFirst` | scripts/upload-cloudflare-schema.ts:146-156 | the schema found is the first whose non-empty source hashes like the local one, or none if there is none |
| `SchemaUpload.UnchangedMissesNone` | scripts/upload-cloudflare-schema.ts:146-156 | none is found if and only if no schema hashes like the local one |
| `SchemaUpload.EnableAndReplace` | scripts/upload-cloudflare-schema.ts:186-276 | enabling before deleting leaves no state without validation, and deletes at most the given schema |
| `SchemaUpload.ReplaceSchema` | scripts/upload-cloudflare-schema.ts:93-280 | for every failure: no moment without validation if it was on, at most one schema deleted, the zone left in one of the stages; on success the exact final zone; and how the script exits in each case |
| `SchemaUpload.UploadReplacesTheRightOne` | scripts/upload-cloudflare-schema.ts:219-277 | after an upload the new schema is enforced, exactly one old one is gone (the first enforced, else with readable dates one that none is newer than), and all else is unchanged |
| `SchemaUpload.ReEnablingReplacesTheRightOne` | scripts/upload-cloudflare-schema.ts:174-206 | after re-enabling, the matched schema is enforced, the first other enforced one is gone, and all else is unchanged |
| `SchemaUpload.UploadKeepsCount` | scripts/upload-cloudflare-schema.ts:219-277 | after a successful upload as many schemas are enforced as before, or one if none was |
| `SchemaUpload.ReEnablingKeepsCount` | scripts/upload-cloudflare-schema.ts:174-206 | the same for the unchanged schema that is enabled without an upload |
| `HeaderGenerator.EveryMatchAgrees` | src/compiler/HeaderGenerator.ts:156-160 | however the pattern matches a line, the trimmed groups are those that are read |
| `HeaderGenerator.CapturesIsAMatch` | src/compiler/HeaderGenerator.ts:156-160 | nothing is read from a line that the pattern does not match |
| `HeaderGenerator.ParseHeader` | src/compiler/HeaderGenerator.ts:148-164 | the fields of the leading ! lines, later ones overriding earlier ones |
| `HeaderGenerator.LastOneWins` | src/compiler/HeaderGenerator.ts:151-161 | each key has the value that a header line said last, and no key is there that none said |
| `HeaderGenerator.ReadingStops` | src/compiler/HeaderGenerator.ts:152-154 | nothing is read from the first line without a mark on |
| `HeaderGenerator.TrimIsExact` | src/compiler/HeaderGenerator.ts:159 | trimming takes away exactly the white space at both ends |
| `HeaderGenerator.SpacesAndLineEnds` | src/compiler/HeaderGenerator.ts:156-159 | the white space and line ends of JavaScript, character by character |
| `HeaderGenerator.LowerIsExact` | src/compiler/HeaderGenerator.ts:159 | keys are lower-cased letter by letter |
| `HeaderGenerator.GenerateListHeader` | src/compiler/HeaderGenerator.ts:32-65 | the printed lines: mark, title, present fields, time, compiler line, custom lines, mark |
| `HeaderGenerator.HeaderText` | src/compiler/HeaderGenerator.ts:33-62 | the printed lines word for word, each field under its own caption and only if present and non-empty |
| `HeaderGenerator.CustomText` | src/compiler/HeaderGenerator.ts:56-60 | each custom line is printed after a mark and a space, in order |
| `HeaderGenerator.LineReadsBack` | src/compiler/HeaderGenerator.ts:33-49 | one printed field line reads back as its caption and value |
| `HeaderGenerator.ReadableExactly` | src/compiler/HeaderGenerator.ts:156-160 | a value survives if and only if it is trimmed and on one line, colons included |
| `HeaderGenerator.HeaderReadsBack` | src/compiler/HeaderGenerator.ts:32-164 | a generated header reads back as its fields and then its custom lines, nothing else |
| `HeaderGenerator.RoundTripExactly` | src/compiler/HeaderGenerator.ts:32-164 | without custom lines, parsing the header returns exactly title, present fields and time, if and only if every printed value is trimmed and single-line |
| `HeaderGenerator.HeaderRoundTrip` | src/compiler/HeaderGenerator.ts:32-164 | in literal keys: title, last modified and each present field under its own key with its own value, and no other key, if and only if every printed value is trimmed and single-line |

## Left out

- HTTP routing, schema validation of request bodies beyond the rate limiter's two numbers, JSON encoding of replies, and logging.
- The runtime's own behaviour: input gates, the one-alarm rule and restore-before-first-request are assumed; a crash between two awaited writes of one handler is not modelled, except that the coordinator may be evicted at any point.
- Whether `deleteAll` also drops a pending alarm differs between runtime versions; both are covered, as a flag of the reset event.
- Status reports are compared across runs only up to the counters of an expired window, which an alarm clears.
- HandleWait: describes an activation that is not cut off; what an eviction does to open waits is a step of the state machine only.
- Coordinator error bodies: a stored error that is not JSON makes `/wait` answer 500 either way, so both are one answer; `/status` of the coordinator only lists fields.
- The last call of `compileWithMetrics` (`src/compiler/IncrementalCompiler.ts:221-231`): `_precompiled` is not read by `src/compiler/SourceCompiler.ts`, so its output is not a function of the cached rules.
- Two compiles that overlap in time on one cache, `getCacheStats`, `delete` and `keys` of the cache, and callers that mutate a cached array of rules.
- SHA-256 and UUIDs: the content hash is an arbitrary value, the schema hash an arbitrary function, session tags are assumed fresh.
- JSON Pointer percent-decoding in URI fragments (section 6 of RFC 6901), which the code does not do; cyclic YAML aliases, sparse arrays, dates and non-integer numbers in documents.
- ValidationIsExact, AllRefsAreMet: assume that the keys of each object are unique, as they are in any parsed document.
- WebSocket frames, heartbeats, pings and event forwarding; the abort controllers, which the compile never reads; timer delays, so timers fire in any order at any time after they are set.
- Broadcast, and the schema check in `loadAllSessions`, which every record written by the object passes.
- The SQL text: the statement is kept as columns, placeholder numbers and parameters. Conflict columns are taken as never null in the target, since SQL would not treat nulls as conflicting.
- Per-table transforms (an arbitrary function on rows, assumed not to throw), `verifyMigration`, durations and message texts; `chunkArray` with size 0 does not terminate and is excluded.
- A schema zone changed by somebody else during the upload script, and the texts it prints.
- Source, section and statistics headers and separators; `toLowerCase` outside ASCII and a `__proto__` key, which only custom lines can contain.
