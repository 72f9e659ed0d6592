# Rate limits, batches, breakers, pages, fan-out and menus, verified

A Dafny model of the parts of a trading service that carry real state: they decide when a call may go
through, which items reach the store, when a broken connection is tried again, which rows a page holds,
how many workflows run at once, and what a menu button does.

Conventions of the whole model:

- Each section that the Go code runs under one lock is one atomic step, as is one run of the Redis
  script. Where sections of several goroutines interleave, a run is any sequence of enabled steps, and
  the theorems hold for all of them. What a caller strings together from several such sections is modelled
  as those sections: a call to the menu navigator is one step only in `MenuSession.dfy`, where calls of one
  user follow one another; `MenuRaces.dfy` takes it apart.
- Clocks are inputs. Tokens and rates are `real`; durations of the reconnect manager are whole
  nanoseconds; where Go truncates a float or wraps a 64-bit integer, the model does so explicitly.
- An object whose methods update its fields is a class. Its methods are proved against functions on
  values, and the theorems about whole histories are lemmas about those functions.
- The answers of stores, exchanges, Redis, the Telegram bot and foreign callbacks are inputs.

| file | what it models |
|---|---|
| `TokenBucket.dfy` | the in-process token bucket, with the run function that the Redis script shares |
| `RedisBucket.dfy` | the bucket shared by many pods: skewed clocks, expiry, comparison with the local one |
| `CommandLimiter.dfy` | the sliding one-minute log of commands per user |
| `BatchWriter.dfy` | the batch writer that hands off its buffer, and all its interleavings |
| `MarketItems.dfy` | typed keys and last-version-wins deduplication |
| `WebSocketConsumer.dfy` | the batching consumer that copies and then reuses one backing array |
| `Reconnect.dfy` | capped exponential backoff and the circuit breaker |
| `MarketDataManager.dfy` | the connection supervisor that drives the breaker |
| `Decimal.dfy`, `Base64.dfy`, `RelayPagination.dfy`, `PageWalk.dfy` | cursors, offset pagination beside the list algorithm, and page walks |
| `OpportunityConsumer.dfy` | the bounded fan-out of workflows |
| `MenuSession.dfy` | menu sessions and their navigator, one call after another |
| `SessionAccesses.dfy` | one user's sessions under any sequence of single locked accesses |
| `MenuRaces.dfy` | the navigator's calls as sequences of accesses, in every interleaving |
| `MenuInTurn.dfy` | calls that do not overlap: runs of `MenuSession.dfy` |
| `MenuOverlap.dfy` | two schedules of overlapping calls in which the sequential theorems fail |
| `MarkdownEscape.dfy` | the Markdown escaping functions |
| `Prelude.dfy` | options, results and two sequence helpers |

Where the code departs from its own documentation or from an obvious intent, the model follows the code:

- `MaxRetries: 0` is documented as "unlimited" (pkg/reconnect/manager.go:46) but becomes 10 in
  `NewManager`, so only a negative value leaves the breaker out.
- A button pushes the screen it leads to, not the one it was pressed on; the first Back therefore shows
  the current screen once more, and the starting screen comes back only by a Back that undoes a button
  which leads there.
- Nothing keeps calls of one user apart, since each update has its own goroutine. Two presses that overlap can
  leave the keys of both keyboards live, and a press that is under way while a new menu is started can put the
  old session back. A key is live exactly as long as no clear of its session object follows its store, and the
  user's session is the object that was created or saved last.
- A cursor is not checked against the list: one that decodes to a number below -1, or so high that the end of
  the page wraps around, makes the resolver slice out of range.
- `last` with `before` does not shrink the limit when the offset is clamped at zero, so such a page can
  reach past the cursor. `Meets` is the exact condition under which offset arithmetic and the list
  algorithm of section 4.4 of the GraphQL Cursor Connections Specification agree.
- The Redis script and the in-process bucket answer alike only if an idle hour refills the whole burst; and
  only then do refused scripts leave no trace, since otherwise they keep a drained key alive.
- A caller can be told "max retries reached" only if someone clears the failures between the check and the
  second read of the state; it is told how many failures have followed.
- Deduplication keys join names with underscores: the key of an item identifies it exactly when its names
  contain none.
- A reconnection is recorded as a success twice: once when the client connects, once by the breaker.
- `Wait` sleeps a truncated number of nanoseconds. Unless the time between two tokens is a whole number of
  them, a lone caller that finds an empty bucket has to sleep a second time.
- `EscapeMarkdown` leaves backslashes alone: still injective, but it reads back only for texts without one.

## Model

| member | source | states |
|---|---|---|
| TokenBucket.Normalize | internal/adapters/ai/rate_limiter.go:38-53 | a burst is always at least one; a given burst is kept, a missing one is a tenth of the minute rate rounded down |
| TokenBucket.TokenBucketLimiter.constructor | internal/adapters/ai/rate_limiter.go:38-53 | the limiter starts with a full bucket and an empty history |
| TokenBucket.TokenBucketLimiter.Allow | internal/adapters/ai/rate_limiter.go:79-102 | the fields stay the run of all calls so far, and a call is granted if and only if no earlier start, construction included, would be overdrawn |
| TokenBucket.TokenBucketLimiter.Wait | internal/adapters/ai/rate_limiter.go:56-76 | undisturbed, the retry loop takes exactly one token when it succeeds and none when it is cancelled or still waiting; cancellation ends it at the first sleep that was cancelled |
| TokenBucket.Envelope | internal/adapters/ai/rate_limiter.go:79-102 | before every decision the bucket holds exactly the least, over all earlier starts, of burst + rate * elapsed - grants since |
| TokenBucket.RefusedIffOverdrawn | internal/adapters/ai/rate_limiter.go:79-102 | a call is refused if and only if some earlier start has less than one token of credit left |
| TokenBucket.WindowBound | internal/adapters/ai/rate_limiter_redis.go:31-68 | with timestamps within delta of execution, even running backwards, any window of length T holds at most burst + rate * (T + 2 delta) grants; delta 0 is the in-process bucket |
| TokenBucket.BoundAttained | internal/adapters/ai/rate_limiter.go:79-102 | that bound is tight: draining the bucket and then calling whenever one more token has come is granted exactly burst + rate * T times in T, for every whole number of tokens |
| TokenBucket.RefusalsInvisible | internal/adapters/ai/rate_limiter.go:79-102 | deleting any refused calls from a history changes no other answer and no later level, with or without missing buckets among the rest |
| TokenBucket.TokensInRange | internal/adapters/ai/rate_limiter.go:83-101 | on a non-decreasing clock the tokens stay between zero and the burst |
| TokenBucket.TwoSleepsCoverOneToken | internal/adapters/ai/rate_limiter.go:63-74 | two truncated sleeps always earn a whole token, up to a rate of one per nanosecond |
| TokenBucket.DrainEmpties | internal/adapters/ai/rate_limiter.go:79-102 | as many calls as the burst, at one moment, leave the bucket empty |
| TokenBucket.LoneWaiterSleepsTwice | internal/adapters/ai/rate_limiter.go:56-76 | one sleep always suffices a lone caller if and only if the time between two tokens is a whole number of nanoseconds, and two if and only if the rate is at most one per nanosecond |
| RedisBucket.SharedBucket.constructor | internal/adapters/ai/rate_limiter_redis.go:71-92 | no key is stored before the first script runs |
| RedisBucket.SharedBucket.RunScript | internal/adapters/ai/rate_limiter_redis.go:31-68 | the stored hash is the run of all scripts so far, starting from a full bucket whenever the key is missing, and the reply is 1 exactly for a grant |
| RedisBucket.SharedWindowBound | internal/adapters/ai/rate_limiter_redis.go:31-68 | for every interleaving of pods with skew delta, a window of length T holds at most burst + rate * (T + 2 delta) grants, if it is shorter than the key's lifetime or burst <= rate * (3600 - 2 delta) |
| RedisBucket.SameRun | internal/adapters/ai/rate_limiter_redis.go:37-67 | on one clock, if an idle hour refills the burst, both buckets find the same level at every call, across expiries |
| RedisBucket.DrainSeparates | internal/adapters/ai/rate_limiter_redis.go:37-67 | otherwise draining, waiting for expiry and draining again gives different answers |
| RedisBucket.InterchangeableIff | internal/adapters/ai/rate_limiter_redis.go:37-67 | the script and the in-process bucket agree on all histories if and only if burst <= 3600 * rate |
| RedisBucket.SharedRefusalsInvisible | internal/adapters/ai/rate_limiter_redis.go:37-67 | when burst <= 3600 * rate, deleting refused scripts changes no later answer even where the key then expires |
| RedisBucket.RefusalsLeaveNoTraceIff | internal/adapters/ai/rate_limiter_redis.go:37-67 | that holds for all histories if and only if burst <= 3600 * rate: a refused script can keep a drained key alive |
| CommandLimiter.RateLimit.Prune | pkg/telegram/middleware.go:79-88 | the loop keeps exactly the entries younger than a minute, in order |
| CommandLimiter.RateLimit.Handle | pkg/telegram/middleware.go:74-104 | the pruned log is the user's full history of accepted times restricted to the last minute, the answer is the one an unpruned log would give, and other users' logs are untouched |
| CommandLimiter.ExactAfter | pkg/telegram/middleware.go:78-101 | pruning and appending keep a log indistinguishable from the full history at every later moment |
| CommandLimiter.RefusedIffMinuteFull | pkg/telegram/middleware.go:90-98 | a command is refused if and only if its user already has maxPerMinute accepted in the past minute |
| CommandLimiter.MinuteBound | pkg/telegram/middleware.go:78-101 | no minute, wherever it starts, holds more than maxPerMinute accepted commands of one user |
| CommandLimiter.UsersIndependent | pkg/telegram/middleware.go:69-101 | alone, a user would get the very same answers |
| BatchWriter.Writer.constructor | pkg/clickhouse/batch_writer.go:49-70 | an empty, idle writer; a size of zero or less becomes 500 |
| BatchWriter.Writer.AppendSection | pkg/clickhouse/batch_writer.go:92-100 | the item is appended and the caller is told whether it filled the buffer |
| BatchWriter.Writer.TakeSection | pkg/clickhouse/batch_writer.go:112-124 | the whole buffer is handed over, in order, and a new one is left; an empty take changes nothing |
| BatchWriter.Writer.Flush | pkg/clickhouse/batch_writer.go:111-139 | an empty buffer succeeds without the store; otherwise the store's answer is returned and the batch is gone from the buffer either way |
| BatchWriter.Writer.Add | pkg/clickhouse/batch_writer.go:91-108 | undisturbed, the buffer is below maxBatchSize after every Add, and a failing store is reported only by the Add that flushed |
| BatchWriter.Writer.Start | pkg/clickhouse/batch_writer.go:73-87 | the loop is spawned only when it is not running |
| BatchWriter.Writer.Stop | pkg/clickhouse/batch_writer.go:182-197 | the stop channel is closed only by the call that finds the writer running |
| BatchWriter.StepKeepsInv | pkg/clickhouse/batch_writer.go:91-178 | every step of adders, callers, the ticker and the loop keeps conservation and the buffer bound |
| BatchWriter.FillersAreUnflushed | pkg/clickhouse/batch_writer.go:91-125 | the Adds about to flush are exactly those that filled the buffer less those that have taken it |
| BatchWriter.MarkIsFinalTake | pkg/clickhouse/batch_writer.go:147-161 | a loop that is on its way out made its final take at some step of the schedule, and remembers how many items had been appended by then |
| BatchWriter.EveryScheduleHandsOffOnce | pkg/clickhouse/batch_writer.go:91-178 | in every schedule the batches in lock order followed by the buffer are the items that its Adds have brought; the buffer exceeds maxBatchSize - 1 by at most the Adds that filled it and have not flushed; after the loop has exited only items appended since its final take are left |
| BatchWriter.HistoryOnlyGrows | pkg/clickhouse/batch_writer.go:111-178 | batches handed out are never rewritten, a settled delivery never changes, an exited loop stays exited |
| BatchWriter.TakesHandOver | pkg/clickhouse/batch_writer.go:111-178 | in every schedule each of the four flushes, of a filling Add, a caller, the ticker and the end, leaves the buffer empty and hands exactly what was in it to the store as one more batch, or nothing if it was empty |
| BatchWriter.TickIsFlushed | pkg/clickhouse/batch_writer.go:163-175 | a tick that finds something in the buffer is followed by a flush: whatever others do in between, it can be made at any time and is the loop's next step |
| BatchWriter.AnswersAreRecorded | pkg/clickhouse/batch_writer.go:126-138 | in every schedule a batch counts as stored, or as failed, if and only if the store has said so |
| BatchWriter.StartedAndStopped | pkg/clickhouse/batch_writer.go:73-197 | in every schedule the writer runs between Start and Stop, and the loop is where its own steps have brought it |
| BatchWriter.NobodyWaits | pkg/clickhouse/batch_writer.go:91-197 | at every moment each call may append or flush, the store may answer either way what it has not answered, and an idle loop may tick, or stop once its context is cancelled or Stop was called |
| BatchWriter.ExitMeansSettled | pkg/clickhouse/batch_writer.go:147-161 | once the loop has exited, the batch of its final flush has been answered |
| BatchWriter.StopDrains | pkg/clickhouse/batch_writer.go:141-197 | from every reachable state after a Stop the loop reaches its end on its own steps and the store's answers alone, with an empty buffer if nobody adds and its final take is still to come |
| MarketItems.KeysTellApart | internal/consumers/websocket_consumer.go:650-687 | two items of one type whose names contain no underscore share a key if and only if the fields behind it agree, their times taken in whole seconds or milliseconds |
| MarketItems.SeparatorCollides | internal/consumers/websocket_consumer.go:650-687 | for every type, an item with an underscore in a name has another item with other fields under the same key |
| MarketItems.KeyIdentifiesIff | internal/consumers/websocket_consumer.go:650-687 | for every type, a key belongs to one set of fields alone if and only if no name among them contains an underscore |
| MarketItems.KeyIsFact | internal/consumers/websocket_consumer.go:650-687 | in the items' own fields: without underscores in the names, two items share a typed key if and only if they are of one type, their names agree, and their times lie in the same second (candles, tickers, books, mark prices) or millisecond (liquidations, with equal price), or their trade numbers are equal |
| MarketItems.WinnerIsFirstLatest | internal/consumers/websocket_consumer.go:558-622 | the item kept for a key is the first arrival among those with the greatest event time |
| MarketItems.Note | internal/consumers/websocket_consumer.go:560-621 | one turn of the loop extends what the six maps hold by exactly that item |
| MarketItems.AppendValues | internal/consumers/websocket_consumer.go:624-643 | in any iteration order, a map adds the winner of each of its keys once |
| MarketItems.Deduplicate | internal/consumers/websocket_consumer.go:545-646 | the result is exactly one item per typed key, its winner, and is never longer than the batch |
| MarketItems.DedupKeepsLeaders | internal/consumers/websocket_consumer.go:545-646 | with plain names, exactly the items are kept that are the first arrival among the latest reports on the same thing, told by their fields |
| MarketItems.DedupKeepsWinners | internal/consumers/websocket_consumer.go:545-646 | no key's winner is changed by deduplication |
| MarketItems.BoundariesDoNotMatter | internal/consumers/websocket_consumer.go:545-646 | however a stream is cut into batches, deduplicating them first and then the whole gives the same results as deduplicating the whole |
| MarketItems.DedupIsStable | internal/consumers/websocket_consumer.go:545-646 | idempotent, and all results for one batch hold the same items, no more than the batch |
| WebSocketConsumer.Consumer.constructor | internal/consumers/websocket_consumer.go:68-85 | an empty batch on a new array and zero counters |
| WebSocketConsumer.Consumer.Append | internal/consumers/websocket_consumer.go:482 | appends in place while there is room and otherwise into a new array, with the same contents |
| WebSocketConsumer.Consumer.AddToBatch | internal/consumers/websocket_consumer.go:478-493 | one Add step of the schedules: the item joins the pending ones, and no copy in flight changes although the backing array is written |
| WebSocketConsumer.Consumer.TakeCopy | internal/consumers/websocket_consumer.go:497-509 | one Copy step: the copy is a new array with the pending items, and the backing array is kept and emptied |
| WebSocketConsumer.Consumer.HandOver | internal/consumers/websocket_consumer.go:513-541 | one Hand step: what is handed to the store is the deduplicated batch as it was copied, however many items were added since, and the counter rises by the items dropped |
| WebSocketConsumer.Consumer.FlushBatch | internal/consumers/websocket_consumer.go:496-541 | undisturbed, a Copy and a Hand step of the pending batch, or nothing when there is none; the answer is the store's |
| WebSocketConsumer.StepKeepsInv | internal/consumers/websocket_consumer.go:478-541 | adds, copies and handovers in any order conserve the items and the count of those dropped |
| WebSocketConsumer.NoLatestVersionLost | internal/consumers/websocket_consumer.go:478-541 | in every schedule the copied batches followed by the pending items are the items that its steps have brought, and for each typed key the item that deduplicating everything would keep still exists and still wins |
| WebSocketConsumer.FlushesSettle | internal/consumers/websocket_consumer.go:496-541 | every copied batch is handed over at most once, and neither it nor its result changes afterwards |
| WebSocketConsumer.CopyTakesAll | internal/consumers/websocket_consumer.go:496-509 | in every schedule a flush copies all that is pending and leaves nothing; nothing pending makes no batch |
| WebSocketConsumer.HandedIff | internal/consumers/websocket_consumer.go:513-541 | in every schedule a batch counts as handed over, with this result, if and only if some flush has handed it over |
| Reconnect.WithDefaults | pkg/reconnect/manager.go:53-88 | zeros become the defaults, maxRetries 0 becoming 10, and a complete configuration is kept |
| Reconnect.Manager.constructor | pkg/reconnect/manager.go:53-88 | a closed circuit, no failures, the least backoff |
| Reconnect.Manager.RecordMessageReceived | pkg/reconnect/manager.go:92-94 | only the time of the last message changes, in whole seconds |
| Reconnect.Manager.IsHealthy | pkg/reconnect/manager.go:97-131 | healthy means a closed circuit and no message yet or a recent one; the branch on the reset period makes no difference |
| Reconnect.Manager.ShouldRetry | pkg/reconnect/manager.go:134-153 | an open circuit admits only after the reset period, a closed one while retries are left |
| Reconnect.Manager.RecordFailure | pkg/reconnect/manager.go:163-192 | one more failure, the backoff multiplied, truncated and capped, and the circuit opened when the retries are used up |
| Reconnect.Manager.RecordSuccess | pkg/reconnect/manager.go:195-221 | failures, backoff and circuit are reset and the success is counted |
| Reconnect.Manager.ResetCircuit | pkg/reconnect/manager.go:224-235 | a manual reset clears an open circuit and is without effect on a closed one |
| Reconnect.Manager.Admit | pkg/reconnect/manager.go:276-304 | an attempt is refused, cancelled while waiting its backoff, or goes on after waiting exactly that long |
| Reconnect.Manager.ReconnectWithBackoff | pkg/reconnect/manager.go:276-316 | the outcome and the whole new state of one attempt by a sequential caller |
| Reconnect.BackoffBounds | pkg/reconnect/manager.go:169-174 | after n failures the backoff is min(maxBackoff, minBackoff * mult^n) up to what n truncations can lose |
| Reconnect.BackoffExact | pkg/reconnect/manager.go:169-174 | for a whole multiplier it is min(maxBackoff, minBackoff * mult^n) exactly |
| Reconnect.BackoffExactIff | pkg/reconnect/manager.go:169-174 | for any multiplier it is so up to n failures if and only if every uncapped value up to there that does not exceed the cap is a whole number of nanoseconds |
| Reconnect.StepKeepsInv | pkg/reconnect/manager.go:134-235 | attempts, successes and manual resets keep the breaker invariant and the time bound |
| Reconnect.Reachable | pkg/reconnect/manager.go:134-235 | in every reachable state the circuit is open if and only if the retries are used up, the backoff is the closed form, and the n-th failure in a row has cost all its waiting and, past maxRetries, a reset period each besides |
| Reconnect.StreakAttained | pkg/reconnect/manager.go:134-192 | that time is the least possible: a run of attempts each made as soon as it is admitted takes exactly as long |
| Reconnect.RefusalIsOpenCircuit | pkg/reconnect/manager.go:276-310 | every answer to a sequential caller in every reachable state: never "max retries reached"; a refusal is the open circuit within its reset period; a cancelled context ends the wait if there is one and is not looked at otherwise; refused and cancelled attempts change nothing |
| Reconnect.FailuresSinceClear | pkg/reconnect/manager.go:163-235 | whatever sequence of failures, successes, resets and messages follows, the failures are those since the last event that cleared them, the backoff is the closed form of their number, and the circuit is open if and only if they use up the retries |
| Reconnect.HeartbeatIsLatest | pkg/reconnect/manager.go:92-94 | whatever sequence of failures, successes, resets and messages follows, the heartbeat is the whole second of the latest success or message, or never |
| Reconnect.HealthyIff | pkg/reconnect/manager.go:97-131 | after any such sequence the manager is healthy if and only if the failures since the last clearing leave the circuit closed and nothing was heard yet or what was heard last is at most heartbeatTimeout ago, counted from its second (the first second of 1970 counts as never) |
| Reconnect.RetriesReachedOnlyByRace | pkg/reconnect/manager.go:276-287 | for any events between the check and the second read, a refused caller is told "max retries reached" if and only if one of them cleared the failures and fewer than maxRetries followed, and it is told their number |
| Reconnect.FailuresPerSpan | pkg/reconnect/manager.go:134-192 | in a success-free span of any run failures are as far apart as in one streak: each costs its waiting, and all but maxRetries of them a reset period, so they number at most maxRetries + span / circuitResetAfter |
| MarketDataManager.Supervisor.constructor | internal/adapters/websocket/market_data_manager.go:46-80 | disconnected, with its own five-retry settings when no least backoff is given |
| MarketDataManager.Supervisor.Connect | internal/adapters/websocket/market_data_manager.go:103-128 | a success is recorded only when connecting and starting both succeed; otherwise nothing changes |
| MarketDataManager.Supervisor.Start | internal/adapters/websocket/market_data_manager.go:83-100 | one attempt, carried on from whatever comes of it |
| MarketDataManager.Supervisor.Reconnect | internal/adapters/websocket/market_data_manager.go:218-247 | connected afterwards exactly if both steps succeeded, and counted only then |
| MarketDataManager.Supervisor.PerformHealthCheck | internal/adapters/websocket/market_data_manager.go:179-214 | between checks failures imply disconnected and the breaker counts every reconnection twice; a healthy connection, a refusal and a cancellation change nothing; "max retries reached" never comes |
| MarketDataManager.Supervisor.Stop | internal/adapters/websocket/market_data_manager.go:131-144 | disconnected, with the invariant kept |
| Decimal.ParseFormat | pkg/relay/pagination.go:78-102 | every 64-bit integer survives printing and parsing |
| Decimal.ParsesIff | pkg/relay/pagination.go:95-99 | a text is read as a number if and only if it is an optional sign, any zeros and the digits of a 64-bit integer |
| Base64.RoundTrip | pkg/relay/pagination.go:78-102 | every byte sequence survives padded base64, section 4 of RFC 4648 |
| Base64.OnlyEncodingsDecode | pkg/relay/pagination.go:84-88 | newlines and ignored low bits aside, only encodings decode |
| Base64.AlphabetIs | pkg/relay/pagination.go:78-81 | the letters are those of table 1 of RFC 4648 |
| Base64.SameBits | pkg/relay/pagination.go:78-81 | four letters are the 24 bits of three bytes, highest first |
| Base64.PaddingIs | pkg/relay/pagination.go:78-81 | an encoding ends in exactly as many padding characters as bytes are missing from the last three |
| Base64.NewlinesSkipped | pkg/relay/pagination.go:84-88 | carriage returns and line feeds change nothing wherever they stand |
| RelayPagination.CursorRoundTrip | pkg/relay/pagination.go:78-102 | decoding an encoded offset gives it back, for every 64-bit integer |
| RelayPagination.CursorText | pkg/relay/pagination.go:78-81 | a cursor is the base64 of "cursor:" and the decimal offset |
| RelayPagination.DecodesIff | pkg/relay/pagination.go:84-102 | a cursor decodes to an offset if and only if it is some base64 of "cursor:" and a spelling of that 64-bit integer; and which fault is reported otherwise |
| RelayPagination.CursorsInjective | pkg/relay/pagination.go:78-81 | different offsets have different cursors |
| RelayPagination.ValidExactly | pkg/relay/pagination.go:41-59 | exactly the requests are let through on which the list algorithm throws no error and which do not mix two sizes or two cursors; and which of several faults is reported |
| RelayPagination.RequestFailsIff | internal/api/graphql/resolvers/strategy.resolvers.go:156-178 | a request fails if and only if the list algorithm throws on it, it mixes directions, a cursor does not decode, or its numbers lead the slice out of range |
| RelayPagination.EdgeCursorsContinue | pkg/relay/pagination.go:105-202 | from the cursor of any edge, the page before it never fails and ends right before the edge as far as a whole page fits; the page after it starts right behind it, and fails exactly for a size that leads past the largest integer |
| RelayPagination.CalculateOffsetLimit | pkg/relay/pagination.go:155-202 | the step-by-step overwriting of the offset amounts to one rule: before decides, then last, then after |
| RelayPagination.NewConnection | pkg/relay/pagination.go:105-151 | each item gets the cursor of its position; forward and backward page information are the same |
| RelayPagination.WindowOf | pkg/relay/pagination.go:155-202 | for every request whose cursors decode: unless its numbers lead out of range, neither the window nor its end wraps around or is negative; if they do, the offset or the wrapped end is negative |
| RelayPagination.NegativeOffsetIff | pkg/relay/pagination.go:163-169 | the offset is negative if and only if `after` alone decides it and carries a number below -1 or the largest integer |
| RelayPagination.NegativeCursorFails | internal/api/graphql/resolvers/strategy.resolvers.go:160-178 | an input for that: the cursor of -5 gives the window (-4, 10), and no list can be sliced there |
| RelayPagination.SliceOf | internal/api/graphql/resolvers/strategy.resolvers.go:160-178 | a valid request is answered with the edges of the whole list at the window's positions, or fails if its numbers lead out of range |
| RelayPagination.SpecIsRange | pkg/relay/pagination.go:153-202 | the list algorithm, too, returns an interval of the list, in closed form |
| RelayPagination.OffsetFormMeetsSpec | pkg/relay/pagination.go:105-202 | for all valid requests whose cursors decode, whoever made them, and all lists: the offset form fails if and only if the numbers lead out of range, and otherwise returns the list algorithm's edges if and only if the condition `Meets` on request and length holds |
| RelayPagination.PageInfoExact | pkg/relay/pagination.go:123-144 | the flags say exactly whether elements exist after and before the page, and the cursors are those of its ends; a page without edges has neither |
| PageWalk.ForwardIsChunks | pkg/relay/pagination.go:105-202 | following EndCursor cuts the list into consecutive pages from any position, as long as the last page does not lead past the largest integer |
| PageWalk.ForwardStops | pkg/relay/pagination.go:105-202 | otherwise the walk ends before the end of the list |
| PageWalk.ForwardWalkCoversOnce | pkg/relay/pagination.go:105-202 | it ends after ceil(N/k) pages whose concatenation is the whole list if and only if the last page does not lead past the largest integer |
| PageWalk.ForwardWalkOfSlices | pkg/relay/pagination.go:105-202 | so it does for every page size on lists of up to half the largest integer |
| PageWalk.BackwardIsChunks | pkg/relay/pagination.go:105-202 | following StartCursor cuts full pages from the back, the last one clamped at the front |
| PageWalk.BackwardWalkCovers | pkg/relay/pagination.go:105-202 | it also ends after ceil(N/k) pages, none for the empty list, and covers every item; only the clamped page repeats, exactly k minus what whole pages leave over |
| OpportunityConsumer.Concurrency | internal/consumers/opportunity_consumer.go:49-51 | the limit is the setting if that is positive, and five otherwise |
| OpportunityConsumer.FilterInterested | internal/consumers/opportunity_consumer.go:141-156 | the loop computes the filter, skipping allocations that do not parse |
| OpportunityConsumer.InterestedExact | internal/consumers/opportunity_consumer.go:141-156 | each strategy is kept as often as it was there if its allocations parse and name the symbol, never otherwise |
| OpportunityConsumer.InterestedInOrder | internal/consumers/opportunity_consumer.go:141-156 | and in the order in which they came |
| OpportunityConsumer.ActionKeepsInv | internal/consumers/opportunity_consumer.go:169-283 | every action on semaphore, wait group, contexts and handler keeps: one workflow at most per position, for that position's own user, who is active with the circuit breaker on; semaphore and wait group count exactly who runs and who is left |
| OpportunityConsumer.CleanReturnLeavesNobody | internal/consumers/opportunity_consumer.go:246-264 | a return through `done` leaves no workflow running, waiting or able to start |
| OpportunityConsumer.FanOutIsBounded | internal/consumers/opportunity_consumer.go:113-286 | in every run each event has at most maxConcurrency running, at most one for each strategy whose allocations name the symbol and only for its own user, active and with the circuit breaker on, and all events together at most maxConcurrency * (1 + events given up after both timeouts) |
| OpportunityConsumer.ShutdownStopsStarts | internal/consumers/opportunity_consumer.go:172-217 | once the shutdown is seen, the workflows' context is cancelled and at most one more workflow of the event is ever started: the one whose check had already passed |
| OpportunityConsumer.StepMoves | internal/consumers/opportunity_consumer.go:169-283 | what each step of a run moves: a launch starts exactly one workflow if the user is found active with the circuit breaker on, and none otherwise; workflows start only while the semaphore has room, and give up only once cancelled; the loop goes through all positions unless it sees a shutdown; a clean return needs an empty wait group |
| OpportunityConsumer.EventBegins | internal/consumers/opportunity_consumer.go:113-187 | an event is taken up exactly when the last handler has returned, either way, with no workflow yet and before the first strategy that names its symbol |
| OpportunityConsumer.EventCanFinish | internal/consumers/opportunity_consumer.go:187-264 | from every reachable state there is a way to a clean return with every workflow gone; once the context is cancelled, without any further workflow running |
| OpportunityConsumer.TimeoutsReturn | internal/consumers/opportunity_consumer.go:172-283 | the two timeouts always bring the handler back, and a shutdown or the workflow deadline may come at any moment and cancels |
| MarkdownEscape.EscapeReadsBack | pkg/templates/helpers.go:40-84 | with the backslash among the specials, a reader for which a backslash escapes the next character gets every text back and meets no bare special |
| MarkdownEscape.V2ReadsBack | pkg/templates/helpers.go:40-84 | so do the three MarkdownV2 functions |
| MarkdownEscape.PlainReadsBackIff | pkg/templates/helpers.go:9-32 | without the backslash among the specials a text reads back if and only if it contains none |
| MarkdownEscape.EscapeMarkdownReadsBackIff | pkg/templates/helpers.go:9-32 | this is the case of EscapeMarkdown |
| MarkdownEscape.EscapingIsInjective | pkg/templates/helpers.go:9-84 | no two texts are escaped alike, whatever the specials |
| MarkdownEscape.SpecialsAre | pkg/templates/helpers.go:9-84 | the four functions work character by character, and exactly the listed characters of each get a backslash |
| MarkdownEscape.SequentialIff | pkg/templates/helpers.go:40-64 | one pass equals applying the pairs one after another, on all texts, if and only if no backslash comes after the first pair |
| MarkdownEscape.V2Sequential | pkg/templates/helpers.go:40-84 | the three MarkdownV2 functions are in that case |
| MenuSession.InMemorySession.constructor | pkg/telegram/session_memory.go:25-42 | no message, no callbacks, an empty stack, the given data |
| MenuSession.InMemorySession.SetMessageID | pkg/telegram/session_memory.go:58-64 | only the message changes |
| MenuSession.InMemorySession.SetCurrentScreen | pkg/telegram/session_memory.go:73-79 | only the screen changes |
| MenuSession.InMemorySession.SetMenuType | pkg/telegram/session_memory.go:88-94 | only the menu type changes |
| MenuSession.InMemorySession.SetData | pkg/telegram/session_memory.go:104-110 | one datum is set and nothing else changes |
| MenuSession.InMemorySession.PushScreen | pkg/telegram/session_memory.go:126-132 | only the stack changes, by one screen on top |
| MenuSession.InMemorySession.PopScreen | pkg/telegram/session_memory.go:134-149 | undoes a push; an empty stack stays as it is |
| MenuSession.InMemorySession.SetCallbackData | pkg/telegram/session_memory.go:172-178 | one callback is stored and nothing else changes |
| MenuSession.InMemorySession.ClearCallbackData | pkg/telegram/session_memory.go:188-194 | no callback is left and nothing else changes |
| MenuSession.InMemorySession.MakeCallback | pkg/telegram/menu_navigator.go:243-271 | exactly one callback is stored, under the key: for each name the value of its last whole pair among the arguments, or else the target and the menu type; an odd last argument is ignored |
| MenuSession.InMemorySessionService.constructor | pkg/telegram/session_memory.go:203-207 | nobody has a session |
| MenuSession.InMemorySessionService.CreateSession | pkg/telegram/session_memory.go:256-264 | the user gets a new object, whatever was there |
| MenuSession.InMemorySessionService.GetSession | pkg/telegram/session_memory.go:210-220 | the object held for the user, if any |
| MenuSession.InMemorySessionService.SaveSession | pkg/telegram/session_memory.go:223-235 | the user's session is the saved object, whatever it was before |
| MenuSession.InMemorySessionService.DeleteSession | pkg/telegram/session_memory.go:238-244 | the user has no session and all others keep theirs |
| MenuSession.MenuNavigator.ShowScreen | pkg/telegram/menu_navigator.go:332-411 | with no other call of the user under way: the whole new session for every way in which data, template, keyboard, edit or send may fail |
| MenuSession.MenuNavigator.GoBack | pkg/telegram/menu_navigator.go:414-435 | with no other call of the user under way: pops before it looks the screen up |
| MenuSession.MenuNavigator.FileParams | pkg/telegram/menu_navigator.go:209-212 | the loop over the map stores every parameter, in whatever order it comes |
| MenuSession.MenuNavigator.HandleFor | pkg/telegram/menu_navigator.go:148-238 | with no other call of the user under way: the whole new session and the reply, in the source's order of checks |
| MenuSession.MenuNavigator.HandleCallback | pkg/telegram/menu_navigator.go:142-238 | with no other call of the user under way: an unknown user is refused; otherwise only that user's session changes |
| MenuSession.MenuNavigator.StartMenu | pkg/telegram/menu_navigator.go:84-138 | with no other call of the user under way: the user's old session is replaced by a new one and all others stay |
| MenuSession.ParamsComplete | pkg/telegram/menu_navigator.go:243-253 | a stored callback holds the screen, the menu type and every parameter that its button passes and nothing else; each with the value of its last whole pair, or else the button's target and the session's menu type |
| MenuSession.StoredByButtons | pkg/telegram/menu_navigator.go:243-259 | every stored callback was made by a button of the keyboard |
| MenuSession.ActKeepsInv | pkg/telegram/menu_navigator.go:84-271 | every press that no other overlaps, failing or not, keeps the stored callbacks equal to those of the latest keyboard build |
| MenuSession.OnlyLatestKeyboardLives | pkg/telegram/menu_navigator.go:84-271 | in every run of presses one after another, errors or not, the stored callbacks are those made by the buttons of the latest keyboard build, with this session's menu type and a screen; "from another menu" is answered if and only if the button itself passes a different, non-empty menu type |
| MenuSession.KeyLivesUntilSuperseded | pkg/telegram/menu_navigator.go:84-271 | in every such run with fresh keys, a key stays in the latest keyboard until the first later press that builds one anew or starts or ends the session, and never comes back |
| MenuSession.OldButtonsRefused | pkg/telegram/menu_navigator.go:142-165 | in every such run with fresh keys, a drawn button is refused as expired if and only if such a press has come since |
| MenuSession.PressFilesParams | pkg/telegram/menu_navigator.go:193-217 | in every such run a press that passes all checks leaves the session's data exactly with the parameters of the button that was pressed, but for the screen, and with the menu type; any other press leaves the data alone |
| MenuSession.MismatchHappens | pkg/telegram/menu_navigator.go:175-184 | an input on which the mismatch is answered: a button that passes "_menu_type" |
| MenuSession.MovesReduce | pkg/telegram/menu_navigator.go:142-238 | for shown buttons and Backs one after another in any order, the stack is the push and pop reduction of the moves, and the screen is the one last pushed or popped |
| MenuSession.BackRetracesTargets | pkg/telegram/menu_navigator.go:414-435 | in any such mix a Back undoes the last unmatched button: it shows that button's target and leaves the stack as it was before it, so the first Back after a button shows the current screen again |
| MenuSession.StackOfTargets | pkg/telegram/menu_navigator.go:226-230 | everything on a stack that was empty at first is the target of some earlier button |
| MenuSession.StartScreenReturnsIff | pkg/telegram/menu_navigator.go:414-435 | so a Back shows the starting screen if and only if the button it undoes leads there |
| SessionAccesses.KeyLiveIff | pkg/telegram/session_memory.go:172-194 | for every sequence of accesses by whichever calls: a key is live in a session object if and only if some access stored it there and no clear of that object has come since |
| SessionAccesses.CallbackStoredBy | pkg/telegram/session_memory.go:172-194 | and it holds what the last such store gave it |
| SessionAccesses.CurrentIff | pkg/telegram/session_memory.go:210-264 | for every sequence of accesses: an object is the user's session if and only if the last creation, deletion or save created or saved it |
| SessionAccesses.ReplacedReturnsIff | pkg/telegram/session_memory.go:223-264 | a replaced session comes back if and only if the last save since its replacement, if any, is of it |
| SessionAccesses.StackReduces | pkg/telegram/session_memory.go:126-149 | for every sequence of accesses: the stack of an object is the reduction of all pushes and pops on it |
| SessionAccesses.PopUndoesPush | pkg/telegram/session_memory.go:126-149 | whoever pops undoes the last unmatched push on that object |
| MenuRaces.SchedulesAreSound | pkg/telegram/menu_navigator.go:84-435 | every interleaving of the calls is a sequence of accesses to existing objects, so that all these theorems hold for it |
| MenuRaces.ServiceFollows | pkg/telegram/menu_navigator.go:84-435 | and the sessions after any number of turns are those after these accesses |
| MenuRaces.PointerWasCurrent | pkg/telegram/menu_navigator.go:142-148 | in every schedule a press works on the object that was the user's session when it began, whatever has become of it since |
| MenuRaces.CommitsItsSession | pkg/telegram/menu_navigator.go:120-410 | in every schedule the user's session is the call's own object right after it has placed its starting screen, filed its parameters, moved, built its keyboard, or been shown, whoever had replaced it |
| MenuRaces.StartDropsSession | pkg/telegram/menu_navigator.go:86-101 | in every schedule a call that starts a menu over a session leaves the user without one by its next turn |
| MenuRaces.PressRefusedIff | pkg/telegram/menu_navigator.go:142-165 | in every schedule a press is refused as expired if and only if its key is not live in that object when it looks |
| MenuRaces.OldButtonRefusedIff | pkg/telegram/menu_navigator.go:142-165 | in every schedule with fresh keys, a press on a drawn button is refused if and only if it began on another object or a clear of the object came between the store and the look |
| MenuRaces.BackUndoesPush | pkg/telegram/menu_navigator.go:414-435 | in every schedule a Back goes to the target of the last unmatched push on its object, by whichever calls, and leaves the stack as it was before that push |
| MenuRaces.KeyboardIntactIff | pkg/telegram/menu_navigator.go:349-380 | in every schedule with fresh keys, an object holds exactly one call's keyboard if and only if no clear has come after its stores and one has come after every store of another call |
| MenuRaces.QuietBuild | pkg/telegram/menu_navigator.go:349-380 | as long as no other call clears the object, stores in it or renames its menu since a call has cleared it, it holds exactly the callbacks of the buttons which that call has drawn so far |
| MenuInTurn.OutcomeKept | pkg/telegram/menu_navigator.go:84-435 | while no other call gets a turn, each access of a call keeps what will come of it: the sequential outcome |
| MenuInTurn.CallIsPress | pkg/telegram/menu_navigator.go:84-435 | a call whose turns no other interrupts has the session and the reply of one press of the sequential model |
| MenuInTurn.CallEnds | pkg/telegram/menu_navigator.go:84-435 | every call that is given enough turns in a row ends |
| MenuInTurn.TurnsAreRun | pkg/telegram/menu_navigator.go:84-435 | a schedule in which the calls follow one another is a run of presses, in sessions and replies, so that the theorems on runs hold for it |
| MenuOverlap.TwoKeyboardsLive | pkg/telegram/menu_navigator.go:349-380 | a schedule in which two presses both clear and then both draw: both keyboards' keys are live |
| MenuOverlap.ReplacedSessionReturns | pkg/telegram/menu_navigator.go:226-235 | a schedule in which a press saves after a new menu was started and shown: the old session is back, its buttons are live and the new one's is not |

## Left out

- Foreign calls (Kafka, protobuf, ClickHouse, Redis transport, Postgres, exchanges, language models, the Telegram bot, logging, metrics): success, failure or refusal is an input.
- Rounding of floating-point tokens, rates and backoff products: they are computed over `real`; only conversions to integers truncate, and a backoff product beyond 64 bits is not modelled.
- A rate of zero or less in `Wait`, where Go's conversion of an infinite float to a duration is not defined by the language.
- `Wait`, `Allow`, `Reset` and the statistics of the Redis limiter: the same retry loop around the script, with one more error path.
- TokenBucket.TokenBucketLimiter.Wait: callers that come between its attempts are not in its count; what they are answered is in `Allow`, whose contract is about the whole history.
- Deadlock freedom and fairness: the theorems are about safety.
- The data race of concurrent handlers on the command limiter's map: its commands are handled one at a time.
- BatchWriter.EveryScheduleHandsOffOnce: a run has one `Start`, because the stop channel stays closed after `Stop`; the timeout of `Stop` and the age that only sets the ticker's period are not modelled.
- OpportunityConsumer.FanOutIsBounded: a timer may fire at any moment, so the lengths of the timeouts (45, 60, 15 and 5 seconds) play no part; events and goroutines are steps on values.
- MarketDataManager.Supervisor.PerformHealthCheck: a `Stop` that overlaps a running check, and a second supervisor on the same breaker, are not modelled.
- Reconnect.FailuresPerSpan: a sequential caller; attempts that overlap are covered only by `FailuresSinceClear` and `RetriesReachedOnlyByRace`.
- Claims about message traffic: nothing that is modelled calls `RecordMessageReceived`.
- `CalculateJitter`: it reads clock bits as a floating-point number, so nothing useful holds.
- RelayPagination.OffsetFormMeetsSpec: sizes and list lengths beyond a 64-bit integer, which Go cannot express, are outside it; requests that fail validation or do not decode are `RequestFailsIff`.
- PageWalk.ForwardWalkCoversOnce: the walk takes a bound on its pages to be a total function; the theorem holds for every bound above the length of the list, which is that of the client's snapshot: rows inserted or deleted between two pages are not modelled.
- The text of a liquidation's price (two decimals of a float) is an input of its key; all that is said of it is that it contains no underscore.
- MenuSession.MenuNavigator.ShowScreen: the automatic Back button of the keyboard is not part of the session; screens' callbacks succeed, fail or make buttons. One that writes to the session otherwise is covered only by the theorems of `SessionAccesses.dfy`, which hold for any accesses.
- MenuRaces.SchedulesAreSound: the calls of one user; those of different users touch different objects. The dispatch of an update to one of these calls is not modelled.
- Session lifetimes and the cleanup of expired sessions; parameters and initial data that are not strings; saving an in-memory session, which never fails.
- `SafeText` and the removal of invalid UTF-8: texts are sequences of characters.
- The other middleware, menus, registries, pagination filters and scopes, configuration, start-up and shutdown order, workers and the front end would add only easy members or straight-line code.
