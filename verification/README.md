# Verified model of the admission-control and metering machinery

This project models, in Dafny, the code every tool call and every sampling call passes through — rate
limiters, the sampling quota, the concurrency limiters and their drains, the schema cache — together with
three translations in which a piecewise form has to agree with a simple one: the event stream between
bridge and sandbox, the normalisation of IPv4 spellings, and the merging of configurations. The grammar of
tool names completes it. `dafny verify dfyconfig.toml` checks everything.

## How it is built

Objects whose methods change their fields are classes. Each method is specified outright: its new state
and result are a function of the old state and the arguments (`Spend`, `Judge`, `Acquired`, `Apply`, ...).
What the system promises is then proved about those functions, over every run (a sequence of events) or
every interleaving (a sequence of steps, each being the code between two awaits or inside one lock).
The bridge server, the client pool and the schema cache carry the run performed so far as a ghost history, and their
methods' contracts state the bounds proved for every run.

| file | subject |
|---|---|
| `RateLimiting`, `TokenBucketProofs`, `TokenBucketCleanup`, `TokenBucketWaits` | token bucket with lazy refill; its clean-up; refusals; the quota counters |
| `SlidingWindow` | per-client sliding window |
| `SamplingQuota`, `SamplingLedger`, `SamplingBridge` | quota protocol of the sampling bridge; the same told from the events alone; and the server performing it step by step |
| `RequestQueue`, `QueueDeadlines` | FIFO overflow queue with expiry; what a deadline decides over runs |
| `ClientPool`, `ClientPoolGrants`, `ClientPoolCallers`, `ClientPoolBarges`, `MCPClientPooling` | concurrency protocol of `callTool`: counts, who is granted a slot, the steps of one caller, how far the limit can be exceeded; and the pool object performing it |
| `ConnectionPooling`, `ProxyDrain` | slot pool and its drain; request tracking and drain of the proxy |
| `SchemaCaching`, `SchemaLifetimes`, `SchemaStore`, `SchemaSelection` | single-flight schema cache: the protocol, how long an answer is served, the cache object performing it, and which entries of the file are loaded |
| `EventStream`, `StreamedResponse` | event-stream writer and line-buffering reader; a whole response from end to end |
| `NetworkSecurity`, `MixedSpellings`, `AddressSpellings`, `NamedHosts`, `LooseShorthand` | IPv4 spellings and host blocking; four parts in mixed radixes; one to four parts in any radix; hosts that are names; hosts that are no proper spelling |
| `ConfigMerge` | both deep merges, and the merge of all configurations |
| `ToolNames` | `mcp__server__tool` |
| `Wrappers`, `Sequences`, `Counting`, `Text` | options and results; subsequences; sums over sequences; splitting, joining, number notation |

## Where the code and its promise differ

Each of these is a theorem: the exact condition, or the exact bound, is proved for all inputs.

- Token bucket: buckets idle for more than two windows are deleted. Over all runs this is invisible, and the
  arrival bound survives it, if and only if the burst is at most twice `maxRequests` or below one token
  (`CleanupSafeIff`, `ArrivalBoundIff`); otherwise there is a run in which a partly refilled bucket
  becomes full. That is for a clock that may show any instant; on whole milliseconds, with a whole window and
  a whole burst, the condition is that two windows and one millisecond refill the burst
  (`CleanupSafeOnClockIff`).
- `getLimit` always says "allowed" for a client not seen before, `checkLimit` only if the burst is at least
  one token; they agree if and only if the client is known or the burst is at least one (`PeekPredictsIff`).
- Sliding window: the window is closed, so `retryAfter` seconds are enough if and only if the true wait is
  not a whole number of seconds (`RetryAfterSufficesIff`, `RetryAfterCanBeTooShort`).
- `maxRoundsPerExecution` is checked when a request arrives and counted later. With at most k requests at
  once between check and count the rounds used reach `maxRounds + k - 1` and never exceed it; the limit
  itself is kept if and only if k is at most 1. Streams already counted may overlap freely (`RoundsBound`,
  `RoundLimitKeptIff`).
- `callTool` lowers its counter before the next request is taken from the queue, so a newcomer may barge in
  while the slots running and on their way already take up the limit.
  Over all runs with at most b barge-ins, the running calls reach `maxConcurrent + b` and never exceed it
  (`BargeBound`, `BoundReached`, `ExceededIff`).
- A comment in `waitForQueueSlot` says that registering the listener first prevents a missed notification. It
  can still be missed: a slot event reaches its caller if and only if the caller listens when it is emitted,
  each request's event is emitted at most once, and a caller that missed its own is never granted a slot. There
  is a run in which that happens and nobody is running (`MissedIff`, `MissedForGood`, `WakeUpCanBeMissed`).
- Callers waiting in the slot pool when a drain begins are dropped. In every reachable state a caller's
  promise can still be settled if and only if no drain has dropped it (`SettlesIff`, `DroppedByDrain`).
- The stream reader throws on an error event inside the `try` whose `catch` ignores malformed JSON, so an
  error event leaves no trace in what is yielded (`WriterThenReader`).
- Of the spellings of an address in one to four parts, each decimal, octal or hexadecimal, the normalisation
  understands exactly these: four parts, each decimal or in the radix of the first; two or three parts, the
  first decimal, the last not hexadecimal, and every part's digits having their value when read in decimal;
  decimal numbers; hexadecimal ones of at most ten characters; and octal ones of at most ten characters
  whose digits have their value in decimal (`Understood`, `NormalizesIff`). Which hosts are blocked is
  stated exactly too (`BlockedIff`); 172.020.0.1, 127.0x0.0.1, 0x7f.1, 0177.1, 10.0x1 and 01200000000 pass
  (`PrivatePassesInOctal`, `LoopbackPassesInHex`, `ShorthandPasses`, `OctalNumberPasses`).
- The middle part of a three-part host is read as `parseInt` reads it: blanks and a sign before the number and
  any text behind it are ignored, so such a host is taken for an address (`MiddleRead`, `LooseBlockedIff`).
- `deepMerge` of the discovery service is associative if and only if no plain value stands between two
  objects of which the first adds something (`AssociativeIff`); the manager's `deepMerge` agrees with it if
  and only if every array that meets an object is absorbed by it (`AgreeIff`).
- `extractServerName` gives back the server of a printed name if and only if server and tool hold no `__`
  and the server is neither empty nor ends in `_` (`ExtractedIff`). The first piece of a name is not looked at
  (`ExtractsMiddle`).
- The schema cache drops output schemas: a caller receives the schema the provider answered with if and only
  if that schema has none (`ReceivedUnchangedIff`, `CachedWithoutOutput`, `OutputSchemaLost`).

## Model

| member | source | states |
|---|---|---|
| RateLimiting.RateLimiter.constructor | src/security/rate-limiter.ts:78-91 | every configuration is accepted; the burst defaults to `maxRequests`; the per-client part is usable exactly when the limits it is given are positive |
| RateLimiting.RateLimiter.CheckLimit | src/security/rate-limiter.ts:99-149 | fails exactly when unconfigured; otherwise only this client's bucket changes, refilled, capped and charged, and the answer is that of `Spend` |
| RateLimiting.RateLimiter.GetLimit | src/security/rate-limiter.ts:156-193 | answers `Look` and changes nothing; fails exactly when unconfigured |
| RateLimiting.RateLimiter.Cleanup | src/security/rate-limiter.ts:229-250 | the loop removes exactly the buckets idle for more than two windows |
| RateLimiting.RateLimiter.CheckRoundLimit | src/security/rate-limiter.ts:283-290 | one more round is allowed: no limit (or zero), or fewer rounds used than the limit |
| RateLimiting.RateLimiter.CheckTokenLimit | src/security/rate-limiter.ts:297-304 | the tokens fit: no limit (or zero), or the sum does not exceed it |
| RateLimiting.RateLimiter.IncrementRounds | src/security/rate-limiter.ts:309-311 | one round more |
| RateLimiting.RateLimiter.IncrementTokens | src/security/rate-limiter.ts:318-320 | that many tokens more |
| RateLimiting.RateLimiter.DecrementRounds | src/security/rate-limiter.ts:327-333 | one round less, never below zero |
| TokenBucketProofs.RefillIsLeastCredit | src/security/rate-limiter.ts:117-130 | lazy refill with a cap is the least credit over every earlier instant: the closed form of the bucket |
| TokenBucketProofs.RunFaithful | src/security/rate-limiter.ts:99-149 | after every run of checks, peeks and harmless clean-ups each bucket, or its absence, says exactly what the full admission history says |
| TokenBucketProofs.Exact | src/security/rate-limiter.ts:99-149 | after every such run a check at t is admitted if and only if for every earlier s the admissions in [s,t] plus one are at most burst + (t-s)*maxRequests/windowMs |
| TokenBucketProofs.ArrivalBound | src/security/rate-limiter.ts:99-149 | in no such run and no interval are more than burst + (t-s)*maxRequests/windowMs checks of a client admitted |
| TokenBucketCleanup.DeletionInvisibleIffFull | src/security/rate-limiter.ts:105-149 | forgetting a bucket changes no later check if and only if it has refilled completely |
| TokenBucketCleanup.CleanupSafeIff | src/security/rate-limiter.ts:229-250 | over all runs on a clock that may show any instant, leaving out the clean-ups changes no answer if and only if burst <= 2*maxRequests or burst < 1 |
| TokenBucketCleanup.AnswersDiffer | src/security/rate-limiter.ts:229-250 | otherwise a run with one clean-up whose last answer changes without it |
| TokenBucketCleanup.ArrivalBoundIff | src/security/rate-limiter.ts:99-250 | over the same runs the arrival bound survives clean-ups if and only if burst <= 2*maxRequests or burst < 1 |
| TokenBucketCleanup.CleanupSafeOnClockIff | src/security/rate-limiter.ts:99-250 | over all runs on whole milliseconds, with a whole window and burst, clean-ups are invisible, and the arrival bound survives them, if and only if burst <= (2*windowMs+1)*maxRequests/windowMs |
| TokenBucketCleanup.AnswersDifferOnClock | src/security/rate-limiter.ts:229-250 | otherwise a run on whole milliseconds with one clean-up whose last answer changes without it |
| TokenBucketCleanup.SweepsInvisible | src/security/rate-limiter.ts:229-250 | under either condition a run with clean-ups at any times answers every check as the same run without them |
| TokenBucketWaits.RefusalTransparent | src/security/rate-limiter.ts:117-149 | a refused check leaves every later check of the client as it was |
| TokenBucketWaits.RefusalWaitExact | src/security/rate-limiter.ts:117-149 | for one bucket, whatever refused checks come in between, a check d ms after a refusal is admitted if and only if d reaches `resetIn` (and the burst is at least one) |
| TokenBucketWaits.WaitExactOverRuns | src/security/rate-limiter.ts:99-193 | the same over runs: other clients' checks, peeks, harmless clean-ups and refused checks of its own in between make no difference |
| TokenBucketWaits.PeekPredictsIff | src/security/rate-limiter.ts:156-193 | `getLimit.allowed` predicts `checkLimit.allowed` if and only if the client is known or the burst is at least one |
| TokenBucketWaits.RemainingIsFurtherChecks | src/security/rate-limiter.ts:117-149 | after every run, `remaining` of a check is how many further checks at that instant are all admitted, and `fillLevel` the part of the burst left |
| TokenBucketWaits.PeekedRemaining | src/security/rate-limiter.ts:156-193 | after every run, those of a peek are how many checks at that instant are all admitted, and how full the bucket is |
| TokenBucketWaits.AdmittedWait | src/security/rate-limiter.ts:139-146 | `resetIn` of an admitted check is the least whole number of milliseconds that regain a whole token |
| TokenBucketWaits.PeekedWait | src/security/rate-limiter.ts:156-193 | a peek at a known client reports the wait a check at that instant would; at an unseen one, none |
| SlidingWindow.PerClientRateLimiter.CheckLimit | src/security/per-client-rate-limiter.ts:68-113 | only the bucket of (client, endpoint) changes, to its pruned list with or without `now`; the answer is that of `Judge` under the effective limits |
| SlidingWindow.PerClientRateLimiter.Reset | src/security/per-client-rate-limiter.ts:122-134 | the loop removes exactly the client's own bucket and its endpoint buckets |
| SlidingWindow.PerClientRateLimiter.GetStats | src/security/per-client-rate-limiter.ts:142-172 | the timestamps of the client's own bucket within the base window, the start of that window, and the base limits |
| SlidingWindow.KeysSeparate | src/security/per-client-rate-limiter.ts:68-134 | without colons in client ids, distinct pairs have distinct buckets and a reset touches its own client only |
| SlidingWindow.RunAgrees | src/security/per-client-rate-limiter.ts:68-134 | after every run each bucket holds exactly the recent part of the never-pruned admission history |
| SlidingWindow.DecidedByFullHistory | src/security/per-client-rate-limiter.ts:68-113 | admitted if and only if the full history has fewer than `maxRequests` admissions in [now-windowMs, now] |
| SlidingWindow.OverrideDecides | src/security/per-client-rate-limiter.ts:178-186 | a check of an overridden endpoint is decided by the override's limit and window, over the full history |
| SlidingWindow.BaseDecides | src/security/per-client-rate-limiter.ts:178-186 | every other check is decided by the base limit and window |
| SlidingWindow.RemainingIsRoom | src/security/per-client-rate-limiter.ts:90-98 | `remaining` of an admission is the limit less all admissions now in the window, and not negative |
| SlidingWindow.WindowBound | src/security/per-client-rate-limiter.ts:68-113 | no closed interval of length `windowMs` ever holds more than `maxRequests` admissions |
| SlidingWindow.RefusedOnlyWhenFull | src/security/per-client-rate-limiter.ts:68-113 | refused if and only if exactly the limit lies in the current window |
| SlidingWindow.AfterRefusal | src/security/per-client-rate-limiter.ts:90-112 | a refused check finds and leaves a sorted bucket of exactly `maxRequests` timestamps |
| SlidingWindow.AdmittedAgainIff | src/security/per-client-rate-limiter.ts:90-112 | a refused client that stays quiet is admitted at exactly the times later than oldest + windowMs |
| SlidingWindow.RetryAfterSufficesIff | src/security/per-client-rate-limiter.ts:90-112 | waiting the advertised seconds is enough if and only if the true wait is not a whole number of seconds |
| SlidingWindow.RetryAfterIsWait | src/security/per-client-rate-limiter.ts:100-110 | `retryAfter` is, rounded up to seconds, the time until the earliest admission of the full history in the window leaves it, or the whole window if the window is empty |
| SlidingWindow.RetryAfterCanBeTooShort | src/security/per-client-rate-limiter.ts:90-112 | a concrete run in which the advertised wait is refused again |
| SlidingWindow.RequestCountIsHistory | src/security/per-client-rate-limiter.ts:142-172 | the reported request count is the number of admissions in the window ending now, over every run |
| SamplingQuota.TokenQuota | src/core/server/sampling-bridge-server.ts:717-724 | in every interleaving 0 <= tokensUsed <= maxTokens, remaining + used = maxTokens, and the token check before the LLM call never refuses |
| SamplingQuota.RoundsBound | src/core/server/sampling-bridge-server.ts:564-575 | with at most k requests at once between quota check and the counting of their round, 0 <= roundsUsed, and rounds used plus rounds to come <= maxRounds + k - 1, in every reachable state |
| SamplingQuota.InFlightBound | src/core/server/sampling-bridge-server.ts:564-575 | with at most k requests between quota check and settlement, 0 <= roundsUsed <= maxRounds + k - 1 |
| SamplingQuota.RoundLimitKeptIff | src/core/server/sampling-bridge-server.ts:649-651 | the bound is reached by a run for every k >= 1, even with only k requests in flight; so the configured limit is kept if and only if at most one request at a time is between check and count |
| SamplingQuota.RollBackFindsRound | src/core/server/sampling-bridge-server.ts:726-730 | a roll-back always finds its own round counted: `decrementRounds` is never reached at zero |
| SamplingQuota.Conservation | src/core/server/sampling-bridge-server.ts:880-927 | roundsUsed = recorded calls + open streams + unrecorded commits + abandoned streams; tokensUsed = recorded + committed tokens; every roll-back takes back exactly one; which phase follows which event is in `SamplingLedger` |
| SamplingLedger.Ledger | src/core/server/sampling-bridge-server.ts:564-927 | over every interleaving: rounds used = streams opened + answers counted - roll-backs; tokens used = those reported by the requests that committed; the recorded calls are theirs, in order; abandoned streams = clients that disconnected |
| SamplingLedger.ProgramOrder | src/core/server/sampling-bridge-server.ts:564-927 | in every interleaving a step is a request's next one if and only if it may follow the last step the request took, lock waits aside: a failed stream or an overrun only rolls back, a disconnected client has no step left |
| SamplingLedger.LocksExclude | src/core/server/sampling-bridge-server.ts:564-890 | while a request holds the update lock no step of another changes rounds or tokens; while one holds the check lock nobody else passes the round check |
| SamplingLedger.FailedStream | src/core/server/sampling-bridge-server.ts:774-779 | in every reachable state with the update lock free, a stream that fails and rolls back lowers the rounds by exactly one and changes nothing else that is counted |
| SamplingLedger.StreamCosts | src/core/server/sampling-bridge-server.ts:649-779 | a stream run to its end costs one round and its tokens and is recorded if the tokens fit, and nothing at all if they do not |
| SamplingLedger.AnswerCosts | src/core/server/sampling-bridge-server.ts:880-927 | an answer without streaming likewise: one round and its tokens, or nothing |
| SamplingBridge.SamplingBridgeServer.constructor | src/core/server/sampling-bridge-server.ts:228-283 | the given quota or the default of 10 rounds and 10000 tokens; nothing used, nothing recorded, empty history |
| SamplingBridge.SamplingBridgeServer.QuotaCheckRounds | src/core/server/sampling-bridge-server.ts:564-568 | refuses exactly when a round limit is set and reached |
| SamplingBridge.SamplingBridgeServer.QuotaCheckTokens | src/core/server/sampling-bridge-server.ts:569-575 | never refuses, whatever interleaved before |
| SamplingBridge.SamplingBridgeServer.StartStream | src/core/server/sampling-bridge-server.ts:649-651 | counts one round; at most k requests at once between check and count keep the rounds within maxRounds + k - 1 |
| SamplingBridge.SamplingBridgeServer.CheckStreamTokens | src/core/server/sampling-bridge-server.ts:717-721 | refuses exactly when the tokens would exceed a set limit, and then sends the round to be rolled back |
| SamplingBridge.SamplingBridgeServer.CommitStreamTokens | src/core/server/sampling-bridge-server.ts:722-724 | counts the stream's tokens and stays within the token limit |
| SamplingBridge.SamplingBridgeServer.RollBackRound | src/core/server/sampling-bridge-server.ts:774-779 | takes back exactly one round, never none |
| SamplingBridge.SamplingBridgeServer.CheckAnswerTokens | src/core/server/sampling-bridge-server.ts:880-899 | refuses exactly when the tokens would exceed a set limit |
| SamplingBridge.SamplingBridgeServer.CommitAnswerRound | src/core/server/sampling-bridge-server.ts:886-887 | counts one round, under the same bound as a stream |
| SamplingBridge.SamplingBridgeServer.CommitAnswerTokens | src/core/server/sampling-bridge-server.ts:888-890 | counts the answer's tokens and stays within the token limit |
| SamplingBridge.SamplingBridgeServer.RecordCall | src/core/server/sampling-bridge-server.ts:927 | records the call's tokens; never more calls than rounds, nor more recorded tokens than used ones |
| SamplingBridge.SamplingBridgeServer.GetSamplingMetrics | src/core/server/sampling-bridge-server.ts:392-407 | rounds and tokens used, duration and average; used tokens stay within the limit and add up to it with those remaining; rounds within maxRounds + k - 1 |
| RequestQueue.ConnectionQueue.Enqueue | src/mcp/connection-queue.ts:87-112 | refuses exactly when full, changing nothing; otherwise appends the request with its time and its deadline |
| RequestQueue.ConnectionQueue.CleanupExpired | src/mcp/connection-queue.ts:142-171 | each request stays, as often as it was queued and in the same order, if and only if its deadline is ahead; the others are counted as expired |
| RequestQueue.ConnectionQueue.Dequeue | src/mcp/connection-queue.ts:119-135 | answers nothing if and only if every queued deadline has been reached, and otherwise the first request whose deadline is ahead |
| RequestQueue.Conservation | src/mcp/connection-queue.ts:87-180 | after every run entered = handed out + timed out + queued as multisets, the four counters are exactly those sizes, and the capacity holds |
| RequestQueue.HandedOutIsLive | src/mcp/connection-queue.ts:119-135 | a request handed out has not expired |
| RequestQueue.KeptIff | src/mcp/connection-queue.ts:152-161 | for all queues and instants: a request is kept, as often as it is queued, if and only if its deadline is ahead, and all others are the expired ones |
| RequestQueue.DequeueAnswers | src/mcp/connection-queue.ts:119-135 | a dequeue answers nothing if and only if all deadlines have been reached, and otherwise the first one ahead |
| QueueDeadlines.EnteredStamped | src/mcp/connection-queue.ts:97-106 | over every run, whatever entered did so by an enqueue of the run, with that time and a deadline one timeout later |
| QueueDeadlines.TakenInIff | src/mcp/connection-queue.ts:87-112 | after every run a request is taken in if and only if fewer than `maxSize` are queued |
| QueueDeadlines.DeadlinesDecide | src/mcp/connection-queue.ts:119-171 | over every run, a step times out exactly the queued requests that have waited the timeout, hands out only one that has not, and a clean-up leaves exactly the others |
| RequestQueue.FirstInFirstOut | src/mcp/connection-queue.ts:119-135 | whatever the clock does, the requests handed out followed by those queued are an order-preserving part of those entered |
| RequestQueue.ExpiryIsPrefix | src/mcp/connection-queue.ts:142-171 | on a queue sorted by deadline, filtering out the expired is dropping a prefix |
| RequestQueue.MonotoneClock | src/mcp/connection-queue.ts:87-171 | under a monotone clock the queue is always sorted by deadline and is exactly the latest part of what entered |
| ClientPool.Protocol | src/mcp/client-pool.ts:407-486 | in every interleaving the count is the number of running calls, direct admissions running never exceed the limit, admissions from the queue never outnumber completions, and hand-outs follow enqueue order |
| ClientPoolGrants.GrantsAreHandedOut | src/mcp/client-pool.ts:505-561 | in every interleaving the callers granted a slot are exactly those admitted through the queue; each one's own request entered and was handed out, and none is granted twice |
| ClientPoolGrants.GrantOrder | src/mcp/client-pool.ts:547-561 | when slot events are emitted in the order the queue's lock handed the requests out, the callers granted a slot are an order-preserving part of those that entered |
| ClientPoolCallers.CallerOrder | src/mcp/client-pool.ts:407-561 | in every interleaving a step is a caller's next one if and only if it may follow what last happened to it: full queue and timeout end a call, and a waiting caller counts in exactly after the event for its own request, while it listened |
| ClientPoolCallers.EnteredAsAsked | src/mcp/client-pool.ts:408-419 | what entered the queue is exactly the enqueue calls that found room, in order, each with its own id, client, tool, time and deadline |
| ClientPoolCallers.MissedIff | src/mcp/client-pool.ts:505-561 | a slot event is emitted for the first time, and misses its caller if and only if the caller is not listening at that moment |
| ClientPoolCallers.MissedForGood | src/mcp/client-pool.ts:505-561 | a caller that missed its event is never granted a slot, however the run goes on |
| ClientPoolCallers.WakeUpCanBeMissed | src/mcp/client-pool.ts:407-561 | a run with a limit of one in which a queued caller misses its event and listens while nobody runs |
| ClientPoolCallers.FailedForGood | src/mcp/client-pool.ts:434-439 | a caller that found the queue full or gave up is never granted a slot |
| ClientPool.BargeBound | src/mcp/client-pool.ts:475-561 | running calls plus slots in transit exceed the limit by at most the number of callers let through while these two already took it up |
| ClientPoolBarges.BoundReached | src/mcp/client-pool.ts:407-561 | for every limit, every usable queue and every b, a run with b barge-ins that ends with limit + b running calls |
| ClientPoolBarges.ExceededIff | src/mcp/client-pool.ts:407-561 | all runs with at most b barge-ins stay within limit + x if and only if b <= x; so within the limit if and only if b = 0 |
| MCPClientPooling.MCPClientPool.constructor | src/mcp/client-pool.ts:82-107 | each setting is the one given or the default; nothing running, nobody listening |
| MCPClientPooling.MCPClientPool.StartCall | src/mcp/client-pool.ts:407-443 | at capacity exactly when the count has reached the limit, otherwise one more; within the limit plus the barge-ins so far |
| MCPClientPooling.MCPClientPool.EnterQueue | src/mcp/client-pool.ts:408-430 | unavailable exactly when the queue is full |
| MCPClientPooling.MCPClientPool.WaitForSlot | src/mcp/client-pool.ts:505-532 | registers the listener of this request and no other |
| MCPClientPooling.MCPClientPool.SlotTimeout | src/mcp/client-pool.ts:505-532 | removes the listener of this request and no other |
| MCPClientPooling.MCPClientPool.CountIn | src/mcp/client-pool.ts:443 | one more running; whoever counts in was granted a slot and handed out by the queue; within the bound |
| MCPClientPooling.MCPClientPool.FinishCall | src/mcp/client-pool.ts:475-486 | one less running, never below zero, within the bound |
| MCPClientPooling.MCPClientPool.TakeNext | src/mcp/client-pool.ts:547-549 | takes the first request still live, none exactly when there is none |
| MCPClientPooling.MCPClientPool.EmitSlot | src/mcp/client-pool.ts:547-561 | wakes the caller of the taken request exactly if it still listens; grants stay in enqueue order while events are emitted in take order |
| ConnectionPooling.ConnectionPool.Create | src/mcp/connection-pool.ts:13-19 | succeeds exactly for a limit of at least one, with an empty pool |
| ConnectionPooling.ConnectionPool.Acquire | src/mcp/connection-pool.ts:26-41 | rejected while draining; granted below the limit; otherwise last in the queue |
| ConnectionPooling.ConnectionPool.Release | src/mcp/connection-pool.ts:48-62 | the first waiter inherits the slot; otherwise the count falls, and at zero a drain's waiters are all resolved |
| ConnectionPooling.ConnectionPool.Drain | src/mcp/connection-pool.ts:112-136 | up to its wait: sets draining, empties the queue, keeps the count, and returns at once if and only if nothing is active; otherwise its resolver is last in the list |
| ConnectionPooling.SlotPool | src/mcp/connection-pool.ts:26-75 | over every run of paired acquires and releases, drains and drain timeouts: count = number of holders <= limit, waiters only when full, until a drain grants + queue = arrivals in order, and every caller is granted, waiting, rejected or dropped, exactly one of them |
| ConnectionPooling.DrainingOnlyShrinks | src/mcp/connection-pool.ts:26-62 | once draining, no step of any run grants a slot and the count never rises |
| ConnectionPooling.ResolvedByLastRelease | src/mcp/connection-pool.ts:48-62 | the drain waiters are resolved by the release that takes the count to zero and by no other |
| ConnectionPooling.DrainStepByStep | src/mcp/connection-pool.ts:48-62 | while holders release one after the other the drain waiters stay, and they return when and only when nobody is left |
| ConnectionPooling.DrainCompletes | src/mcp/connection-pool.ts:112-149 | in whatever order the holders release, the drain ends with an empty pool and every drain call returned |
| ConnectionPooling.DrainWaitsForHolders | src/mcp/connection-pool.ts:112-149 | after every run a drain call returns at once if and only if nobody holds a slot, and is otherwise put last among the waiting ones |
| ConnectionPooling.ReturnedWhenEmpty | src/mcp/connection-pool.ts:48-62 | over every run, a step that returns a drain call other than by its timer leaves no holder |
| ConnectionPooling.DrainsAccounted | src/mcp/connection-pool.ts:48-149 | over every run each drain call made has returned or still waits, none lost or returned twice |
| ConnectionPooling.TimedOutIff | src/mcp/connection-pool.ts:132-143 | a drain call is returned by its timer if and only if the timer ran out while the call was waiting |
| ConnectionPooling.NothingAfterDrain | src/mcp/connection-pool.ts:26-62 | from a drain call on no continuation grants a slot |
| ConnectionPooling.ArrivalsRejected | src/mcp/connection-pool.ts:26-30 | and every arrival is rejected |
| ConnectionPooling.SettlesIff | src/mcp/connection-pool.ts:26-149 | in every reachable state a caller's promise is, or can still be, settled if and only if no drain has dropped the caller |
| ConnectionPooling.DroppedByDrain | src/mcp/connection-pool.ts:112-149 | a waiting caller is granted a slot by as many releases as its place says, but after a drain no continuation grants or rejects it |
| ProxyDrain.MCPProxyServer.HandleRequest | src/core/server/mcp-proxy-server.ts:152-229 | a request counts in; during a drain it is refused and counts out at once |
| ProxyDrain.MCPProxyServer.FinishRequest | src/core/server/mcp-proxy-server.ts:152-229 | a request counts out; at zero, a drain's waiters are all resolved |
| ProxyDrain.MCPProxyServer.Drain | src/core/server/mcp-proxy-server.ts:270-280 | up to its wait: sets draining, keeps the count, and returns at once if and only if nothing is active; otherwise its resolver is last in the list |
| ProxyDrain.Tracking | src/core/server/mcp-proxy-server.ts:152-297 | after every run the counter is the number of open requests, and a drain with none open has no unresolved waiter |
| ProxyDrain.RefusalIsNeutral | src/core/server/mcp-proxy-server.ts:152-229 | a request refused during a drain leaves count and drain waiters as they were |
| ProxyDrain.DrainingOnlyShrinks | src/core/server/mcp-proxy-server.ts:152-297 | while draining no request is opened, every finish lowers the count, and the one to zero resolves every drain call |
| ProxyDrain.DrainWaitsForRequests | src/core/server/mcp-proxy-server.ts:270-297 | after every run a drain call returns at once if and only if no request is open, and is otherwise put last among the waiting ones |
| ProxyDrain.ReturnedWhenEmpty | src/core/server/mcp-proxy-server.ts:219-228 | over every run, a step that returns a drain call other than by its timer leaves no request open |
| ProxyDrain.DrainsAccounted | src/core/server/mcp-proxy-server.ts:219-297 | over every run each drain call made has returned or still waits, none lost or returned twice |
| ProxyDrain.TimedOutIff | src/core/server/mcp-proxy-server.ts:281-291 | a drain call is returned by its timer if and only if the timer ran out while the call was waiting |
| ProxyDrain.RefusedIffDraining | src/core/server/mcp-proxy-server.ts:152-164 | after every run an arriving request is refused if and only if a drain has begun, and opened otherwise |
| SchemaStore.SchemaCache.Create | src/validation/schema-cache.ts:38-61 | fails exactly for a lifetime or a size that is not positive; otherwise an empty cache with nothing in flight |
| SchemaStore.SchemaCache.GetToolSchema | src/validation/schema-cache.ts:184-200 | joins exactly when a fetch is tracked, starts one exactly when none is and no entry is alive; a hit is unexpired and genuine; never two outstanding fetches of a tool |
| SchemaStore.SchemaCache.FetchAndCache | src/validation/schema-cache.ts:213-255 | the outcome all callers of the flight get: the schema found, nothing, or - only if the provider failed - the expired entry or the error; only a found schema is cached, until one lifetime after the clock was read |
| SchemaStore.SchemaCache.CleanUp | src/validation/schema-cache.ts:199-206 | the tracking entry removed is the returning owner's own flight |
| SchemaStore.SchemaCache.Invalidate | src/validation/schema-cache.ts:262-273 | removes one entry, or all, and no tracking |
| SchemaStore.SchemaCache.LoadFromDisk | src/validation/schema-cache.ts:69-99 | sets exactly the chosen entries of the file, over what was cached, and reports how many were skipped |
| SchemaStore.MostRecentChosen | src/validation/schema-cache.ts:74-84 | as many entries are chosen as fit, all from the file, and none left out was fetched later than one chosen |
| SchemaSelection.ChosenIff | src/validation/schema-cache.ts:74-84 | an entry of the file is loaded, unchanged, if and only if fewer than `maxCacheSize` entries were fetched later, or at the same time and stand before it |
| SchemaSelection.PlaceInOrder | src/validation/schema-cache.ts:75-76 | in the sorted list each entry stands at the place given by the number of those entries: the sort is descending and stable |
| SchemaCaching.SingleFlight | src/validation/schema-cache.ts:184-207 | whatever interleaves, at most one provider call per tool is outstanding |
| SchemaCaching.CleanupIsOwn | src/validation/schema-cache.ts:199-206 | the unconditional delete finds and removes the returning owner's own flight, and nothing else |
| SchemaCaching.EveryJoinerGetsOutcome | src/validation/schema-cache.ts:186-189 | everyone who waited on a flight gets that flight's outcome |
| SchemaCaching.ExpiredOnlyOnFailure | src/validation/schema-cache.ts:213-255 | a schema returned is an unexpired cached one, or what the provider answered for that tool, or - only after that call failed - a genuine expired one; an absent or thrown outcome is justified likewise |
| SchemaLifetimes.CachedFromResponse | src/validation/schema-cache.ts:225-236 | over every run each cached entry was loaded from disk or stored by an answer of the run, with its three fields, its fetch time and a lifetime from the clock reading on |
| SchemaLifetimes.AnswerStores | src/validation/schema-cache.ts:219-236 | an answer stores an entry for its own tool if and only if a schema was found, and touches no other |
| SchemaLifetimes.ServedWhileAlive | src/validation/schema-cache.ts:184-236 | with nothing storing, loading or removing an entry of the tool in between, a call with no flight tracked is served that answer if and only if it comes before readAt + ttl, and otherwise starts a fetch |
| SchemaLifetimes.FlightDelivers | src/validation/schema-cache.ts:213-255 | whatever interleaves, everyone returning from a flight gets the provider's answer to it, or on failure the entry cached when the flight started, even if lost since, or the error |
| SchemaLifetimes.FirstAnswerStands | src/validation/schema-cache.ts:213-255 | the first answer to a flight is the one it keeps |
| SchemaCaching.JoinerStartsNothing | src/validation/schema-cache.ts:184-200 | a call starts a fetch if and only if no flight of the tool is uncleaned and no unexpired entry is cached |
| SchemaCaching.ReceivedUnchangedIff | src/validation/schema-cache.ts:226-231 | over every run, a caller whose flight was answered with a schema receives that schema if and only if it has no output schema |
| SchemaCaching.CachedWithoutOutput | src/validation/schema-cache.ts:213-255 | over every run that loads no output schema from disk, no caller receives one, from a flight or from the cache |
| SchemaCaching.OutputSchemaLost | src/mcp/client-pool.ts:603-608 | for every schema with an output schema, a run that hands it out without |
| EventStream.ProcessLines | src/executors/sandbox-executor.ts:326-356 | the loop over one read's lines yields the contents up to the first stopping line, and says whether there was one |
| EventStream.ReadStream | src/executors/sandbox-executor.ts:317-361 | for every way of cutting the text, the buffered reader yields what the complete lines of the whole text yield, up to the first done marker, without an unterminated tail |
| EventStream.StoppedEarly | src/executors/sandbox-executor.ts:332-356 | more text only ever extends what is yielded, and not at all once a done marker was read |
| EventStream.CutShort | src/executors/sandbox-executor.ts:326-356 | a stream cut anywhere yields a prefix of what the whole stream yields |
| EventStream.NoControlCharacters | src/core/server/sampling-bridge-server.ts:701 | an encoded string has no raw newline or other control character (section 7 of RFC 8259) |
| EventStream.QuoteRoundTrip | src/core/server/sampling-bridge-server.ts:701 | decoding an encoded string gives it back |
| EventStream.StreamChunks | src/core/server/sampling-bridge-server.ts:686-711 | the loop writes one frame per filtered chunk in order, accumulates the unfiltered text and the last non-zero usage, and gives up exactly at a failing write with the frames before it written |
| EventStream.WriterThenReader | src/core/server/sampling-bridge-server.ts:701-767 | whatever contents are written, however the response ends and however the text is cut, the reader yields exactly those contents in order |
| EventStream.AgreementPossible | src/executors/sandbox-executor.ts:332-347 | a parser as required exists: the writer's event shapes are told apart and chunk contents recovered |
| StreamedResponse.Respond | src/core/server/sampling-bridge-server.ts:686-788 | writes the frames of the filtered chunks up to a failing write, and then the done or error event that the outcome calls for, unless that write fails |
| StreamedResponse.EndToEnd | src/core/server/sampling-bridge-server.ts:686-788 | for any events, filter, failing write, outcome and chunking, the sandbox yields exactly the filtered contents that left the server, and a prefix of them if the connection is cut |
| StreamedResponse.LostFrom | src/core/server/sampling-bridge-server.ts:699-706 | when the write after the first k fails, exactly the frames of the first k filtered contents have left the server |
| StreamedResponse.ClosingEvent | src/core/server/sampling-bridge-server.ts:734-782 | the last event on the wire: done with the unfiltered text and both counts in their places, the overrun's error, or the streaming error with its details |
| StreamedResponse.ChunkEvents | src/core/server/sampling-bridge-server.ts:701 | and before it one chunk event per content, in order |
| StreamedResponse.EachChunkCollected | src/core/server/sampling-bridge-server.ts:686-690 | the text collected is every chunk's content in order and nothing else |
| StreamedResponse.UsageIsLast | src/core/server/sampling-bridge-server.ts:707-710 | each token count reported is that of the last usage event in which it is not zero, or zero if there is none |
| StreamedResponse.OneMoreLine | src/executors/sandbox-executor.ts:336-354 | a further complete line yields its content if it is a chunk event and the stream has not stopped, and nothing otherwise |
| StreamedResponse.DoneEndsStream | src/executors/sandbox-executor.ts:339-347 | whatever follows either done marker is not read |
| NetworkSecurity.ExpandShorthand | src/validation/network-security.ts:67-167 | the loop and the pushes give the leading octets followed by the bytes of the last part |
| NetworkSecurity.NormalizeDottedHost | src/validation/network-security.ts:67-167 | computes the branches for dotted hosts |
| NetworkSecurity.NormalizeIPEncoding | src/validation/network-security.ts:67-167 | computes the normal form of every host, spelled address or not |
| NetworkSecurity.SpellingsNormalize | src/validation/network-security.ts:67-167 | every decimal or hexadecimal number, every dotted spelling whose parts are decimal or in the first part's radix, and every decimal two- or three-part spelling of a 32-bit address normalises to its dotted quad |
| NetworkSecurity.NormalizeIdempotent | src/validation/network-security.ts:67-167 | the normal form of a spelled address is its dotted decimal spelling, and normalising again changes nothing |
| NetworkSecurity.BlockedExactly | src/validation/network-security.ts:188-223 | in each of those notations the host is blocked if and only if the number lies in 127/8, 0.0.0.0, 169.254/16 or a private block of RFC 1918, section 3; for hosts that are names see `NamedHosts.NamedHostBlockedIff` |
| NamedHosts.NamedHostBlockedIff | src/validation/network-security.ts:14-49 | a host that begins with a letter, or whose last label does, is blocked if and only if, ignoring case, it is localhost, metadata.google.internal or instance-data.ec2.internal |
| NamedHosts.LetterFirst | src/validation/network-security.ts:67-167 | a host that begins with a letter is left as it is by the normalisation |
| NamedHosts.NamesAreBlocked | src/validation/network-security.ts:14-49 | the three names are blocked, LocalHost too, and an ordinary domain is not |
| LooseShorthand.MiddleRead | src/validation/network-security.ts:127-164 | the middle part of a three-part host, with any blanks, sign and text around its digits, is read as its number; without digits, negative, or with a leading part above 255, the host is left as it is |
| LooseShorthand.LooseBlockedIff | src/validation/network-security.ts:188-223 | such a host is blocked if and only if the address it is taken for is internal |
| LooseShorthand.ManyPartsKept | src/validation/network-security.ts:92-130 | a host of four or more parts is rewritten only if it begins with 0 and an octal digit or with 0x and a hexadecimal one |
| LooseShorthand.FourDecimalsBlockedIff | src/validation/network-security.ts:14-49 | four parts of decimal digits of any size, not beginning in octal, are blocked exactly by the leading parts as they are written |
| MixedSpellings.DottedNormalizesIff | src/validation/network-security.ts:92-125 | a spelling in four parts, each in any of the three radixes, normalises to its quad if and only if every part is decimal or in the first part's radix |
| MixedSpellings.DottedBlockedIff | src/validation/network-security.ts:188-223 | such a host is blocked if and only if the address is internal and the parts the patterns test come out in decimal, or as digits where digits are enough |
| MixedSpellings.PrivatePassesInOctal | src/validation/network-security.ts:92-125 | 172.020.0.1 spells a private address and is not blocked |
| MixedSpellings.LoopbackPassesInHex | src/validation/network-security.ts:92-125 | 127.0x0.0.1 spells a loopback address and is not blocked |
| AddressSpellings.NormalizesIff | src/validation/network-security.ts:67-167 | a spelling in one to four parts, each in any radix, normalises to its quad if and only if it is understood: the exact condition on number, radix, length and digits of the parts |
| AddressSpellings.ReadAsIs | src/validation/network-security.ts:67-167 | with fewer than four parts the code takes a host for exactly one address, not always the one spelled, or leaves it no quad at all |
| AddressSpellings.BlockedIff | src/validation/network-security.ts:188-223 | such a host is blocked if and only if - four parts - the address is internal and visible to the patterns, or - fewer - the address the code takes it for is internal |
| AddressSpellings.UnderstoodBlockedIff | src/validation/network-security.ts:188-223 | a spelling that is understood is blocked if and only if its address is internal |
| AddressSpellings.DecimalUnderstood | src/validation/network-security.ts:127-164 | all-decimal spellings are understood, whatever the number of parts |
| AddressSpellings.ShorthandPasses | src/validation/network-security.ts:92-164 | 0x7f.1, 0177.1 and 10.0x1 spell internal addresses and are not blocked |
| AddressSpellings.OctalNumberPasses | src/validation/network-security.ts:73-89 | 01200000000 spells a private address and is not blocked |
| ConfigMerge.DeepMerge | src/config/discovery.ts:241-265 | the loop over the source's entries computes the recursive merge |
| ConfigMerge.MergeConfigs | src/config/discovery.ts:222-236 | the loop folds all configurations, whatever values they are, the first having the highest priority |
| ConfigMerge.ManagerDeepMerge | src/services/config-manager.ts:174-194 | the second implementation computes its recursive merge, arrays spread into index keys |
| ConfigMerge.MergeLeaf | src/config/discovery.ts:241-265 | at every path the merge has the source's leaf where the source decides, the target's where the source is missing |
| ConfigMerge.Precedence | src/config/discovery.ts:222-265 | for all configurations and paths, the merge has the leaf of the first configuration not missing that path |
| ConfigMerge.FirstDefinitionWins | src/config/discovery.ts:222-265 | for configurations of the same shape a leaf comes from the first configuration that defines it |
| ConfigMerge.WholeValues | src/config/discovery.ts:241-252 | a source that is undefined, null, false, 0 or the empty string changes nothing, any other replaces the target unless both are objects |
| ConfigMerge.FalsyIgnored | src/config/discovery.ts:222-236 | the merge of all configurations is that of those which are not falsy |
| ConfigMerge.Idempotent | src/config/discovery.ts:241-265 | merging any value into itself changes nothing |
| ConfigMerge.CoveredIff | src/config/discovery.ts:241-265 | a target adds nothing to a source if and only if the source covers its keys |
| ConfigMerge.AssociativeIff | src/config/discovery.ts:241-265 | associative on three objects if and only if they are bridged |
| ConfigMerge.SameShapeBridged | src/config/discovery.ts:241-265 | configurations of the same shape are bridged |
| ConfigMerge.AgreeIff | src/services/config-manager.ts:174-194 | the two implementations agree if and only if arrays that meet objects are absorbed |
| ConfigMerge.AgreeWithoutArrays | src/services/config-manager.ts:174-194 | in particular they agree when no key holds an array on the one side and an object on the other |
| ConfigMerge.SpreadArray | src/services/config-manager.ts:174-194 | a spread array has its elements under their decimal indices and no other key |
| ConfigMerge.ImplementationsCanDiffer | src/services/config-manager.ts:174-194 | a concrete pair on which they differ |
| ConfigMerge.AssociativityCanFail | src/config/discovery.ts:241-265 | a concrete triple on which grouping matters |
| ToolNames.GrammarIsSplit | src/utils/utils.ts:51-68 | the pattern, with all its backtracking, accepts exactly the names whose split on `__` is `mcp` and two non-empty parts over the alphabet, and then the server extracted is the middle part |
| ToolNames.NameAlphabet | src/utils/utils.ts:54 | the alphabet by character codes: ASCII letters, digits, hyphen and underscore |
| ToolNames.ExtractedIff | src/utils/utils.ts:61-68 | for all strings, the server of a printed name is extracted again if and only if server and tool hold no `__` and the server is neither empty nor ends in `_` |
| ToolNames.PrintedServer | src/utils/utils.ts:61-68 | for all strings, the split of a printed name gives both names back if and only if neither holds `__` and the server does not end in `_` |
| ToolNames.ExtractsMiddle | src/utils/utils.ts:61-68 | for all names, a server is extracted if and only if the name is three pieces joined by its only two marks with that non-empty server in the middle; every other name is refused |
| ToolNames.PrintInjective | src/utils/utils.ts:61-68 | printing is injective on servers without `__` that do not end in `_` |

## Left out

- Floating-point rounding and wall-clock jumps: times, rates and token levels of the bucket are exact reals (any instant, unless a theorem asks for whole milliseconds), and run theorems assume a clock that does not go back (the FIFO and conservation results of the queue do not).
- Limits are positive where a theorem needs it: zero means "unlimited" or "unconfigured" in the code, and the methods model that, but the bounds then say nothing.
- TokenBucketProofs.Exact: runs contain checks, peeks and clean-ups but no `reset` or `resetAll`; a reset ends a run.
- SlidingWindow.KeysSeparate: assumes client ids without a colon; the ids are hashes, and with colons two pairs can share a bucket.
- SlidingWindow.PerClientRateLimiter.CheckLimit: a bucket's `lastCleanup`, which is written and never read, and the descriptive `limit` text are not modelled.
- SamplingQuota.RoundsBound: the late 503 path for a stream without provider, `writeHead` throwing before the round is counted, and a lock that rejects because too many callers wait are not modelled; streams have a provider and locks are granted.
- SamplingBridge.SamplingBridgeServer.constructor: of the constructor only quota, start time and counters are modelled, not provider, filter and validators.
- SamplingBridge.SamplingBridgeServer.RecordCall: of a recorded call only its tokens are kept, not messages, response and times.
- RequestQueue.ConnectionQueue.Enqueue: request ids are numbers standing for unique strings; the queue's `reset` is not modelled.
- ClientPool.Protocol: liveness of queued callers is not claimed, because it does not hold (`ClientPoolCallers.MissedForGood`).
- ClientPoolGrants.GrantOrder: that events are emitted in take order is a property of the lock library, whose code is not part of this model; everything else about grants is proved for events in any order.
- ConnectionPooling.SlotPool: releases pair with acquires, as `execute` makes them; `clear()` zeroes the count under its holders and ends a run.
- ConnectionPooling.ConnectionPool.Drain: the race between signal and timer is in the runs, where the timer changes nothing in the pool; log messages are not modelled. The same holds of the proxy.
- SchemaCaching.SingleFlight: the store may lose any entries at any step, which stands for LRU order, lifetime and eviction; reading and writing the file, and pre-population beyond loading and calling, are not modelled.
- EventStream.ReadStream: chunks are text; UTF-8 decoding, surrogates, and JSON parsing beyond telling the three event shapes apart are not modelled.
- EventStream.StreamChunks: the content filter is an arbitrary total function.
- NetworkSecurity.BlockedExactly: hosts with a colon or a bracket (IPv6, ports) are not modelled, nor is `parseInt` beyond exact integers, nor white space outside ASCII; the other spellings are in `AddressSpellings.BlockedIff`, names in `NamedHosts`.
- ConfigMerge.DeepMerge: the order of an object's keys and the special key `__proto__` are not modelled; neither are environment references and overrides.
- Content-filter and dangerous-pattern regular expressions, authentication, request validation, provider clients, metrics, wizard, command line, templates and the lock-file service: plumbing, libraries or regular-expression engines rather than state to reason about.
