# Verified model of the swap API's limits, ledger and execution protocol

This project models, in Dafny 4.11, the parts of the swap API whose behaviour
is hard to see from the code, and proves properties of them for every input,
every run and every interleaving. `dafny verify dfyconfig.toml` checks it.

| file | part of the system |
|---|---|
| `TokenBucket.dfy` | the token bucket of one key: levels, windows, what a run admits |
| `LimiterStore.dfy` | many keys: the Redis hashes with their one-hour expiry and the in-process map |
| `RateLimiter.dfy` | the limiter as coded, with mutable buckets, and the response headers |
| `QuotaLedger.dfy` | paid monthly and free daily credits, one call at a time |
| `QuotaInterleaved.dfy` | the same ledger under overlapping transactions, and how far it can be overdrawn |
| `QuotaSerial.dfy` | when the interleaved ledger is serialisable |
| `TransactionQueue.dfy` | the queue table and the polling worker |
| `SwapProtocol.dfy` | requests, idempotency records, jobs and the worker, all interleaved |
| `SwapController.dfy` | the execute endpoint and its repository as coded |
| `PathTemplates.dfy` | endpoint lookup by path template |
| `RouteLabels.dfy` | route normalisation for metric labels |
| `Cidr.dfy` | IPv4 prefix matching with JavaScript's 32-bit operators |
| `Redaction.dfy` | redaction of logged request bodies |
| `Slippage.dfy` | minimum output amounts |
| `Prelude.dfy` | shared definitions |

## What the model assumes

- Tokens and rates are real numbers; floating-point rounding is not modelled.
  Times of the Redis path are whole seconds. Redis drops a key no earlier than
  3600 s after the script last wrote it, by the clock the middleware passes
  in; it may drop it later, or never.
- No monotone clock is assumed. The bucket theorems speak of elapsed time,
  which counts backward jumps as zero; `ElapsedIsWallClock` says when that is
  clock time, `ClockBoundHoldsIff` which clocks keep the advertised limit, and
  `BackwardClockBreaksWallClockBound` how far a backward clock breaks it.
- Quota transactions run at the database's default isolation: a read sees
  committed rows, an increment locks the row until commit, and inserting a row
  that exists aborts. Purchases are single statements and may come at any
  time. An environment bounds, key by key, how many calls of a key overlap and
  what they cost; nothing bounds the other keys, or calls without a key. The daily limit
  of a call is a parameter, resolved from the configuration tables in
  `QuotaService.ConsumeCredit`.
- A database write either takes effect or throws. Job rows stand in the order
  of `created_at`. There is one worker process; it may crash between any two
  steps and be restarted.
- Text is converted to a number by JavaScript's `Number`, which is a parameter:
  the theorems on slippage hold whatever it returns.
- Fields the tables do not have (the key that caused a job, how often the
  adapter was called for it) are kept beside the row to state theorems.

## Where the code differs from its documentation

- `docs/BEHAVIOR_MATRIX.md` and `docs/ENTERPRISE_ARCHITECTURE.md` promise that
  a duplicate key is not executed again. The key is not reserved before the
  job is enqueued, so for a key this holds exactly when its own requests do not
  overlap and it loses no store (`AtMostOneJobIff`); `JobBound` is the tight
  bound otherwise. The 24-hour expiry is written and never read.
- The comment on `normaliseRoute` promises `/v1/keys/:id` for
  `/v1/keys/abc123`; the code leaves that path alone
  (`ShortKeysAreNotRewritten`).
- `sanitizeBody` loses an own key named `__proto__` (`ProtoKeyIsLost`); every
  other key is kept.
- The usage report adds up the free tier's quotas of all endpoints, whatever the
  key's own tier, although each call is held to its own endpoint's quota. It
  promises too much on an endpoint with less than the sum and too little to
  tiers with more (`ReportedUsageIsHonestIff`). With the seeded quotas both
  happen: 1000 per endpoint for free keys, 100000 for the others.
- Asking for zero slippage yields the default of 50 basis points
  (`ZeroSlippageIsTheDefault`).
- `X-RateLimit-Reset` on the in-process path is kept for every level exactly
  when the request is evaluated on a whole second (`TierResetKeptIff`);
  otherwise it can be up to a second early, also in runs
  (`TierHeaderBrokenIff`).
- A key that moves to a tier with other limits is treated differently by the
  two stores (`TierChangeSplitsTheStores`).
- A job can be marked failed although its transaction was sent: exactly when
  the update to completed fails and the one to failed does not
  (`FailedIsTrueIff`). A job left processing, by a crash or a failed update in
  the catch block, stays so for ever (`LetGoStays`).

## Model

| member | source | states |
|---|---|---|
| TokenBucket.LevelIsLeastRoom | src/core/middleware/rateLimiter.ts:26-47 | closed form on every run and any clock: the level before request j is the minimum over i <= j of burst + refill(i..j) - admitted in [i,j) |
| TokenBucket.AllowedIffEveryWindowHasRoom | src/core/middleware/rateLimiter.ts:37-46 | a request passes exactly when every window ending at it has room for one more |
| TokenBucket.RateBound | src/core/middleware/rateLimiter.ts:13-18 | no window of any run admits more than the burst plus its refill |
| TokenBucket.RateBoundInClockTime | src/core/middleware/rateLimiter.ts:74-77 | with a clock that never goes back: at most burst + rate * (t_j - t_i) in every window |
| TokenBucket.WholeRunAdmittedIffWindowsFit | src/core/middleware/rateLimiter.ts:26-47 | all requests of a run pass iff each window i..j has j-i+1 <= allowance |
| TokenBucket.AdmitsTheMost | src/core/middleware/rateLimiter.ts:37-46 | no conforming schedule admits more than the bucket at any point of any run |
| TokenBucket.OwnScheduleConforms | src/core/middleware/rateLimiter.ts:37-46 | and what the bucket admits is itself a conforming schedule, so it is the best of them |
| TokenBucket.AllowanceIsBurstPlusRateTimesElapsed | src/core/middleware/rateLimiter.ts:35-36 | the allowance of a window is burst + rate * elapsed time |
| TokenBucket.AllowanceInClockTime | src/core/middleware/rateLimiter.ts:35-36 | the same in clock time when the clock never goes back |
| TokenBucket.ElapsedIsWallClock | src/core/middleware/rateLimiter.ts:35 | elapsed time equals clock time on all windows iff the clock never goes back |
| TokenBucket.ClockBoundHoldsIff | src/core/middleware/rateLimiter.ts:35-43 | for every burst: the limit holds in clock time, in all windows and at all rates, iff the clock never goes back |
| TokenBucket.BackwardClockBreaksWallClockBound | src/core/middleware/rateLimiter.ts:35-43 | every bucket with a burst and a rate admits any number of requests while its clock stays within the time one token takes, if the clock may jump back |
| TokenBucket.EvalExtendsRun | src/core/middleware/rateLimiter.ts:32-46 | one evaluation of the script on what a run left is the next request of that run |
| LimiterStore.KeyIsItsOwnRun | src/core/middleware/rateLimiter.ts:70-92 | isolation: under any interleaving a key holds what its own requests alone would leave |
| LimiterStore.InterleavedAdmission | src/core/middleware/rateLimiter.ts:84-95 | the closed form decides every request of an interleaved run from its own key's times only |
| LimiterStore.ExpiryIsUnobservable | src/core/middleware/rateLimiter.ts:32-45 | dropping keys an hour or more after their last write changes no reply and no stored level when a burst refills within the hour |
| LimiterStore.TableRefillsWithinTtl | src/core/middleware/rateLimiter.ts:13-23 | every tier of the table, and the fallback tier, refills its burst within the hour |
| LimiterStore.TiersFromOutside | src/core/middleware/rateLimiter.ts:12-23 | the limits table by what it does: of n requests at once a fresh key gets min(n, 20), 150, 1500 or 15000 through, and a minute refills 10, 100, 1000 or 10000; an unknown tier counts as free |
| LimiterStore.ExpiryInvisibleIff | src/core/middleware/rateLimiter.ts:37-45 | expiry is invisible in all runs iff burst <= 60 * rpm |
| LimiterStore.MemoryIsScriptOnFirstLimits | src/core/middleware/rateLimiter.ts:102-126 | with no assumption on tiers, the in-process map replies as the script would with each key kept on the limits of its first request |
| LimiterStore.ImplementationsAgree | src/core/middleware/rateLimiter.ts:82-126 | with one tier per key, the in-process map and the expiring Redis hashes reply alike to every request of every interleaving |
| LimiterStore.StoresAgreeIff | src/core/middleware/rateLimiter.ts:26-47 | for all limits a, b: both stores answer alike on every whole-second run mixing a and b iff each burst refills within the hour and a, b are equal, or have the same burst and both refill it within a second |
| LimiterStore.TierChangeSplitsTheStores | src/core/middleware/rateLimiter.ts:13-23 | for any two tiers of the table: both stores answer alike on keys that move between them iff the tiers have the same limits |
| LimiterStore.UpgradeSplitsTheStores | src/core/middleware/rateLimiter.ts:106-114 | an instance: a minute after one request, the free-to-pro upgrade leaves 10148 tokens in Redis and 149 in the map |
| LimiterStore.MapRemainingIsExact | src/core/middleware/rateLimiter.ts:108-129 | in-process path, any map: after a request with tokens t left, of k > 0 further requests on the key at the same instant all pass iff k <= floor(t) |
| LimiterStore.RedisRemainingIsExact | src/core/middleware/rateLimiter.ts:37-46 | the same on the Redis path, the key not being droppable meanwhile |
| RateLimiter.RedisStore.Eval | src/core/middleware/rateLimiter.ts:26-47 | the script's reply and the rewritten hash, other keys untouched |
| RateLimiter.RedisStore.Handle | src/core/middleware/rateLimiter.ts:70-136 | Redis branch: the verdict; X-RateLimit-Remaining is the number of further requests that pass at the same instant; reset from the truncated token count of the script's reply; a failing evaluation lets the request through with the headers of a full bucket |
| RateLimiter.MemoryBucket.Take | src/core/middleware/rateLimiter.ts:112-124 | refilling and spending in place in milliseconds is one evaluation of the script on the limits the bucket kept |
| RateLimiter.MemoryLimiter.TakeFrom | src/core/middleware/rateLimiter.ts:104-125 | only the object of the requesting key changes and no two keys come to share one |
| RateLimiter.MemoryLimiter.Admit | src/core/middleware/rateLimiter.ts:104-125 | the map after a request is the specification's map, with its verdict |
| RateLimiter.MemoryLimiter.Handle | src/core/middleware/rateLimiter.ts:97-136 | in-process branch: the verdict on the limits the bucket kept; X-RateLimit-Remaining is the number of further requests that pass at the same instant; reset on the limits of the caller's tier |
| RateLimiter.FullAtReset | src/core/middleware/rateLimiter.ts:130-136 | Redis path: the bucket is full at X-RateLimit-Reset, also when the token count came back truncated |
| RateLimiter.NotFullBeforeReset | src/core/middleware/rateLimiter.ts:130-136 | with the exact count no earlier whole second finds it full |
| RateLimiter.ResetAlwaysKeptIff | src/core/middleware/rateLimiter.ts:134 | given the floor of 0.1 in the header, its promise is kept for all levels iff rpm >= 6 (or the burst is zero) |
| RateLimiter.FullOneSecondAfterReset | src/core/middleware/rateLimiter.ts:76-136 | in-process path: full at Reset + 1 s for every millisecond of evaluation |
| RateLimiter.AdvertisedResetIsKept | src/core/middleware/rateLimiter.ts:84-136 | end to end on the Redis path: after any run of any keys, with keys dropped at will, the advertised second finds the bucket full |
| RateLimiter.InProcessResetKeptIff | src/core/middleware/rateLimiter.ts:76-136 | in-process path, for all limits and milliseconds: full at X-RateLimit-Reset from every level iff the burst is zero, or rpm >= 6 and the evaluation is on a whole second or the rest of the second refills the burst |
| RateLimiter.TierResetKeptIff | src/core/middleware/rateLimiter.ts:13-18 | for every tier of the table: kept from every level iff nowMs % 1000 == 0 |
| RateLimiter.TierHeaderBrokenIff | src/core/middleware/rateLimiter.ts:97-136 | for every tier of the table: some number of requests in one millisecond on a fresh key leaves a level that breaks the header iff nowMs % 1000 != 0 |
| RateLimiter.InProcessResetIsEarly | src/core/middleware/rateLimiter.ts:76-136 | an instance: the free tier, one token short in the last millisecond of a second |
| QuotaLedger.UnitCallsClosedForm | src/services/quotaService.ts:39-143 | n unit calls with P paid and F free left: min(n,P) paid, min(max(n-P,0),F) free, the next reply exactly, no other row touched |
| QuotaLedger.CallTakesItsCost | src/services/quotaService.ts:29-132 | every call at any cost: when it is paid, free, unmetered or denied, exactly; it takes its cost (one if none is given) from that one row of its month or day and reports what is left there |
| QuotaLedger.LimitIsTheTiersRow | src/services/quotaService.ts:69-75 | the limit of a call is the amount in the row of the caller's tier and the endpoint, zero if tier, endpoint, row or amount is missing; a missing tier is the one named free |
| QuotaLedger.UnitCallsFromTables | src/services/quotaService.ts:39-143 | the closed form from the tables: on an endpoint whose row in the key's own tier grants q, the reply to unit call n |
| QuotaLedger.RowsRecordReplies | src/services/quotaService.ts:48-132 | for any calls by anyone: each row equals its start plus what the replies report as taken from it |
| QuotaLedger.PaidNotOverdrawn | src/services/quotaService.ts:49-61 | atomic calls never use more than was purchased |
| QuotaLedger.DayNotOverdrawn | src/services/quotaService.ts:97-133 | the daily row shared by all endpoints never passes the largest limit in use |
| QuotaLedger.FreeUseOverDays | src/services/quotaService.ts:88-133 | over D days a key's free use is at most D times the largest limit |
| QuotaLedger.PurchaseAddsExactly | src/services/quotaService.ts:163-184 | a purchase adds exactly its credits to what is left of the row, fresh or used, and changes nothing else |
| QuotaLedger.PurchasedCreditsAreSpendable | src/services/quotaService.ts:163-184 | on any row, what was left plus what was bought is the number of unit calls paid from then on, with no free use meanwhile |
| QuotaLedger.ReportedUsageIsHonestIff | src/services/quotaService.ts:190-236 | for a key of any tier on any endpoint: the paid figure is exact; the free figure promises too much iff 0 < limit < sum of the free tier and the sum is not used up, and too little iff the limit exceeds both the sum and what is used (or nothing is metered) |
| QuotaLedger.FreeSumIsOfTheFreeTier | src/services/quotaService.ts:221-231 | the free sum of the report: a row of the tier named free adds its amount, a row of another tier nothing, without that tier it is zero |
| QuotaLedger.QuotaService.ConsumeCredit | src/services/quotaService.ts:20-143 | the transaction's result and whole new ledger, its limit looked up in the tables, and nothing at all when it aborts |
| QuotaLedger.QuotaService.AddMonthlyCredits | src/services/quotaService.ts:148-185 | the monthly row grows by exactly the credits or is created with them; a request without a key is refused |
| QuotaLedger.QuotaService.GetUsage | src/services/quotaService.ts:190-236 | both remaining figures, never negative, the free one against the sum over the tier named free |
| QuotaInterleaved.PaidOvershootBound | src/services/quotaService.ts:42-61 | for each key, in every reachable state of every interleaving of all keys and purchases: used + pending <= purchased + (N-1)*C, with N the overlap and C the cost of this key's own calls |
| QuotaInterleaved.FreeOvershootBound | src/services/quotaService.ts:97-117 | the same for the key's daily row: limit + (N-1)*min(C, limit), with the key's own limit |
| QuotaInterleaved.OvershootBoundIsTight | src/services/quotaService.ts:42-61 | for every key, N and C a run overdraws the key's monthly row by exactly (N-1)*C |
| QuotaInterleaved.FreeOvershootBoundIsTight | src/services/quotaService.ts:97-117 | for every key, N, C and limit a run takes the key's daily row to exactly limit + (N-1)*min(C, limit) |
| QuotaInterleaved.NeverOverdrawsIff | src/services/quotaService.ts:34-133 | overdraft of either row of a key is impossible in all runs iff the key's own calls never overlap, whatever is purchased and whatever other keys and keyless calls do |
| QuotaInterleaved.NoOverlapNoOverdraft | src/services/quotaService.ts:42-133 | with N = 1 for the key neither of its rows is overdrawn, purchases during a call and overlap of other keys included |
| QuotaInterleaved.RowsHoldCommittedCosts | src/services/quotaService.ts:52-55 | for every interleaving and abort pattern a row is its start plus the costs of committed charges |
| QuotaInterleaved.RowsHoldPurchases | src/services/quotaService.ts:171-184 | for every interleaving the purchased credits of a row are its start plus the purchases made for it |
| QuotaInterleaved.LocksAreExclusive | src/services/quotaService.ts:52-55 | mutual exclusion: in every run a row is locked by at most one call |
| QuotaInterleaved.LateCreatorAborts | src/services/quotaService.ts:119-127 | a call about to create a daily row that somebody else created meanwhile can only abort, without trace |
| QuotaSerial.SerialKeyIsAtomic | src/services/quotaService.ts:34-185 | a key without overlapping calls, in every run whatever other keys do: an order of exactly what happened to it in which the atomic ledger ends with the same rows of the key and gives the same answers; keyless calls need no condition |
| QuotaSerial.SerialKeysAreAtomic | src/services/quotaService.ts:34-185 | if no key overlaps with itself, the whole run is serialisable in this sense, keyless calls overlapping freely |
| QuotaSerial.SerialisableIff | src/services/quotaService.ts:34-185 | a key is serialisable in every run iff its own calls never overlap |
| QuotaSerial.OrderIsComplete | src/services/quotaService.ts:34-185 | each answered call and each purchase of the key stands in its order as often as it happened, and nothing else |
| TransactionQueue.PollAmidIsPollThenInsert | src/infrastructure/queue/TransactionWorker.ts:69-90 | rows inserted at any points of a poll, with any faults in it, end up as if inserted after it |
| TransactionQueue.PendingAfterPolls | src/infrastructure/queue/TransactionWorker.ts:69-90 | as long as no processing throws, whatever updates and calls fail: a job with p older pending ones is still pending after k polls iff 5k <= p, whatever arrives between polls or during them |
| TransactionQueue.LeavesPendingInTime | src/infrastructure/queue/TransactionWorker.ts:69-90 | it has left pending by poll floor(p/5)+1 |
| TransactionQueue.PollsDrain | src/infrastructure/queue/TransactionWorker.ts:71-75 | k polls without arrivals take exactly the min(5k, pending) oldest off the list |
| TransactionQueue.ProcessedInCreationOrder | src/infrastructure/queue/TransactionWorker.ts:71-85 | over a whole run jobs are processed in created_at order, none twice |
| TransactionQueue.CleanPollTakesTheOldest | src/infrastructure/queue/TransactionWorker.ts:71-86 | a poll in which nothing throws removes exactly the oldest batch from the pending list |
| TransactionQueue.PendingIdsAreThePendingRows | src/infrastructure/queue/TransactionWorker.ts:71-75 | the fetched list is exactly the pending rows, oldest first |
| TransactionQueue.OutcomeOfAttempt | src/infrastructure/queue/TransactionWorker.ts:18-64 | for every pattern of failing updates and adapter results: the condition of each final status, the calls made, the hash, the error mark and whether it throws |
| TransactionQueue.JobTable.EnqueueTransactionJob | src/infrastructure/queue/TransactionQueue.ts:21-41 | one fresh pending row at the end, its identity returned |
| TransactionQueue.JobTable.ProcessJob | src/infrastructure/queue/TransactionWorker.ts:18-64 | the row after each pattern of failing updates and adapter results, and whether it throws |
| TransactionQueue.JobTable.PollOnce | src/infrastructure/queue/TransactionWorker.ts:69-90 | the table after a poll, which an exception ends early |
| SwapProtocol.JobsAreAccountedFor | src/modules/swap/controller.ts:109-120 | in every reachable state jobs of a key = stored + failed stores + requests between enqueue and store |
| SwapProtocol.JobBound | src/core/middleware/idempotency.ts:73-116 | jobs of a key <= overlapping requests of this key + its failed stores, whatever other keys do |
| SwapProtocol.JobBoundIsReached | src/modules/swap/controller.ts:109-120 | for every key, overlap and number of failed stores some run gives the key exactly as many jobs as the bound allows |
| SwapProtocol.AtMostOneJobIff | src/core/middleware/idempotency.ts:73-97 | a key gets at most one job in all runs iff its own requests do not overlap and it loses no store |
| SwapProtocol.SerialRepliesAgree | src/core/middleware/idempotency.ts:82-91 | then the key has exactly one job and all its successful replies name it, however requests of other keys overlap |
| SwapProtocol.ResponsesAlwaysNameJobs | src/modules/swap/controller.ts:109-120 | every stored, given or replayed response names a job of that key in the queue table |
| SwapProtocol.SettledStays | src/infrastructure/db/IdempotencyRepository.ts:30-55 | a key with a completed record and nobody past the check never changes its record, gets no job, and answers later requests with it |
| SwapProtocol.ExecutedAtMostOnce | src/infrastructure/queue/TransactionWorker.ts:18-64 | for all failures, adapter results, crashes and restarts: at most one adapter call per job, none while pending, completed rows carry their call's hash |
| SwapProtocol.FailedIsTrueIff | src/infrastructure/queue/TransactionWorker.ts:35-62 | in all runs a row marked failed means its call did not succeed, iff the update to completed never fails |
| SwapProtocol.JobsOnlyProgress | src/infrastructure/queue/TransactionWorker.ts:24-63 | no job returns to pending; completed and failed rows never change in any continuation |
| SwapProtocol.CallsAreRecorded | src/infrastructure/queue/TransactionWorker.ts:30-33 | the calls recorded for the rows of a key are the adapter calls its run made |
| SwapProtocol.LetGoStays | src/infrastructure/queue/TransactionWorker.ts:71-75 | a row that is not pending and that the worker is not at work on, left processing included, never changes in any continuation |
| SwapProtocol.SomeRunStrandsARow | src/infrastructure/queue/TransactionWorker.ts:24-63 | and some runs leave such a row: the worker stops between marking it and updating it |
| SwapProtocol.CallsPerKeyBound | src/infrastructure/queue/TransactionWorker.ts:30-33 | adapter calls for a key <= its overlapping requests + its failed stores, end to end |
| SwapProtocol.PollIsWorkerRun | src/infrastructure/queue/TransactionWorker.ts:69-90 | a poll as coded is a run of the protocol's worker steps, for every fault pattern |
| SwapProtocol.AttemptIsProcess | src/infrastructure/queue/TransactionWorker.ts:18-64 | the protocol's four worker steps do to a row what processing a job does |
| SwapProtocol.ServeIsItsSteps | src/modules/swap/controller.ts:81-120 | serving a request without interference, refused or not, is its own protocol steps in a row |
| SwapController.IdempotencyRepository.FindIdempotencyRecord | src/infrastructure/db/IdempotencyRepository.ts:15-28 | the stored record, if any |
| SwapController.IdempotencyRepository.StoreIdempotencyRecord | src/infrastructure/db/IdempotencyRepository.ts:30-55 | the upsert replaces or creates the record; a failed write changes nothing |
| SwapController.Controller.RequireIdempotencyKey | src/core/middleware/idempotency.ts:21-53 | the key is the trimmed header; a missing one and one longer than 64 characters are refused, every other passes |
| SwapController.TrimIsExact | src/core/middleware/idempotency.ts:26-30 | trimming cuts white space at both ends, nothing else, and leaves none there |
| SwapController.SpacesAre | src/core/middleware/idempotency.ts:30 | the white space trimmed is JavaScript's, character by character |
| SwapController.Controller.SwapExecute | src/modules/swap/controller.ts:65-124 | both tables and the reply after a request, case by case: key refused, replay of the stored response, validation or enqueue failure without a trace, or enqueue, store and reply, or an orphaned job and an error |
| SwapController.ServedIsTold | src/modules/swap/controller.ts:65-124 | serving a request as the protocol does tells its client what these cases say |
| SwapController.DuplicateIsToldTheSame | src/core/middleware/idempotency.ts:82-91 | once a request was answered, a later one with its key, in any circumstances, gets the same answer and changes nothing |
| SwapController.RepliesAreAnswers | src/core/middleware/idempotency.ts:88-90 | a client is told an answer exactly when its request ended with that answer in the protocol |
| PathTemplates.MatchingIsSegmentWise | src/services/configService.ts:78-82 | the compiled anchored expression accepts a path iff the segments match one by one |
| PathTemplates.UsualTemplatesAreWellFormed | src/services/configService.ts:75-81 | every template whose segments are plain words or plain names in braces is covered by these results |
| PathTemplates.EmptyBracesAreLiteral | src/services/configService.ts:80 | empty braces are not a placeholder and stay in the expression as they are |
| PathTemplates.FilledTemplateMatches | src/services/configService.ts:75-81 | filling placeholders with non-empty slash-free values always matches and gives the values back |
| PathTemplates.MatchedPathIsFilledTemplate | src/services/configService.ts:75-81 | a matched path is the template filled with exactly one list of such values |
| PathTemplates.SharedPathIffNotSeparated | src/services/configService.ts:78-82 | two templates share a path iff no segment position tells them apart |
| PathTemplates.OrderIrrelevantIffUnambiguous | src/services/configService.ts:69-83 | the lookup depends on row order iff no row is exact and two different rows match |
| PathTemplates.LookupIgnoresOrder | src/services/configService.ts:69-83 | with pairwise separated templates every row order gives the same endpoint, and an exact row wins |
| PathTemplates.FindExactFinds | src/services/configService.ts:70-73 | the keyed read finds the row with that path and verb iff there is one |
| PathTemplates.FindPatternFinds | src/services/configService.ts:77-83 | the scan finds a matching row iff there is one |
| PathTemplates.GetEndpointByPathMethod | src/services/configService.ts:64-92 | the scanning loop with early return computes the lookup these lemmas are about |
| RouteLabels.NormaliseIsSegmentWise | src/core/metrics/index.ts:110-115 | for every string the three global replacements are one first-match rewrite of each segment after a slash |
| RouteLabels.NormaliseIsIdempotent | src/core/metrics/index.ts:110-115 | normalising twice is normalising once, and the number of slashes is kept |
| RouteLabels.UnchangedIff | src/core/metrics/index.ts:110-115 | a path is its own label iff no segment after a slash starts with a recognised identifier |
| RouteLabels.RewrittenByForm | src/core/metrics/index.ts:110-115 | what a segment becomes, by its characters: uuid, number and hash forms are replaced by :uuid, :id and :hash as far as they reach, in this order, and any other segment stays |
| RouteLabels.ShortKeysAreNotRewritten | src/core/metrics/index.ts:106-115 | the documented example /v1/keys/abc123 is returned unchanged |
| Cidr.IpToInt | src/lib/net.ts:2-12 | four numbers from 0 to 255 give a*2^24 + b*2^16 + c*2^8 + d, also through negative accumulators; anything else gives nothing |
| Cidr.MaskedEqualIffSamePrefix | src/lib/net.ts:25-26 | for all 32-bit values and prefix lengths 0..32 the masked comparison is equality of the leading bits |
| Cidr.IsIpInCidr | src/lib/net.ts:14-27 | true iff the address is in the block, false for every malformed part |
| Cidr.IpMatchesAny | src/lib/net.ts:29-35 | true iff some entry of the list contains the address |
| Cidr.ShorterPrefixContainsLonger | src/lib/net.ts:19-26 | a shorter prefix of a network contains every longer one (section 3.1 of RFC 4632) |
| Cidr.BlocksNestOrAreDisjoint | src/lib/net.ts:19-26 | two blocks that share an address are nested |
| Redaction.SanitizeBody | src/core/middleware/requestLogger.ts:12-26 | the recursive copying loop terminates on every tree and builds the sanitised tree |
| Redaction.ClearPathsArePreserved | src/core/middleware/requestLogger.ts:21-23 | off the sensitive keys every leaf and subtree is where it was |
| Redaction.SensitivePathsShowOnlyTheMarker | src/core/middleware/requestLogger.ts:17-20 | through a sensitive key nothing but the marker is ever visible |
| Redaction.ShapeIsKept | src/core/middleware/requestLogger.ts:13-25 | array lengths are kept; the key set is kept iff the object has no own key __proto__ |
| Redaction.ProtoKeyIsLost | src/core/middleware/requestLogger.ts:14-23 | a body whose own key the copy loses |
| Redaction.SanitizeIsIdempotent | src/core/middleware/requestLogger.ts:12-26 | sanitising twice is sanitising once |
| Redaction.LoggedAlikeIffSameOffSecrets | src/core/middleware/requestLogger.ts:12-26 | two bodies sanitise to equal trees iff they look the same along every path that avoids sensitive keys |
| Redaction.SensitiveByAnyPart | src/core/middleware/requestLogger.ts:17 | sensitivity ignores ASCII case and survives any longer name around the word |
| Redaction.SensitiveIff | src/core/middleware/requestLogger.ts:17 | a key is hidden iff one of the seven words stands somewhere in it, each letter in either case |
| Slippage.MinimumIsTheFloor | src/modules/quotes/application/GetQuoteUseCase.ts:90-93 | the minimum lies in 0..amountOut and less than one unit below the exact value |
| Slippage.MinimumIsMonotone | src/modules/quotes/application/GetQuoteUseCase.ts:92 | monotone in the amount, antitone in the slippage |
| Slippage.DefaultIsFiftyBasisPoints | src/lib/smartRouter.ts:260 | the router's default equals the formula at 50 basis points for every amount |
| Slippage.ZeroSlippageIsTheDefault | src/modules/quotes/application/GetQuoteUseCase.ts:89-94 | slippage 0 gives that default, which reduces every positive amount |
| Slippage.EstimateIsTheFloor | src/modules/quotes/service.ts:34-69 | end to end: the minimum of a request is its amount less the basis points of its text, 50 for none or zero, rounded down to a whole unit |
| Slippage.EstimateIsMonotone | src/modules/quotes/application/GetQuoteUseCase.ts:88-94 | end to end: monotone in the amount, antitone in the basis points |
| Slippage.AcceptedSlippageIsSafe | src/modules/quotes/service.ts:34-69 | end to end: every slippage text that is accepted gives a minimum in 0..amountOut, and the refused ones are exactly those that are not an integer from 0 to 10000 |
| Slippage.CapIsExact | src/modules/quotes/service.ts:39-44 | the guard's 10000 is exact: the rule stays within 0..amountOut for every amount iff bps <= 10000 |

## Left out

- Express wiring, CORS, Swagger, metrics counters, logging output and health checks: input and output without a property of their own.
- Floating-point rounding in the limiter, and the limiter's fail-open branch on quota errors.
- Requests metered at a cost other than one token: the middleware never makes them.
- QuotaLedger.QuotaService.ConsumeCredit: requests with a user and no API key, which no caller makes (src/core/middleware/rateLimiter.ts:163-170 takes both from the same key).
- QuotaLedger.QuotaService.AddMonthlyCredits: the same, as the purchase endpoint demands a key; for a user alone the upsert key is undefined and the unique index does not cover the row.
- QuotaLedger.QuotaService.GetUsage: the same.
- The daily sum over several endpoints as a limit of its own: the code has none, only each endpoint's limit against the shared row.
- Templates with characters special to regular expressions, or with a placeholder that is part of a segment.
- Reading an octet or a prefix length from text: addresses start as numbers, and fractional ones are not modelled.
- The order of the keys of a JSON object, and values that are not JSON.
- Which chains are supported, and the payload of a job beyond the checks on it.
- Database writes that take effect although they report an error, and more than one worker process.
- Mock quotes, price impact, ABI encoding, and the record-keeping modules (partners, users, dashboard, chains, seeding).
