# GopherCore: verified models of the concurrency, caching, resilience and configuration cores

This project models five packages of GopherCore in Dafny and proves what they promise over every
interleaving, every run and every input. `dafny verify dfyconfig.toml` checks all of it.

**`async.Map`** (`MapProtocol`, `MapCall`, `MapSchedules`, `MapWitnesses`,
`MapErrorOrder`). The launch loop, the counting semaphore, the WaitGroup, the
worker stages and a one-way cancellation are a step system; a run is any interleaving of steps. fn has a
fixed outcome per item (value and error, or panic) while the context is live and may do anything once
it is cancelled. Every schedule terminates, none deadlocks, the bound holds, a nil error means the
results of the sequential map in input order, and uncancelled runs return the sequential map's results
and error whatever the schedule. `MapCall` is the same algorithm on arrays written in place: each atomic
step is a method proved against the step system, and `Map` runs them under an arbitrary scheduler.
`MapWitnesses` holds two runs that contradict the documentation; `MapErrorOrder` says which errors can come
first in time over all schedules, and when the returned one always does.

**`async.Fan` and `async.Group`** (`FanProtocol`, `FanTheorems`, `FanCall`). One step system with a flag for the
context check. The returned slice holds each error exactly as often as launched functions reported it, plus
one context error if and only if the loop broke early; a cancellation stops the launching, and no call's
ending is lost.

**`InMemoryCache`** (`CacheProtocol`, `InMemoryCache`, `CacheServe`). The operations are split at their lock boundaries
and interleave while a monotone clock advances. The cache refines a timed map that only Set and Delete
change: evictions are invisible, values live exactly for their time to live, and the answer of Get is
characterised exactly. Its misses are not linearizable, which a run shows: exactly the entries that have an
expiration can lead to a miss on a live key (`FalseMissIff`), and only if the key is written between the
read and the clock check. The class stores byte
slices on the heap and never shares one with a caller; `CacheServe.Serve` drives one object through an
arbitrary interleaving of its operations.

**`Breaker`** (`BreakerProtocol`, `BreakerTheorems`, `Breaker`). Admission and completion are separate
locked sections, so calls report verdicts in later phases. Proved over all runs: probe-slot accounting,
the exact condition for the documented concurrency limit, the trip and recovery conditions in terms of
recorded verdicts, what every admission and every kind of ending does, the shape of the transition log,
the open window, and what Reset clears. `Breaker.Serve`
drives one object through an arbitrary interleaving of its callers.

**`retry`** (`Float64`, `Backoff`, `RetryLoop`, `RetryTrace`, `RetryOverBreaker`). float64 conversion rounds
to the nearest number of 53 significant bits. The exponential delay is the ideal capped doubling exactly when the conversion back
does not overflow. The two loops are methods over a scripted environment and simulate each other; for every script their calls, their waits and their
error are determined (`DoBehaviour`). A
retry loop over a breaker reaches a failing downstream exactly as often as the breaker allows.

**`config`** (`EnvText`, `ConfigSchema`, `ConfigTheorems`, `ConfigMeaning`, `ConfigLoad`). A schema says which cell of a
store each field occupies. The recursive in-place traversal refines a linear program of allocations and
assignments that depends on the schema and the environment alone; success, the final
content of every leaf of every kind in terms of the texts alone, idempotence, frame and the state after an error follow for every schema.

Where the code and its own text disagree, the model follows the code:

- `async/async.go:168-170` promises the context error on cancellation and otherwise the first error
  encountered. After an early exit the context error is returned if and only if no item left a specific
  error (`CancelledRun`; `BreaksEarlyWithoutContextError` is a run that returns another one). The returned
  error is not the first in time (`LaterErrorIsReturned`) but the one with the lowest index; it is the
  first in time in every uncancelled schedule if and only if the first max(1, concurrency) errors in input
  order all equal it (`ReturnsFirstInTimeIff`).
- `circuitbreaker/circuitbreaker.go:369` says Reset clears all statistics. It leaves the three counters at
  zero if and only if the breaker was not Closed or they were zero already (`ResetClearsCountersIff`):
  while Closed a failure streak survives it (`ResetKeepsStreak`), and so does a slot counter that the end
  of an earlier phase's probe has driven below zero (`ResetKeepsNegativeSlots`).
- `circuitbreaker/circuitbreaker.go:110-111` limits the concurrent requests of a half-open phase. Counting
  probes, the limit is kept if and only if no probe of an earlier phase is still running
  (`ConcurrencyLimitIffNoneCarried`, `TwoProbesWithLimitOne`); counting all running requests, if and only
  if, besides, no call admitted while Closed is (`RequestLimitIff`, `TwoRequestsWithLimitOne`).
- `config/config.go:34` says that envDefault is used when the variable is absent or empty; an existing empty
  variable wins over the default, as `config/config.go:103-104` says. For every kind the field gets the
  default's value if and only if the empty text parses to the same, and where the empty text does not
  parse populate fails (`DefaultUsedIff`, `EmptyVariableWins`, `EmptyVariableFails`).
- `circuitbreaker/doc.go:7` speaks of a lock-free sliding window; there is none.
- `retry/retry.go:125` says that the default bound is used for a non-positive attempt count; such an option
  is skipped, so an earlier positive one stays in force (`LastSettingWins`) and the default is used if
  there is none (`DefaultStays`).
- `retry/retry.go:333` says that capping the attempt prevents the overflow of the Duration conversion. For
  all int64 settings it does if and only if the scaled delay exceeds the rounded cap or is an int64
  (`ExponentialDelayIff`). It fails when both are 2^63 (`UncappedOverflow`) and when a negative initial
  delay scales below the smallest int64 (`NegativeOverflow`); these are the only ways (`OverflowsIff`).

## Model

| member | source | states |
|---|---|---|
| MapProtocol.FirstMatch | async/async.go:231-248 | a scan of errs returns the matching entry with the lowest index, and nil exactly when nothing matches |
| MapProtocol.StepInv | async/async.go:187-250 | every step of the loop, of a worker and of the context keeps the token and WaitGroup accounting, the launched prefix, the content of every slice cell, and what the final stages know |
| MapProtocol.SemaphoreAccounting | async/async.go:183-229 | in every reachable state the tokens are those of the workers that still hold one plus one between acquire and spawn, never over max(1, concurrency); a release never blocks and Done never goes below zero |
| MapProtocol.BoundedConcurrency | async/async.go:171-172 | at most max(1, concurrency) calls of fn are in progress at any time |
| MapProtocol.NoWriteAfterWait | async/async.go:229-250 | once wg.Wait has returned, no continuation writes to results or errs |
| MapProtocol.NoDeadlock | async/async.go:196-200 | every reachable state before the return enables a step without the help of a cancellation, also when the semaphore is full |
| MapProtocol.StepDecreases | async/async.go:187-229 | every step, whoever takes it, decreases a measure over remaining items and worker stages |
| MapProtocol.Termination | async/async.go:187-250 | no schedule, fair or not, takes more than 10n + 6 steps, and a run that cannot go on has returned |
| MapProtocol.NilErrorMeansSequentialMap | async/async.go:169-170 | in every interleaving, a nil error means that all items were launched and finished without error and results is the sequential map in input order |
| MapProtocol.UncancelledRefinesSequentialMap | async/async.go:231-250 | an uncancelled run returns the sequential results, and the lowest-index non-context error or else the lowest-index context-valued one |
| MapProtocol.ScheduleIndependence | async/async.go:173 | any two complete uncancelled runs return the same results and the same error |
| MapProtocol.CancelledRun | async/async.go:188-246 | the launched items are a prefix, later cells are untouched, launched cells hold their own outcome or the context error, and an early exit is always reported; after one the error is the context's own iff no launched item left a panic or a specific error, which outrank it; without a specific error it is that or the sequential map's |
| MapProtocol.EndedBeforeCancellation | async/async.go:218-226 | a call of fn that ended before the cancellation leaves the cells of the sequential map, whatever happens afterwards |
| MapProtocol.CallIsRecorded | async/async.go:209-226 | however a call of fn ends, before or after a cancellation, its item ends with the value and error it returned, or with the recovered panic and the zero value |
| MapProtocol.FailuresOutrankContext | async/async.go:231-246 | in every complete run a panic or an error other than Canceled and DeadlineExceeded outranks both, and the one with the lowest index is returned |
| MapProtocol.SelectOffers | async/async.go:196-200 | with a cancelled context the loop can always give up its select, even on a full semaphore, taking no token; it can take one exactly while fewer than max(1, concurrency) are out |
| MapSchedules.Saturate | async/async.go:183-202 | some schedule has any number of calls up to max(1, concurrency) in progress at once: the bound is used to the full |
| MapWitnesses.BreaksEarlyWithoutContextError | async/async.go:231-240 | a cancelled run that breaks early and returns an error other than its context's |
| MapWitnesses.LaterErrorIsReturned | async/async.go:231-236 | a run in which an item has failed before another is called, and the error of the latter is returned |
| MapErrorOrder.FirstInTime | async/async.go:187-226 | over all uncancelled schedules exactly the errors of the first max(1, concurrency) failing items in input order can be the first to be written |
| MapErrorOrder.ReturnsFirstInTimeIff | async/async.go:168-170 | the returned error is the first one in time in every uncancelled schedule iff those errors all equal the sequential map's; so for specific errors alone and for errors of any kind |
| MapProtocol.CancellationHalts | async/async.go:168-174 | once the context is cancelled at most one more worker is launched, no call of fn begins, and only calls in progress still leave an outcome |
| MapCall.Call.Scan | async/async.go:232-236 | the scanning loop over the error slice computes FirstMatch |
| MapCall.Call.LoopStep | async/async.go:188-250 | the calling goroutine's steps on the real fields are those of the step system |
| MapCall.Call.WorkerStep | async/async.go:203-226 | the worker's in-place writes, recover, release and Done, in that order, are those of the step system |
| MapCall.Map | async/async.go:175-251 | under an arbitrary scheduler Map returns, within the step bound, with the promised results and error |
| FanProtocol.ErrorConservation | async/async.go:261-302 | in every interleaving the returned slice is, as a bag, the errors and panics of the launched prefix plus one context error iff the loop broke early |
| FanTheorems.CancelledFanStops | async/async.go:269-276 | in every run, from a cancellation on at most one more goroutine is launched, the one whose check lies behind; exactly the committed ones have run when Fan returns, and the context's error is in the slice if that is not all |
| FanTheorems.CancelledBeforehand | async/async.go:271-275 | with a context cancelled before the call nothing is launched and the slice holds the context's error alone |
| FanTheorems.CallIsAccounted | async/async.go:278-297 | however the call of fn in a goroutine ends, that is what the goroutine has exited with when the caller returns |
| FanTheorems.ReturnedErrors | async/async.go:281-297 | each error, a recovered panic included, occurs in the slice once per launched goroutine that reported it, and the context's once more iff the loop broke early |
| FanTheorems.AllAtOnce | async/async.go:252-261 | all the goroutines may be inside fn at the same time |
| FanProtocol.GroupWaitNil | async/async.go:152-164 | a Group launches everything, and Wait returns the empty slice exactly when every function ended cleanly |
| FanProtocol.StepConserved | async/async.go:278-296 | each step keeps, for every error, its number of occurrences in the slice equal to the number of appends |
| FanProtocol.StepDecreases | async/async.go:269-300 | every step of Fan or Group decreases a measure |
| FanProtocol.Progress | async/async.go:299-300 | as long as the caller waits, some goroutine can take a step |
| FanCall.Collector.WorkerStep | async/async.go:279-296 | a goroutine's append and Done on the shared fields are those of the step system |
| FanCall.Collect | async/async.go:123-302 | under an arbitrary scheduler the call returns at the end of a complete run, with that run's slice: the bag of how the launched functions ended in it, plus one context error iff the loop broke early |
| CacheProtocol.StepInv | cachekit/memory.go:78-217 | every locked section keeps: the map holds latest writes only and misses none that is live, and all deadlines waiting for deletion have passed |
| CacheProtocol.LiveViewIsLatestWrites | cachekit/memory.go:141-217 | at every instant of every interleaving the live entries are exactly those of the latest writes |
| CacheProtocol.EvictionIsInvisible | cachekit/memory.go:108-120 | no step but Set, Delete and time changes the live view; phase 2 and the lazy deletion remove expired entries only, even after an overwrite with an equal expiration |
| CacheProtocol.GetAnswers | cachekit/memory.go:176-199 | for every interleaving around it Get hits exactly when the latest write as of its read is still live at its clock check, and returns that write |
| CacheProtocol.AnswerIsCurrent | cachekit/memory.go:176-199 | if nobody writes the key between the read and the clock check, Get misses iff the key is not live in the cache at the check, and otherwise returns what the cache holds; a miss at the read is always genuine |
| CacheProtocol.FalseMissNeedsAWrite | cachekit/memory.go:176-199 | a miss on a key that is live all along has been preceded by a write to the key after the read |
| CacheProtocol.FalseMissIff | cachekit/memory.go:176-193 | at every reachable read some interleaving makes Get miss on a key that is live at its clock check iff the entry read has an expiration, and on a key that is live all along iff the entry is also live when read |
| CacheProtocol.MissDespiteFreshValue | cachekit/memory.go:184-193 | a reachable run in which the key is live in every state and Get still misses |
| CacheProtocol.VisibleForItsTtl | cachekit/memory.go:146-161 | a stored value is visible from its commit until exactly its deadline as long as nobody writes the key, however everything else interleaves |
| CacheProtocol.SweepRemovesExpired | cachekit/memory.go:97-120 | in any interleaving an entry expired at the sweep's time and not written between its phases is gone after the second |
| CacheProtocol.SweepFromItsBeginning | cachekit/memory.go:78-121 | a whole sweep in any interleaving: what was expired when it began and is not written between its scan and its end is gone |
| CacheProtocol.LazyDeletionRemoves | cachekit/memory.go:184-193 | an entry that Get found expired and that is unchanged when it takes the lock is gone when Get returns |
| CacheProtocol.GoneAfterDelete | cachekit/memory.go:207-217 | after Delete, in any interleaving, the key is not in the cache and every Get that begins misses until somebody writes it |
| InMemoryCache.Cache.Set | cachekit/memory.go:141-164 | stores a private copy with its deadline and takes hold of no array of the caller |
| InMemoryCache.Cache.Get | cachekit/memory.go:171-200 | an undisturbed Get hands out a fresh copy of a live entry and changes nothing, or misses and removes the expired entry |
| InMemoryCache.Cache.ScanExpired | cachekit/memory.go:84-102 | the scan collects exactly the expired keys with their deadlines, in any iteration order |
| InMemoryCache.Cache.DeleteExpired | cachekit/memory.go:111-120 | the deletion loop removes exactly the keys whose deadline is the observed one |
| InMemoryCache.Cache.EvictExpired | cachekit/memory.go:78-121 | an undisturbed eviction leaves exactly the live entries |
| InMemoryCache.CallerCannotReachIn | cachekit/memory.go:140-162 | overwriting the array passed to Set or the array returned by Get does not change the stored entry |
| CacheServe.Serve | cachekit/memory.go:78-217 | driven through any interleaving of its locked sections the object ends with the entries of the step system, and its Gets report what they report there |
| BreakerProtocol.StepInv | circuitbreaker/circuitbreaker.go:205-378 | every locked section keeps the probe accounting, the counters in step with the verdict history, and the chained transition log |
| BreakerProtocol.Sanitized | circuitbreaker/circuitbreaker.go:160-177 | New keeps every positive setting whatever the others are, and gives each of the others its value in DefaultConfig |
| BreakerTheorems.Admission | circuitbreaker/circuitbreaker.go:214-241 | in every phase: Closed lets a caller through, Open within its timeout answers ErrCircuitOpen, and a half-open phase, or Open beyond its timeout, admits a probe while a slot is free and answers ErrTooManyRequests otherwise |
| BreakerTheorems.FinishedCall | circuitbreaker/circuitbreaker.go:246-337 | in every phase: a panic, or an error that is not the client's cancellation, moves lastFailureTime and counts up, trips or reopens; a success ends the streak, counts up or closes; any other ending only gives back the slot |
| BreakerTheorems.Observation | circuitbreaker/circuitbreaker.go:185-189 | State moves an open breaker beyond its timeout to half-open and changes nothing otherwise; time alone changes nothing |
| BreakerTheorems.ProbeSlots | circuitbreaker/circuitbreaker.go:227-252 | halfOpenRequests never exceeds the maximum; in-flight probes are halfOpenRequests plus the probes carried over at the last transition; with none carried the counter is the in-flight count, between 0 and the maximum |
| BreakerTheorems.ConcurrencyLimitIffNoneCarried | circuitbreaker/circuitbreaker.go:110-115 | the probes running in a half-open phase keep within MaxHalfOpenRequests in all its continuations iff no probe of an earlier phase was running when it was entered |
| BreakerTheorems.RequestLimitIff | circuitbreaker/circuitbreaker.go:110-115 | all the requests running in a half-open phase, earlier calls included, stay within MaxHalfOpenRequests in all its continuations iff no probe was carried in and every running call is a probe |
| BreakerTheorems.TwoRequestsWithLimitOne | circuitbreaker/circuitbreaker.go:227-237 | a run that reaches two requests in a half-open phase with a limit of one and no probe carried in |
| BreakerTheorems.TwoProbesWithLimitOne | circuitbreaker/circuitbreaker.go:345-356 | a run that reaches two probes in flight with a limit of one |
| BreakerTheorems.TripCharacterisation | circuitbreaker/circuitbreaker.go:300-337 | in Closed failureCount is the longest all-failure suffix of the verdicts recorded since Closed was entered, and the breaker opens exactly when it reaches FailureThreshold |
| BreakerTheorems.RecoveryCharacterisation | circuitbreaker/circuitbreaker.go:300-337 | a half-open phase ends in Closed without Reset exactly at the success that completes SuccessThreshold, no failure having been recorded in it, and in Open exactly at the first failure |
| BreakerTheorems.TransitionsFormAPath | circuitbreaker/circuitbreaker.go:345-361 | the reported transitions form a chained path without self-loops, and Open goes to Closed only by Reset |
| BreakerTheorems.ResetClearsCountersIff | circuitbreaker/circuitbreaker.go:369-378 | Reset ends in Closed and leaves lastFailureTime and the running calls alone; the failure, success and slot counters are all zero after it iff the breaker was not Closed, or had neither a failure streak nor a slot counter below zero |
| BreakerTheorems.ResetKeepsStreak | circuitbreaker/circuitbreaker.go:345-348 | a reachable Closed breaker with a failure streak that Reset does not change |
| BreakerTheorems.ResetKeepsNegativeSlots | circuitbreaker/circuitbreaker.go:250-252 | a reachable Closed breaker without a streak whose slot counter is -1, and Reset does not change it |
| BreakerTheorems.LastFailureIsLatest | circuitbreaker/circuitbreaker.go:322-323 | lastFailureTime is the time of the latest failure verdict of the run, whatever phase it came in |
| BreakerTheorems.OpenWindow | circuitbreaker/circuitbreaker.go:283-337 | over a whole run without Reset an open breaker stays open and admits nobody until Timeout has elapsed since the latest recorded failure |
| BreakerTheorems.OpenAdmitsIffTimedOut | circuitbreaker/circuitbreaker.go:216-252 | an open breaker admits a caller, as first probe, iff Timeout has elapsed since the latest failure of the run; otherwise it rejects with ErrCircuitOpen and changes nothing; State reports HalfOpen under the same condition |
| Breaker.Breaker.constructor | circuitbreaker/circuitbreaker.go:160-177 | a new breaker is Closed with zero counters and positive settings |
| Breaker.Breaker.Transition | circuitbreaker/circuitbreaker.go:345-361 | resets the three counters and reports the change once, or does nothing |
| Breaker.Breaker.Enter | circuitbreaker/circuitbreaker.go:214-241 | the admission section decides and takes a slot as in the step system |
| Breaker.Breaker.Leave | circuitbreaker/circuitbreaker.go:246-268 | the deferred section frees the slot and records the verdict as in the step system |
| Breaker.Serve | circuitbreaker/circuitbreaker.go:205-378 | driven through any interleaving of its callers the object ends with the fields of the step system, and OnStateChange has been told exactly the logged transitions, in order |
| Float64.ToFloatMonotone | retry/retry.go:339-340 | conversion of an int64 to float64 is monotone |
| Float64.ToFloatRepresentable | retry/retry.go:339 | conversion to float64 yields a float |
| Float64.RepresentableIff | retry/retry.go:339 | the floats are the numbers of 53 significant bits |
| Float64.NearestFloat | retry/retry.go:339-340 | conversion rounds to the nearest float, on a tie to the one with the even significand |
| Float64.ScaledRepresentable | retry/retry.go:338-339 | multiplying a float by a power of two is exact |
| Float64.RoundsTo63 | retry/retry.go:340 | float64(MaxDelay) is 2^63 exactly for the 512 largest int64 values |
| Backoff.ExponentialDelay | retry/retry.go:332-351 | for all settings without overflow the delay is min(MaxDelay, float64(InitialDelay) * 2^min(attempt, 62)), at most MaxDelay, and not negative when the settings are not |
| Backoff.ExponentialDelayIff | retry/retry.go:333-344 | for all int64 settings, negative ones included, it is so for every behaviour of an out-of-range conversion iff the scaled delay exceeds the rounded cap or is an int64 |
| Backoff.OverflowsIff | retry/retry.go:338-343 | where that fails: for non-negative settings iff the scaled delay and the rounded cap are both 2^63, for a negative initial delay iff the scaled delay is below the smallest int64 |
| Backoff.UncappedOverflow | retry/retry.go:343 | an input with the largest cap for which the computed delay is negative |
| Backoff.NegativeOverflow | retry/retry.go:343 | an input with a negative initial delay and a small cap for which the delay is whatever the conversion yields |
| Backoff.DelayNondecreasing | retry/retry.go:327-351 | delays never shrink from one attempt to a later one |
| Backoff.DelayDoubles | retry/retry.go:338-344 | below the cap each delay is twice the one before, from the initial delay on |
| Backoff.JitterRange | retry/retry.go:353-359 | the jittered delays are exactly those from zero up to but not including the base delay |
| Backoff.DelayWithinIdeal | retry/retry.go:327-362 | neither jitter nor an overflow makes a delay longer than the ideal one |
| RetryLoop.DoWithConfig | retry/retry.go:217-256 | the loop without a value is DoFrom: its error, its calls and its waits |
| RetryLoop.DoWithValueWithConfig | retry/retry.go:284-319 | the loop with a value is DoValueFrom: its value, its error, its calls and its waits |
| RetryTrace.DoBehaviour | retry/retry.go:217-256 | for every script: which calls and waits happen, in which order, with which delays, which wait the context cuts short, and the error: that of the attempt that stops the loop, else the joined one after the last attempt even under a cancellation, else the context's |
| RetryTrace.DoValueBehaviour | retry/retry.go:284-319 | the same with a value: that of the last call if it succeeded, and the zero value otherwise |
| RetryLoop.LoopsSimulate | retry/retry.go:217-319 | on the same script the two loops make the same calls, waits and error, and there is a value iff there is no error |
| RetryLoop.CallDiscipline | retry/retry.go:219-250 | fn is called for consecutive attempts, at most MaxAttempts times, never after a cancellation was seen, and at most the last call begins after the cancellation |
| RetryLoop.ContextErrorMeansCancelled | retry/retry.go:222-246 | the loop returns the context's error only after a cancellation |
| RetryLoop.UncancelledSearch | retry/retry.go:219-255 | without cancellation the loop returns the outcome of the first attempt that succeeds or is not retryable, and the joined error of the last attempt if there is none |
| RetryLoop.TotalSleepOfDo | retry/retry.go:237-255 | exponential sleep, jittered or not and overflow or not, totals at most min((MaxAttempts-1) * MaxDelay, float64(InitialDelay) * (2^(MaxAttempts-1) - 1)) |
| RetryLoop.Configure | retry/retry.go:202-207 | the option loop folds the options over the defaults, skipping nil ones |
| RetryLoop.LastSettingWins | retry/retry.go:128-178 | the last effective option for a field is the one in force |
| RetryLoop.DefaultStays | retry/retry.go:109-121 | a field that no effective option sets keeps its default: 3 attempts, 100 ms, 10 s, exponential, jitter |
| RetryLoop.ExhaustedCarriesAnError | retry/retry.go:128-134 | under any options a live context leads to at least one call, and the joined error carries the error of the last attempt |
| RetryOverBreaker.RetriesStopAtTheBreaker | simulation/chaos_load_test.go:76-99 | a retry loop over a Closed breaker reaches a failing downstream exactly min(MaxAttempts, failures left before the trip) times and then fails with ErrCircuitOpen joined if attempts were left |
| EnvText.SplitJoins | config/config.go:178 | splitting yields comma-free parts that join to the text |
| EnvText.SplitIsUnique | config/config.go:178 | and finds the only such parts |
| EnvText.TrimCore | config/config.go:181 | for any notion of white space, trimming keeps one stretch of a part, with only white space around it and none at its ends |
| EnvText.TrimmedPart | config/config.go:180-184 | a part yields the stretch between its outer white space as a segment, and none iff it is all white space |
| EnvText.TrimmedConcat | config/config.go:180-191 | the segments of several parts are those of each, in order |
| ConfigSchema.NoSilentTruncation | config/config.go:148-161 | the overflow checks accept exactly the values that survive truncation to the field's width |
| ConfigSchema.ListOfParses | config/config.go:177-191 | a list parses exactly when all its segments do, to their parses in order |
| ConfigSchema.FirstBadSegment | config/config.go:186-188 | a list fails with the cause of its first bad segment |
| ConfigTheorems.PopulateIsExec | config/config.go:67-120 | the recursive traversal is the linear execution of a program fixed by the schema and the environment |
| ConfigTheorems.PopulateSetsLeaves | config/config.go:97-118 | success sets every settable tagged leaf with an environment value or a non-empty default, at any depth, to the parse of that text |
| ConfigMeaning.ParseIsRepresentation | config/config.go:128-196 | for every kind setField assigns a value iff the text stands for it: the very number if it is in the field's range, the rounded float, the text itself, or the list of the values of the segments |
| ConfigMeaning.LeafHolds | config/config.go:97-118 | after a success every reached leaf with an existing variable or a non-empty default holds the value that this text stands for |
| ConfigMeaning.SucceedsIffRepresentable | config/config.go:67-120 | populate succeeds iff every such text stands for a value of its leaf's kind |
| ConfigMeaning.ScalarLeaf | config/config.go:128-176 | kind by kind: text that is no number of the kind and a number outside the field's width are errors; otherwise exactly that number is stored |
| ConfigMeaning.ZeroIsTextOfZero | config/config.go:88-90 | the zero value of every kind is what the text of zero stands for |
| ConfigMeaning.PopulateInFieldOrder | config/config.go:67-69 | a struct made of two halves is populated like the first and then, unless that failed, like the second |
| ConfigTheorems.PopulateSetsLists | config/config.go:177-191 | and every such list to one element per trimmed non-blank comma segment, in order |
| ConfigTheorems.DefaultUsedIff | config/config.go:97-118 | for every kind and both outcomes: a success leaves the value of the default in a leaf iff the text that was looked up parses to the same, and a text that does not parse is an error whatever the default |
| ConfigTheorems.EmptyVariableWins | config/config.go:103-111 | an existing empty variable is parsed instead of the default, for every kind: the default's value results iff the empty text parses to it, and populate fails if the empty text does not parse |
| ConfigTheorems.TextDefaultUsedIff | config/config.go:103-111 | after a success a text field holds its default iff the variable does not exist or holds the same text |
| ConfigTheorems.EmptyVariableFails | config/config.go:103-118 | an empty variable makes populate fail on an integer whose default would parse |
| ConfigTheorems.PopulateSucceedsIff | config/config.go:67-120 | populate succeeds iff every such text parses, whatever the struct held before |
| ConfigTheorems.PopulateIsIdempotent | config/config.go:67-120 | a second populate after a success changes nothing |
| ConfigTheorems.PopulateLeavesOthers | config/config.go:73-110 | on success and on error a cell is left alone unless it belongs to such a leaf or to a nil pointer being allocated |
| ConfigTheorems.UnsetLeaf | config/config.go:85-111 | a leaf that is not set holds its zero value if it lies behind a pointer that populate allocated, and what it held before otherwise, at any depth; on an error the pointer may not have been reached |
| ConfigTheorems.PopulateStopsAtFirstFailure | config/config.go:79-117 | an error names the first leaf in traversal order whose text does not parse, the earlier operations are complete and the later ones have written nothing |
| ConfigLoad.SetField | config/config.go:128-196 | setField writes the parsed value in place, or nothing on an error |
| ConfigLoad.ParseSegments | config/config.go:178-190 | the loop over the parts builds the list of parses of the trimmed non-blank ones |
| ConfigLoad.PopulateInPlace | config/config.go:67-120 | the in-place traversal leaves the store and the error of Populate |

## Left out

- Redis cache, job queue, database, telemetry, JSON and logging packages, HTTP and gRPC kits, guard and result: wrappers around libraries, or one-branch facts.
- `async.Go` and `async.GoErr`: single goroutines with the same recover block, easy members beside Map, Fan and Group.
- `cleanupLoop` and `Close`: a ticker that calls evictExpired until a channel is closed; every evictExpired, at any time, is covered by the cache step system.
- Context checks at the head of the cache and breaker calls: a cancelled call returns before it touches anything.
- Panic payload text, stack traces, error messages and wrapping: errors are tags, and errors.Is for context.Canceled is a flag of the outcome.
- `runtime.Goexit` inside a callback, callbacks that never return, nil RetryIf, re-entrant OnStateChange, and contexts whose Err and Done disagree are not part of this model.
- Clock readings, random draws, RetryIf verdicts and the choices of select and of the scheduler are parameters or steps; a call of fn takes no time of its own in the retry script.
- strconv, time.ParseDuration, OverflowFloat, the rounding of SetFloat on a float32 and the white space of strings.TrimSpace are parameters; float values are bit patterns; validate.Struct and the reflection checks of Load are not part of this model.
- Configuration schemas are finite and free of aliasing (populate does not terminate on a self-referential pointer type); the cells behind a nil pointer exist in the store and are zeroed when the pointer is allocated.
- A Group is launched by one goroutine that then waits; Go calls from several goroutines at once are not part of this model.
- InMemoryCache.Cache.Get: the class methods are undisturbed calls; the interleavings are those of the step system, whose locked sections they are composed of.
