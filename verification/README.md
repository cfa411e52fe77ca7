# Verified model of the contracts module's logic

A Dafny model of the five parts of this repository that compute something, with proofs about
them: the resilience primitives (circuit breaker, retry with backoff, bulkhead and their
composition `Guard`), the in-memory idempotency store, ULID text encoding, the import walk and
the line diff of the ABI test, and error classification. `dafny verify dfyconfig.toml` checks
everything.

| file | contents |
|---|---|
| `Basics.dfy`, `Powers.dfy`, `Digits.dfy`, `Bytes.dfy` | int64 wrap-around and saturation, powers, positional notation and its order, bytes as numbers |
| `Breaker.dfy`, `CircuitBreaker.dfy` | the breaker's atomic steps and runs of them; the class |
| `BreakerRuns.dfy` | laws of every interleaving of Allow, State and Record |
| `BreakerSequential.dfy` | sequences of `Breaker.Do` calls |
| `Backoff.dfy`, `Retry.dfy` | the delay sequence in wrapping int64; the retry loop's contract; jitter |
| `Guard.dfy` | the retry loop, bulkhead and guard as methods; a guard in front of a dead dependency |
| `GuardSystem.dfy`, `GuardStragglers.dfy` | any number of interleaved guarded callers sharing one bulkhead and one breaker; late outcomes while the breaker is open |
| `MemStore.dfy`, `MemStoreConcurrent.dfy` | the store sequentially, and with `Get` and the sweeper split into their steps |
| `Ulid.dfy`, `UlidLaws.dfy` | `encode` against base 32; decoding, ordering, `New`, `Prefixed` |
| `Loader.dfy`, `Diff.dfy` | `importPackage`; `unifiedDiff` |
| `Errs.dfy` | error trees, `Wrap`, `Classify`, `Unwrap`, details |

## How the source is represented

- Clock readings, sleep results, random draws and random bytes, the results of the protected
  function, and the admission branch of the bulkhead's select are inputs, so each statement
  holds for all of them. Instants are unbounded integers; durations are int64, with wrap-around
  in the backoff and saturation in `time.Time.Sub` written out.
- A method that holds its mutex throughout is one atomic step. A breaker run is any sequence of
  Allow, State and Record steps, so a Record may belong to a call admitted in an earlier state.
- A positive Multiplier enters as the function from one delay to the next, under any rounding;
  only the statements about integer multipliers say more about it, and only up to 2^53. Jitter
  is computed on exact reals.
- Type-checking a package is: import everything it imports, past failures too, then pass the
  package's own check or not.

Where comments and code disagree, the model follows the code:

- `resilience/resilience.go:25` speaks of a limited number of half-open trial calls; there is no
  limit (`HalfOpenAdmitsEveryTrial`).
- `resilience/resilience.go:126-127` suggests that a rejection counts; it is never recorded, but
  it uses up a retry attempt (`GuardOnDeadDependency`).
- `resilience/resilience.go:137-138` calls the backoff capped and says that it respects
  cancellation. The first wait is not capped: the waits stay under Max if and only if Base does
  (`UnderMaxIff`). A delay that is not positive is skipped without looking at the context; when
  every gap between attempts is slept is `ConsultsContextIff`, and when it is for any number of
  attempts is `AlwaysConsultsContextIff`.
- `idempotency/memstore.go:12-14` says that every operation evicts a few expired entries. An
  expired entry leaves the map, or is replaced, exactly by a purge or by a call for its own key
  (`ExpiredLeavesIff`, over runs `ExpiredStaysIff`, with a run in `ExpiredOutlivesOtherCalls`).
- The eviction race noted at `idempotency/memstore.go:62` can also remove a fresh entry
  (`EvictsLiveIffOvertaken`), and a Get can miss a key that is live all along
  (`MissesLiveIffReplaced`).

Properties that turned out to hold only under a condition are stated with the exact condition:

- the capped exponential holds for all attempts if and only if Base and Max are at most
  (2^63 - 1) / 2 (`ClosedFormIff`), and for the first n > 1 delays if and only if Base and the
  start of the last doubling among them are (`ClosedFormForIff`);
- backoff stays under Max if and only if Base does (`UnderMaxIff`), stays positive for ever if and
  only if both settings are positive and within that bound (`PositiveForeverIff`), and without a
  cap as long as Base * 2^k fits (`UncappedPositiveIff`); the context is consulted between every
  two attempts under the same conditions (`ConsultsContextIff`, `AlwaysConsultsContextIff`);
- a breaker re-enters Closed on outcomes of old calls alone if and only if those were admitted
  before the trip (`ClosesWithoutTrialIff`, with the run in `StaleSuccessCloses`);
- a Get evicts a live entry if and only if a Set overtook it (`EvictsLiveIffOvertaken`, with the
  run in `LiveEntryCanBeLost`); for each key and up to each moment the map holds the last unexpired
  write if and only if that has not happened to the key (`AgreesIffNothingLost`); and a Get answers as an atomic one would at some moment if and
  only if it hits or no Set replaced its entry in time (`GetIsAtomicIff`, with the run in
  `LiveKeyCanBeMissed`);
- guarded callers can trip an open breaker again if and only if the bulkhead has more slots than
  the breaker's failure threshold (`RetripsIff`);
- an expired entry stays in the map if and only if no purge and no call for its key comes
  (`ExpiredStaysIff`);
- a guard stops at its failure budget if and only if no attempt outlasts the open window
  (`GuardOnDeadDependency`);
- identifiers sort by time if and only if their stamps do in the low 48 bits (`TimeOrder`);
- Unwrap undoes Wrap if and only if the error was unclassified (`UnwrapUndoesWrap`).

## Model

| member | source | states |
|---|---|---|
| `BreakerRuns.RejectsIffRecentTrip` | resilience/resilience.go:78-124 | on every interleaving with a monotone clock, Allow rejects exactly when some earlier trip is less than resetTimeout old |
| `BreakerRuns.AdmitsIffNoRecentTrip` | resilience/resilience.go:78-91 | the same of the next Allow after any log |
| `BreakerRuns.OpenThroughWindow` | resilience/resilience.go:78-124 | from a trip until resetTimeout later the breaker is Open at every step, with an opening time no earlier than the trip, whatever late outcomes arrive |
| `BreakerRuns.FieldsRefineLog` | resilience/resilience.go:49-52 | phases, trips, half-openings and counts are defined from the event log alone; on every run `state` is the log's phase, `failures` the number of failure Records since the last success or trip and below the threshold, `successes` zero outside HalfOpen and there the successes since half-opening, and `openedAt` the time of the last trip while Open |
| `BreakerRuns.FailuresCounted` | resilience/resilience.go:94-118 | the failures counted at any moment are all failure Records since the last success or trip |
| `BreakerRuns.SuccessesCounted` | resilience/resilience.go:78-105 | the successes counted are all success Records since the last half-opening |
| `BreakerRuns.TransitionsExactly` | resilience/resilience.go:78-124 | if-and-only-if over the log for each state change: trips on the threshold-th consecutive failure or any HalfOpen failure, Open left only by the timed step, Closed re-entered on the threshold-th success and with no failures counted |
| `BreakerRuns.RetripExtendsWindow` | resilience/resilience.go:114-124 | while Open the opening time never moves back, and moves only on a trip |
| `BreakerRuns.FailuresSurviveHalfOpening` | resilience/resilience.go:78-83 | some run reaches HalfOpen with a nonzero failure count |
| `BreakerRuns.HalfOpenAdmitsEveryTrial` | resilience/resilience.go:85-91 | any number of consecutive Allows in HalfOpen are all admitted |
| `BreakerRuns.StaleIffAdmittedBeforeTrip` | resilience/resilience.go:78-124 | an outcome recorded in HalfOpen belongs to a call admitted before that phase exactly when it was admitted before the trip, and such a call lasted at least resetTimeout |
| `BreakerRuns.ClosesWithoutTrialIff` | resilience/resilience.go:94-105 | Closed is re-entered on outcomes of calls all admitted before half-opening exactly when each was admitted before the trip; so it is whenever no Allow came since half-opening |
| `BreakerRuns.StaleSuccessCloses` | resilience/resilience.go:94-105 | a run in which the late success of a call admitted before the trip closes the breaker with no trial call |
| `BreakerModel.NewConfig` | resilience/resilience.go:56-67 | each positive setting is kept, each other one becomes 5, 1 or 30 seconds, and the result is a valid configuration |
| `CircuitBreaker.Breaker.constructor` | resilience/resilience.go:56-67 | a new breaker is the start of a run |
| `CircuitBreaker.Breaker.CurrentState` | resilience/resilience.go:71-76 | takes one State step of the run its fields are at, and reports the phase that the log of events then gives |
| `CircuitBreaker.Breaker.Allow` | resilience/resilience.go:86-91 | takes one Allow step of the run and, on a monotone clock, says yes exactly if no trip in the log is less than resetTimeout old |
| `CircuitBreaker.Breaker.MaybeHalfOpen` | resilience/resilience.go:78-83 | half-opens exactly when due, logging the step that asked |
| `CircuitBreaker.Breaker.Record` | resilience/resilience.go:94-118 | takes one Record step of the run |
| `CircuitBreaker.Breaker.Do` | resilience/resilience.go:128-135 | runs the function exactly if no trip in the log is less than resetTimeout old; then returns its result and records its outcome, otherwise returns ErrOpen and records nothing |
| `BreakerSequential.TripsAreApart` | resilience/resilience.go:78-135 | for sequential calls the function does not run, and the breaker does not trip, until resetTimeout after a trip |
| `BreakerSequential.ExecutionsBounded` | resilience/resilience.go:78-135 | from any reachable state, an always-failing function is started within an interval at most budget + floor(length / resetTimeout) times, the budget being at most failureThreshold |
| `BreakerSequential.BoundIsAttained` | resilience/resilience.go:78-135 | for every number of windows a schedule reaches that bound exactly |
| `BreakerSequential.StaysReachable` | resilience/resilience.go:94-124 | sequential calls keep both counters below their thresholds |
| `BreakerSequential.RunsAreReachable` | resilience/resilience.go:49-124 | every state of every interleaved run meets the counter bounds from which the laws of sequential calls start |
| `Backoff.ClosedFormIff` | resilience/resilience.go:177-205 | with doubling and positive Base and Max, delay 0 is Base and delay k is min(Base * 2^k, Max) for all k, if and only if Base and Max are at most (2^63 - 1) / 2 |
| `Backoff.ClosedFormForIff` | resilience/resilience.go:177-205 | the first n > 1 delays follow that closed form, and are positive, if and only if Base and the start of the last doubling among them are at most (2^63 - 1) / 2; one delay always does |
| `Backoff.UnderMaxIff` | resilience/resilience.go:137-204 | with a positive Max and any growth, every delay is at most Max if and only if Base is |
| `Backoff.PositiveForeverIff` | resilience/resilience.go:188-204 | with doubling and any int64 settings, every delay is positive if and only if Base and Max are positive and at most (2^63 - 1) / 2 |
| `Backoff.UncappedPositiveIff` | resilience/resilience.go:188-204 | with no cap the first n delays are positive if and only if Base is positive and Base * 2^(n-1) fits in int64 |
| `Backoff.DoublingIsExact` | resilience/resilience.go:197-204 | under that condition no doubling wraps and every delay is positive |
| `Backoff.DoublingWraps` | resilience/resilience.go:197-204 | a larger setting leads to a negative delay |
| `Backoff.TotalDelayBounded` | resilience/resilience.go:177-205 | the waits between n attempts total between Base and Base + (n - 2) * Max |
| `Backoff.UncappedDelay` | resilience/resilience.go:197-204 | with no cap delay k is the signed 64-bit residue of Base * 2^k, exact while it fits, 0 from k = 64 on |
| `Backoff.IntegerMultiplier` | resilience/resilience.go:197-204 | an integer Multiplier m gives min(Base * m^k, Max) while products stay within 2^53, for any step function that is exact there |
| `Backoff.UncappedMultiplier` | resilience/resilience.go:197-204 | with no cap an integer Multiplier m gives Base * m^k as long as that is within 2^53 |
| `Backoff.MultiplierTwoIsDefault` | resilience/resilience.go:143-149 | Multiplier 2 and Multiplier 0 give the same delays |
| `Retry.RetryContract` | resilience/resilience.go:167-207 | in the policy's fields, and for nothing but the reference run: 1 to max(1, MaxAttempts) calls; every call but the last failed with an error Retryable accepts and no failed sleep after it; the last returned nil, and so does the run, or its error is returned because attempts are used up or Retryable rejects it, or the error of the sleep after it is |
| `Retry.RetrySleeps` | resilience/resilience.go:188-196 | the sleeps are, in order, one for each pause with a positive delay, as long as that delay or its jittered form for the draw made there, and none after the last possible attempt |
| `Retry.StopFrom` | resilience/resilience.go:178-205 | the result is the first attempt with a reason to stop |
| `Retry.ExhaustedRunSleeps` | resilience/resilience.go:167-207 | a run that exhausts its attempts sleeps the capped exponential, wait for wait, and returns the last error, for every policy whose delays between its attempts fit in int64 |
| `Retry.ConsultsContextIff` | resilience/resilience.go:137-204 | a run of retryable failures sleeps, watching the context, between every two attempts if and only if there is one attempt only, or Base is positive and the delay of the last gap is reached without wrapping |
| `Retry.AlwaysConsultsContextIff` | resilience/resilience.go:137-204 | it does so for every number of attempts if and only if Base and Max are positive and at most (2^63 - 1) / 2 |
| `Retry.UncappedRunSleepsAtMost64` | resilience/resilience.go:188-201 | with no cap a run sleeps at most 64 times however many attempts it has, never after the 64th |
| `Retry.JitterStaysInBand` | resilience/resilience.go:212-225 | a jittered wait is the integer part of low + draw * (d - low) with low = d * (1 - min(Jitter, 1)): at least 0, at most d, and d only for a draw of 1 |
| `Retry.JitterGrowsWithDraw` | resilience/resilience.go:212-225 | a larger draw never waits less |
| `Retry.JitterFillsBand` | resilience/resilience.go:212-225 | every whole wait of the band below d is the wait of some draw in [0, 1) |
| `Retry.JitterIsHarmless` | resilience/resilience.go:188-205 | a jittered run and its unjittered twin make the same calls and return the same result, and each sleep is in the band of its twin |
| `GuardModel.SleepAndGrow` | resilience/resilience.go:188-204 | sleeps exactly a positive delay, reports the sleep's error, and leaves the next delay of the sequence |
| `GuardModel.AttemptOnce` | resilience/resilience.go:178-205 | one iteration stops exactly for the reasons of Stops, with the result and sleeps of the reference |
| `GuardModel.RetryDo` | resilience/resilience.go:167-207 | the loop's calls, sleeps and result are those of the reference run over what the (possibly broken-circuit) call returns |
| `GuardModel.Call.Invoke` | resilience/resilience.go:273-277 | the i-th call goes through the breaker if there is one, and runs the function exactly when admitted |
| `GuardModel.Guard.Do` | resilience/resilience.go:272-288 | a cancelled admission returns the context's error and runs nothing; without a retry policy one call is made and its result returned, ErrOpen if the function did not run; with one, the retry contract holds of the calls; the slot is given back, the breaker is where those calls leave it, and the function ran as often as it admitted them |
| `GuardModel.GuardContract` | resilience/resilience.go:272-288 | the same of the reference run, for every admission, policy and protection |
| `GuardModel.CallMeans` | resilience/resilience.go:128-135 | a call past the protection runs the function and returns its result exactly if admitted, otherwise returns ErrOpen |
| `GuardModel.GuardSucceedsIff` | resilience/resilience.go:167-288 | an admitted caller gets nil exactly if the function ran in its last call and succeeded |
| `GuardModel.SuccessEndsGuard` | resilience/resilience.go:179-181 | a call in which the function runs and succeeds is the last |
| `GuardModel.Guard.Retried` | resilience/resilience.go:278-283 | without a retry policy exactly one call, with one its reference run; the function ran as often as the breaker admitted those calls |
| `GuardModel.Bulkhead.constructor` | resilience/resilience.go:243-248 | capacity max(1, max), no token taken |
| `GuardModel.GuardOnDeadDependency` | resilience/resilience.go:128-288 | against a function that always fails, all attempts are used; the function runs exactly min(attempts, failureThreshold - f) times (once from HalfOpen) if and only if no attempt after the trip comes resetTimeout later, and then ErrOpen is returned exactly when attempts exceed that budget |
| `GuardModel.DeadDependencyExhausts` | resilience/resilience.go:167-207 | retryable failures and undisturbed sleeps use up every attempt, and the last result is returned |
| `GuardModel.GuardWhileOpen` | resilience/resilience.go:128-131 | starting Open, nothing is run and ErrOpen returned, with the breaker unchanged, exactly while every attempt falls inside the window |
| `GuardSystem.Conservation` | resilience/resilience.go:243-288 | on every interleaving: tokens equal the callers between acquire and release and never exceed capacity; whoever runs the function or sleeps holds a slot; a caller cancelled at admission never ran it; nobody runs it more than max(1, MaxAttempts) times; all finished means no tokens |
| `GuardSystem.TokensConserved` | resilience/resilience.go:252-260 | every single step keeps tokens equal to slot holders and within capacity |
| `GuardSystem.NoDeadlock` | resilience/resilience.go:252-260 | while a caller is unfinished some caller can step, and giving a slot back never blocks |
| `GuardSystem.CallerStepsBounded` | resilience/resilience.go:167-288 | no caller takes more than 5 * attempts + 2 steps in any run, and one that has taken them is finished; which waiting caller is served is left open |
| `GuardSystem.StartsIffNoRecentTrip` | resilience/resilience.go:128-288 | under concurrency an attempt starts the function exactly when no trip in the breaker's history is less than resetTimeout old |
| `GuardSystem.CallerRunsItsPolicy` | resilience/resilience.go:167-288 | seen by one caller, every interleaving is a reference run of its retry policy over what the shared breaker returned: the same number of calls, the same sleeps and the same result, which is nil exactly if its last attempt ran and succeeded |
| `GuardSystem.OutcomesRecordedOnce` | resilience/resilience.go:128-135 | on every interleaving a caller's steps on the breaker are, in order, one Allow per attempt and one Record with its own outcome per attempt that ran, save the Record still on its way; what the function returned to it is what its attempts report |
| `GuardStragglers.StragglersBounded` | resilience/resilience.go:94-288 | from a trip by a guarded caller until the next half-opening, guarded callers record at most capacity - 1 outcomes, each of a different caller that held a slot at the trip |
| `GuardStragglers.OpenDrains` | resilience/resilience.go:86-135 | while the breaker is Open nobody is admitted: the outcomes recorded come, one each, from calls under way at the start, and those still under way were so then |
| `GuardStragglers.RetripsIff` | resilience/resilience.go:94-288 | with no outcomes recorded from outside, an open breaker can be tripped again before half-opening, under whatever retry policy, if and only if failureThreshold is less than the bulkhead's capacity |
| `MemStoreModel.GetIsLastLiveWrite` | idempotency/memstore.go:54-121 | for every sequential run at non-decreasing times each Get equals the last write of its key filtered by expiry |
| `MemStoreModel.ReplayWithinTtl` | idempotency/iface.go:8-9 | until the key is written again a stored response is replayed up to and including its expiry, 24 hours for a non-positive TTL, and not after |
| `MemStoreModel.GetReturnsIff` | idempotency/memstore.go:54-88 | a Get returns a response exactly if a Set stored it under that key, no Set or Delete of the key came since, and its TTL has not run out |
| `MemStoreModel.EvictionUnobservable` | idempotency/memstore.go:54-121 | two histories with the same writes answer alike, whatever Gets and purges else they contain |
| `MemStoreModel.PurgeLeavesLive` | idempotency/memstore.go:112-121 | a purge leaves exactly the entries live at its instant |
| `MemStoreModel.ExpiredLeavesIff` | idempotency/memstore.go:54-121 | a call changes what the map holds for an expired entry's key exactly if it is a purge or names that key |
| `MemStoreModel.ExpiredStaysIff` | idempotency/memstore.go:12-121 | over any run at non-decreasing times an expired entry stays, unchanged, exactly as long as no purge and no call for its key comes |
| `MemStoreModel.ExpiredOutlivesOtherCalls` | idempotency/memstore.go:12-14 | a run in which an expired entry outlives a Set, a Get and a Delete |
| `MemStoreModel.MemStore.Get` | idempotency/memstore.go:54-69 | answers from the entries before the call and takes the Get step, evicting an expired entry |
| `MemStoreModel.MemStore.Set` | idempotency/memstore.go:72-80 | takes the Set step |
| `MemStoreModel.MemStore.Delete` | idempotency/memstore.go:83-88 | takes the Delete step |
| `MemStoreModel.MemStore.Len` | idempotency/memstore.go:91-95 | the number of keys held |
| `MemStoreModel.MemStore.PurgeExpired` | idempotency/memstore.go:112-121 | visiting keys in any order, takes the Purge step |
| `MemStoreConcurrent.HitIsSound` | idempotency/memstore.go:54-69 | under every interleaving a hit is the entry the map held at that Get's own read step, unexpired at its check step |
| `MemStoreConcurrent.HitAnswersPut` | idempotency/memstore.go:54-80 | a hit answers the response of the Set whose entry the Get read, within the TTL of that Set |
| `MemStoreConcurrent.SweepRemovesOnlyExpired` | idempotency/memstore.go:112-121 | a sweep removes exactly the entries expired at its own clock reading, so none that is live when it holds the lock, although that reading is older |
| `MemStoreConcurrent.MapReplaysIff` | idempotency/memstore.go:54-121 | under every interleaving the map answers with a response exactly if a Set stored it, nothing touched the key since, and its TTL, 24 hours if none was given, has not run out |
| `MemStoreConcurrent.RemovedStaysAway` | idempotency/memstore.go:83-88 | what a Delete removes stays away until the key is set again |
| `MemStoreConcurrent.EvictsLiveIffOvertaken` | idempotency/memstore.go:54-69 | a Get evicts a live entry if and only if, since its own read step, a Set of that key landed whose entry is still there and unexpired |
| `MemStoreConcurrent.LiveEntryLost` | idempotency/memstore.go:54-121 | on every run a live entry disappears only by Delete or by such an overtaken Get |
| `MemStoreConcurrent.LiveEntryCanBeLost` | idempotency/memstore.go:61-67 | a run in which a fresh entry is lost that way |
| `MemStoreConcurrent.AgreesIffNothingLost` | idempotency/memstore.go:54-121 | under concurrency, for each key and up to each moment, the map has held exactly the last unexpired write all along if and only if no Get has evicted a live entry of that key |
| `MemStoreConcurrent.MissesLiveIffReplaced` | idempotency/memstore.go:54-69 | a Get that finds its entry expired misses a key live from its read through its check if and only if the first action to touch the key was a Set in time, before the expiry, and the key stayed live after it |
| `MemStoreConcurrent.GetIsAtomicIff` | idempotency/memstore.go:54-69 | the answer of a three-step Get is what the map would have answered in one step at some moment between read and check, if and only if it hits or its entry was not replaced in that way |
| `MemStoreConcurrent.GetIsLastLivePutIff` | idempotency/memstore.go:54-69 | if no live entry of its key has been evicted before, a Get answers the last unexpired write of some moment between its read and its check under the same condition, and always if no Set of its key came between |
| `MemStoreConcurrent.LiveKeyCanBeMissed` | idempotency/memstore.go:55-67 | a run that loses nothing and whose map always holds the last unexpired writes, in which a Get misses a key live throughout |
| `Ulid.Encode` | ids/ulid.go:34-64 | the 26 assignments yield exactly the big-endian base-32 digits of the 128-bit number, through Crockford's alphabet |
| `Ulid.WriteFirstByte` | ids/ulid.go:37-38 | the first two characters are those of the two leading base-32 digits of the 128-bit number |
| `Ulid.WriteTimeRest` | ids/ulid.go:39-46 | the next eight characters are those of digits 2 to 9 of that number, the earlier characters untouched |
| `Ulid.WriteEntropyHigh` | ids/ulid.go:47-54 | the next eight characters are those of digits 10 to 17, the earlier characters untouched |
| `Ulid.WriteEntropyLow` | ids/ulid.go:55-62 | the last eight characters are those of digits 18 to 25, the earlier characters untouched |
| `Ulid.DigitsDenoteNumber` | ids/ulid.go:37-62 | the 26 masked and shifted values are base-32 digits of the number that the bytes denote in base 256 |
| `UlidLaws.DecodeEncode` | ids/ulid.go:12-64 | every encoding is canonical (26 symbols of the alphabet, the first at most '7') and decodes to the bytes it came from |
| `UlidLaws.EncodeDecode` | ids/ulid.go:12-64 | exactly the canonical texts decode, each to bytes that encode to it |
| `UlidLaws.EncodeInjective` | ids/ulid.go:34-64 | different bytes have different texts |
| `UlidLaws.EncodeKeepsOrder` | ids/ulid.go:12-64 | bytes compare lexicographically exactly as their texts do |
| `UlidLaws.CrockfordSymbols` | ids/ulid.go:12-12 | the alphabet is the digits and the capital letters but I, L, O and U, ascending |
| `UlidLaws.New` | ids/ulid.go:17-30 | the text of the low 48 bits of the stamp followed by the random bytes |
| `UlidLaws.TextHoldsStampAndRandom` | ids/ulid.go:17-30 | the text decodes to six bytes that denote the low 48 bits of the stamp, followed by the ten random bytes |
| `UlidLaws.PutUint64` | ids/ulid.go:22-22 | the eight big-endian bytes of the word, the rest untouched |
| `UlidLaws.TimeOrder` | ids/ulid.go:17-30 | all identifiers of one stamp sort before all of another, whatever the random bytes, if and only if the stamps do in their low 48 bits |
| `UlidLaws.Prefixed` | ids/ulid.go:67-69 | prefix, underscore, identifier |
| `UlidLaws.PrefixKeepsOrder` | ids/ulid.go:67-69 | a common prefix does not change the order |
| `LoaderModel.Loader.ImportPackage` | abi/abi_test.go:170-218 | terminates on every import graph; succeeds exactly when a load without cache would; restores the in-progress set; keeps the cache closed under imports and acyclic |
| `LoaderModel.Loader.Check` | abi/abi_test.go:187-215 | visits every import with the package in progress, and succeeds exactly if the package is loadable |
| `LoaderModel.LoadableIffSound` | abi/abi_test.go:170-218 | with nothing in progress a load succeeds if and only if neither a failing package nor an import cycle is reachable |
| `LoaderModel.CachedIsLoadable` | abi/abi_test.go:171-173 | a cached package would load afresh, whatever unrelated packages are in progress |
| `DiffModel.UnifiedDiff` | abi/abi_test.go:457-483 | the two passes return exactly the surplus lines of either file, and report identity exactly for equal multisets |
| `DiffModel.CollectSurplus` | abi/abi_test.go:470-483 | one pass finds the same surplus whether the other file's counters are fresh or already lowered by the first pass, and lowers its own to the common part |
| `DiffModel.CountLines` | abi/abi_test.go:461-468 | the counter of every line is its number of occurrences |
| `DiffModel.DiffIsExact` | abi/abi_test.go:451-483 | want minus removed plus added is got, as multisets; removed and added share no line; each keeps the order of its file |
| `DiffModel.EmptyIffSameLines` | abi/abi_test.go:493-495 | both lists are empty exactly when the multisets are equal |
| `ErrsModel.ClassifiedOnce` | errs/errors.go:194-216 | however an error is built from New, Wrap, %w and joining, no classified error has another beneath it |
| `ErrsModel.FirstClassificationWins` | errs/errors.go:202-230 | through any layers of Wrap and %w a classified error keeps its object; an unclassified one takes class, code, message and object of the first Wrap, with the error below that layer as cause, or stays internal |
| `ErrsModel.NilStaysNil` | errs/errors.go:198-221 | Wrap of nil is nil and Classify of nil is internal |
| `ErrsModel.MadeAsAsked` | errs/errors.go:194-230 | New and a first Wrap give an error of the class, code and message asked for, with no cause and with the given cause; an already classified error is returned as it is |
| `ErrsModel.JoinFindsFirst` | errs/errors.go:206-229 | among joined errors the classification found is that of the first which has one, and none is found exactly if none has |
| `ErrsModel.WrapIsIdempotent` | errs/errors.go:202-209 | once classified, every further Wrap returns that same object |
| `ErrsModel.UnwrapUndoesWrap` | errs/errors.go:149-216 | Unwrap gives back what was wrapped if and only if it was unclassified |
| `ErrsModel.Details.WithDetails` | errs/errors.go:179-190 | merges the given map in place, the given values winning |

## Left out

- GuardModel.Guard.Do: covers calls whose admission select returns; a full bulkhead whose context is never done blocks, and waiting callers are in GuardSystem.
- Interleaved guards that lack a bulkhead, a retry policy or a breaker; a single caller of such a guard is in Guard.
- Panics in the protected function, typed-nil `*Error` values, and custom `As` or `Is` methods.
- Real timers, goroutine scheduling, the one-minute ticker and `Close`: they become a monotone clock, sleep results and interleaved steps.
- IEEE-754 rounding: nothing is claimed for fractional multipliers, and jitter is on exact reals.
- Uniqueness and entropy of identifiers, which are probabilistic; within one millisecond the code promises no order.
- Aliasing of a cached response: callers share the pointer that was stored.
- File reading, parsing, go/types, surface rendering and the golden comparison of the ABI test; splitting text into lines and rendering the diff.
- Interfaces and records of `spi/` and `events/`, `HTTPStatus`, `Error()` and `State.String`: declarations, constant tables and message formats.
