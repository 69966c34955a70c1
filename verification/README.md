# Verified model of the tokio-rate-limit bucket engine

This project models the lock-free engine behind a keyed rate limiter and proves what
its buckets guarantee over whole runs and over every interleaving of threads. It is
written in Dafny 4.11; `dafny verify dfyconfig.toml` checks all of it.

All amounts are kept in thousandths of a token (`SCALE`), all instants in nanoseconds.
Below, N is 1,000,000,000 (nanoseconds in a second) and r is the rate in scaled tokens
per second, that is, the configured rate times 1000.

## What is modelled

| files | what |
|---|---|
| `Machine.dfy`, `Float64.dfy`, `Internal.dfy` | `u64`, `i64` and their saturating operations; `f64` rounding bit for bit, as far as waits use it; refill and claim arithmetic, waits, decisions |
| `TokenBucket.dfy`, `TokenRuns.dfy`, `TokenExactness.dfy` | one key of the token bucket: its meaning as a function, the class that implements it with retry loops, budgets and the comparison with an exact bucket over whole runs |
| `TokenWindow.dfy`, `TokenTracking.dfy` | exactly which configurations keep the sliding-window bound, and never run ahead of the exact bucket, on every run |
| `TokenSteps.dfy`, `TokenStepsExactness.dfy` | any number of threads on one key, one atomic load or compare-and-swap per step, with spurious failures and a clock that moves in between; for which rates the budget is exact there |
| `LeakyBucket.dfy`, `LeakySteps.dfy` | the leaky bucket, sequential and concurrent, as the mirror image of the token bucket |
| `Probabilistic.dfy`, `ProbabilisticRuns.dfy` | the sampled bucket: lump debits, admission ramp, lazy clock, over every random stream and start phase |
| `ProbabilisticRequests.dfy` | what one of its requests decides, pays and reports, in terms of its cost, the level and the words drawn; what idle time is worth |
| `ProbabilisticSteps.dfy`, `ProbabilisticSolo.dfy`, `ProbabilisticDebt.dfy`, `ProbabilisticTight.dfy`, `ProbabilisticBurst.dfy` | the sampled bucket under concurrency: debt, racing estimates, bursts; and an uninterrupted request against the sequential one |
| `UnsampledSteps.dfy`, `UnsampledLogs.dfy` | the same bucket with `sample_rate = 1` under concurrency, and against the token bucket there |
| `ProbabilisticStore.dfy`, `ProbabilisticKeys.dfy`, `ProbabilisticEviction.dfy`, `ProbabilisticBudget.dfy` | the keyed store of the sampled bucket: each key as a lone bucket, which keys are held after any history, budgets across evictions |
| `FixedWidth.dfy` | the `u64` bucket and the unsampled `i64` path against one bucket on unbounded integers |
| `Shards.dfy`, `Store.dfy`, `StoreRuns.dfy`, `Eviction.dfy` | the FNV shards, the keyed store with idle eviction, whole multi-key histories, and which keys are held after them |
| `CachedTokenBucket.dfy`, `LookupSteps.dfy`, `KeyedSteps.dfy` | the per-thread cache; racing lookups, inserts and cache fills; and those lookups together with the steps of the calls on the objects they hand out |
| `Retry.dfy`, `Limiter.dfy`, `FirstBurst.dfy` | what the reported waits are worth, configuration checks, the two waiting loops, and what a key of a new limiter is granted |

The objects whose methods update atomics are classes; each method is proved equal to a
function of the old state, and the theorems are about those functions. The protocols
are state machines (`Enabled`, `Next`, `Feasible`, `Exec`) whose states also record
history: the log of decisions, the claims made, what a loaded level was worth.

A function of the model that a theorem is stated through has a law of its own in a
caller's terms, costs, words and instants: what a lump is (`ProbabilisticRuns.BurstFromFull`),
an estimate (`ProbabilisticRequests.UnsampledRequest`), a stale key (`Eviction.SweepKeepsIff`),
a wait (`Internal.WaitIsClose`). Where Dafny would add an induction hypothesis of its own to a
lemma, `{:induction false}` leaves the proof that is written there.

Parameters stand for what the program reads from outside: the clock (a `now` for each
call, or `Tick` steps), random words (an arbitrary stream, or a word in each step), the
one-in-a-hundred cleanup draw, how often a weak compare-and-swap fails for no reason,
and how late a timer fires.

## Where the code and its documentation differ

- The budget "capacity plus rate times elapsed time" holds without slack on every run
  exactly when r divides N or N divides r (`TokenExactness.BudgetIsExactIff`). For any
  other rate each claim can add up to r-1 parts in N of a scaled token, and there are
  runs that overdraw. The same rates decide it for all interleavings
  (`TokenStepsExactness.ConcurrentBudgetIsExactIff`).
- Over a sliding window a bucket is bounded by its capacity, the window's accrual, one
  residue and the claims' rounding, but not at every configuration. A refill of more
  than 2^64 - 1 scaled tokens is clamped and leaves time behind, from which the next
  call at the same instant refills again. `TokenWindow.WindowHoldsIff` says exactly for
  which configurations that can break the bound, and `TokenTracking.TracksIff` for which
  it can put a key ahead of an exact bucket: among those that a limiter accepts, the
  ones above 1,000,000 tokens per second.
- The sampled bucket with `sample_rate = 1` is documented to be exactly the
  deterministic token bucket (src/algorithm/probabilistic_token_bucket.rs:43-44). It is,
  on every history, up to 500,000 tokens per second. Above that there is an idle time
  whose accrual fits a `u64` and not an `i64`, after which the two decide differently
  (`FixedWidth.UnsampledIsTheTokenBucketIff`). Up to that rate the two produce the same
  logs with threads racing, too (`UnsampledLogs.SameLogs`).
- A wait is a quotient of two `f64` in the nearest number of nanoseconds, ties to even.
  It is long enough exactly when the rate over it is worth the missing tokens
  (`Retry.WaitSufficesIff`), and it need not be: of one token at 3 per second
  333,333,333 ns accrue 999 thousandths, and the wait for 1025 tokens at 1024 per second
  is a tie that goes down (`Internal.WaitFallsShort`). A caller who returns then is
  denied again, and an `acquire` that nobody disturbs is served by its third check at the
  latest, by the second only where that wait is long enough (`Limiter.Acquire`). Up to 13
  days one nanosecond more is always enough (`Retry.RetryAfterSufficesIff`).
- For one of the largest 1024 numbers of tokens at one token per second, the wait does
  not fit a `Duration`, and `Duration::from_secs_f64` panics (`Internal.WaitFitsIff`).
- Header seconds are the wait rounded up (src/algorithm/internal.rs:96-99), up to 97
  days. Of 2^24 seconds and a nanosecond the sum in `f64` drops the nanosecond
  (`Internal.HttpSecondsLoseANanosecond`).
- "Two threads cannot both credit the same nanos" (src/algorithm/token_bucket.rs:102)
  is true of the intervals claimed, which are always disjoint. But a claim can credit
  tokens and take no time at all, and then the next call claims the same nanosecond:
  possible exactly for rates above 1,000,000 tokens per second that are no multiple of
  it (`TokenSteps.NoNanosecondCreditedTwiceIff`).
- The comparison of algorithms says that a leaky bucket allows no bursts
  (README.md:528). A fresh key is permitted its whole capacity at once
  (`LeakyBucket.FirstBurstIsCapacity`), and the bucket can produce exactly the logs of
  decisions that a token bucket can (`LeakySteps.SameLogs`).
- The largest capacity is 9,223,372,036,854,775 tokens by the code; the documentation
  of the constructor says 774 at the end (src/algorithm/token_bucket.rs:227).
- The cache of `CachedTokenBucket` is one static per thread, keyed by the string alone.
  With two instances in a program one can serve a check from the other's bucket
  (`LookupSteps.OneBucketPerKeyIff`).
- The overdraft of the sampled bucket is documented as "O(threads * lump)"
  (src/algorithm/probabilistic_token_bucket.rs:249-261). It is one lump for each other
  thread, plus what one lump exceeds the capacity by, and some interleaving reaches
  that much (`ProbabilisticTight.BoundsAreReached`).

## Model

| member | source | states |
|---|---|---|
| Internal.ClaimAccounting | src/algorithm/internal.rs:56-72 | The two floor divisions nearly invert each other: the claim for a refill never takes more time than elapsed, is worth at most r-1 parts in N of a scaled token less than what it credits, and leaves less than a scaled token plus a nanosecond unclaimed |
| Internal.ClaimsAreExactIff | src/algorithm/internal.rs:56-72 | No claim ever over-credits exactly when r divides N, or N divides r and r/N divides the clamped accrual |
| Internal.ClaimsMakeProgressIff | src/algorithm/internal.rs:56-72 | Every claim that credits something moves the timestamp exactly when r is at most N or a multiple of it |
| Internal.AccruedIff | src/algorithm/internal.rs:56-62 | After any time whole tokens have accrued exactly when the rate over that time is worth them |
| Float64.QuotientIsClose | src/algorithm/internal.rs:81 | The two conversions and the division in `f64` stay within four parts in 2^53 of the exact quotient |
| Internal.WaitIsClose | src/algorithm/internal.rs:77-83 | A wait is at least a millisecond, and above that within half a nanosecond and four parts in 2^53 of the exact one, on either side; up to 13 days within a nanosecond |
| Internal.WaitGrows | src/algorithm/internal.rs:77-83 | More tokens never have a shorter wait, for all that is rounded |
| Internal.ShortWaitsAreAMilli | src/algorithm/internal.rs:77-83 | Tokens that accrue within a millisecond are waited for one millisecond |
| Internal.PowerOfTwoSufficesIff | src/algorithm/internal.rs:77-83 | At a rate that is a power of two the `f64` quotient is exact, and the tokens have accrued after the wait exactly when it was not rounded down, ties to even, or the millisecond floor applies |
| Internal.WaitFitsIff | src/algorithm/internal.rs:77-83 | The seconds of a wait fit a `Duration` exactly when the rate is above one or fewer than 2^64 - 1024 tokens are missing |
| Internal.WaitFallsShort | src/algorithm/internal.rs:77-83 | Two waits as the code computes them: one token at 3 per second accrues 999 of its 1000 parts, 1025 tokens at 1024 per second, a tie, all but one part |
| Internal.HttpSecondsCoverIff | src/algorithm/internal.rs:100-106 | Header seconds exceed the wait by less than a second, are zero only for a zero wait, and cover it exactly when the wait is whole seconds or its sum in `f64` keeps the nanoseconds |
| Internal.HttpSecondsCoverWait | src/algorithm/internal.rs:100-106 | They cover every wait of less than 2^23 seconds |
| Internal.HttpSecondsLoseANanosecond | src/algorithm/internal.rs:100-106 | A longer wait whose header falls a nanosecond short |
| TokenBucket.NewConfig | src/algorithm/token_bucket.rs:251-268 | After clamping, scaling a capacity or a rate never saturates, and values within the bounds are kept |
| TokenBucket.LargestConfig | src/algorithm/token_bucket.rs:16-20 | The largest capacity and rate are 9,223,372,036,854,775 whole tokens, and larger ones become these |
| TokenBucket.AtomicTokenState.constructor | src/algorithm/token_bucket.rs:49-55 | A key starts full, refilled and accessed now |
| TokenBucket.AtomicTokenState.ApplyRefill | src/algorithm/token_bucket.rs:105-136 | The claim-then-credit loop, however many spurious failures it meets, leaves what the refill function says |
| TokenBucket.AtomicTokenState.TryConsume | src/algorithm/token_bucket.rs:70-97 | The whole call, with both retry loops, leaves the words and returns the answer of the sequential bucket |
| TokenRuns.BudgetSinceCreation | src/algorithm/token_bucket.rs:70-136 | On every monotone run the permitted cost is at most capacity plus rate times time plus r-1 parts in N for each claim, none when r divides N |
| TokenRuns.SlidingWindow | src/algorithm/token_bucket.rs:83-136 | Between any two calls of a run, however long the key was idle before, at most one bucket, the window's accrual, one residue and the claims' rounding, when the refill of the first call does not meet the clamp |
| TokenWindow.WindowHoldsIff | src/algorithm/token_bucket.rs:83-136 | For every configuration: the window bound holds on all windows of all runs exactly when r is at most N, or the refills that one instant allows after the longest idle time, less their slack, fit the residue |
| TokenWindow.WindowHoldsUpToAMillionIff | src/algorithm/token_bucket.rs:83-136 | For a bucket that takes more than about two nanoseconds to fill, the bound holds on all windows exactly up to 1,000,000 tokens per second |
| TokenWindow.AcceptedWindowHoldsIff | src/limiter.rs:29-44 | So it does for every configuration that a limiter accepts |
| TokenWindow.ClampBreaksWindow | src/algorithm/internal.rs:56-62 | For every configuration that is not safe, the calls of positive cost at the last instant of the clock that break the bound |
| TokenRuns.NeverClampsIff | src/algorithm/internal.rs:56-62 | No run of any bucket meets the clamp exactly up to 1,000,000 tokens per second |
| TokenRuns.GapsKeepRunUnclamped | src/algorithm/internal.rs:56-62 | A condition on the gaps between calls that keeps a run of any rate clear of the clamp |
| TokenRuns.NeverStricter | src/algorithm/token_bucket.rs:70-136 | On every run, whenever a bucket with an exact rational level, charged the same, can pay for a call, the integer bucket permits it |
| TokenRuns.NeverLooser | src/algorithm/token_bucket.rs:70-136 | On every run whose refills do not meet the clamp, nothing is permitted that the exact bucket could not pay for with the rounding slack of the claims so far |
| TokenRuns.TracksExactBucket | src/algorithm/token_bucket.rs:49-136 | From the creation of a key the exact bucket never pays where the integer bucket denies, on any run, and the other way round only within that slack on runs whose refills do not meet the clamp |
| TokenTracking.TracksIff | src/algorithm/token_bucket.rs:49-136 | For every configuration of positive rate: nothing is permitted beyond the exact bucket and that slack on any run, clamped refills included, exactly when r is at most N, or the refills that one instant allows after the longest idle time, less their slack, are worth no more than N + 2r - 1 |
| TokenTracking.TracksUpToAMillionIff | src/algorithm/token_bucket.rs:49-136 | For a bucket that takes more than about three nanoseconds to fill, that is up to 1,000,000 tokens per second and no further |
| TokenTracking.AcceptedTracksIff | src/limiter.rs:29-44 | So it is for every configuration that a limiter accepts |
| TokenTracking.ClampGetsAhead | src/algorithm/internal.rs:56-62 | For every configuration that is not safe, the calls of positive cost at the last instant of the clock of which the last is beyond the exact bucket and all the slack |
| TokenExactness.BudgetIsExactIff | src/algorithm/token_bucket.rs:102-136 | Capacity plus rate times time bounds every run with no slack exactly when one unit divides the other or the capacity is zero, clamped refills included |
| TokenExactness.SlowDripOverdraws | src/algorithm/internal.rs:56-72 | Below N, when r does not divide N, a run that drains and then drips overdraws the slack-free budget |
| TokenExactness.FastDripOverdraws | src/algorithm/internal.rs:56-72 | Above N, when N does not divide r, so does a burst within one nanosecond |
| TokenSteps.StepKeepsInv | src/algorithm/token_bucket.rs:70-136 | Each atomic step of any thread keeps the conservation invariant, the chain of claims and the range of the level, and never moves the timestamp back |
| TokenSteps.ConcurrentBudget | src/algorithm/token_bucket.rs:70-136 | For any threads, interleaving and spurious failures: level plus permitted plus claimed-but-uncredited stays within capacity, the worth of the claimed time, and one rounding per claim; the timestamp never passes the clock |
| TokenStepsExactness.ConcurrentBudgetIsExactIff | src/algorithm/token_bucket.rs:70-136 | Capacity plus rate times time bounds what is permitted on every interleaving of any number of threads, with no slack, exactly when one unit divides the other or the capacity is zero |
| TokenStepsExactness.HistoryIsSchedule | src/algorithm/token_bucket.rs:70-136 | Every history of calls is a schedule of one thread that permits the same |
| TokenSteps.ClaimsAreDisjoint | src/algorithm/token_bucket.rs:102-123 | The claims of any schedule are disjoint and ordered, and add up to the time the timestamp has covered |
| TokenSteps.NoNanosecondCreditedTwiceIff | src/algorithm/token_bucket.rs:102-123 | Every claim of every schedule takes time of its own exactly when r is at most N or a multiple of it |
| TokenSteps.ClaimThatTakesNoTime | src/algorithm/token_bucket.rs:102-123 | For any other rate, a four-step schedule whose claim credits tokens and leaves the nanosecond to be claimed again |
| TokenSteps.RefillLosesBoundedRaces | src/algorithm/token_bucket.rs:105-123 | A refill loop loses at most as many races as nanoseconds were left to claim when it began; every lost race strictly shrinks what is left |
| TokenSteps.SoloCallIsConsume | src/algorithm/token_bucket.rs:70-136 | A call that nobody interrupts does, step by step, what the sequential bucket says |
| LeakyBucket.AtomicLeakyState.constructor | src/algorithm/leaky_bucket.rs:39-45 | A key starts empty |
| LeakyBucket.AtomicLeakyState.ApplyLeak | src/algorithm/leaky_bucket.rs:98-125 | The claim-then-leak loop leaves what the leak function says |
| LeakyBucket.AtomicLeakyState.TryAdd | src/algorithm/leaky_bucket.rs:60-95 | The whole call leaves the words and returns the answer of the sequential leaky bucket |
| LeakyBucket.AddMirrorsConsume | src/algorithm/leaky_bucket.rs:60-125 | Under tokens = capacity - level one leaky call is one token call: same decision, same remaining, mirrored words |
| LeakyBucket.NewLeakyMirrorsNewBucket | src/algorithm/leaky_bucket.rs:39-45 | A new leaky key is the mirror image of a new token key, so the histories below start alike |
| LeakyBucket.LeakyAnswersLikeToken | src/algorithm/leaky_bucket.rs:302-323 | Every history gets the same permitted, remaining and limit, the same reset when the rate is positive, and a retry_after no shorter |
| LeakyBucket.FirstBurstIsCapacity | src/algorithm/leaky_bucket.rs:75-94 | The first check of a key is permitted exactly when its cost is at most the capacity |
| LeakySteps.LeakyStepMirrors | src/algorithm/leaky_bucket.rs:60-125 | Each atomic step of the leaky bucket is at most one step of the token bucket on the mirrored words, with the same outcome |
| LeakySteps.LeakyRunMirrors | src/algorithm/leaky_bucket.rs:60-125 | Every leaky schedule is a token schedule seen in the mirror |
| LeakySteps.TokenRunMirrors | src/algorithm/leaky_bucket.rs:60-125 | Every token schedule is a leaky schedule seen in the mirror |
| LeakySteps.SameLogs | src/algorithm/leaky_bucket.rs:60-125 | From creation the two buckets can produce exactly the same logs of decisions |
| LeakySteps.LeakyConcurrentBudget | src/algorithm/leaky_bucket.rs:60-125 | The leaky bucket keeps the token bucket's budget on every interleaving |
| Probabilistic.NewParams | src/algorithm/probabilistic_token_bucket.rs:92-104 | The clamps leave room for the signed arithmetic and keep values within the bounds |
| Probabilistic.LargestParams | src/algorithm/probabilistic_token_bucket.rs:92-95 | The largest signed capacity and rate are 4,611,686,018,427,387 whole tokens, and larger ones become these |
| Probabilistic.FractionOf | src/algorithm/probabilistic_token_bucket.rs:126-133 | The random part of an accrual lies between nothing and all of it |
| Probabilistic.Debit | src/algorithm/probabilistic_token_bucket.rs:494-500 | A sampled debit is at most one lump, and nothing when nothing was observed |
| Probabilistic.RandomSource.Admit | src/algorithm/probabilistic_token_bucket.rs:143-152 | Admission and the number of words it draws are those of the admission function |
| Probabilistic.LazyNow.Get | src/algorithm/probabilistic_token_bucket.rs:185-194 | However often it is asked, the clock is read once and one instant is returned |
| Probabilistic.AtomicProbabilisticState.ShouldSample | src/algorithm/probabilistic_token_bucket.rs:287-290 | The wrapping tick selects a request exactly when it is a multiple of the sampling rate |
| Probabilistic.AtomicProbabilisticState.ApplyRefill | src/algorithm/probabilistic_token_bucket.rs:299-330 | The signed claim-then-credit loop leaves what the refill function says |
| Probabilistic.AtomicProbabilisticState.ConsumeExact | src/algorithm/probabilistic_token_bucket.rs:359-379 | The unsampled path answers like the exact signed bucket |
| Probabilistic.AtomicProbabilisticState.TryConsumeProbabilistic | src/algorithm/probabilistic_token_bucket.rs:402-515 | The whole request, its draws included, is the sequential request function, and a level that covers the ramp decides an unsampled request without the clock |
| ProbabilisticRuns.AdmissionIsProportional | src/algorithm/probabilistic_token_bucket.rs:135-152 | Of the residues of a drawn word modulo the ramp, as many admit as there are scaled tokens, none at empty and all at the ramp |
| ProbabilisticRuns.DebitIsExpectedCost | src/algorithm/probabilistic_token_bucket.rs:480-500 | The debit of a sampled request is the lump times the share of words that admit at the level it observed, rounded down |
| ProbabilisticRuns.LevelStaysInRange | src/algorithm/probabilistic_token_bucket.rs:249-261 | For any costs, stream and phase, serialized calls keep the level between min(0, capacity - largest lump) and the capacity |
| ProbabilisticRuns.LazyClockRefinesEager | src/algorithm/probabilistic_token_bucket.rs:433-449 | Over every run the clock-skipping bucket admits the same requests, leaves the same states and draws the same words as one that always reads the clock, and reports no larger remaining |
| ProbabilisticRuns.BurstIsCapped | src/algorithm/probabilistic_token_bucket.rs:426-514 | With no refill, any stream and phase (tick wrap included): at most one group of requests for each full or partial lump in the level |
| ProbabilisticRuns.BurstIsGranted | src/algorithm/probabilistic_token_bucket.rs:433-445 | Without a tick wrap, all requests that the whole lumps assure are admitted, on every stream |
| ProbabilisticRuns.BurstFromFull | src/algorithm/probabilistic_token_bucket.rs:272-290 | For a new key while nothing accrues, with a group costing sample_rate * cost: fewer requests are admitted than the capacity and one group pay for, at most ceil(capacity/group) groups; and what comes before the first sampled request, floor(capacity/group)-1 groups and one more request are admitted for certain |
| ProbabilisticRuns.LevelWithinGroup | src/algorithm/probabilistic_token_bucket.rs:249-261 | Through any history of a new key the level stays between the capacity and what the costliest group exceeds the capacity by, so there is no debt if the bucket holds a group |
| ProbabilisticRequests.EstimateIsRefill | src/algorithm/probabilistic_token_bucket.rs:332-356 | What an unsampled request estimates is the level that a refill at that instant would leave |
| ProbabilisticRequests.UnsampledRequest | src/algorithm/probabilistic_token_bucket.rs:433-449 | An unsampled request changes only the tick; it is permitted exactly on the words whose residue, modulo the smaller of a group's cost and the capacity, is below the level a refill would leave; and it reports the whole tokens of the level it decided on |
| ProbabilisticRequests.FractionIsProportional | src/algorithm/probabilistic_token_bucket.rs:121-133 | The part of an accrual that a word selects is the word's high half out of 2^32, rounded down: nothing for the smallest words and all but a part in 2^32 for the largest |
| ProbabilisticRequests.SampledRequest | src/algorithm/probabilistic_token_bucket.rs:451-514 | A sampled request observes the part of the accrual that its first word selects, refills, pays its group's cost times the share of words that admit at that level, is permitted on exactly those words, and reports the whole tokens it leaves |
| ProbabilisticRequests.FullBucketAdmits | src/algorithm/probabilistic_token_bucket.rs:426-449 | A full bucket admits every request of any cost on every word |
| ProbabilisticRequests.EmptyBucketDenies | src/algorithm/probabilistic_token_bucket.rs:143-152 | Without a level even after the refill, every request is denied |
| ProbabilisticRequests.IdleServes | src/algorithm/probabilistic_token_bucket.rs:332-356 | After any history of a new key, idle time worth a group and the deepest debt is enough for the next unsampled request to be permitted on every stream |
| ProbabilisticDebt.StepKeepsInv | src/algorithm/probabilistic_token_bucket.rs:402-515 | Each atomic step of any thread keeps level, owed and unclaimed accrual, less what requests in flight may yet debit, above the debt floor |
| ProbabilisticDebt.ConcurrentDebtBound | src/algorithm/probabilistic_token_bucket.rs:249-261 | On every interleaving, mix of costs up to a bound and random words the effective level never falls below what one group of that cost is worth for each other thread, plus what one group exceeds the capacity by; with one thread and a bucket that holds a group there is no debt |
| ProbabilisticDebt.EstimatesAreRaceSafe | src/algorithm/probabilistic_token_bucket.rs:338-356 | On every interleaving the level that a request decides on is worth no more than tokens plus unclaimed accrual at the instant of its first load |
| ProbabilisticBurst.ConcurrentBurstIsCapped | tests/algo_shapes.rs:134-164 | With no time passing, no interleaving of T threads, phase or random words get more than ceil(capacity/group)+T-1 groups out of one capacity, so fewer requests than the capacity and T groups pay for |
| ProbabilisticTight.BoundsAreReached | src/algorithm/probabilistic_token_bucket.rs:249-261 | For any sampling rate above 1, any number of threads, any cost and any capacity of at least one scaled token, one interleaving in which no time passes reaches the debt floor and the burst count of whole groups exactly, so neither bound can be improved |
| ProbabilisticSolo.SoloRequestIsConsume | src/algorithm/probabilistic_token_bucket.rs:402-515 | At sampling rates above 1, a request that nobody interrupts does, step by step and on the same words, what the sequential request function says: same words left, same decision |
| UnsampledSteps.StepKeepsInv | src/algorithm/probabilistic_token_bucket.rs:299-379 | With sampling rate 1 each step of any thread keeps the level between zero and the capacity, and level, permitted and claimed-but-uncredited within the worth of the claimed time |
| UnsampledSteps.NeverInDebt | src/algorithm/probabilistic_token_bucket.rs:358-379 | With sampling rate 1, at every rate and on every interleaving, the signed level never falls below zero and the token bucket's budget holds, the `i64` clamp of a claim included |
| UnsampledSteps.SoloCallIsExactAnswer | src/algorithm/probabilistic_token_bucket.rs:358-379 | A call that nobody interrupts does, step by step, what the sequential unsampled path says |
| UnsampledLogs.StepIsToken | src/algorithm/probabilistic_token_bucket.rs:299-379 | Up to 500,000 tokens per second each of those steps is one or two steps of the token bucket on the same words |
| UnsampledLogs.StepFromToken | src/algorithm/token_bucket.rs:70-136 | And each atomic step of the token bucket is at most one of those |
| UnsampledLogs.SameLogs | src/algorithm/probabilistic_token_bucket.rs:422-424 | So from creation, any number of threads racing, the two can produce exactly the same logs of decisions |
| ProbabilisticStore.EveryLevelStaysInRange | src/algorithm/probabilistic_token_bucket.rs:690-732 | Over every serialized history of a store, keys, evictions and shared draws included, every key's level stays in range |
| ProbabilisticStore.ProbabilisticTokenBucket.constructor | src/algorithm/probabilistic_token_bucket.rs:616-650 | A store starts with no keys and clamped limits |
| ProbabilisticStore.ProbabilisticTokenBucket.CleanupIdle | src/algorithm/probabilistic_token_bucket.rs:652-677 | Exactly the keys idle for the TTL are removed |
| ProbabilisticStore.ProbabilisticTokenBucket.CheckImpl | src/algorithm/probabilistic_token_bucket.rs:690-732 | A check, its cleanup and phase draws included, is the store's check function; it reads the clock at most once, and not at all for a known key without a TTL when the level alone decides |
| ProbabilisticKeys.FirstCheck | src/algorithm/probabilistic_token_bucket.rs:272-290 | A new key starts full, and its tick at the word drawn for it |
| ProbabilisticKeys.KeyRunsAlone | src/algorithm/probabilistic_token_bucket.rs:690-732 | Without a TTL every key of a store is answered, among any checks of any other keys that share its draws, exactly as a lone bucket is on some stream with a phase of its own |
| ProbabilisticKeys.EveryKeysBurstIsCapped | src/algorithm/probabilistic_token_bucket.rs:690-732 | So whatever the other keys do, one key's checks while nothing accrues are permitted less than the capacity and one group's cost |
| ProbabilisticEviction.OneWordSweeps | src/algorithm/probabilistic_token_bucket.rs:698-701 | Of the residues of a drawn word modulo 100 * sample_rate exactly one sweeps |
| ProbabilisticEviction.SweepKeepsIff | src/algorithm/probabilistic_token_bucket.rs:652-677 | On any history, a check whose word sweeps leaves of the other keys exactly those checked less than the TTL ago, and one whose word does not leaves them all |
| ProbabilisticEviction.RecentKeyIsFound | src/algorithm/probabilistic_token_bucket.rs:690-732 | A key checked less than the TTL ago is found by its next check with the bucket its last check left, whatever sweeps came between |
| ProbabilisticEviction.IdleKeyStartsOver | src/algorithm/probabilistic_token_bucket.rs:690-732 | A key idle for the TTL starts over with a full bucket at its next check that sweeps |
| ProbabilisticEviction.CheckForNothingDoesNothing | src/algorithm/probabilistic_token_bucket.rs:690-693 | A check for no tokens is denied without a promise and can be left out of any history without a trace, draws included |
| ProbabilisticBudget.EvictionKeepsBudgetIff | src/algorithm/probabilistic_token_bucket.rs:652-732 | At sampling rate 1 a key's budget since creation holds over any number of evictions, other keys and draws exactly when there is no TTL or ttl * rate >= capacity * N |
| ProbabilisticBudget.EarlyEvictionDoublesBurst | src/algorithm/probabilistic_token_bucket.rs:652-732 | A shorter TTL gives two full bursts one TTL apart |
| FixedWidth.WidthsAgree | src/algorithm/token_bucket.rs:70-136 | From agreeing words and on every history whose accruals fit an i64, the saturating u64 bucket, the signed unsampled path and a bucket on unbounded integers reply alike |
| FixedWidth.UnsampledIsTheTokenBucket | src/algorithm/probabilistic_token_bucket.rs:422-424 | So do two keys created at the same instant, for every capacity and rate within the signed clamps |
| FixedWidth.GapsKeepKeysAlike | src/algorithm/probabilistic_token_bucket.rs:422-424 | At any rate, two such keys answer alike while the gaps between calls, which a caller can check, accrue no more than an i64 less one residue |
| FixedWidth.UnsampledIsTheTokenBucketIff | src/algorithm/probabilistic_token_bucket.rs:422-424 | Within the signed clamps, sampling rate 1 answers every history like the token bucket exactly up to 500,000 tokens per second, or when there is no capacity |
| FixedWidth.LongIdleTellsThemApart | src/algorithm/probabilistic_token_bucket.rs:106-119 | At every higher rate, an idle time after which a drained u64 bucket denies one more token and the i64 bucket permits it |
| Shards.GetShardIndex | src/algorithm/token_bucket.rs:199-209 | The 64-bit hash loop and mask compute the shard function |
| Shards.KnownHashes | src/algorithm/token_bucket.rs:199-209 | The hash has the published FNV-1a values of "", "a" and "foobar" |
| Shards.LowByteDecidesShard | src/algorithm/token_bucket.rs:199-209 | The shard is that of a hash kept in eight bits |
| Shards.OneByteMovesTheShard | src/algorithm/token_bucket.rs:199-209 | Changing any single byte of any key always moves it to another shard |
| Store.ShardedTokenBucket.constructor | src/algorithm/token_bucket.rs:251-268 | A store starts with empty shards and a clamped configuration |
| Store.ShardedTokenBucket.GetOrInsert | src/algorithm/token_bucket.rs:426-437 | A key's object is found in its own shard or a full one is put there; nothing else changes |
| Store.ShardedTokenBucket.CleanupIdle | src/algorithm/token_bucket.rs:385-414 | The pass over all shards removes exactly the keys idle for the TTL and leaves the others as they are |
| Store.ShardedTokenBucket.CheckImpl | src/algorithm/token_bucket.rs:416-448 | A check of the sharded store does to its contents, and answers, what the check function does on one flat map |
| StoreRuns.KeysAreIndependent | src/algorithm/token_bucket.rs:416-448 | On every multi-key history, with or without TTL, a key is decided as if alone, fed its own checks and the sweeps of others |
| StoreRuns.KeysDoNotInterfere | src/algorithm/token_bucket.rs:416-448 | Without a TTL the decisions of a key are those of one bucket fed only its calls |
| StoreRuns.EvictionKeepsBudgetIff | src/algorithm/token_bucket.rs:385-437 | Over any number of evict-and-recreate cycles a key's budget since creation holds on every history exactly when there is no TTL or ttl * r >= scaled capacity * N |
| StoreRuns.EarlyEvictionDoublesBurst | src/algorithm/token_bucket.rs:385-437 | A shorter TTL gives two full bursts one TTL apart |
| StoreRuns.StoreKeepsEveryBudget | src/algorithm/token_bucket.rs:385-448 | Without a TTL, or with one that covers a fill, any key of an initially empty store, among other keys, sweeps and evictions, stays within its budget |
| Eviction.SweepKeepsIff | src/algorithm/token_bucket.rs:385-414 | On any history, a check that sweeps leaves of the other keys exactly those checked less than the TTL ago |
| Eviction.RecentKeyIsFound | src/algorithm/token_bucket.rs:416-448 | A key checked less than the TTL ago is found by its next check with the bucket its last check left, whatever sweeps came between |
| Eviction.IdleKeyStartsOver | src/algorithm/token_bucket.rs:385-437 | A key idle for the TTL starts over with a full bucket at its next check that sweeps |
| Eviction.ActiveKeyIsNeverReset | src/algorithm/token_bucket.rs:385-448 | A key whose checks come less than the TTL apart is answered, whatever the other keys and sweeps, as if there were no TTL |
| Eviction.ChecksForNothingDoNothing | src/algorithm/token_bucket.rs:416-419 | Checks for no tokens are denied without a promise and can all be left out of a history without a trace |
| CachedTokenBucket.CountedTokenState.TryConsume | src/algorithm/cached_token_bucket.rs:74-105 | The counted bucket decides like the plain one and counts each call once |
| CachedTokenBucket.CacheEntry.Get | src/algorithm/cached_token_bucket.rs:174-183 | The entry is returned exactly for its key, and every lookup is one hit or one miss |
| CachedTokenBucket.CachedStore.GetOrCreateStateCached | src/algorithm/cached_token_bucket.rs:259-295 | By whatever path, the object handed out is the one in the map, and the cache still agrees with it; the cache is hit exactly for its own key and filled exactly by a key counted more than ten times; with a TTL it is not consulted |
| CachedTokenBucket.CachedStore.CheckImpl | src/algorithm/cached_token_bucket.rs:326-347 | With one instance behind a thread's cache, a cached check decides and leaves contents exactly as the uncached store does |
| LookupSteps.RacingInsertsShareOneBucket | src/algorithm/cached_token_bucket.rs:259-295 | Among any instances, with and without a TTL, racing gets and inserts never leave two live buckets for a key of an instance without one, and every cache holds the map's own object, when there is no cache or one such instance |
| LookupSteps.TtlNeverCaches | src/algorithm/cached_token_bucket.rs:265-292 | Where every instance has a TTL no schedule ever fills a cache |
| LookupSteps.SecondInstanceUsesFirstBucket | src/algorithm/cached_token_bucket.rs:204-210 | For any two cached instances without a TTL, a schedule in which one serves a check from the other's bucket |
| LookupSteps.OneBucketPerKeyIff | src/algorithm/cached_token_bucket.rs:204-295 | Every check of an instance without a TTL uses its own limiter's bucket, on every schedule, exactly when there is no cache or at most one such instance, whatever instances with a TTL there are beside it |
| KeyedSteps.StepKeepsInv | src/algorithm/token_bucket.rs:416-448 | Each step of any thread, of a lookup or of a call, keeps every object's words within the protocol and its log equal to the calls charged to it |
| KeyedSteps.RacingCallsShareOneBudget | src/algorithm/token_bucket.rs:416-448 | When there is no cache or at most one caching limiter without a TTL, threads that race to find or make a key's bucket and then race on its words are permitted, for each key of a limiter without a TTL, one capacity plus one accrual up to the claims' rounding |
| Retry.RemainingIsFloor | src/algorithm/token_bucket.rs:87-96 | The reported remaining is the whole tokens left in the bucket, at most the capacity, and less than the cost of a denied request that fits it |
| Retry.WaitSufficesIff | src/algorithm/internal.rs:77-83 | Any wait, however computed: it serves every denied caller that was told this remaining and that nobody overtakes exactly when the bucket can hold the cost and the rate over the wait is worth the missing tokens |
| Retry.RetryAfterSufficesIff | src/algorithm/internal.rs:109-131 | The same of the reported retry_after, as rounded; up to 13 days one nanosecond more always serves, and above the millisecond floor two nanoseconds less never do; at rate zero it is one second |
| Retry.RetryAfterHeaderSufficesIff | src/middleware.rs:417-421 | The seconds of a Retry-After header (section 10.2.3 of RFC 9110) serve exactly when the bucket can hold the cost and they are worth the missing tokens, and always when a retry_after of less than 97 days does |
| Retry.FillsAfterIff | src/algorithm/internal.rs:86-94 | Any wait fills every bucket that left this remaining exactly when the rate over it is worth the missing tokens |
| Retry.ResetFillsIff | src/algorithm/internal.rs:86-94 | A reset is reported exactly when the rate is positive; it is such a wait, zero when nothing is missing, and up to 13 days one nanosecond more always fills and, above the millisecond floor, two nanoseconds less never do |
| Retry.LeakyRetrySufficesIff | src/algorithm/leaky_bucket.rs:305-309 | The leaky bucket's own retry_after is no shorter than the token bucket's and serves under the same condition; at rate zero it is one second |
| Retry.LeaksAwayIff | src/algorithm/leaky_bucket.rs:98-125 | A level of whole tokens has leaked away after a time exactly when the rate over that time is worth them |
| Retry.LeakyRetryIsCostLeak | src/algorithm/leaky_bucket.rs:305-309 | It is the time in which the whole cost leaks, within a nanosecond on either side, up to 13 days and above the millisecond floor |
| Limiter.Validate | src/limiter.rs:29-44 | A configuration is accepted exactly when the rate is positive and at most the burst, and the error names the first thing wrong |
| Limiter.NewLimiter | src/limiter.rs:205-212 | An accepted configuration gives an empty store whose capacity is the burst and whose rate is the requests per second |
| FirstBurst.WholeSecondsAreCounted | src/limiter.rs:205-212 | Any key of a new limiter, among checks of any other keys, whose checks of any costs come at whole seconds is answered like a bucket of `burst` whole tokens that gains `requests_per_second` of them each second |
| FirstBurst.BurstThenRate | src/limiter.rs:205-212 | So of its one-token checks at one instant exactly the first `burst` are permitted, and drained it is permitted exactly min(seconds * requests_per_second, burst) some seconds later |
| Limiter.OneTokenWhenPermitted | src/algorithm/token_bucket.rs:416-448 | A check for one token takes exactly one from the refilled bucket when it permits and none when it denies, and touches no other key but to evict it |
| Limiter.AcquireTimeout | src/limiter.rs:464-490 | Whatever others do in between, at most ceil(timeout / 1 ms) + 1 checks, each after the sleep that the previous answer and the timeout allow; all but the last denied; denied at the end only once the timeout has passed |
| Limiter.HistoriesStayInRange | src/algorithm/token_bucket.rs:416-448 | On a clock that does not run back no bucket of a store is overfull or refilled in the future |
| Limiter.DeniedThenServed | src/limiter.rs:518-539 | If nothing else happens to the store, the check after a denied one is permitted once the rate since then is worth a token, and always from one nanosecond past retry_after on, even if the key is evicted in between |
| Limiter.CheckAgain | src/limiter.rs:518-539 | The same of any later check of a caller denied several times in a row, counted from the first denial |
| Limiter.Acquire | src/limiter.rs:518-539 | On a validated limiter that nobody else uses, the loop returns permitted after at most three checks, and at most two when the rounded wait for one token is worth a token |

## Left out

- SlidingWindow: the condition on its first call is sufficient for one window. `WindowHoldsIff` has the exact condition for a configuration.
- GapsKeepRunUnclamped: sufficient only; it keeps the whole run clear of the clamp, which `SlidingWindow` needs of one call.
- WidthsAgree: sufficient for one history. `UnsampledIsTheTokenBucketIff` has the exact condition for a configuration within the signed clamps; beyond those the two buckets clamp their configurations differently.
- BurstIsGranted: without a wrap of the 64-bit tick, at which a sampling rate that does not divide 2^64 makes one group shorter.
- TracksExactBucket: the condition on the run is sufficient for its upper half. `TracksIff` has the exact condition for a configuration.
- SameLogs: of `UnsampledLogs`, up to 500,000 tokens per second, where every accrual fits an `i64`. `UnsampledIsTheTokenBucketIff` says that serialized histories differ above.
- GapsKeepKeysAlike: sufficient for one history, as `WidthsAgree`.
- ConcurrentDebtBound: compare-and-swap retries inside `fetch_update` are one step, since each is atomic in its effect. The system covers sampling rates above 1; `NeverInDebt` is about rate 1.
- IdleServes: sufficient, and of unsampled requests. A sampled one decides at a random point of the window since the last refill, so no idle time assures it.
- IdleKeyStartsOver: of `ProbabilisticEviction`, above sampling rate 1; at rate 1 `EvictionKeepsBudgetIff` uses the same of a check for the whole capacity.
- KeyRunsAlone: without a TTL. With one, `RecentKeyIsFound` and `IdleKeyStartsOver` say what each check finds.
- EvictionKeepsBudgetIff: of `ProbabilisticBudget`, at sampling rate 1. Above it an eviction also forgives debt, which an idle time that only covers a fill does not.
- WholeSecondsAreCounted: checks at whole seconds whose accrual fits a word. Between them `TracksExactBucket` and `BudgetSinceCreation` apply.
- LeakyRetryIsCostLeak: up to 13 days, as `RetryAfterSufficesIff`.
- NeverInDebt: a `fetch_update` is one step here too. `UnsampledLogs` relates it to the load and compare-and-swap of the token bucket.
- BoundsAreReached: as long as the debt fits an `i64` and the groups fit the tick, and for a bucket that holds something. Without capacity no request ever debits, and the debt floor is not reached. At sampling rate 1 there is no debt.
- Acquire: without other callers. Under contention nothing in the loop bounds the number of checks, since others may take every token that it waited for.
- PowerOfTwoSufficesIff: the closed form is for rates that are powers of two. For any rate `WaitSufficesIff` has the condition on the wait itself.
- RetryAfterSufficesIff: for waits that the nanosecond clock can show, about 584 years; the nanosecond more for waits up to 13 days, beyond which `WaitIsClose` says how far an `f64` may be off.
- ResetFillsIff: as `RetryAfterSufficesIff`.
- HttpSecondsCoverWait: up to 97 days. `HttpSecondsCoverIff` has the exact condition up to 2^53 seconds.
- A call whose wait does not fit a `Duration` panics in the code; here its wait is still a number. `WaitFitsIff` says which calls those are.
- RacingCallsShareOneBudget: for limiters without a TTL, as the eviction results are for serialized checks. A call reads its instant at any time up to its first step.
- Memory ordering weaker than sequential consistency, epoch reclamation and the internals of the concurrent hash map: `get`, `try_insert`, `remove` and iteration over a shard are atomic. The two loads of a level and its timestamp are separate steps, in the order of the code.
- Eviction while another thread still holds the entry: the eviction results are for serialized checks.
- The stores of the leaky bucket, and the sharding of the probabilistic store: the same get-or-insert, sweep and shards as the token store.
- `as_nanos() as u64` is taken not to wrap, so that the clock is a `u64`.
- Random number generation and seeding, and every statistical claim (means, deviations, long-run rates): random words are arbitrary here.
- Middleware other than the rounding of `Retry-After`, key extraction, metrics, tracing, builder setters and deprecated constructors: plumbing around what is modelled.
