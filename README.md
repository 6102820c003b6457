# ratelimit in Dafny

A model of `stew3254/ratelimit`, a Go mutual-exclusion lock whose entry rate is
throttled by a token bucket, together with its built-in policy `LimitChange`
that grows and shrinks the bucket's refill interval (`WaitLimit`).

All `time.Duration` values are int64 nanosecond counts and are modelled as
unbounded `int`. Go's `/` and `%` truncate toward zero, unlike Dafny's Euclidean
operators, so they are written out as `GoArith.Quo` and `GoArith.Rem`.

- `go_arith.dfy` (module `GoArith`): Go's integer division and remainder,
  powers of ten, and repeated division by ten (`Tenths`), with the lemma that
  dividing by ten `k` times is dividing by `10^k` once.
- `lib.dfy` (module `Lib`): `min`/`max`; `LimitChange.Increase` as a function
  (`Increase`); `LimitChange.Decrease` as a method with its search loop
  (`Decrease`), proved against the function `Decreased`. The variadic
  `states ...interface{}` becomes `ctx: Option<Config>`, where `Config` carries
  the limiter's `Unit`; `None` is the "no context" call and yields
  `Adjusted(0, Some(MissingContext))`, Go's `(0, error)`.
- `ratelimit.dfy` (module `RateLimit`): the class `RateLimiter` with the fields
  `tokens`, `maxTokens`, `waitLimit`, `unit`, `lastLocked`. Each method is
  proved against a function on the value `Bucket` of those fields (`View()`).
  Clock readings are parameters. The blocking `AcquireWithCost` loop is
  modelled as one pass, `TryAcquire(cost, now, later) returns (ok)`, and
  `Lock` as `TryLock(now, later)`, the same pass at cost 1. A successful pass
  reads the clock twice: `now` stamps `lastLocked` (ratelimit.go:86) and
  `later` is the reading `updateTokens` takes right after (ratelimit.go:55),
  so the refresh credits the intervals elapsed between the two. A
  `LimitChanger` is the datatype `Changer`, a pair of function values
  `(int, Option<Config>) --> Adjusted`; `IncreaseLimit` uses its `increase`
  and `DecreaseLimit` its `decrease`, and the built-in `LimitChange` is the
  pair `BuiltIn`.

Preconditions come from the code. `Increase` divides by `Unit/1000` when the
limit is nonzero and at least `Unit`, so it requires `|Unit| >= 1000` there
(`IncreaseDefined`). `Decrease` only returns on the inputs `DecreaseTerminates`
names: no context, a non-negative limit, or a limit above `Unit`.
`DecreaseLoopDiverges` proves that on every other input the loop guard
`limit <= newUnit` holds after any number of iterations. `updateTokens` and
every acquisition pass divide by `WaitLimit`, so they require
`WaitLimit != 0`.

A cost of 0 keeps the token count at or below the capacity (`Pass` ensures
`0 <= cost ==> Capped(p.after)`: a success leaves at most `MaxTokens - cost`, a
failure at most `MaxTokens`). Only a negative cost pushes the count above the
capacity (`NegativeCostOverfills`). `AddTokens` does not reject a negative
amount, which can also drive the count negative (`NegativeTopUpOverdraws`).

`Step` and `Run` replay a sequence of caller operations (top-up, one
acquisition pass, `SetLimit`, `Increase`, `Decrease`) on the bucket value.
`RunKeepsCap` and `RunKeepsBounds` state, for any such sequence, the
invariants `Tokens <= MaxTokens` and `0 <= Tokens <= MaxTokens`, and the
conditions under which they hold.

## Model

| member | source | states |
|---|---|---|
| GoArith.Quo | lib.go:38-39 | Go's truncating `/` for every nonzero divisor: the quotient of the magnitudes, negated exactly when dividend and divisor have opposite signs |
| GoArith.Rem | lib.go:41 | Go's `%` for every nonzero divisor: smaller in magnitude than the divisor, with the sign of the dividend; equals Dafny's `%` on a non-negative dividend and positive divisor, and is its negation on the magnitude for a negative dividend |
| GoArith.TenthsIsQuo | lib.go:68-71 | dividing by ten `k` times in a row (as the search loop does) equals dividing once by `10^k` |
| Lib.Max | lib.go:83-88 | the result is at least both arguments and is one of them |
| Lib.Min | lib.go:90-95 | the result is at most both arguments and is one of them |
| Lib.IncreaseDefined | lib.go:36-42 | the inputs on which `Increase` does not panic are exactly those where the 1.5x branch is not taken or its divisor `Unit/1000` is nonzero |
| Lib.Increase | lib.go:13-44 | no context gives `(0, MissingContext)`; with a context there is no error; 0 becomes `Unit`; a nonzero limit below `Unit` doubles, clamped so it never exceeds `Unit` (it equals `Unit` exactly when doubling reaches it) |
| Lib.IncreaseTruncates | lib.go:36-42 | for `1000 <= Unit <= limit`, `Increase` yields the largest multiple of `Unit/1000` not above `3*limit/2` |
| Lib.IncreaseGrows | lib.go:22-42 | for a positive unit and a non-negative limit the result is strictly greater than the limit, and stays at or below `Unit` exactly when the limit started below `Unit` |
| Lib.IncreasedTimes | lib.go:22-42 | `n` repeated increases from a non-negative limit grow it by at least `n` |
| Lib.IncreasedTimesStep | lib.go:22-42 | each further increase is one more `Increase` call and strictly raises the limit: repeated increases never settle |
| Lib.IncreaseTable | ratelimit_test.go:14-23 | the eight rows of the increase table, e.g. 800ms -> 1s, 1000.231ms -> 1.5s, 0 -> 1s |
| Lib.FirstFractionBelow | lib.go:68-71 | the value the search loop stops at is below the limit, and for a non-negative start it lies between 0 and the start |
| Lib.FirstFractionBelowIsFirst | lib.go:68-71 | the loop stops after exactly the first `k` divisions by ten whose value is below the limit |
| Lib.DecreaseTerminates | lib.go:57-71 | for a nonzero limit not above `Unit`, `Decrease` returns exactly when some number of divisions of `Unit/10` by ten falls below the limit, i.e. when the search loop exits |
| Lib.SearchLoopExits | lib.go:67-71 | for a nonzero limit not above `Unit`, the search loop exits after finitely many divisions exactly when the limit is positive |
| Lib.Decreased | lib.go:47-81 | 0 stays 0; a limit above `Unit` loses one `Unit` but stays at least `Unit` (and is clamped to `Unit` exactly when the difference is at most `Unit`), so it strictly drops for a positive `Unit`; a limit in `(0, Unit]` stays in `(0, limit]` |
| Lib.Decrease | lib.go:47-81 | no context gives `(0, MissingContext)`; otherwise no error and the loop computes `Decreased`; the answer is `DecreaseAnswer`, the value form the built-in changer passes |
| Lib.DecreaseFraction | lib.go:67-79 | for `0 < limit <= Unit` the subtracted fraction is `Unit/10^k` for the smallest `k >= 1` at which it is below the limit, and the result is that subtraction clamped up to the fraction |
| Lib.DecreaseLoopDiverges | lib.go:67-71 | for a negative limit not above `Unit` the loop guard holds after every number of iterations, so these are exactly the inputs excluded by `DecreaseTerminates` |
| Lib.DecreaseFixesZero | lib.go:57-58 | zero is a fixed point of `Decrease` for every unit |
| Lib.DecreaseTable | ratelimit_test.go:25-33 | the seven rows of the decrease table, e.g. 1s -> 900ms, 1100ms -> 1s, 101ms -> 100ms, 0 -> 0 |
| RateLimit.Earned | ratelimit.go:55 | the accrual is never negative and is 0 for zero elapsed time; for a positive `WaitLimit` it is 0 for a clock that went backwards and otherwise the number of whole `WaitLimit` intervals elapsed; for a negative `WaitLimit` it is 0 for a clock that moved forward and otherwise the elapsed time backwards divided by `-WaitLimit` |
| RateLimit.Refilled | ratelimit.go:53-57 | `updateTokens` changes only the count, leaves it at most `MaxTokens`, adds at most the accrual (exactly the accrual unless capped), and never lowers a count that was within capacity |
| RateLimit.AddedTokens | ratelimit.go:71-75 | `AddTokens(n)` changes only the count, which becomes `Tokens + n` unless that exceeds `MaxTokens`, when it becomes `MaxTokens` |
| RateLimit.Threshold | ratelimit.go:84 | the required count is the cost for `1 <= cost <= MaxTokens`, 1 for a smaller cost, and `MaxTokens` for a larger cost |
| RateLimit.Pass | ratelimit.go:80-102 | a pass succeeds iff `Tokens >= Threshold(cost)`; success stamps `now`, changes nothing else but the count, and leaves it between `min(Tokens, MaxTokens) - cost` and `MaxTokens - cost`, exactly the former when the second clock read is less than one positive `WaitLimit` after the first; failure only refreshes; with a non-negative cost the count ends at most `MaxTokens` |
| RateLimit.PassKeepsBounds | ratelimit.go:84-89 | with `1 <= cost <= MaxTokens`, a pass keeps `0 <= Tokens <= MaxTokens` |
| RateLimit.CostAboveCapacityOverdraws | ratelimit.go:84-89 | a cost above `MaxTokens` succeeds on a full bucket and leaves a negative count |
| RateLimit.NegativeCostOverfills | ratelimit.go:84-89 | a negative cost succeeds on a full bucket and leaves more than `MaxTokens` |
| RateLimit.FailedPassesRecount | ratelimit.go:96-97 | two failed passes at the same time leave `lastLocked` alone and each credit the same accrual, so the count can grow by twice the accrual |
| RateLimit.Locks | ratelimit.go:60-63 | successive `Lock` passes keep `WaitLimit` and `MaxTokens` |
| RateLimit.LocksSpendStoredTokens | ratelimit.go:84-89 | a bucket within capacity holding at least `m` tokens serves `m` `Lock` passes at any times, losing at most one token each and staying within capacity, and exactly one each when every pass reads its clock twice within one positive `WaitLimit` |
| RateLimit.AddTokensServesFiveLocks | ratelimit_test.go:99-109 | an empty bucket of capacity 10, topped up by 5, holds 5 tokens and serves five `Lock` passes at any times, ending with 0 when each pass reads its clock twice within 100ms |
| RateLimit.Step | ratelimit.go:71-146 | an operation never changes `MaxTokens` or `Unit`, and only top-ups and acquisitions change the count; it has no result exactly for an acquisition with a zero `WaitLimit` (division by zero), an increase whose 1.5x branch divides by `Unit/1000 == 0`, and a decrease whose search loop guard holds after every number of divisions |
| RateLimit.Run | ratelimit.go:71-146 | a sequence of operations never changes `MaxTokens` |
| RateLimit.RunKeepsCap | ratelimit.go:53-146 | `Tokens <= MaxTokens` holds after any sequence of operations that starts within capacity and acquires at non-negative costs |
| RateLimit.RunKeepsBounds | ratelimit.go:53-146 | `0 <= Tokens <= MaxTokens` holds after any sequence of operations that starts there, acquires at costs from 1 to `MaxTokens` and never tops up by a negative amount |
| RateLimit.NegativeTopUpOverdraws | ratelimit.go:71-75 | `AddTokens` with a negative amount on an empty bucket leaves a negative count |
| RateLimit.RateLimiter.constructor | ratelimit.go:40-50 | the fields are the given ones and `lastLocked` is the construction time |
| RateLimit.RateLimiter.UpdateTokens | ratelimit.go:53-57 | the new state is `Refilled` of the old; the count ends at most `MaxTokens` and never drops from within capacity |
| RateLimit.RateLimiter.TryLock | ratelimit.go:60-63 | a `Pass` at cost 1 with the same two clock reads; with a positive capacity it succeeds iff at least one token is held |
| RateLimit.RateLimiter.AddTokens | ratelimit.go:71-75 | the new state is `AddedTokens` of the old; the count ends at most `MaxTokens` |
| RateLimit.RateLimiter.TryAcquire | ratelimit.go:78-103 | the outcome and new state are `Pass` of the old state, with `lastLocked` stamped at the first clock read and the refresh at the second; success iff the count reaches the threshold; `lastLocked` moves only on success; the bounds are kept for `1 <= cost <= MaxTokens` |
| RateLimit.RateLimiter.SetLimit | ratelimit.go:106-110 | only `WaitLimit` changes |
| RateLimit.RateLimiter.IncreaseLimit | ratelimit.go:113-123 | the value of the changer's `increase` becomes `WaitLimit` unless it reports an error, in which case nothing changes; no other field changes |
| RateLimit.RateLimiter.DecreaseLimit | ratelimit.go:126-136 | the value of the changer's `decrease` becomes `WaitLimit` unless it reports an error, in which case nothing changes; no other field changes |
| RateLimit.RateLimiter.Increase | ratelimit.go:139-141 | `WaitLimit` becomes the built-in `Increase` of the old limit under the limiter's unit; nothing else changes |
| RateLimit.RateLimiter.Decrease | ratelimit.go:144-146 | through `DecreaseLimit(BuiltIn)`, `WaitLimit` becomes `Decreased` of the old limit under the limiter's unit; nothing else changes |

## Left out

- Both mutexes (`lock`, `timeLock`) and the mutual exclusion they give. They are concurrency, not bookkeeping. So is `Unlock`, which only releases `lock` and touches no field.
- The blocking retry loop of `AcquireWithCost` and its `time.Sleep`. One pass is modelled, so eventual acquisition (liveness) is not stated.
- `time.Now()`: each reading is a parameter (`now`, and `later` for the second reading of a successful pass). That the clock is monotonic (`now <= later`) is not assumed; no contract needs it.
- `log.Println` on a changer error. Only "`WaitLimit` unchanged" is modelled.
- The runtime type assertion `states[0].(*RateLimiter)` and its panic on a wrong type. The context is typed, so a wrong type cannot be passed.
- A custom changer sees only the limiter's `Unit` through `Config`, not its other fields.
- int64 overflow of `limit * 3`, `limit * 2`, `Tokens + n` and the elapsed-time subtraction: integers are unbounded.
- The unused `maxDuration`/`minDuration` helpers and the `Limiter` interface, which is only a list of signatures.
- The goroutine tests `TestLocking` and `TestRateLimiting`, which are about concurrency.
- The built-in changer `BuiltIn` passes `DecreaseAnswer`, the function the loop method `Decrease` is proved to compute, because a method cannot be passed as a function value. The loop itself therefore does not run inside `RateLimiter.Decrease`.
- Lib.Increase: on a negative `Unit` the result of the 1.5x branch is defined through Go's division in the body, but no separate property is stated for it.
