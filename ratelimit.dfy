/** `RateLimiter`: a mutual-exclusion lock gated by a token bucket. Only the
    bookkeeping is modelled; the clock is an explicit `now` parameter (in
    nanoseconds) and the blocking acquisition loop is one pass. */
module RateLimit {
  import opened GoArith
  import opened Lib

  /** The bookkeeping fields of a limiter as one value. */
  datatype Bucket = Bucket(tokens: int, maxTokens: int, waitLimit: int, unit: int, lastLocked: int)

  /** The outcome of one pass of the acquisition loop. */
  datatype Attempt = Attempt(acquired: bool, after: Bucket)

  /** The invariant the limiter intends: no more tokens than the capacity. */
  predicate Capped(b: Bucket)
  {
    b.tokens <= b.maxTokens
  }

  /** The stronger intended invariant: a non-negative count within capacity. */
  predicate Bounded(b: Bucket)
  {
    0 <= b.tokens <= b.maxTokens
  }

  /** Whole wait intervals elapsed since the last acquisition, never negative.
      With a negative `WaitLimit` the sign flips: time running forward earns
      nothing and a clock read before `lastLocked` earns tokens. */
  function Earned(b: Bucket, now: int): (n: int)
    requires b.waitLimit != 0
    ensures 0 <= n
    ensures now == b.lastLocked ==> n == 0
    ensures 0 < b.waitLimit && now < b.lastLocked ==> n == 0
    ensures 0 < b.waitLimit && b.lastLocked <= now ==>
      n * b.waitLimit <= now - b.lastLocked < (n + 1) * b.waitLimit
    ensures b.waitLimit < 0 && b.lastLocked <= now ==> n == 0
    ensures b.waitLimit < 0 && now < b.lastLocked ==> n == (b.lastLocked - now) / (-b.waitLimit)
  {
    Max(Quo(now - b.lastLocked, b.waitLimit), 0)
  }

  /** `updateTokens`: credit the earned tokens, capped at the capacity. */
  function Refilled(b: Bucket, now: int): (c: Bucket)
    requires b.waitLimit != 0
    ensures c == b.(tokens := c.tokens)
    ensures c.tokens <= b.maxTokens
    ensures c.tokens <= b.tokens + Earned(b, now)
    ensures c.tokens == b.maxTokens || c.tokens == b.tokens + Earned(b, now)
    ensures Capped(b) ==> b.tokens <= c.tokens
  {
    b.(tokens := Min(Earned(b, now) + b.tokens, b.maxTokens))
  }

  /** `AddTokens`: top up by `n`, capped at the capacity. */
  function AddedTokens(b: Bucket, n: int): (c: Bucket)
    ensures c == b.(tokens := c.tokens)
    ensures c.tokens <= b.maxTokens
    ensures c.tokens <= b.tokens + n
    ensures c.tokens == b.maxTokens || c.tokens == b.tokens + n
  {
    b.(tokens := Min(b.maxTokens, b.tokens + n))
  }

  /** The number of tokens a pass at `cost` must find: the cost, raised to 1
      and lowered to the capacity. */
  function Threshold(cost: int, maxTokens: int): (t: int)
    ensures t <= maxTokens
    ensures 1 <= cost <= maxTokens ==> t == cost
    ensures cost < 1 <= maxTokens ==> t == 1
    ensures maxTokens < cost ==> t == maxTokens
    ensures maxTokens < 1 ==> t == maxTokens
  {
    Min(Max(cost, 1), maxTokens)
  }

  /** One pass of `AcquireWithCost`. The clock is read at `now`, and on
      success once more at `later`: a successful pass stamps `now`, refreshes
      with the time elapsed between the two reads and deducts the unclamped
      `cost`; a failed pass only refreshes at `now`. */
  function Pass(b: Bucket, cost: int, now: int, later: int): (p: Attempt)
    requires b.waitLimit != 0
    ensures p.acquired <==> Threshold(cost, b.maxTokens) <= b.tokens
    ensures p.acquired ==> p.after == b.(lastLocked := now, tokens := p.after.tokens)
    ensures p.acquired ==> Min(b.tokens, b.maxTokens) - cost <= p.after.tokens <= b.maxTokens - cost
    ensures p.acquired && 0 < b.waitLimit && later - now < b.waitLimit ==>
      p.after.tokens == Min(b.tokens, b.maxTokens) - cost
    ensures !p.acquired ==> p.after == Refilled(b, now)
    ensures 0 <= cost ==> Capped(p.after)
  {
    if b.tokens >= Threshold(cost, b.maxTokens) then
      var stamped := Refilled(b.(lastLocked := now), later);
      Attempt(true, stamped.(tokens := stamped.tokens - cost))
    else
      Attempt(false, Refilled(b, now))
  }

  /** A pass whose cost is between 1 and the capacity keeps `0 <= tokens <= maxTokens`. */
  lemma PassKeepsBounds(b: Bucket, cost: int, now: int, later: int)
    requires b.waitLimit != 0 && Bounded(b) && 1 <= cost <= b.maxTokens
    ensures Bounded(Pass(b, cost, now, later).after)
  {
  }

  /** A cost above the capacity passes the clamped check on a full bucket and
      then deducts the whole cost: the count goes negative. */
  lemma CostAboveCapacityOverdraws(b: Bucket, cost: int, now: int, later: int)
    requires b.waitLimit != 0 && b.tokens == b.maxTokens < cost
    ensures Pass(b, cost, now, later).acquired
    ensures Pass(b, cost, now, later).after.tokens == b.maxTokens - cost < 0
  {
  }

  /** A negative cost passes the check with one token and then adds tokens:
      the count rises above the capacity. */
  lemma NegativeCostOverfills(b: Bucket, cost: int, now: int, later: int)
    requires b.waitLimit != 0 && 1 <= b.tokens == b.maxTokens && cost < 0
    ensures Pass(b, cost, now, later).acquired
    ensures Pass(b, cost, now, later).after.tokens == b.maxTokens - cost > b.maxTokens
  {
  }

  /** Failed passes do not move `lastLocked`, so a second failed pass at the
      same time credits the same earned tokens again, up to the capacity. */
  lemma FailedPassesRecount(b: Bucket, cost: int, now: int, later: int)
    requires b.waitLimit != 0
    requires !Pass(b, cost, now, later).acquired
    requires !Pass(Pass(b, cost, now, later).after, cost, now, later).acquired
    ensures var first := Pass(b, cost, now, later).after;
      var second := Pass(first, cost, now, later).after;
      && first.lastLocked == second.lastLocked == b.lastLocked
      && second.tokens == Min(first.tokens + Earned(b, now), b.maxTokens)
      && (b.tokens + 2 * Earned(b, now) <= b.maxTokens ==> second.tokens == b.tokens + 2 * Earned(b, now))
  {
    var first := Pass(b, cost, now, later).after;
    assert Earned(first, now) == Earned(b, now);
  }

  /** The two clock readings of one pass: the first, and the one the refresh
      of a successful pass takes. */
  datatype Reads = Reads(now: int, later: int)

  /** Every pass reads its clock twice within less than one wait interval. */
  predicate Prompt(waitLimit: int, times: seq<Reads>)
  {
    forall i :: 0 <= i < |times| ==> times[i].later - times[i].now < waitLimit
  }

  /** Successive `Lock` passes (cost 1) at the given times: whether every one
      acquired, and the bucket after the last. */
  function Locks(b: Bucket, times: seq<Reads>): (r: Attempt)
    requires b.waitLimit != 0
    ensures r.after.waitLimit == b.waitLimit && r.after.maxTokens == b.maxTokens
    decreases |times|
  {
    if times == [] then Attempt(true, b)
    else
      var p := Pass(b, 1, times[0].now, times[0].later);
      var rest := Locks(p.after, times[1..]);
      Attempt(p.acquired && rest.acquired, rest.after)
  }

  /** Stored tokens serve that many `Lock` passes at any times, at least one
      token each, without waiting for the refill clock; exactly one token each
      when every pass reads its clock twice within one wait interval. */
  lemma {:induction false} LocksSpendStoredTokens(b: Bucket, times: seq<Reads>)
    requires b.waitLimit != 0 && 1 <= b.maxTokens && |times| <= b.tokens <= b.maxTokens
    ensures Locks(b, times).acquired
    ensures b.tokens - |times| <= Locks(b, times).after.tokens <= b.maxTokens
    ensures 0 < b.waitLimit && Prompt(b.waitLimit, times) ==>
      Locks(b, times).after.tokens == b.tokens - |times|
    decreases |times|
  {
    if times != [] {
      var p := Pass(b, 1, times[0].now, times[0].later);
      assert p.acquired && b.tokens - 1 <= p.after.tokens <= b.maxTokens - 1;
      assert 0 < b.waitLimit && Prompt(b.waitLimit, times) ==>
        p.after.tokens == b.tokens - 1 && Prompt(b.waitLimit, times[1..]);
      LocksSpendStoredTokens(p.after, times[1..]);
    }
  }

  /** The top-up scenario: an empty bucket of capacity 10 on a one-hour refill,
      its interval set to 100ms, topped up by 5, then serves five `Lock`
      passes at any times, ending empty when each pass reads its clock twice
      within 100ms. */
  lemma AddTokensServesFiveLocks(start: int, times: seq<Reads>)
    requires |times| == 5
    ensures var b := AddedTokens(Bucket(0, 10, 3600 * Second, Second, start).(waitLimit := 100 * Millisecond), 5);
      && b.tokens == 5
      && Locks(b, times).acquired
      && (Prompt(100 * Millisecond, times) ==> Locks(b, times).after.tokens == 0)
  {
    var b := AddedTokens(Bucket(0, 10, 3600 * Second, Second, start).(waitLimit := 100 * Millisecond), 5);
    LocksSpendStoredTokens(b, times);
  }

  /** What a caller can do to a limiter, each as one bookkeeping pass. */
  datatype Op =
    | AddTokensOp(n: int)
    | AcquireOp(cost: int, now: int, later: int)
    | SetLimitOp(limit: int)
    | IncreaseOp
    | DecreaseOp

  /** The bucket after `op`, or `None` where the Go code would not return: a
      division by a zero `WaitLimit`, a unit below 1000ns in the 1.5x branch of
      `Increase`, or the endless search loop of `Decrease`. */
  function Step(b: Bucket, op: Op): (r: Option<Bucket>)
    ensures r.Some? ==> r.value.maxTokens == b.maxTokens && r.value.unit == b.unit
    ensures r.Some? && !op.AddTokensOp? && !op.AcquireOp? ==> r.value.tokens == b.tokens
    ensures r.None? <==>
      || (op.AcquireOp? && b.waitLimit == 0)
      || (op.IncreaseOp? && b.waitLimit != 0 && b.unit <= b.waitLimit && Quo(b.unit, 1000) == 0)
      || (op.DecreaseOp? && b.waitLimit != 0 && b.waitLimit <= b.unit
          && forall k: nat :: b.waitLimit <= Tenths(Quo(b.unit, 10), k))
  {
    match op
    case AddTokensOp(n) => Some(AddedTokens(b, n))
    case AcquireOp(cost, now, later) =>
      if b.waitLimit == 0 then None else Some(Pass(b, cost, now, later).after)
    case SetLimitOp(limit) => Some(b.(waitLimit := limit))
    case IncreaseOp =>
      if IncreaseDefined(b.waitLimit, Some(Config(b.unit)))
      then Some(b.(waitLimit := Increase(b.waitLimit, Some(Config(b.unit))).limit))
      else None
    case DecreaseOp =>
      SearchLoopExits(b.waitLimit, Some(Config(b.unit)));
      if DecreaseTerminates(b.waitLimit, Some(Config(b.unit)))
      then Some(b.(waitLimit := Decreased(b.waitLimit, b.unit)))
      else None
  }

  /** The bucket after the operations in order, or `None` if one of them does
      not return. */
  function Run(b: Bucket, ops: seq<Op>): (r: Option<Bucket>)
    ensures r.Some? ==> r.value.maxTokens == b.maxTokens
    decreases |ops|
  {
    if ops == [] then Some(b)
    else
      match Step(b, ops[0])
      case None => None
      case Some(c) => Run(c, ops[1..])
  }

  /** No acquisition in `ops` has a negative cost. */
  predicate NonNegativeCosts(ops: seq<Op>)
  {
    forall i :: 0 <= i < |ops| && ops[i].AcquireOp? ==> 0 <= ops[i].cost
  }

  /** Every acquisition costs between 1 and `maxTokens`, and no top-up is negative. */
  predicate WithinCapacity(ops: seq<Op>, maxTokens: int)
  {
    && (forall i :: 0 <= i < |ops| && ops[i].AcquireOp? ==> 1 <= ops[i].cost <= maxTokens)
    && (forall i :: 0 <= i < |ops| && ops[i].AddTokensOp? ==> 0 <= ops[i].n)
  }

  /** `Tokens <= MaxTokens` holds after any sequence of operations that starts
      within capacity and acquires at non-negative costs. */
  lemma {:induction false} RunKeepsCap(b: Bucket, ops: seq<Op>)
    requires Capped(b) && NonNegativeCosts(ops) && Run(b, ops).Some?
    ensures Capped(Run(b, ops).value)
    decreases |ops|
  {
    if ops != [] {
      var c := Step(b, ops[0]).value;
      assert NonNegativeCosts(ops[1..]) by {
        forall i | 0 <= i < |ops[1..]| && ops[1..][i].AcquireOp?
          ensures 0 <= ops[1..][i].cost
        {
          assert ops[1..][i] == ops[i + 1];
        }
      }
      RunKeepsCap(c, ops[1..]);
    }
  }

  /** `0 <= Tokens <= MaxTokens` holds after any sequence of operations that
      starts there, acquires at costs from 1 to `MaxTokens` and never tops up
      by a negative amount. */
  lemma {:induction false} RunKeepsBounds(b: Bucket, ops: seq<Op>)
    requires Bounded(b) && WithinCapacity(ops, b.maxTokens) && Run(b, ops).Some?
    ensures Bounded(Run(b, ops).value)
    decreases |ops|
  {
    if ops != [] {
      var c := Step(b, ops[0]).value;
      assert WithinCapacity(ops[1..], b.maxTokens) by {
        forall i | 0 <= i < |ops[1..]|
          ensures ops[1..][i] == ops[i + 1]
        {
        }
      }
      RunKeepsBounds(c, ops[1..]);
    }
  }

  /** A negative top-up on an empty bucket leaves a negative count. */
  lemma NegativeTopUpOverdraws(b: Bucket, n: int)
    requires b.tokens == 0 <= b.maxTokens && n < 0
    ensures AddedTokens(b, n).tokens == n < 0
  {
  }

  /** `LimitChanger`: a pair of limit-adjusting policies, each given the
      current limit and the limiter as its context. */
  datatype Changer = Changer(
    increase: (int, Option<Config>) --> Adjusted,
    decrease: (int, Option<Config>) --> Adjusted)

  /** The built-in policy `LimitChange`. */
  const BuiltIn := Changer(Lib.Increase, DecreaseAnswer)

  class RateLimiter {
    var tokens: int
    var maxTokens: int
    var waitLimit: int
    var unit: int
    var lastLocked: int

    function View(): Bucket
      reads this
    {
      Bucket(tokens, maxTokens, waitLimit, unit, lastLocked)
    }

    /** `NewRateLimiter`; the last acquisition is stamped with the current time. */
    constructor (tokens: int, maxTokens: int, wait: int, unit: int, now: int)
      ensures View() == Bucket(tokens, maxTokens, wait, unit, now)
    {
      this.lastLocked := now;
      this.unit := unit;
      this.waitLimit := wait;
      this.tokens := tokens;
      this.maxTokens := maxTokens;
    }

    method UpdateTokens(now: int)
      requires waitLimit != 0
      modifies this
      ensures View() == Refilled(old(View()), now)
      ensures tokens <= maxTokens
      ensures old(tokens) <= old(maxTokens) ==> old(tokens) <= tokens
    {
      var earned := Max(Quo(now - lastLocked, waitLimit), 0);
      tokens := Min(earned + tokens, maxTokens);
    }

    /** One pass of `Lock`, which is `AcquireWithCost(1)`. */
    method TryLock(now: int, later: int) returns (ok: bool)
      requires waitLimit != 0
      modifies this
      ensures Attempt(ok, View()) == Pass(old(View()), 1, now, later)
      ensures 1 <= maxTokens ==> (ok <==> 1 <= old(tokens))
      ensures tokens <= maxTokens
    {
      ok := TryAcquire(1, now, later);
    }

    method AddTokens(n: int)
      modifies this
      ensures View() == AddedTokens(old(View()), n)
      ensures tokens <= maxTokens
    {
      tokens := Min(maxTokens, tokens + n);
    }

    /** One pass of the loop of `AcquireWithCost`; `now` is the clock read
        that stamps `lastLocked`, `later` the one `updateTokens` takes after it. */
    method TryAcquire(cost: int, now: int, later: int) returns (ok: bool)
      requires waitLimit != 0
      modifies this
      ensures Attempt(ok, View()) == Pass(old(View()), cost, now, later)
      ensures ok <==> Threshold(cost, maxTokens) <= old(tokens)
      ensures ok ==> lastLocked == now
      ensures !ok ==> lastLocked == old(lastLocked)
      ensures 0 <= cost ==> tokens <= maxTokens
      ensures old(Bounded(View())) && 1 <= cost <= maxTokens ==> Bounded(View())
    {
      if tokens >= Min(Max(cost, 1), maxTokens) {
        lastLocked := now;
        UpdateTokens(later);
        tokens := tokens - cost;
        ok := true;
      } else {
        UpdateTokens(now);
        ok := false;
      }
    }

    method SetLimit(limit: int)
      modifies this
      ensures View() == old(View()).(waitLimit := limit)
    {
      waitLimit := limit;
    }

    /** Installs the changer's increased limit unless it reports an error. */
    method IncreaseLimit(changer: Changer)
      requires changer.increase.requires(waitLimit, Some(Config(unit)))
      modifies this
      ensures var res := changer.increase(old(waitLimit), Some(Config(old(unit))));
        View() == old(View()).(waitLimit := if res.err == None then res.limit else old(waitLimit))
    {
      var res := changer.increase(waitLimit, Some(Config(unit)));
      if res.err == None {
        waitLimit := res.limit;
      }
    }

    /** Installs the changer's decreased limit unless it reports an error. */
    method DecreaseLimit(changer: Changer)
      requires changer.decrease.requires(waitLimit, Some(Config(unit)))
      modifies this
      ensures var res := changer.decrease(old(waitLimit), Some(Config(old(unit))));
        View() == old(View()).(waitLimit := if res.err == None then res.limit else old(waitLimit))
    {
      var res := changer.decrease(waitLimit, Some(Config(unit)));
      if res.err == None {
        waitLimit := res.limit;
      }
    }

    /** `IncreaseLimit` with the built-in policy, which always answers when
      given the limiter as its context. */
    method Increase()
      requires IncreaseDefined(waitLimit, Some(Config(unit)))
      modifies this
      ensures View() == old(View()).(waitLimit := Lib.Increase(old(waitLimit), Some(Config(old(unit)))).limit)
    {
      IncreaseLimit(BuiltIn);
    }

    /** `DecreaseLimit` with the built-in policy, which always answers when
      given the limiter as its context. */
    method Decrease()
      requires DecreaseTerminates(waitLimit, Some(Config(unit)))
      modifies this
      ensures View() == old(View()).(waitLimit := Decreased(old(waitLimit), old(unit)))
    {
      DecreaseLimit(BuiltIn);
    }
  }
}
