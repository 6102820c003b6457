/** The built-in limit-adjustment policy `LimitChange` and the integer
    `min`/`max` helpers. Durations are int64 nanosecond counts, modelled as
    unbounded `int`. */
module Lib {
  import opened GoArith

  datatype Option<T> = None | Some(value: T)

  /** What a policy may read of the limiter it adjusts: only its unit. */
  datatype Config = Config(unit: int)

  datatype Error = MissingContext

  /** A policy's answer: Go's `(time.Duration, error)` pair. */
  datatype Adjusted = Adjusted(limit: int, err: Option<Error>)

  /** The answer of either policy operation when it is given no context. */
  const NoContext := Adjusted(0, Some(MissingContext))

  const Microsecond := 1_000
  const Millisecond := 1_000_000
  const Second := 1_000_000_000

  function Max(a: int, b: int): (r: int)
    ensures a <= r && b <= r
    ensures r == a || r == b
  {
    if a > b then a else b
  }

  function Min(a: int, b: int): (r: int)
    ensures r <= a && r <= b
    ensures r == a || r == b
  {
    if a < b then a else b
  }

  // ---------------------------------------------------------------- Increase

  /** The inputs on which `Increase` does not divide by zero: the 1.5x branch
      truncates modulo `unit / 1000`, which is 0 when |unit| < 1000. */
  predicate IncreaseDefined(limit: int, ctx: Option<Config>)
    ensures IncreaseDefined(limit, ctx) <==>
      ctx.None? || limit == 0 || limit < ctx.value.unit || Quo(ctx.value.unit, 1000) != 0
  {
    ctx.None? || limit == 0 || limit < ctx.value.unit || Abs(ctx.value.unit) >= 1000
  }

  /** `LimitChange.Increase`: a zero limit becomes one unit, a sub-unit limit
      doubles without passing one unit, and a limit of a unit or more grows by
      half and is floored to a multiple of a thousandth of the unit. */
  function Increase(limit: int, ctx: Option<Config>): (r: Adjusted)
    requires IncreaseDefined(limit, ctx)
    ensures ctx.None? ==> r == NoContext
    ensures ctx.Some? ==> r.err == None
    ensures ctx.Some? && limit == 0 ==> r.limit == ctx.value.unit
    ensures ctx.Some? && limit != 0 && limit < ctx.value.unit ==>
      && r.limit <= ctx.value.unit
      && (r.limit == ctx.value.unit <==> ctx.value.unit <= 2 * limit)
      && (r.limit < ctx.value.unit ==> r.limit == 2 * limit)
  {
    match ctx
    case None => NoContext
    case Some(c) =>
      if limit == 0 then
        Adjusted(c.unit, None)
      else if limit < c.unit then
        var doubled := limit * 2;
        Adjusted(if doubled > c.unit then c.unit else doubled, None)
      else
        var grown := Quo(limit * 3, 2);
        Adjusted(grown - Rem(grown, Quo(c.unit, 1000)), None)
  }

  /** From one (positive) unit up, `Increase` gives the largest multiple of
      `unit / 1000` that is at most `3 * limit / 2`. */
  lemma IncreaseTruncates(limit: int, unit: int)
    requires 1000 <= unit <= limit
    ensures var step, r := unit / 1000, Increase(limit, Some(Config(unit))).limit;
      && 0 < step
      && r % step == 0
      && 3 * limit / 2 - step < r <= 3 * limit / 2
  {
    var step, grown := unit / 1000, 3 * limit / 2;
    assert Quo(limit * 3, 2) == grown && Quo(unit, 1000) == step;
    var m := grown % step;
    assert Rem(grown, step) == m;
    assert grown == (grown / step) * step + m;
    assert grown - m == (grown / step) * step;
    MultipleMod(grown / step, step);
  }

  lemma MultipleMod(q: int, d: int)
    requires 0 < d
    ensures (q * d) % d == 0
  {
    GoArith.DivUnique(q * d, d, q, 0);
  }

  /** For a positive unit and a non-negative limit, `Increase` strictly grows
      the limit, and the result stays within one unit exactly when the limit
      started below one unit. */
  lemma IncreaseGrows(limit: int, unit: int)
    requires 0 < unit && 0 <= limit && IncreaseDefined(limit, Some(Config(unit)))
    ensures limit < Increase(limit, Some(Config(unit))).limit
    ensures Increase(limit, Some(Config(unit))).limit <= unit <==> limit < unit
  {
    if limit >= unit {
      IncreaseTruncates(limit, unit);
      var step := unit / 1000;
      assert 1000 * step <= unit;
      assert step <= limit / 2 + 1;
    }
  }

  /** The limit after `n` successive calls of `Increase` with the same unit. */
  function IncreasedTimes(limit: int, unit: int, n: nat): (r: int)
    requires 1000 <= unit && 0 <= limit
    ensures limit + n <= r
    decreases n
  {
    if n == 0 then limit
    else
      IncreaseGrows(limit, unit);
      IncreasedTimes(Increase(limit, Some(Config(unit))).limit, unit, n - 1)
  }

  /** One more call of `Increase` after `n` calls: the iteration is strictly
      increasing, never settling on a fixed point. */
  lemma {:induction false} IncreasedTimesStep(limit: int, unit: int, n: nat)
    requires 1000 <= unit && 0 <= limit
    ensures IncreasedTimes(limit, unit, n + 1) == Increase(IncreasedTimes(limit, unit, n), Some(Config(unit))).limit
    ensures IncreasedTimes(limit, unit, n) < IncreasedTimes(limit, unit, n + 1)
    decreases n
  {
    if n > 0 {
      IncreaseGrows(limit, unit);
      IncreasedTimesStep(Increase(limit, Some(Config(unit))).limit, unit, n - 1);
    }
    IncreaseGrows(IncreasedTimes(limit, unit, n), unit);
  }

  /** The rows of the increase test table (unit one second). */
  lemma IncreaseTable()
    ensures Increase(Second, Some(Config(Second))) == Adjusted(3 * Second / 2, None)
    ensures Increase(5 * Second, Some(Config(Second))) == Adjusted(15 * Second / 2, None)
    ensures Increase(500 * Millisecond, Some(Config(Second))) == Adjusted(Second, None)
    ensures Increase(100 * Millisecond, Some(Config(Second))) == Adjusted(200 * Millisecond, None)
    ensures Increase(300 * Millisecond, Some(Config(Second))) == Adjusted(600 * Millisecond, None)
    ensures Increase(800 * Millisecond, Some(Config(Second))) == Adjusted(Second, None)
    ensures Increase(1000231 * Microsecond, Some(Config(Second))) == Adjusted(3 * Second / 2, None)
    ensures Increase(0, Some(Config(Second))) == Adjusted(Second, None)
  {
  }

  // ---------------------------------------------------------------- Decrease

  /** The value at which the loop `for limit <= n { n /= 10 }` stops: the first
      of n, n/10, n/100, ... (Go division) that is strictly below `limit`. */
  function FirstFractionBelow(limit: int, n: int): (f: int)
    requires 0 < limit
    ensures f < limit
    ensures 0 <= n ==> 0 <= f <= n
    decreases Max(n, 0)
  {
    if limit <= n then FirstFractionBelow(limit, Quo(n, 10)) else n
  }

  /** The search loop started at `n` exits after exactly `k` divisions by ten. */
  predicate ExitsAfter(limit: int, n: int, k: nat)
  {
    Tenths(n, k) < limit && forall j: nat :: j < k ==> limit <= Tenths(n, j)
  }

  /** `FirstFractionBelow` returns the value the loop exits with. */
  lemma {:induction false} FirstFractionBelowIsFirst(limit: int, n: int)
    requires 0 < limit
    ensures exists k: nat :: ExitsAfter(limit, n, k) && FirstFractionBelow(limit, n) == Tenths(n, k)
    decreases Max(n, 0)
  {
    var f := FirstFractionBelow(limit, n);
    if limit <= n {
      var n' := Quo(n, 10);
      FirstFractionBelowIsFirst(limit, n');
      var k: nat :| ExitsAfter(limit, n', k) && f == Tenths(n', k);
      forall j: nat | j < k + 1
        ensures limit <= Tenths(n, j)
      {
        if j > 0 {
          assert Tenths(n, j) == Tenths(n', j - 1);
        }
      }
      assert Tenths(n, k + 1) == Tenths(n', k);
      assert ExitsAfter(limit, n, k + 1);
    } else {
      assert ExitsAfter(limit, n, 0);
    }
  }

  /** The inputs on which `Decrease` returns: without a context, or when the
      limit is non-negative or above the unit. On every other input its search
      loop never exits (see `DecreaseLoopDiverges`). */
  predicate DecreaseTerminates(limit: int, ctx: Option<Config>)
    ensures ctx.Some? && limit != 0 && limit <= ctx.value.unit ==>
      (DecreaseTerminates(limit, ctx) <==> exists k: nat :: Tenths(Quo(ctx.value.unit, 10), k) < limit)
  {
    SearchLoopExits(limit, ctx);
    ctx.None? || 0 <= limit || ctx.value.unit < limit
  }

  /** For a nonzero limit not above the unit, the search loop started at
      `unit / 10` exits after some number of divisions exactly when the limit
      is positive. */
  lemma SearchLoopExits(limit: int, ctx: Option<Config>)
    ensures ctx.Some? && limit != 0 && limit <= ctx.value.unit ==>
      (0 < limit <==> exists k: nat :: Tenths(Quo(ctx.value.unit, 10), k) < limit)
  {
    if ctx.None? {
      return;
    }
    var unit := ctx.value.unit;
    if 0 < limit <= unit {
      var n := Quo(unit, 10);
      FirstFractionBelowIsFirst(limit, n);
      var k: nat :| ExitsAfter(limit, n, k) && FirstFractionBelow(limit, n) == Tenths(n, k);
      assert Tenths(n, k) < limit;
    } else if limit < 0 && limit <= unit {
      forall k: nat
        ensures limit <= Tenths(Quo(unit, 10), k)
      {
        GuardStaysTrue(limit, unit, k + 1);
      }
    }
  }

  /** The answer of `Decrease` as a value, so that the built-in policy can be
      passed as a function value. */
  function DecreaseAnswer(limit: int, ctx: Option<Config>): Adjusted
    requires DecreaseTerminates(limit, ctx)
  {
    match ctx
    case None => NoContext
    case Some(c) => Adjusted(Decreased(limit, c.unit), None)
  }

  /** The limit `LimitChange.Decrease` computes when it has a context. */
  function Decreased(limit: int, unit: int): (r: int)
    requires DecreaseTerminates(limit, Some(Config(unit)))
    ensures limit == 0 ==> r == 0
    ensures limit != 0 && unit < limit ==>
      && unit <= r
      && (r == unit || r == limit - unit)
      && (r == unit <==> limit - unit <= unit)
    ensures 0 < unit < limit ==> r < limit
    ensures 0 < limit <= unit ==> 0 < r <= limit
  {
    if limit == 0 then 0
    else if limit > unit then Max(limit - unit, unit)
    else
      var fraction := FirstFractionBelow(limit, Quo(unit, 10));
      Max(limit - fraction, fraction)
  }

  /** `LimitChange.Decrease`: zero stays zero, a limit above one unit loses a
      unit but not below one unit, and a limit of at most one unit loses the
      largest power-of-ten fraction of the unit that is below it, but not
      below that fraction. */
  method Decrease(limit: int, ctx: Option<Config>) returns (r: Adjusted)
    requires DecreaseTerminates(limit, ctx)
    ensures ctx.None? ==> r == NoContext
    ensures ctx.Some? ==> r == Adjusted(Decreased(limit, ctx.value.unit), None)
    ensures r == DecreaseAnswer(limit, ctx)
  {
    if ctx.None? {
      return NoContext;
    }
    var unit := ctx.value.unit;
    var l := limit;
    if l == 0 {
      return Adjusted(l, None);
    } else if l > unit {
      l := l - unit;
      if l < unit {
        l := unit;
      }
    } else {
      var newUnit := Quo(unit, 10);
      while l <= newUnit
        invariant FirstFractionBelow(l, newUnit) == FirstFractionBelow(l, Quo(unit, 10))
        decreases newUnit
      {
        newUnit := Quo(newUnit, 10);
      }
      l := l - newUnit;
      if l < newUnit {
        l := newUnit;
      }
    }
    return Adjusted(l, None);
  }

  /** `unit / 10^k` (Go division) is the first of `unit / 10`, `unit / 100`, ...
      that is below `limit`. */
  predicate SmallestFraction(limit: int, unit: int, k: nat)
  {
    && 1 <= k
    && Quo(unit, Pow10(k)) < limit
    && forall j: nat :: 1 <= j < k ==> limit <= Quo(unit, Pow10(j))
  }

  /** For `0 < limit <= unit`, `Decrease` subtracts `unit / 10^k` for the
      smallest `k >= 1` at which that is below the limit, and clamps the
      result up to that fraction. */
  lemma DecreaseFraction(limit: int, unit: int)
    requires 0 < limit <= unit
    ensures exists k: nat ::
              && SmallestFraction(limit, unit, k)
              && Decreased(limit, unit) == Max(limit - Quo(unit, Pow10(k)), Quo(unit, Pow10(k)))
  {
    var n := Quo(unit, 10);
    var f := FirstFractionBelow(limit, n);
    FirstFractionBelowIsFirst(limit, n);
    var k: nat :| ExitsAfter(limit, n, k) && f == Tenths(n, k);
    forall j: nat | 1 <= j <= k + 1
      ensures Quo(unit, Pow10(j)) == Tenths(n, j - 1)
    {
      TenthsIsQuo(unit, j);
      assert Tenths(unit, j) == Tenths(n, j - 1);
    }
    assert SmallestFraction(limit, unit, k + 1);
  }

  /** On a negative limit not above the unit, the guard of the search loop
      holds after every number of iterations: the loop never exits. */
  lemma DecreaseLoopDiverges(limit: int, unit: int)
    requires limit < 0 && limit <= unit
    ensures !DecreaseTerminates(limit, Some(Config(unit)))
    ensures forall k: nat :: limit <= Tenths(Quo(unit, 10), k)
  {
    forall k: nat
      ensures limit <= Tenths(Quo(unit, 10), k)
    {
      GuardStaysTrue(limit, unit, k + 1);
    }
  }

  lemma {:induction false} GuardStaysTrue(limit: int, n: int, k: nat)
    requires limit < 0 && limit <= n
    ensures limit <= Tenths(n, k)
    decreases k
  {
    if k > 0 {
      GuardStaysTrue(limit, Quo(n, 10), k - 1);
    }
  }

  /** Zero is a fixed point of `Decrease`, whatever the unit. */
  lemma DecreaseFixesZero(unit: int)
    ensures Decreased(0, unit) == 0
  {
  }

  /** The rows of the decrease test table (unit one second). */
  lemma DecreaseTable()
    ensures Decreased(Second, Second) == 900 * Millisecond
    ensures Decreased(5 * Second, Second) == 4 * Second
    ensures Decreased(1100 * Millisecond, Second) == Second
    ensures Decreased(500 * Millisecond, Second) == 400 * Millisecond
    ensures Decreased(100 * Millisecond, Second) == 90 * Millisecond
    ensures Decreased(101 * Millisecond, Second) == 100 * Millisecond
    ensures Decreased(0, Second) == 0
  {
  }
}
