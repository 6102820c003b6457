/** Go's integer operators on `time.Duration` (an int64 count of nanoseconds).
    Go's `/` truncates toward zero and its `%` takes the sign of the dividend;
    Dafny's `/` and `%` are Euclidean, so the two are written out here. */
module GoArith {

  function Abs(x: int): (r: nat)
    ensures r == x || r == -x
  {
    if x < 0 then -x else x
  }

  /** Go's `a / b`: the quotient truncated toward zero, i.e. Dafny's quotient
      of the magnitudes, negated when the signs of `a` and `b` differ. */
  function Quo(a: int, b: int): (q: int)
    requires b != 0
    ensures 0 <= a && 0 < b ==> q == a / b
    ensures a < 0 && 0 < b ==> q == -((-a) / b)
    ensures 0 <= a && b < 0 ==> q == -(a / (-b))
    ensures a < 0 && b < 0 ==> q == (-a) / (-b)
  {
    if (a < 0) == (b < 0) then Abs(a) / Abs(b) else -(Abs(a) / Abs(b))
  }

  /** Go's `a % b`: the remainder that goes with `Quo`, so that
      `a == Quo(a, b) * b + Rem(a, b)`; it carries the sign of `a`. */
  function Rem(a: int, b: int): (r: int)
    requires b != 0
    ensures 0 <= a && 0 < b ==> r == a % b
    ensures a < 0 && 0 < b ==> r == -((-a) % b)
    ensures Abs(r) < Abs(b)
    ensures 0 <= a ==> 0 <= r
    ensures a <= 0 ==> r <= 0
    ensures a == Quo(a, b) * b + r
  {
    a - Quo(a, b) * b
  }

  function Pow10(k: nat): (p: int)
    ensures 0 < p
  {
    if k == 0 then 1 else 10 * Pow10(k - 1)
  }

  /** `n` divided by ten `k` times in a row with Go's `/`, as the search loop
      of the decrease policy does. */
  function Tenths(n: int, k: nat): int
    decreases k
  {
    if k == 0 then n else Tenths(Quo(n, 10), k - 1)
  }

  /** Uniqueness of Euclidean division by a positive divisor. */
  lemma DivUnique(x: int, d: int, q: int, r: int)
    requires 0 < d && 0 <= r < d && x == q * d + r
    ensures x / d == q
  {
    var q', r' := x / d, x % d;
    var e := q - q';
    assert e * d == r' - r by {
      assert q * d - q' * d == e * d;
    }
    if e > 0 {
      MulAtLeast(e, d);
    } else if e < 0 {
      MulAtLeast(-e, d);
    }
  }

  lemma MulAtLeast(e: int, d: int)
    requires 1 <= e && 0 < d
    ensures d <= e * d
  {
    assert e * d == (e - 1) * d + d;
    assert 0 <= (e - 1) * d;
  }

  lemma DivDiv(x: nat, b: int, c: int)
    requires 0 < b && 0 < c
    ensures (x / b) / c == x / (b * c)
  {
    var q, r := x / b, x % b;
    var s, t := q / c, q % c;
    assert x == q * b + r;
    assert q == s * c + t;
    Regroup(s, c, t, b);
    assert x == s * (b * c) + (t * b + r);
    BelowProduct(t, c, b);
    DivUnique(x, b * c, s, t * b + r);
  }

  // Regroup, MulPositive, NonNegQuo and NegQuo state single facts the solver
  // finds on its own; they are separate lemmas so that their callers'
  // nonlinear proofs stay small and stable across solver seeds.
  lemma Regroup(s: int, c: int, t: int, b: int)
    ensures (s * c + t) * b == s * (b * c) + t * b
  {
  }

  lemma BelowProduct(t: int, c: int, b: int)
    requires 0 <= t < c && 0 < b
    ensures 0 <= t * b && t * b + b <= b * c
  {
    assert t * b + b == (t + 1) * b;
    assert (t + 1) * b <= c * b;
  }

  /** Dividing by `b` and then by `c` with Go's `/` is dividing by `b * c`. */
  lemma QuoQuo(a: int, b: int, c: int)
    requires 0 < b && 0 < c
    ensures Quo(Quo(a, b), c) == Quo(a, b * c)
  {
    var m, d := Abs(a), b * c;
    DivDiv(m, b, c);
    MulPositive(b, c);
    SameSignQuo(a, b, c, m, m / b, d);
  }

  /** A solver-stability helper (see `Regroup`). */
  lemma MulPositive(b: int, c: int)
    requires 0 < b && 0 < c
    ensures 0 < b * c
  {
  }

  /** `QuoQuo` once the magnitudes are known to agree: `(m / b) / c == m / d`. */
  lemma SameSignQuo(a: int, b: int, c: int, m: int, mb: int, d: int)
    requires 0 < b && 0 < c && 0 < d && 0 <= m == Abs(a) && mb == m / b && mb / c == m / d
    ensures Quo(Quo(a, b), c) == Quo(a, d)
  {
    if a >= 0 {
      NonNegQuoQuo(a, b, c, d);
    } else {
      NegQuo(a, b);
      NegQuo(a, d);
      NegQuoQuo(-mb, c, m / d);
    }
  }

  lemma NonNegQuoQuo(a: int, b: int, c: int, d: int)
    requires 0 <= a && 0 < b && 0 < c && 0 < d && (a / b) / c == a / d
    ensures Quo(Quo(a, b), c) == Quo(a, d)
  {
    NonNegQuo(a, b);
    NonNegQuo(a / b, c);
    NonNegQuo(a, d);
  }

  lemma NegQuoQuo(x: int, c: int, r: int)
    requires x <= 0 && 0 < c && (-x) / c == r
    ensures Quo(x, c) == -r
  {
    if x == 0 {
      NonNegQuo(x, c);
    } else {
      NegQuo(x, c);
    }
  }

  /** `Quo`'s first ensures as a lemma, a solver-stability helper (see `Regroup`). */
  lemma NonNegQuo(a: int, d: int)
    requires 0 <= a && 0 < d
    ensures Quo(a, d) == a / d
  {
  }

  /** `Quo`'s second ensures as a lemma, a solver-stability helper (see `Regroup`). */
  lemma NegQuo(a: int, d: int)
    requires a < 0 && 0 < d
    ensures Quo(a, d) == -((-a) / d)
  {
  }

  /** Dividing by ten `k` times is dividing by `10^k` once. */
  lemma {:induction false} TenthsIsQuo(n: int, k: nat)
    decreases k
    ensures Tenths(n, k) == Quo(n, Pow10(k))
  {
    if k > 0 {
      var p := Pow10(k - 1);
      calc {
        Tenths(n, k);
        Tenths(Quo(n, 10), k - 1);
        { TenthsIsQuo(Quo(n, 10), k - 1); }
        Quo(Quo(n, 10), p);
        { QuoQuo(n, 10, p); }
        Quo(n, 10 * p);
      }
    }
  }
}
