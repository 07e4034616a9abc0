/** Values shared by every module: absent values, failures and real arithmetic. */
module Values {
  /** A Python value that may be None, or a pandas cell that may be NaN. */
  datatype Option<+T> = None | Some(value: T)
  {
    function GetOr(default: T): T {
      if Some? then value else default
    }
  }

  /** The value a call returns, or the exception it raises. */
  datatype Result<+T, +E> = Ok(value: T) | Err(error: E)
}

module Numbers {
  function Min(a: real, b: real): real { if a <= b then a else b }

  function Max(a: real, b: real): real { if a >= b then a else b }

  function Abs(a: real): real { if a >= 0.0 then a else -a }

  function Sum(xs: seq<real>): real {
    if xs == [] then 0.0 else Sum(xs[..|xs| - 1]) + xs[|xs| - 1]
  }

  function Pow(base: real, n: nat): real {
    if n == 0 then 1.0 else base * Pow(base, n - 1)
  }

  lemma {:induction false} PowPositive(base: real, n: nat)
    requires base > 0.0
    ensures Pow(base, n) > 0.0
  {
    if n != 0 {
      PowPositive(base, n - 1);
    }
  }

  lemma {:induction false} PowFraction(base: real, n: nat)
    requires 0.0 < base <= 1.0
    ensures 0.0 < Pow(base, n) <= 1.0
  {
    if n != 0 {
      PowFraction(base, n - 1);
      var p := Pow(base, n - 1);
      assert base * p <= 1.0 * p;
    }
  }

  lemma MulMono(a: real, b: real, k: real)
    requires a <= b && k >= 0.0
    ensures a * k <= b * k && k * a <= k * b
  {
    assert (b - a) * k >= 0.0;
  }

  lemma MulStrict(a: real, b: real, k: real)
    requires a < b && k > 0.0
    ensures a * k < b * k && k * a < k * b
  {
    assert (b - a) * k > 0.0;
  }

  lemma DivMono(a: real, b: real, k: real)
    requires a <= b && k > 0.0
    ensures a / k <= b / k
  {
  }

  lemma DivStrict(a: real, b: real, k: real)
    requires a < b && k > 0.0
    ensures a / k < b / k
  {
  }

  ghost predicate IsCents(x: real, cents: int) { x == cents as real / 100.0 }

  /** A whole number of hundredths. */
  ghost predicate WholeCents(x: real) { exists cents: int :: IsCents(x, cents) }

  /** `round(x, 2)` on exact values: the nearest hundredth, ties to the even one. */
  function Round2(x: real): (r: real)
    ensures -0.005 <= r - x <= 0.005
    ensures WholeCents(r)
  {
    var scaled := x * 100.0;
    var low := scaled.Floor;
    var rest := scaled - low as real;
    var cents := if rest < 0.5 || (rest == 0.5 && low % 2 == 0) then low else low + 1;
    assert IsCents(cents as real / 100.0, cents);
    cents as real / 100.0
  }

  /** Half a cent goes to the even one. */
  lemma Round2Ties(low: int)
    ensures Round2((low as real + 0.5) / 100.0) == (if low % 2 == 0 then low else low + 1) as real / 100.0
  {
    var scaled := (low as real + 0.5) / 100.0 * 100.0;
    assert scaled == low as real + 0.5 && scaled.Floor == low;
  }

  lemma Round2OfCents(x: real)
    requires WholeCents(x)
    ensures Round2(x) == x
  {
    var cents: int :| IsCents(x, cents);
    assert x * 100.0 == cents as real;
    assert (x * 100.0).Floor == cents;
  }

  lemma Round2Nonnegative(x: real)
    requires x >= 0.0
    ensures Round2(x) >= 0.0
  {
    assert (x * 100.0).Floor >= 0;
  }

  /** What rounds to zero, and on which side the rest lies. */
  lemma Round2Sign(x: real)
    ensures Round2(x) > 0.0 <==> x > 0.005
    ensures Round2(x) < 0.0 <==> x < -0.005
  {
    var scaled := x * 100.0;
    var low := scaled.Floor;
    if scaled > 0.5 {
      assert low >= 0;
    } else if scaled < -0.5 {
      assert low <= -1;
    } else {
      assert low == 0 || low == -1;
    }
  }
}
