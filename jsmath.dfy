/** The parts of JavaScript's `Math` object the core uses, over exact reals. */
module JsMath {

  /** `Math.round`: the nearest integer, a half rounded up towards +infinity
      (so `Math.round(-2.5) == -2`, not `-3`). */
  function Round(x: real): (n: int)
    ensures x - 0.5 < n as real <= x + 0.5
  {
    (x + 0.5).Floor
  }

  /** The half-open interval `(x - 0.5, x + 0.5]` holds exactly one integer, and
      `Round` picks it. */
  lemma RoundUnique(x: real, n: int)
    requires x - 0.5 < n as real <= x + 0.5
    ensures Round(x) == n
  {
  }

  lemma RoundMonotone(x: real, y: real)
    requires x <= y
    ensures Round(x) <= Round(y)
  {
  }

  /** A whole number rounds to itself. */
  lemma RoundInteger(n: int)
    ensures Round(n as real) == n
  {
    RoundUnique(n as real, n);
  }

  predicate IsWhole(x: real) {
    x.Floor as real == x
  }

  /** `Math.round(x * 10) / 10`: rounding to one decimal place. */
  function Round1(x: real): (r: real)
    ensures x - 0.05 < r <= x + 0.05
    ensures IsWhole(r * 10.0)
  {
    Round(x * 10.0) as real / 10.0
  }

  /** `Math.round(x * 100) / 100`: rounding to two decimal places. */
  function Round2(x: real): (r: real)
    ensures x - 0.005 < r <= x + 0.005
    ensures IsWhole(r * 100.0)
  {
    Round(x * 100.0) as real / 100.0
  }

  /** A value that already has at most one decimal is left alone by `Round1`. */
  lemma Round1Fixed(x: real)
    requires IsWhole(x * 10.0)
    ensures Round1(x) == x
  {
    RoundInteger((x * 10.0).Floor);
  }

  /** A value that already has at most two decimals is left alone by `Round2`. */
  lemma Round2Fixed(x: real)
    requires IsWhole(x * 100.0)
    ensures Round2(x) == x
  {
    RoundInteger((x * 100.0).Floor);
  }

  lemma Round2Monotone(x: real, y: real)
    requires x <= y
    ensures Round2(x) <= Round2(y)
  {
    RoundMonotone(x * 100.0, y * 100.0);
  }

  /** `Math.max` and `Math.min` on two numbers (no NaN in this model). */
  function Max(a: real, b: real): (r: real)
    ensures r >= a && r >= b && (r == a || r == b)
  {
    if a >= b then a else b
  }

  function Min(a: real, b: real): (r: real)
    ensures r <= a && r <= b && (r == a || r == b)
  {
    if a <= b then a else b
  }
}
