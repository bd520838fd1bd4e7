/**
  The three PHP numeric conversions the plugin applies to its ratios, stated
  over exact rationals: `intval` (and the `(int)` cast), which truncates toward
  zero, and `round` with precision 0, which goes to the nearest integer and
  breaks ties away from zero. PHP's `floor` is Dafny's `.Floor`.
 */
module PhpMath {

  /** `intval($x)` / `(int) $x` for a float: truncation toward zero. */
  function IntVal(x: real): (r: int)
    ensures 0.0 <= x ==> 0 <= r && r as real <= x < r as real + 1.0
    ensures x < 0.0 ==> r <= 0 && r as real - 1.0 < x <= r as real
  {
    if x >= 0.0 then x.Floor else -((-x).Floor)
  }

  /** `round($x)`: the nearest integer, halves rounded away from zero. */
  function Round(x: real): (r: int)
    ensures 0.0 <= x ==> 0 <= r && x - 0.5 < r as real <= x + 0.5
    ensures x < 0.0 ==> r <= 0 && x - 0.5 <= r as real < x + 0.5
  {
    if x >= 0.0 then (x + 0.5).Floor else -((-x + 0.5).Floor)
  }

  function Min(a: real, b: real): (r: real)
    ensures r <= a && r <= b && (r == a || r == b)
  {
    if a <= b then a else b
  }

  function Max(a: real, b: real): (r: real)
    ensures a <= r && b <= r && (r == a || r == b)
  {
    if a >= b then a else b
  }

  /** Truncating a whole number gives it back. */
  lemma IntValOfWhole(n: int)
    ensures IntVal(n as real) == n
  {
  }

  /** Truncation never jumps over a whole bound: below `n` stays at most `n`, at least `n` stays at least `n`. */
  lemma IntValBounds(x: real, n: int)
    requires 0.0 <= x
    ensures x <= n as real ==> IntVal(x) <= n
    ensures n as real <= x ==> n <= IntVal(x)
    ensures IntVal(x) > n <==> x >= (n + 1) as real
  {
  }

  /** Rounding a non-negative value that is at most a whole `n` gives at most `n`. */
  lemma RoundAtMost(x: real, n: int)
    requires 0.0 <= x <= n as real
    ensures Round(x) <= n
  {
  }

  /** Rounding a whole number gives it back. */
  lemma RoundOfWhole(n: int)
    ensures Round(n as real) == n
  {
  }
}
