/** Decimal rounding as `+x.toFixed(p)` performs it on exact decimals: the
    magnitude is rounded to `p` decimal places with ties going up, and the sign
    is kept. Quantities added to a stock and quantities stored in an inflow are
    both rounded this way, with `p` the precision of the ingredient's unit. */
module Rounding {

  function Pow10(p: nat): (r: nat)
    ensures r >= 1
  {
    if p == 0 then 1 else 10 * Pow10(p - 1)
  }

  /** The integer nearest to `y`, ties away from zero (what `toFixed` does to
      the scaled value). */
  function NearestInt(y: real): (n: int)
    ensures -0.5 <= n as real - y <= 0.5
  {
    if y >= 0.0 then (y + 0.5).Floor else -((-y + 0.5).Floor)
  }

  /** The factor `10^p` as a real. */
  function Scale(p: nat): (s: real)
    ensures s >= 1.0
  {
    Pow10(p) as real
  }

  /** Rounds `x` to `p` decimal places. */
  function Round(x: real, p: nat): real
  {
    (NearestInt(x * Scale(p)) as real) / Scale(p)
  }

  /** The digit counts `Number.prototype.toFixed` accepts; for any other count
      it throws a RangeError, so nothing is rounded and the caller fails. */
  predicate FixedDigits(p: int) {
    0 <= p <= 100
  }

  /** `x` has at most `p` decimal places. */
  predicate OnGrid(x: real, p: nat) {
    (x * Scale(p)).Floor as real == x * Scale(p)
  }

  lemma ScaleBack(x: real, s: real)
    requires s > 0.0
    ensures (x / s) * s == x && (x * s) / s == x
  {
  }

  lemma NearestOfInt(k: int)
    ensures NearestInt(k as real) == k
  {
  }

  /** The rounded value lies on the grid. */
  lemma RoundOnGrid(x: real, p: nat)
    ensures OnGrid(Round(x, p), p)
  {
    var n := NearestInt(x * Scale(p));
    ScaleBack(n as real, Scale(p));
    assert Round(x, p) * Scale(p) == n as real;
  }

  /** A value already on the grid is left alone. */
  lemma RoundFixesGrid(x: real, p: nat)
    requires OnGrid(x, p)
    ensures Round(x, p) == x
  {
    var k := (x * Scale(p)).Floor;
    NearestOfInt(k);
    assert NearestInt(x * Scale(p)) == k;
    ScaleBack(x, Scale(p));
  }

  /** Rounding twice is rounding once, so a quantity stored already rounded is
      added to a stock unchanged. */
  lemma RoundIdempotent(x: real, p: nat)
    ensures Round(Round(x, p), p) == Round(x, p)
  {
    RoundOnGrid(x, p);
    RoundFixesGrid(Round(x, p), p);
  }

  lemma DivideDifference(a: real, b: real, s: real)
    requires s > 0.0
    ensures a / s - b / s == (a - b) / s
  {
  }

  lemma DivideNonNegative(a: real, s: real)
    requires a >= 0.0 && s > 0.0
    ensures a / s >= 0.0
  {
  }

  lemma DivideBound(d: real, s: real)
    requires s > 0.0 && -0.5 <= d <= 0.5
    ensures -0.5 / s <= d / s <= 0.5 / s
  {
    DivideDifference(0.5, d, s);
    DivideDifference(d, -0.5, s);
    DivideNonNegative(0.5 - d, s);
    DivideNonNegative(d - -0.5, s);
  }

  /** Dividing by `s` a value within 0.5 of `x * s` lands within `0.5 / s` of
      `x`. */
  lemma NearestError(x: real, s: real, n: real)
    requires s > 0.0 && -0.5 <= n - x * s <= 0.5
    ensures -0.5 / s <= n / s - x <= 0.5 / s
  {
    ScaleBack(x, s);
    DivideDifference(n, x * s, s);
    DivideBound(n - x * s, s);
  }

  /** The rounding error is at most half a unit of the last kept place. */
  lemma RoundError(x: real, p: nat)
    ensures -0.5 / Scale(p) <= Round(x, p) - x <= 0.5 / Scale(p)
  {
    assert Round(x, p) == (NearestInt(x * Scale(p)) as real) / Scale(p);
    NearestError(x, Scale(p), NearestInt(x * Scale(p)) as real);
  }

  /** Rounding treats the two signs alike. */
  lemma RoundOdd(x: real, p: nat)
    ensures Round(-x, p) == -Round(x, p)
  {
  }

  /** The value the repository's tests use: 5.46 at one decimal place is 5.5. */
  lemma RoundExample()
    ensures Round(5.46, 1) == 5.5
  {
    assert Scale(1) == 10.0;
    assert NearestInt(5.46 * 10.0) == 55;
  }
}
