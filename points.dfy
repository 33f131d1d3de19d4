/**
 * Coordinates in the generator: pairs of numbers in tile units, rounded to six decimal
 * places wherever they serve as dictionary keys (`round_coords` in generate/highways.py).
 * Floating point is modelled by exact reals.
 */
module Points {
  type Point = (real, real)

  /** Python's `round(x)`: the nearest integer, ties to the even one. */
  function RoundHalfEven(x: real): (n: int)
    ensures -0.5 <= x - n as real <= 0.5
    ensures x - n as real == 0.5 || x - n as real == -0.5 ==> n % 2 == 0
  {
    var f := x.Floor;
    var d := x - f as real;
    if d < 0.5 then f else if d > 0.5 then f + 1 else if f % 2 == 0 then f else f + 1
  }

  /** No integer is closer to `x` than the rounded value. */
  lemma RoundNearest(x: real, m: int)
    ensures Abs(x - RoundHalfEven(x) as real) <= Abs(x - m as real)
  {
    var n := RoundHalfEven(x);
    if m < n {
      assert m as real <= n as real - 1.0;
      assert x - m as real >= 0.5;
    } else if m > n {
      assert m as real >= n as real + 1.0;
      assert m as real - x >= 0.5;
    }
  }

  /** Rounding an integer-valued number gives it back. */
  lemma RoundInteger(n: int)
    ensures RoundHalfEven(n as real) == n
  {
    assert (n as real).Floor == n;
  }

  function Abs(x: real): real {
    if x < 0.0 then -x else x
  }

  /** Six decimal places. */
  const Scale: real := 1000000.0

  /** `round(x, 6)`: the nearest multiple of a millionth, ties to the even multiple. */
  function Round6(x: real): (r: real)
    ensures Abs(x - r) <= 0.5 / Scale
  {
    var n := RoundHalfEven(x * Scale);
    assert Abs(x * Scale - n as real) <= 0.5;
    assert x - n as real / Scale == (x * Scale - n as real) / Scale;
    n as real / Scale
  }

  /** Rounding twice rounds once, so rounded points are stable keys. */
  lemma Round6Idempotent(x: real)
    ensures Round6(Round6(x)) == Round6(x)
  {
    var n := RoundHalfEven(x * Scale);
    assert Round6(x) * Scale == n as real;
    RoundInteger(n);
  }

  /** `round_coords`: both coordinates rounded to six places. */
  function RoundCoords(p: Point): (r: Point)
    ensures Abs(p.0 - r.0) <= 0.5 / Scale && Abs(p.1 - r.1) <= 0.5 / Scale
  {
    (Round6(p.0), Round6(p.1))
  }

  lemma RoundCoordsIdempotent(p: Point)
    ensures RoundCoords(RoundCoords(p)) == RoundCoords(p)
  {
    Round6Idempotent(p.0);
    Round6Idempotent(p.1);
  }

  /** `0 <= x <= max_dim and 0 <= y <= max_dim`. */
  predicate InBounds(p: Point, maxDim: int) {
    0.0 <= p.0 <= maxDim as real && 0.0 <= p.1 <= maxDim as real
  }

  /** Rounding keeps the order of numbers. */
  lemma RoundHalfEvenMonotone(x: real, y: real)
    requires x <= y
    ensures RoundHalfEven(x) <= RoundHalfEven(y)
  {
  }

  lemma Round6Monotone(x: real, y: real)
    requires x <= y
    ensures Round6(x) <= Round6(y)
  {
    RoundHalfEvenMonotone(x * Scale, y * Scale);
  }

  /** Whole numbers are multiples of a millionth, so rounding keeps them. */
  lemma Round6Integer(n: int)
    ensures Round6(n as real) == n as real
  {
    assert (n as real) * Scale == (n * 1000000) as real;
    RoundInteger(n * 1000000);
  }

  /** A point in the region stays in it when rounded, since the region's corners are whole numbers. */
  lemma RoundCoordsInBounds(p: Point, maxDim: int)
    requires InBounds(p, maxDim)
    ensures InBounds(RoundCoords(p), maxDim)
  {
    Round6Integer(0);
    Round6Integer(maxDim);
    Round6Monotone(0.0, p.0);
    Round6Monotone(p.0, maxDim as real);
    Round6Monotone(0.0, p.1);
    Round6Monotone(p.1, maxDim as real);
  }
}
