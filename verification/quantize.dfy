/**
 * Scalar quantization-index-modulation: numpy's round-half-to-even, the
 * nearest point of the `delta` grid, the residual from it, and the snapping
 * rule that moves a coefficient to a quarter step above its grid point.
 */
module Quantize {
  import opened Grid

  /**
   * `np.round` on one value: the nearest integer, and on a tie (a fractional
   * part of exactly one half) the even one of the two neighbours.
   */
  function RoundHalfEven(x: real): (n: int)
    ensures Abs(x - n as real) <= 0.5
    ensures Abs(x - n as real) == 0.5 ==> n % 2 == 0
  {
    var f := x.Floor;
    var d := x - f as real;
    if d < 0.5 then f
    else if d > 0.5 then f + 1
    else if f % 2 == 0 then f
    else f + 1
  }

  /** No integer is strictly closer to `x` than its rounding. */
  lemma RoundIsNearest(x: real, m: int)
    ensures Abs(x - RoundHalfEven(x) as real) <= Abs(x - m as real)
  {
    var n := RoundHalfEven(x);
    if m != n {
      assert m <= n - 1 || m >= n + 1;
    }
  }

  /** An integer less than half a unit from `x` is its rounding. */
  lemma RoundUnique(x: real, n: int)
    requires Abs(x - n as real) < 0.5
    ensures RoundHalfEven(x) == n
  {
  }

  /** The `delta` grid point nearest to `c`: `np.round(c / delta) * delta`. */
  function GridPoint(c: real, delta: real): real
    requires delta != 0.0
  {
    RoundHalfEven(c / delta) as real * delta
  }

  /** A coefficient at most half a unit off in step units is at most half a step away. */
  lemma HalfStep(c: real, delta: real, e: real, g: real)
    requires delta != 0.0 && Abs(e) <= 0.5 && c - g == e * delta
    ensures Abs(c - g) <= Abs(delta) / 2.0
  {
    AbsMul(e, delta);
    assert Abs(e) * Abs(delta) <= 0.5 * Abs(delta);
  }

  /** No point of the `delta` grid is strictly closer to `c` than `GridPoint(c, delta)`. */
  lemma GridPointNearest(c: real, delta: real, m: int)
    requires delta != 0.0
    ensures Abs(c - GridPoint(c, delta)) <= Abs(c - m as real * delta)
  {
    var q := c / delta;
    var n := RoundHalfEven(q);
    var g := n as real * delta;
    assert GridPoint(c, delta) == g;
    RoundIsNearest(q, m);
    DivTimes(c, delta);
    ScaledAtMost(c, delta, q, n as real, m as real, g, m as real * delta);
  }

  lemma MulMonotone(a: real, b: real, d: real)
    requires a <= b && d >= 0.0
    ensures a * d <= b * d
  {
    assert b * d - a * d == (b - a) * d;
  }

  /** Scaling by the step keeps the order of two distances measured in step units. */
  lemma ScaledAtMost(c: real, delta: real, q: real, x: real, y: real, near: real, far: real)
    requires c == q * delta && Abs(q - x) <= Abs(q - y)
    requires near == x * delta && far == y * delta
    ensures Abs(c - near) <= Abs(c - far)
  {
    var dx, dy := q - x, q - y;
    assert c - x * delta == dx * delta;
    assert c - y * delta == dy * delta;
    AbsMul(dx, delta);
    AbsMul(dy, delta);
    MulMonotone(Abs(dx), Abs(dy), Abs(delta));
    assert Abs(dx * delta) <= Abs(dy * delta);
  }

  /**
   * The residual `c - np.round(c / delta) * delta`: the signed distance from
   * `c` to its nearest grid point, never more than half a step.
   */
  function Residual(c: real, delta: real): (r: real)
    requires delta != 0.0
    ensures Abs(r) <= Abs(delta) / 2.0
  {
    var q := c / delta;
    var n := RoundHalfEven(q);
    DivTimes(c, delta);
    HalfStep(c, delta, q - n as real, GridPoint(c, delta));
    c - GridPoint(c, delta)
  }

  /**
   * The embedding rule applied to one coefficient:
   * `np.round(c / delta) * delta + delta / 4`. The result sits exactly a
   * quarter step above the grid point nearest to `c`, and that grid point is
   * still its own nearest one.
   */
  function Snap(c: real, delta: real): (s: real)
    requires delta != 0.0
    ensures GridPoint(s, delta) == GridPoint(c, delta)
    ensures Residual(s, delta) == delta / 4.0
  {
    var n := RoundHalfEven(c / delta);
    SnapOnGrid(n, delta);
    n as real * delta + delta / 4.0
  }

  lemma SnapOnGrid(n: int, delta: real)
    requires delta != 0.0
    ensures RoundHalfEven((n as real * delta + delta / 4.0) / delta) == n
  {
    var s := n as real * delta + delta / 4.0;
    assert s == (n as real + 0.25) * delta;
    DivCancel(s, n as real + 0.25, delta);
    RoundUnique(s / delta, n);
  }

  /** Snapping an already snapped coefficient leaves it where it is. */
  lemma SnapIdempotent(c: real, delta: real)
    requires delta != 0.0
    ensures Snap(Snap(c, delta), delta) == Snap(c, delta)
  {
  }

  /**
   * The values Snap leaves unchanged are exactly those whose residual is a
   * quarter step: they already carry the watermark.
   */
  lemma SnapFixedIff(c: real, delta: real)
    requires delta != 0.0
    ensures Snap(c, delta) == c <==> Residual(c, delta) == delta / 4.0
  {
  }
}
