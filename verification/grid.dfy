/**
 * Matrices, embedding bands and the index geometry shared by the embedder,
 * the scorer and the band mask.
 *
 * A numpy 2-D float array is a row-major `seq<seq<real>>`; floating-point
 * coefficients are idealised as exact reals.
 */
module Grid {

  type Matrix = seq<seq<real>>

  datatype Option<T> = None | Some(value: T)

  function Abs(x: real): real {
    if x < 0.0 then -x else x
  }

  function Min(a: int, b: int): int {
    if a <= b then a else b
  }

  /** `a` and `b` have the same number of rows, row for row of the same length. */
  predicate SameShape(a: Matrix, b: Matrix) {
    |a| == |b| && forall i :: 0 <= i < |a| ==> |a[i]| == |b[i]|
  }

  lemma SameShapeTransitive(a: Matrix, b: Matrix, c: Matrix)
    requires SameShape(a, b) && SameShape(b, c)
    ensures SameShape(a, c)
  {
  }

  /** `m` is a rectangular `rows` x `cols` array. */
  predicate IsMatrix(m: Matrix, rows: nat, cols: nat) {
    |m| == rows && forall i :: 0 <= i < rows ==> |m[i]| == cols
  }

  /** `(i, j)` indexes an element of `m`. */
  predicate IsCell(m: Matrix, i: int, j: int) {
    0 <= i < |m| && 0 <= j < |m[i]|
  }

  /**
   * An embedding band `(r_min, r_max, c_min, c_max)`: the half-open rectangle
   * of coefficient indices [rowMin, rowMax) x [colMin, colMax), in the local
   * coordinates of one quadrant. As a numpy slice it is clamped to the array,
   * and it is empty when a minimum is not below its maximum.
   */
  datatype Band = Band(rowMin: nat, rowMax: nat, colMin: nat, colMax: nat) {

    predicate Covers(i: int, j: int) {
      rowMin <= i < rowMax && colMin <= j < colMax
    }

    /** The band lies inside a `rows` x `cols` block, so slicing clamps nothing. */
    predicate FitsIn(rows: nat, cols: nat) {
      rowMax <= rows && colMax <= cols
    }

    /** Minimums do not exceed maximums. */
    predicate WellFormed() {
      rowMin <= rowMax && colMin <= colMax
    }

    function Height(): nat {
      if rowMin < rowMax then rowMax - rowMin else 0
    }

    function Width(): nat {
      if colMin < colMax then colMax - colMin else 0
    }

    /** Number of coefficients the band selects in a block it fits in. */
    function Area(): nat {
      Height() * Width()
    }
  }

  /** Some band of the list covers `(i, j)`. */
  predicate CoveredBy(bands: seq<Band>, i: int, j: int) {
    exists b :: b in bands && b.Covers(i, j)
  }

  /** The band selects at least one element of `m` (its numpy slice is not empty). */
  predicate Hits(m: Matrix, b: Band) {
    exists i, j :: 0 <= i < |m| && 0 <= j < |m[i]| && b.Covers(i, j)
  }

  /** The absolute value of a product is the product of the absolute values. */
  lemma AbsMul(a: real, b: real)
    ensures Abs(a * b) == Abs(a) * Abs(b)
  {
    if a < 0.0 && b < 0.0 {
      assert a * b == (-a) * (-b);
    } else if a < 0.0 {
      assert -(a * b) == (-a) * b;
    } else if b < 0.0 {
      assert -(a * b) == a * (-b);
    }
  }

  /** Multiplication undoes real division by a non-zero factor. */
  lemma DivTimes(c: real, d: real)
    requires d != 0.0
    ensures (c / d) * d == c
  {
  }

  /** Real division undoes multiplication by a non-zero factor. */
  lemma DivCancel(s: real, a: real, d: real)
    requires d != 0.0 && s == a * d
    ensures s / d == a
  {
  }
}
