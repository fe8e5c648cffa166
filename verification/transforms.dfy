/**
 * The frequency transform boundary and the band mask.
 *
 * `dct2` and `idct2` are orthonormal 2-D cosine transforms from a numeric
 * library; the model assumes nothing of them but that they preserve shape,
 * and every embedder and scorer operation takes them as parameters.
 *
 * `create_full_mask` is pure index geometry: it marks, in an H x W array of
 * zeros, every band cell shifted to each of the four quadrant origins.
 */
module Transforms {
  import opened Grid
  import Config

  /** A forward or inverse 2-D transform, supplied by the caller. */
  type Transform = Matrix -> Matrix

  /** The one property assumed of a transform: it preserves shape. */
  ghost predicate KeepsShape(f: Transform) {
    forall m :: SameShape(f(m), m)
  }

  /** A transform of a matrix shaped like `like` is shaped like `like`. */
  lemma TransformKeepsShape(f: Transform, m: Matrix, like: Matrix)
    requires KeepsShape(f)
    requires SameShape(m, like)
    ensures SameShape(f(m), like)
  {
    assert SameShape(f(m), m);
  }

  /** Quadrant origins in the order the mask loop visits them. */
  function Origins(height: nat, width: nat): seq<(int, int)> {
    [(0, 0), (0, width / 2), (height / 2, 0), (height / 2, width / 2)]
  }

  /** `(i, j)` lies in some band shifted by one of the origins. */
  predicate CoveredFrom(origins: seq<(int, int)>, bands: seq<Band>, i: int, j: int) {
    exists o :: o in origins && CoveredBy(bands, i - o.0, j - o.1)
  }

  /** `np.zeros((height, width))` */
  function Zeros(height: nat, width: nat): Matrix {
    seq(height, _ => seq(width, _ => 0.0))
  }

  /** Sets to 1 every cell of the band shifted by `(top, left)`, clamped to the mask. */
  function PaintBand(mask: Matrix, top: int, left: int, b: Band): Matrix {
    seq(|mask|, i requires 0 <= i < |mask| =>
      seq(|mask[i]|, j requires 0 <= j < |mask[i]| =>
        if b.Covers(i - top, j - left) then 1.0 else mask[i][j]))
  }

  /**
   * The inner loop over bands for one origin: a cell ends up 1 when some band
   * covers it, and otherwise keeps its value, whatever the band order.
   */
  function PaintBands(mask: Matrix, top: int, left: int, bands: seq<Band>): (r: Matrix)
    ensures SameShape(r, mask)
    ensures forall i, j :: IsCell(mask, i, j) ==>
      r[i][j] == if CoveredBy(bands, i - top, j - left) then 1.0 else mask[i][j]
    decreases |bands|
  {
    if |bands| == 0 then mask
    else
      var painted := PaintBand(mask, top, left, bands[0]);
      var r := PaintBands(painted, top, left, bands[1..]);
      assert forall b :: b in bands <==> b == bands[0] || b in bands[1..] by {
        assert bands == [bands[0]] + bands[1..];
      }
      r
  }

  /** The outer loop over origins. */
  function PaintOrigins(mask: Matrix, origins: seq<(int, int)>, bands: seq<Band>): (r: Matrix)
    ensures SameShape(r, mask)
    ensures forall i, j :: IsCell(mask, i, j) ==>
      r[i][j] == if CoveredFrom(origins, bands, i, j) then 1.0 else mask[i][j]
    decreases |origins|
  {
    if |origins| == 0 then mask
    else
      var o := origins[0];
      var painted := PaintBands(mask, o.0, o.1, bands);
      var r := PaintOrigins(painted, origins[1..], bands);
      assert forall p :: p in origins <==> p == o || p in origins[1..] by {
        assert origins == [o] + origins[1..];
      }
      r
  }

  /**
   * `create_full_mask((height, width), bands)`: an H x W array whose cell is
   * 1 exactly when some band, shifted to some quadrant origin, covers it, and
   * 0 otherwise.
   */
  function CreateMask(height: nat, width: nat, bands: seq<Band>): (m: Matrix)
    ensures IsMatrix(m, height, width)
    ensures forall i, j :: 0 <= i < height && 0 <= j < width ==>
      (m[i][j] == 1.0 <==> CoveredFrom(Origins(height, width), bands, i, j))
    ensures forall i, j :: 0 <= i < height && 0 <= j < width ==>
      m[i][j] == 0.0 || m[i][j] == 1.0
  {
    PaintOrigins(Zeros(height, width), Origins(height, width), bands)
  }

  /**
   * The mask depends only on which bands are listed, not on their order or
   * on repetitions.
   */
  lemma MaskOrderIrrelevant(height: nat, width: nat, bands1: seq<Band>, bands2: seq<Band>)
    requires forall b :: b in bands1 <==> b in bands2
    ensures CreateMask(height, width, bands1) == CreateMask(height, width, bands2)
  {
    var m1 := CreateMask(height, width, bands1);
    var m2 := CreateMask(height, width, bands2);
    forall i | 0 <= i < height
      ensures m1[i] == m2[i]
    {
      forall j | 0 <= j < width
        ensures m1[i][j] == m2[i][j]
      {
        assert CoveredFrom(Origins(height, width), bands1, i, j)
          <==> CoveredFrom(Origins(height, width), bands2, i, j);
      }
    }
  }

  /**
   * When the bands fit inside an (H/2) x (W/2) quadrant, each quadrant of the
   * mask holds the same pattern, the cells of the bands themselves: the cell
   * at offset `(i, j)` from any quadrant origin is 1 exactly when some band
   * covers `(i, j)`, and 0 otherwise.
   */
  lemma MaskQuadrantsAlike(height: nat, width: nat, bands: seq<Band>, i: nat, j: nat, top: nat, left: nat)
    requires forall b :: b in bands ==> b.FitsIn(height / 2, width / 2)
    requires i < height / 2 && j < width / 2
    requires (top, left) in Origins(height, width)
    ensures i + top < height && j + left < width
    ensures CreateMask(height, width, bands)[i + top][j + left] == if CoveredBy(bands, i, j) then 1.0 else 0.0
  {
    OnlyOwnOrigin(height, width, bands, i, j, top, left);
  }

  /**
   * A cell of the quadrant at origin `(top, left)` is reached only through
   * that origin when the bands fit inside a quadrant.
   */
  lemma OnlyOwnOrigin(height: nat, width: nat, bands: seq<Band>, i: int, j: int, top: int, left: int)
    requires forall b :: b in bands ==> b.FitsIn(height / 2, width / 2)
    requires 0 <= i < height / 2 && 0 <= j < width / 2
    requires (top, left) in Origins(height, width)
    ensures CoveredFrom(Origins(height, width), bands, i + top, j + left) <==> CoveredBy(bands, i, j)
  {
    var os := Origins(height, width);
    if CoveredFrom(os, bands, i + top, j + left) {
      var o :| o in os && CoveredBy(bands, i + top - o.0, j + left - o.1);
      var b :| b in bands && b.Covers(i + top - o.0, j + left - o.1);
      assert o == (top, left);
    }
    if CoveredBy(bands, i, j) {
      assert CoveredBy(bands, i + top - top, j + left - left);
    }
  }

  /**
   * With every band starting at row 1 or below and fitting inside a quadrant,
   * the first row of each quadrant (rows 0 and H/2) is 0 in the mask.
   */
  lemma MaskFirstRowsZero(height: nat, width: nat, bands: seq<Band>)
    requires forall b :: b in bands ==> b.FitsIn(height / 2, width / 2) && b.rowMin >= 1
    requires height > 0
    ensures forall j :: 0 <= j < width ==>
      CreateMask(height, width, bands)[0][j] == 0.0 &&
      CreateMask(height, width, bands)[height / 2][j] == 0.0
  {
  }

  /**
   * With every band starting at column 1 or beyond and fitting inside a
   * quadrant, the first column of each quadrant (columns 0 and W/2) is 0.
   */
  lemma MaskFirstColumnsZero(height: nat, width: nat, bands: seq<Band>)
    requires forall b :: b in bands ==> b.FitsIn(height / 2, width / 2) && b.colMin >= 1
    requires width > 0
    ensures forall i :: 0 <= i < height ==>
      CreateMask(height, width, bands)[i][0] == 0.0 &&
      CreateMask(height, width, bands)[i][width / 2] == 0.0
  {
  }

  /** Sum of a sequence of naturals, last element first. */
  function SumNat(xs: seq<nat>): nat {
    if |xs| == 0 then 0 else SumNat(xs[..|xs| - 1]) + xs[|xs| - 1]
  }

  /** Number of cells equal to 1 in a row. */
  function RowOnes(row: seq<real>): nat {
    SumNat(seq(|row|, j requires 0 <= j < |row| => if row[j] == 1.0 then 1 else 0))
  }

  /** Number of cells equal to 1 in a matrix (`mask.sum()` for a 0/1 mask). */
  function CountOnes(m: Matrix): nat {
    SumNat(seq(|m|, i requires 0 <= i < |m| => RowOnes(m[i])))
  }

  /** Size of [lo, hi) intersected with [0, n), for lo <= hi. */
  function Overlap(lo: nat, hi: nat, n: nat): nat
    requires lo <= hi
  {
    if n <= lo then 0 else if n <= hi then n - lo else hi - lo
  }

  /**
   * A sequence that holds `v` on the disjoint intervals [a, b) and [c, d)
   * and 0 elsewhere sums to `v` times the number of its indices in them.
   */
  lemma {:induction false} SumOverTwoIntervals(xs: seq<nat>, v: nat, a: nat, b: nat, c: nat, d: nat)
    requires a <= b <= c <= d
    requires forall k :: 0 <= k < |xs| ==> xs[k] == if a <= k < b || c <= k < d then v else 0
    ensures SumNat(xs) == v * (Overlap(a, b, |xs|) + Overlap(c, d, |xs|))
    decreases |xs|
  {
    if |xs| > 0 {
      var n := |xs| - 1;
      var prefix := xs[..n];
      SumOverTwoIntervals(prefix, v, a, b, c, d);
      OverlapStep(a, b, n);
      OverlapStep(c, d, n);
      var hit := if a <= n < b || c <= n < d then 1 else 0;
      assert xs[n] == v * hit;
      MulDistributes(v, Overlap(a, b, n) + Overlap(c, d, n), hit);
    }
  }

  /** Extending [0, n) by the index n adds one to the overlap exactly when n lies in [lo, hi). */
  lemma OverlapStep(lo: nat, hi: nat, n: nat)
    requires lo <= hi
    ensures Overlap(lo, hi, n + 1) == Overlap(lo, hi, n) + if lo <= n < hi then 1 else 0
  {
  }

  lemma MulDistributes(v: nat, x: nat, y: nat)
    ensures v * (x + y) == v * x + v * y
  {
  }

  /** Row and column ranges of a single band repeated in both halves. */
  predicate InBandRows(b: Band, half: nat, i: int) {
    b.rowMin <= i < b.rowMax || half + b.rowMin <= i < half + b.rowMax
  }

  predicate InBandColumns(b: Band, half: nat, j: int) {
    b.colMin <= j < b.colMax || half + b.colMin <= j < half + b.colMax
  }

  /** For a single band, the mask is the product of its row and column ranges in both halves. */
  lemma SingleBandCells(height: nat, width: nat, b: Band, i: int, j: int)
    ensures CoveredFrom(Origins(height, width), [b], i, j)
      <==> InBandRows(b, height / 2, i) && InBandColumns(b, width / 2, j)
  {
    var os := Origins(height, width);
    var h, w := height / 2, width / 2;
    if CoveredFrom(os, [b], i, j) {
      var o :| o in os && CoveredBy([b], i - o.0, j - o.1);
      var bb :| bb in [b] && bb.Covers(i - o.0, j - o.1);
    }
    if InBandRows(b, h, i) && InBandColumns(b, w, j) {
      var top := if b.rowMin <= i < b.rowMax then 0 else h;
      var left := if b.colMin <= j < b.colMax then 0 else w;
      assert (top, left) in os;
      assert b in [b] && b.Covers(i - top, j - left);
      assert CoveredBy([b], i - top, j - left);
    }
  }

  /** A row of a single-band mask holds twice the band width in ones, or none. */
  lemma SingleBandRowOnes(height: nat, width: nat, b: Band, i: nat)
    requires b.WellFormed() && b.FitsIn(height / 2, width / 2)
    requires i < height
    ensures RowOnes(CreateMask(height, width, [b])[i])
      == if InBandRows(b, height / 2, i) then 2 * b.Width() else 0
  {
    var row := CreateMask(height, width, [b])[i];
    var w := width / 2;
    var cells := seq(|row|, j requires 0 <= j < |row| => if row[j] == 1.0 then 1 else 0);
    forall j | 0 <= j < width
      ensures cells[j] == if InBandRows(b, height / 2, i) && InBandColumns(b, w, j) then 1 else 0
    {
      SingleBandCells(height, width, b, i, j);
    }
    var v := if InBandRows(b, height / 2, i) then 1 else 0;
    SumOverTwoIntervals(cells, v, b.colMin, b.colMax, w + b.colMin, w + b.colMax);
  }

  lemma FourTimesArea(x: nat, y: nat)
    ensures 2 * y * (x + x) == 4 * (x * y)
  {
  }

  /**
   * A single well-formed band that fits inside an (H/2) x (W/2) quadrant
   * marks exactly four times its area.
   */
  lemma MaskOnesSingleBand(height: nat, width: nat, b: Band)
    requires b.WellFormed() && b.FitsIn(height / 2, width / 2)
    ensures CountOnes(CreateMask(height, width, [b])) == 4 * b.Area()
  {
    var m := CreateMask(height, width, [b]);
    var h := height / 2;
    forall i | 0 <= i < |m|
      ensures RowOnes(m[i]) == if InBandRows(b, h, i) then 2 * b.Width() else 0
    {
      SingleBandRowOnes(height, width, b, i);
    }
    OnesInBandRows(m, b, h, 2 * b.Width());
    assert Overlap(b.rowMin, b.rowMax, height) == b.Height();
    assert Overlap(h + b.rowMin, h + b.rowMax, height) == b.Height();
    FourTimesArea(b.Height(), b.Width());
  }

  /** A matrix whose rows in the band's two row ranges hold `perRow` ones each, and others none. */
  lemma OnesInBandRows(m: Matrix, b: Band, h: nat, perRow: nat)
    requires b.rowMin <= b.rowMax <= h
    requires forall i :: 0 <= i < |m| ==> RowOnes(m[i]) == if InBandRows(b, h, i) then perRow else 0
    ensures CountOnes(m) == perRow * (Overlap(b.rowMin, b.rowMax, |m|) + Overlap(h + b.rowMin, h + b.rowMax, |m|))
  {
    var rows := seq(|m|, i requires 0 <= i < |m| => RowOnes(m[i]));
    SumOverTwoIntervals(rows, perRow, b.rowMin, b.rowMax, h + b.rowMin, h + b.rowMax);
  }

  /** On the configured 64 x 64 canvas the single default band marks 4 x 49 = 196 cells. */
  lemma DefaultMaskOnes(height: nat, width: nat)
    requires height == Config.ImageHeight && width == Config.ImageWidth
    ensures CountOnes(CreateMask(height, width, Config.EmbeddingBandsQuad)) == 196
  {
    var b := Config.EmbeddingBandsQuad[0];
    assert b.WellFormed() && b.FitsIn(height / 2, width / 2) && b.Area() == 49;
    MaskOnesSingleBand(height, width, b);
  }

  /** In the configured mask the DC row and column of every quadrant stay 0. */
  lemma DefaultMaskDcZero(k: nat)
    requires k < 64
    ensures CreateMask(Config.ImageHeight, Config.ImageWidth, Config.EmbeddingBandsQuad)[0][k] == 0.0
    ensures CreateMask(Config.ImageHeight, Config.ImageWidth, Config.EmbeddingBandsQuad)[32][k] == 0.0
    ensures CreateMask(Config.ImageHeight, Config.ImageWidth, Config.EmbeddingBandsQuad)[k][0] == 0.0
    ensures CreateMask(Config.ImageHeight, Config.ImageWidth, Config.EmbeddingBandsQuad)[k][32] == 0.0
  {
    MaskFirstRowsZero(64, 64, Config.EmbeddingBandsQuad);
    MaskFirstColumnsZero(64, 64, Config.EmbeddingBandsQuad);
  }
}
