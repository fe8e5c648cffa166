/**
 * The extractor and scorer: per-band median residuals, the clamped linear
 * accuracy around a quarter step, its averages over bands and quadrants,
 * and the 8-bit conversion the fidelity metrics read.
 */
module Metrics {
  import opened Grid
  import opened Quantize
  import opened Stats
  import opened Quadrants
  import opened Transforms
  import opened Watermark
  import Config

  /** `row[lo:hi]` for non-negative bounds, clamped to the row. */
  function RowSlice(row: seq<real>, lo: nat, hi: nat): seq<real> {
    if lo < hi && lo < |row| then row[lo .. Min(hi, |row|)] else []
  }

  /** Rows `i` onwards of `block[r_min:r_max, c_min:c_max]`, flattened row by row. */
  function BandRowsFrom(block: Matrix, b: Band, i: nat): seq<real>
    decreases |block| - i
  {
    if i >= |block| || i >= b.rowMax then []
    else RowSlice(block[i], b.colMin, b.colMax) + BandRowsFrom(block, b, i + 1)
  }

  /** `v` is an element of the block, at row `i` or below, that the band covers. */
  ghost predicate CoveredValue(block: Matrix, b: Band, i: nat, v: real) {
    exists r, c :: i <= r < |block| && 0 <= c < |block[r]| && b.Covers(r, c) && v == block[r][c]
  }

  /** Every value of the flattened band rows from row `i` on is a covered element at or below row `i`. */
  lemma {:induction false} BandRowsFromSound(block: Matrix, b: Band, i: nat, k: nat)
    requires b.rowMin <= i
    requires k < |BandRowsFrom(block, b, i)|
    ensures CoveredValue(block, b, i, BandRowsFrom(block, b, i)[k])
    decreases |block| - i
  {
    var s := RowSlice(block[i], b.colMin, b.colMax);
    var rest := BandRowsFrom(block, b, i + 1);
    assert BandRowsFrom(block, b, i) == s + rest;
    if k < |s| {
      var c := b.colMin + k;
      assert i <= i < |block| && 0 <= c < |block[i]| && b.Covers(i, c) && BandRowsFrom(block, b, i)[k] == block[i][c];
    } else {
      BandRowsFromSound(block, b, i + 1, k - |s|);
      var r, c :| i + 1 <= r < |block| && 0 <= c < |block[r]| && b.Covers(r, c) && rest[k - |s|] == block[r][c];
      assert i <= r < |block| && 0 <= c < |block[r]| && b.Covers(r, c) && BandRowsFrom(block, b, i)[k] == block[r][c];
    }
  }

  /** Every covered element at or below row `i` is among the flattened band rows from row `i` on. */
  lemma {:induction false} BandRowsFromComplete(block: Matrix, b: Band, i: nat, r: nat, c: nat)
    requires i <= r < |block| && c < |block[r]| && b.Covers(r, c)
    ensures block[r][c] in BandRowsFrom(block, b, i)
    decreases r - i
  {
    var s := RowSlice(block[i], b.colMin, b.colMax);
    var rest := BandRowsFrom(block, b, i + 1);
    assert BandRowsFrom(block, b, i) == s + rest;
    if r == i {
      assert block[r][c] == s[c - b.colMin];
    } else {
      BandRowsFromComplete(block, b, i + 1, r, c);
    }
  }

  /** Every value of the flattened band is an element of the block the band covers. */
  lemma BandRowsSound(block: Matrix, b: Band)
    ensures forall v :: v in BandRowsFrom(block, b, b.rowMin) ==>
      exists r, c :: IsCell(block, r, c) && b.Covers(r, c) && v == block[r][c]
  {
    var vs := BandRowsFrom(block, b, b.rowMin);
    forall v | v in vs
      ensures exists r, c :: IsCell(block, r, c) && b.Covers(r, c) && v == block[r][c]
    {
      var k :| 0 <= k < |vs| && vs[k] == v;
      BandRowsFromSound(block, b, b.rowMin, k);
      var r, c :| b.rowMin <= r < |block| && 0 <= c < |block[r]| && b.Covers(r, c) && v == block[r][c];
      assert IsCell(block, r, c) && b.Covers(r, c) && v == block[r][c];
    }
  }

  /**
   * The coefficients of one band, `block[r_min:r_max, c_min:c_max]` flattened:
   * every value is an element of the block the band covers, and every
   * covered element is among them.
   */
  function BandValues(block: Matrix, b: Band): (vs: seq<real>)
    ensures forall v :: v in vs ==>
      exists r, c :: IsCell(block, r, c) && b.Covers(r, c) && v == block[r][c]
    ensures forall r, c :: IsCell(block, r, c) && b.Covers(r, c) ==> block[r][c] in vs
    ensures |vs| > 0 <==> Hits(block, b)
  {
    var vs := BandRowsFrom(block, b, b.rowMin);
    BandRowsSound(block, b);
    assert forall r, c :: IsCell(block, r, c) && b.Covers(r, c) ==> block[r][c] in vs by {
      forall r, c | IsCell(block, r, c) && b.Covers(r, c)
        ensures block[r][c] in vs
      {
        BandRowsFromComplete(block, b, b.rowMin, r, c);
      }
    }
    assert |vs| > 0 <==> Hits(block, b) by {
      if |vs| > 0 {
        BandRowsFromSound(block, b, b.rowMin, 0);
      }
      if Hits(block, b) {
        var r, c :| 0 <= r < |block| && 0 <= c < |block[r]| && b.Covers(r, c);
        BandRowsFromComplete(block, b, b.rowMin, r, c);
      }
    }
    vs
  }

  /** Entry `k` of a row-major h x w grid lies at row `k / w` and column `k % w`. */
  lemma RowMajorIndex(k: nat, h: nat, w: nat)
    requires k < h * w
    ensures w > 0 && k / w < h && k % w < w
  {
  }

  /** Dropping the first row of a row-major grid shifts every later entry's row by one. */
  lemma RowMajorStep(k: nat, w: nat)
    requires w > 0
    ensures k < w ==> k / w == 0 && k % w == k
    ensures k >= w ==> (k - w) / w == k / w - 1 && (k - w) % w == k % w
  {
    if k < w {
      DivModUnique(k, w, 0, k);
    } else {
      var q, r := k / w, k % w;
      assert k == q * w + r;
      assert k - w == (q - 1) * w + r;
      DivModUnique(k - w, w, q - 1, r);
    }
  }

  /** Quotient and remainder by a positive divisor are unique. */
  lemma DivModUnique(k: int, w: int, q: int, r: int)
    requires w > 0 && 0 <= r < w && k == q * w + r
    ensures k / w == q && k % w == r
  {
    var q', r' := k / w, k % w;
    assert k == q' * w + r';
    assert (q - q') * w == r' - r;
    MultipleOfStep(q - q', w);
  }

  /** A non-zero multiple of a positive step is at least one step away from zero. */
  lemma MultipleOfStep(d: int, w: int)
    requires w > 0
    ensures d >= 1 ==> d * w >= w
    ensures d <= -1 ==> d * w <= -w
  {
    if d >= 1 {
      assert d * w == w + (d - 1) * w;
    } else if d <= -1 {
      assert d * w == -w + (d + 1) * w;
    }
  }

  /**
   * The band as numpy slices it out of a rows x cols block: each upper bound
   * clamped to the block's extent. It selects the same cells of the block.
   */
  function Clamp(b: Band, rows: nat, cols: nat): (c: Band)
    ensures c.FitsIn(rows, cols)
    ensures forall i, j :: 0 <= i < rows && 0 <= j < cols ==> (c.Covers(i, j) <==> b.Covers(i, j))
  {
    Band(b.rowMin, Min(b.rowMax, rows), b.colMin, Min(b.colMax, cols))
  }

  /**
   * The row-major flatten of a band lying inside the block, by index: entry
   * `k` is the cell at row `k / Width()` and column `k % Width()` of the band.
   */
  function RowMajor(block: Matrix, rows: nat, cols: nat, c: Band): seq<real>
    requires IsMatrix(block, rows, cols) && c.FitsIn(rows, cols)
  {
    seq(c.Area(), k requires 0 <= k < c.Area() =>
      RowMajorIndex(k, c.Height(), c.Width());
      block[c.rowMin + k / c.Width()][c.colMin + k % c.Width()])
  }

  /**
   * The band's values are its clamped rectangle flattened row by row, as
   * numpy lays out the slice: their count is the clamped band's area and
   * entry `k` is the cell at row `k / width`, column `k % width` of it. So
   * repetitions and order, on which the median depends, are fixed too.
   */
  lemma BandValuesRowMajor(block: Matrix, rows: nat, cols: nat, b: Band)
    requires IsMatrix(block, rows, cols)
    ensures BandValues(block, b) == RowMajor(block, rows, cols, Clamp(b, rows, cols))
  {
    BandRowsFromRowMajor(block, rows, cols, b, b.rowMin);
  }

  lemma {:induction false} BandRowsFromRowMajor(block: Matrix, rows: nat, cols: nat, b: Band, i: nat)
    requires IsMatrix(block, rows, cols)
    ensures BandRowsFrom(block, b, i)
      == RowMajor(block, rows, cols, Band(i, Min(b.rowMax, rows), b.colMin, Min(b.colMax, cols)))
    decreases rows - i
  {
    var e := Min(b.rowMax, rows);
    var here := Band(i, e, b.colMin, Min(b.colMax, cols));
    if i < e {
      var next := Band(i + 1, e, b.colMin, Min(b.colMax, cols));
      BandRowsFromRowMajor(block, rows, cols, b, i + 1);
      var s := RowSlice(block[i], b.colMin, b.colMax);
      var rest := RowMajor(block, rows, cols, next);
      var all := RowMajor(block, rows, cols, here);
      var w := here.Width();
      assert |s| == w;
      assert here.Height() == next.Height() + 1;
      assert here.Area() == w + next.Area() by {
        assert here.Area() == (next.Height() + 1) * w;
      }
      forall k | 0 <= k < |all|
        ensures all[k] == (s + rest)[k]
      {
        RowMajorIndex(k, here.Height(), w);
        RowMajorStep(k, w);
        var q, r := k / w, k % w;
        assert all[k] == block[i + q][b.colMin + r];
        if k >= w {
          assert rest[k - w] == block[i + q][b.colMin + r];
        }
      }
      assert BandRowsFrom(block, b, i) == s + rest;
    }
  }

  /** The residuals of one band's coefficients from their nearest grid points. */
  function BandResiduals(block: Matrix, b: Band, delta: real): (rs: seq<real>)
    requires delta != 0.0
    ensures |rs| == |BandValues(block, b)|
    ensures |rs| > 0 <==> Hits(block, b)
    ensures forall k :: 0 <= k < |rs| ==> Abs(rs[k]) <= Abs(delta) / 2.0
  {
    var vs := BandValues(block, b);
    seq(|vs|, k requires 0 <= k < |vs| => Residual(vs[k], delta))
  }

  /**
   * `extract_watermark_block_qim`: one median residual per band, in band
   * order. A band that selects no coefficient has no median (numpy's NaN);
   * every other median lies within half a step of zero.
   */
  function ExtractMedians(block: Matrix, bands: seq<Band>, delta: real): (ms: seq<Option<real>>)
    requires delta != 0.0
    ensures |ms| == |bands|
    ensures forall k :: 0 <= k < |bands| ==> (ms[k].Some? <==> Hits(block, bands[k]))
    ensures forall k :: 0 <= k < |bands| && ms[k].Some? ==> Abs(ms[k].value) <= Abs(delta) / 2.0
  {
    var ms := seq(|bands|, k requires 0 <= k < |bands| => Median(BandResiduals(block, bands[k], delta)));
    assert forall k :: 0 <= k < |bands| && ms[k].Some? ==> Abs(ms[k].value) <= Abs(delta) / 2.0 by {
      forall k | 0 <= k < |bands| && ms[k].Some?
        ensures Abs(ms[k].value) <= Abs(delta) / 2.0
      {
        var rs := BandResiduals(block, bands[k], delta);
        MedianWithin(rs, -Abs(delta) / 2.0, Abs(delta) / 2.0);
      }
    }
    ms
  }

  /**
   * In a marked block, the median residual of every band that selects some
   * coefficient is exactly a quarter step.
   */
  lemma ExtractMarked(block: Matrix, bands: seq<Band>, delta: real)
    requires delta != 0.0
    requires Marked(block, bands, delta)
    ensures forall k :: 0 <= k < |bands| && Hits(block, bands[k]) ==>
      ExtractMedians(block, bands, delta)[k] == Some(delta / 4.0)
  {
    forall k | 0 <= k < |bands| && Hits(block, bands[k])
      ensures ExtractMedians(block, bands, delta)[k] == Some(delta / 4.0)
    {
      var b := bands[k];
      forall r, c | IsCell(block, r, c) && b.Covers(r, c)
        ensures Residual(block[r][c], delta) == delta / 4.0
      {
        assert CoveredBy(bands, r, c);
      }
      MarkedBandMedian(block, b, delta);
    }
  }

  /** A band all of whose coefficients sit a quarter step above the grid has that median residual. */
  lemma MarkedBandMedian(block: Matrix, b: Band, delta: real)
    requires delta != 0.0
    requires forall r, c :: IsCell(block, r, c) && b.Covers(r, c) ==> Residual(block[r][c], delta) == delta / 4.0
    requires Hits(block, b)
    ensures Median(BandResiduals(block, b, delta)) == Some(delta / 4.0)
  {
    var vs := BandValues(block, b);
    forall v | v in vs
      ensures Residual(v, delta) == delta / 4.0
    {
      MarkedBandValue(block, b, delta, v);
    }
    ResidualsMedian(vs, delta);
  }

  /** Values all a quarter step above the grid have a median residual of a quarter step. */
  lemma ResidualsMedian(vs: seq<real>, delta: real)
    requires delta != 0.0 && |vs| > 0
    requires forall v :: v in vs ==> Residual(v, delta) == delta / 4.0
    ensures Median(seq(|vs|, k requires 0 <= k < |vs| => Residual(vs[k], delta))) == Some(delta / 4.0)
  {
    var rs := seq(|vs|, k requires 0 <= k < |vs| => Residual(vs[k], delta));
    forall t | 0 <= t < |rs|
      ensures rs[t] == delta / 4.0
    {
      assert vs[t] in vs;
    }
    MedianConstant(rs, delta / 4.0);
  }

  /** One coefficient of such a band sits a quarter step above the grid. */
  lemma MarkedBandValue(block: Matrix, b: Band, delta: real, v: real)
    requires delta != 0.0
    requires forall r, c :: IsCell(block, r, c) && b.Covers(r, c) ==> Residual(block[r][c], delta) == delta / 4.0
    requires v in BandValues(block, b)
    ensures Residual(v, delta) == delta / 4.0
  {
    var r, c :| IsCell(block, r, c) && b.Covers(r, c) && v == block[r][c];
  }

  /**
   * The per-band score `max(0, 1 - |m - delta/4| / (delta/4)) * 100`: 100 for
   * a median of exactly a quarter step, falling linearly to 0 at a quarter
   * step away and clamped there. A missing median (NaN) is discarded by the
   * `max`, which leaves 0.
   */
  function BandAccuracy(m: Option<real>, delta: real): (a: real)
    requires delta != 0.0
    ensures m.None? ==> a == 0.0
    ensures m == Some(delta / 4.0) ==> a == 100.0
    ensures delta > 0.0 ==> 0.0 <= a <= 100.0
    ensures delta > 0.0 ==> (a == 100.0 <==> m == Some(delta / 4.0))
    ensures delta > 0.0 && m.Some? && Abs(m.value - delta / 4.0) >= delta / 4.0 ==> a == 0.0
  {
    match m
    case None => 0.0
    case Some(v) =>
      var expected := delta / 4.0;
      var drift := Abs(v - expected) / expected;
      RelativeDrift(Abs(v - expected), expected);
      var score := 1.0 - drift;
      (if score > 0.0 then score else 0.0) * 100.0
  }

  /** How a non-negative drift compares with a positive expected value, relatively. */
  lemma RelativeDrift(d: real, e: real)
    requires d >= 0.0 && e != 0.0
    ensures e > 0.0 ==> d / e >= 0.0
    ensures e > 0.0 ==> (d / e == 0.0 <==> d == 0.0)
    ensures e > 0.0 ==> (d / e >= 1.0 <==> d >= e)
  {
    assert d / e * e == d;
  }

  /** The per-band scores of a frequency block, in band order. */
  function BandAccuracies(block: Matrix, bands: seq<Band>, delta: real): (acc: seq<real>)
    requires delta != 0.0
    ensures |acc| == |bands|
    ensures forall k :: 0 <= k < |bands| && !Hits(block, bands[k]) ==> acc[k] == 0.0
    ensures delta > 0.0 ==> forall k :: 0 <= k < |bands| ==> 0.0 <= acc[k] <= 100.0
    ensures delta > 0.0 ==> forall k :: 0 <= k < |bands| ==>
      (acc[k] == 100.0 <==> ExtractMedians(block, bands, delta)[k] == Some(delta / 4.0))
  {
    var ms := ExtractMedians(block, bands, delta);
    seq(|bands|, k requires 0 <= k < |bands| => BandAccuracy(ms[k], delta))
  }

  /**
   * The accuracy of one frequency block: the mean of its per-band scores,
   * within [0, 100] for a positive step.
   */
  function BlockAccuracy(block: Matrix, bands: seq<Band>, delta: real): (a: real)
    requires delta != 0.0 && |bands| > 0
    ensures delta > 0.0 ==> 0.0 <= a <= 100.0
  {
    var acc := BandAccuracies(block, bands, delta);
    assert delta > 0.0 ==> 0.0 <= Mean(acc) <= 100.0 by {
      if delta > 0.0 {
        MeanWithin(acc, 0.0, 100.0);
      }
    }
    Mean(acc)
  }

  /**
   * For a positive step, a block scores 100 exactly when every band's median
   * residual is a quarter step.
   */
  lemma BlockAccuracyPerfectIff(block: Matrix, bands: seq<Band>, delta: real)
    requires delta > 0.0 && |bands| > 0
    ensures BlockAccuracy(block, bands, delta) == 100.0 <==>
      forall k :: 0 <= k < |bands| ==> ExtractMedians(block, bands, delta)[k] == Some(delta / 4.0)
  {
    var ms := ExtractMedians(block, bands, delta);
    var acc := BandAccuracies(block, bands, delta);
    assert forall k :: 0 <= k < |acc| ==> (acc[k] == 100.0 <==> ms[k] == Some(delta / 4.0));
    MeanAtTopIff(acc, 100.0);
  }

  /** A marked block in which every band selects some coefficient scores 100. */
  lemma MarkedBlockScoresPerfect(block: Matrix, bands: seq<Band>, delta: real)
    requires delta != 0.0 && |bands| > 0
    requires Marked(block, bands, delta)
    requires forall b :: b in bands ==> Hits(block, b)
    ensures BlockAccuracy(block, bands, delta) == 100.0
  {
    ExtractMarked(block, bands, delta);
    var acc := BandAccuracies(block, bands, delta);
    assert forall k :: 0 <= k < |acc| ==> acc[k] == 100.0;
    MeanAtTopIff(acc, 100.0);
  }

  /**
   * `robust_quad_extraction_qim`: forward-transform a spatial quadrant and
   * score its frequency block.
   */
  function QuadrantAccuracy(quad: Matrix, bands: seq<Band>, delta: real, dct: Transform): (a: real)
    requires delta != 0.0 && |bands| > 0
    ensures delta > 0.0 ==> 0.0 <= a <= 100.0
  {
    BlockAccuracy(dct(quad), bands, delta)
  }

  /**
   * The `watermark_accuracy` entry: the mean of the four quadrant
   * accuracies of the split at 32, within [0, 100] for a positive step.
   */
  function WatermarkAccuracy(image: Matrix, bands: seq<Band>, delta: real, dct: Transform): (a: real)
    requires delta != 0.0 && |bands| > 0
    ensures delta > 0.0 ==> 0.0 <= a <= 100.0
  {
    var q := Split(image);
    (QuadrantAccuracy(q.tl, bands, delta, dct) + QuadrantAccuracy(q.tr, bands, delta, dct)
      + QuadrantAccuracy(q.bl, bands, delta, dct) + QuadrantAccuracy(q.br, bands, delta, dct)) / 4.0
  }

  /** Whether a band selects some coefficient depends only on the block's shape. */
  lemma HitsSameShape(a: Matrix, b: Matrix, band: Band)
    requires SameShape(a, b)
    ensures Hits(a, band) <==> Hits(b, band)
  {
    if Hits(a, band) {
      var i, j :| 0 <= i < |a| && 0 <= j < |a[i]| && band.Covers(i, j);
      assert 0 <= i < |b| && 0 <= j < |b[i]| && band.Covers(i, j);
    }
    if Hits(b, band) {
      var i, j :| 0 <= i < |b| && 0 <= j < |b[i]| && band.Covers(i, j);
      assert 0 <= i < |a| && 0 <= j < |a[i]| && band.Covers(i, j);
    }
  }

  /**
   * A freshly watermarked quadrant scores 100 when the transform pair
   * recovers its embedded coefficients and every band selects some
   * coefficient of it.
   */
  lemma FreshQuadrantScoresPerfect(quad: Matrix, bands: seq<Band>, delta: real, dct: Transform, idct: Transform)
    requires delta != 0.0 && |bands| > 0 && KeepsShape(dct) && KeepsShape(idct)
    requires Recovers(quad, bands, delta, dct, idct)
    requires forall b :: b in bands ==> Hits(quad, b)
    ensures QuadrantAccuracy(ProcessQuadrant(quad, bands, delta, dct, idct).spatial, bands, delta, dct) == 100.0
  {
    var r := ProcessQuadrant(quad, bands, delta, dct, idct);
    RecoveredScoresPerfect(r.spatial, r.freq, quad, bands, delta, dct);
  }

  /** A quadrant whose transform is a marked block shaped like it scores 100. */
  lemma RecoveredScoresPerfect(spatial: Matrix, freq: Matrix, quad: Matrix, bands: seq<Band>, delta: real, dct: Transform)
    requires delta != 0.0 && |bands| > 0
    requires dct(spatial) == freq
    requires Marked(freq, bands, delta) && SameShape(freq, quad)
    requires forall b :: b in bands ==> Hits(quad, b)
    ensures QuadrantAccuracy(spatial, bands, delta, dct) == 100.0
  {
    MarkedLikeScoresPerfect(freq, quad, bands, delta);
  }

  /** A marked block shaped like a quadrant every band hits scores 100. */
  lemma MarkedLikeScoresPerfect(block: Matrix, quad: Matrix, bands: seq<Band>, delta: real)
    requires delta != 0.0 && |bands| > 0
    requires Marked(block, bands, delta) && SameShape(block, quad)
    requires forall b :: b in bands ==> Hits(quad, b)
    ensures BlockAccuracy(block, bands, delta) == 100.0
  {
    forall b | b in bands
      ensures Hits(block, b)
    {
      HitsSameShape(block, quad, b);
    }
    MarkedBlockScoresPerfect(block, bands, delta);
  }

  /** A non-empty band starting inside a `rows` x `cols` block selects some coefficient of it. */
  lemma HitsRectangle(m: Matrix, rows: nat, cols: nat, b: Band)
    requires IsMatrix(m, rows, cols)
    requires b.rowMin < b.rowMax && b.colMin < b.colMax
    requires b.rowMin < rows && b.colMin < cols
    ensures Hits(m, b)
  {
    assert 0 <= b.rowMin < |m| && 0 <= b.colMin < |m[b.rowMin]| && b.Covers(b.rowMin, b.colMin);
  }

  /**
   * End to end: an image at least 32 x 32, watermarked with a transform pair
   * that recovers each quadrant's embedded coefficients, scores 100 when
   * every band is non-empty and starts inside the smallest quadrant.
   */
  lemma FreshImageScoresPerfect(image: Matrix, height: nat, width: nat,
                                bands: seq<Band>, delta: real, dct: Transform, idct: Transform)
    requires delta != 0.0 && |bands| > 0 && KeepsShape(dct) && KeepsShape(idct)
    requires IsMatrix(image, height, width) && height >= Cut && width >= Cut
    requires forall b :: b in bands ==>
      && b.rowMin < b.rowMax && b.colMin < b.colMax
      && b.rowMin < Min(Cut, height - Cut) && b.colMin < Min(Cut, width - Cut)
    requires RecoversAll(Split(image), bands, delta, dct, idct)
    ensures WatermarkAccuracy(EmbedImage(image, bands, delta, dct, idct), bands, delta, dct) == 100.0
  {
    var q := Split(image);
    SplitShape(image, height, width);
    EmbedImageQuadrants(image, height, width, bands, delta, dct, idct);
    forall b | b in bands
      ensures Hits(q.tl, b) && Hits(q.tr, b) && Hits(q.bl, b) && Hits(q.br, b)
    {
      HitsRectangle(q.tl, Cut, Cut, b);
      HitsRectangle(q.tr, Cut, width - Cut, b);
      HitsRectangle(q.bl, height - Cut, Cut, b);
      HitsRectangle(q.br, height - Cut, width - Cut, b);
    }
    FreshQuadrantScoresPerfect(q.tl, bands, delta, dct, idct);
    FreshQuadrantScoresPerfect(q.tr, bands, delta, dct, idct);
    FreshQuadrantScoresPerfect(q.bl, bands, delta, dct, idct);
    FreshQuadrantScoresPerfect(q.br, bands, delta, dct, idct);
  }

  /**
   * With the configured band and step, any 64 x 64 image watermarked by
   * `embed_watermark` scores 100, given a transform pair that recovers the
   * embedded coefficients of its quadrants.
   */
  lemma DefaultImageScoresPerfect(image: Matrix, dct: Transform, idct: Transform)
    requires KeepsShape(dct) && KeepsShape(idct)
    requires IsMatrix(image, Config.ImageHeight, Config.ImageWidth)
    requires RecoversAll(Split(image), Config.EmbeddingBandsQuad, Config.WatermarkDelta, dct, idct)
    ensures WatermarkAccuracy(EmbedWatermark(image, dct, idct), Config.EmbeddingBandsQuad, Config.WatermarkDelta, dct) == 100.0
  {
    FreshImageScoresPerfect(image, 64, 64, Config.EmbeddingBandsQuad, Config.WatermarkDelta, dct, idct);
  }

  /**
   * The 8-bit conversion of one sample: scale by 255, clip to [0, 255], then
   * truncate (not round) to an integer.
   */
  function ToByte(x: real): (b: int)
    ensures 0 <= b <= 255
    ensures x <= 0.0 ==> b == 0
    ensures x >= 1.0 ==> b == 255
    ensures 0.0 <= x <= 1.0 ==> b as real <= x * 255.0 < b as real + 1.0
  {
    var scaled := x * 255.0;
    var clipped := if scaled < 0.0 then 0.0 else if scaled > 255.0 then 255.0 else scaled;
    clipped.Floor
  }

  /** The 8-bit conversion never reverses the order of two samples. */
  lemma ToByteMonotone(x: real, y: real)
    requires x <= y
    ensures ToByte(x) <= ToByte(y)
  {
  }

  /** Mid-grey 0.5 scales to 127.5 and becomes 127: truncation, where rounding would give 128. */
  lemma ToByteTruncates()
    ensures ToByte(0.5) == 127
  {
  }

  /** The 8-bit image the fidelity metrics compare. */
  function ToBytes(m: Matrix): (r: seq<seq<int>>)
    ensures |r| == |m|
    ensures forall i :: 0 <= i < |m| ==> |r[i]| == |m[i]|
    ensures forall i, j :: 0 <= i < |r| && 0 <= j < |r[i]| ==> 0 <= r[i][j] <= 255
  {
    seq(|m|, i requires 0 <= i < |m| => seq(|m[i]|, j requires 0 <= j < |m[i]| => ToByte(m[i][j])))
  }

  /**
   * The metrics report with the fidelity scores left out: the two 8-bit
   * images they are computed from, and the watermark accuracy.
   */
  datatype Report = Report(originalBytes: seq<seq<int>>, watermarkedBytes: seq<seq<int>>, watermarkAccuracy: real)

  /**
   * `calculate_quadrant_robust_metrics_qim`: both images are converted to 8
   * bits for the fidelity metrics; the accuracy is read from the
   * watermarked image alone.
   */
  function Evaluate(original: Matrix, watermarked: Matrix, bands: seq<Band>, delta: real, dct: Transform): (r: Report)
    requires delta != 0.0 && |bands| > 0
    ensures |r.originalBytes| == |original| && |r.watermarkedBytes| == |watermarked|
    ensures delta > 0.0 ==> 0.0 <= r.watermarkAccuracy <= 100.0
  {
    Report(ToBytes(original), ToBytes(watermarked), WatermarkAccuracy(watermarked, bands, delta, dct))
  }

  /** The original image feeds only the fidelity metrics, never the accuracy. */
  lemma AccuracyIgnoresOriginal(original1: Matrix, original2: Matrix, watermarked: Matrix,
                                bands: seq<Band>, delta: real, dct: Transform)
    requires delta != 0.0 && |bands| > 0
    ensures Evaluate(original1, watermarked, bands, delta, dct).watermarkAccuracy
      == Evaluate(original2, watermarked, bands, delta, dct).watermarkAccuracy
  {
  }
}
