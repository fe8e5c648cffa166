/**
 * The QIM embedder: snapping the coefficients of each band of a frequency
 * block, the per-quadrant transform pipeline, and the whole-image split,
 * embed and reassemble.
 */
module Watermark {
  import opened Grid
  import opened Quantize
  import opened Quadrants
  import opened Transforms
  import Config

  /**
   * One band's slice assignment: every element the band covers is snapped to
   * a quarter step above its nearest grid point; the others are copied.
   */
  function EmbedBand(block: Matrix, b: Band, delta: real): (r: Matrix)
    requires delta != 0.0
    ensures SameShape(r, block)
    ensures forall i, j :: IsCell(block, i, j) && b.Covers(i, j) ==>
      Residual(r[i][j], delta) == delta / 4.0 && GridPoint(r[i][j], delta) == GridPoint(block[i][j], delta)
    ensures forall i, j :: IsCell(block, i, j) && !b.Covers(i, j) ==> r[i][j] == block[i][j]
  {
    seq(|block|, i requires 0 <= i < |block| =>
      seq(|block[i]|, j requires 0 <= j < |block[i]| =>
        if b.Covers(i, j) then Snap(block[i][j], delta) else block[i][j]))
  }

  /**
   * `embed_watermark_block_qim`: the bands are snapped one after the other,
   * in list order, on a copy of the block. Because snapping is idempotent the
   * outcome is the same as snapping, once, every element some band covers:
   * overlaps and the order of the bands do not matter, and elements outside
   * every band are unchanged.
   */
  function EmbedBlock(block: Matrix, bands: seq<Band>, delta: real): (r: Matrix)
    requires delta != 0.0
    ensures SameShape(r, block)
    ensures forall i, j :: IsCell(block, i, j) ==>
      r[i][j] == if CoveredBy(bands, i, j) then Snap(block[i][j], delta) else block[i][j]
    decreases |bands|
  {
    if |bands| == 0 then block
    else
      var once := EmbedBand(block, bands[0], delta);
      var r := EmbedBlock(once, bands[1..], delta);
      assert forall b :: b in bands <==> b == bands[0] || b in bands[1..] by {
        assert bands == [bands[0]] + bands[1..];
      }
      r
  }

  /**
   * The block carries the watermark: every element some band covers sits a
   * quarter step above its nearest `delta` grid point.
   */
  predicate Marked(block: Matrix, bands: seq<Band>, delta: real)
    requires delta != 0.0
  {
    forall i, j :: 0 <= i < |block| && 0 <= j < |block[i]| && CoveredBy(bands, i, j) ==>
      Residual(block[i][j], delta) == delta / 4.0
  }

  /** An embedded block carries the watermark, whatever it held before. */
  lemma EmbedBlockMarks(block: Matrix, bands: seq<Band>, delta: real)
    requires delta != 0.0
    ensures Marked(EmbedBlock(block, bands, delta), bands, delta)
  {
  }

  /** The blocks embedding leaves unchanged are exactly the marked ones. */
  lemma EmbedBlockFixedIff(block: Matrix, bands: seq<Band>, delta: real)
    requires delta != 0.0
    ensures EmbedBlock(block, bands, delta) == block <==> Marked(block, bands, delta)
  {
    var r := EmbedBlock(block, bands, delta);
    if Marked(block, bands, delta) {
      forall i | 0 <= i < |block|
        ensures r[i] == block[i]
      {
        forall j | 0 <= j < |block[i]|
          ensures r[i][j] == block[i][j]
        {
          if CoveredBy(bands, i, j) {
            SnapFixedIff(block[i][j], delta);
          }
        }
      }
    }
    if r == block {
      EmbedBlockMarks(block, bands, delta);
    }
  }

  /** Re-embedding an embedded block with the same bands and step changes nothing. */
  lemma EmbedBlockIdempotent(block: Matrix, bands: seq<Band>, delta: real)
    requires delta != 0.0
    ensures EmbedBlock(EmbedBlock(block, bands, delta), bands, delta) == EmbedBlock(block, bands, delta)
  {
    EmbedBlockMarks(block, bands, delta);
    EmbedBlockFixedIff(EmbedBlock(block, bands, delta), bands, delta);
  }

  /** Lists naming the same bands, in any order and with any repetition, embed alike. */
  lemma EmbedBlockOrderIrrelevant(block: Matrix, bands1: seq<Band>, bands2: seq<Band>, delta: real)
    requires delta != 0.0
    requires forall b :: b in bands1 <==> b in bands2
    ensures EmbedBlock(block, bands1, delta) == EmbedBlock(block, bands2, delta)
  {
    var r1 := EmbedBlock(block, bands1, delta);
    var r2 := EmbedBlock(block, bands2, delta);
    forall i | 0 <= i < |block|
      ensures r1[i] == r2[i]
    {
      forall j | 0 <= j < |block[i]|
        ensures r1[i][j] == r2[i][j]
      {
        assert CoveredBy(bands1, i, j) <==> CoveredBy(bands2, i, j);
      }
    }
  }

  /** The frequency half of the quadrant pipeline: transform, then embed. */
  function EmbedFrequencies(quad: Matrix, bands: seq<Band>, delta: real, dct: Transform): (freq: Matrix)
    requires delta != 0.0 && KeepsShape(dct)
    ensures SameShape(freq, quad)
    ensures Marked(freq, bands, delta)
  {
    var coeffs := dct(quad);
    var freq := EmbedBlock(coeffs, bands, delta);
    EmbedBlockMarks(coeffs, bands, delta);
    TransformKeepsShape(dct, quad, quad);
    SameShapeTransitive(freq, coeffs, quad);
    freq
  }

  /** Both domains of a watermarked quadrant. */
  datatype QuadResult = QuadResult(spatial: Matrix, freq: Matrix)

  /**
   * `process_quadrant_qim`: forward-transform the quadrant, embed in the
   * frequency block, and inverse-transform; both domains are returned, each
   * the shape of the input quadrant, the frequency one carrying the mark.
   */
  function ProcessQuadrant(quad: Matrix, bands: seq<Band>, delta: real, dct: Transform, idct: Transform): (r: QuadResult)
    requires delta != 0.0 && KeepsShape(dct) && KeepsShape(idct)
    ensures SameShape(r.freq, quad) && SameShape(r.spatial, quad)
    ensures Marked(r.freq, bands, delta)
    ensures r.spatial == idct(r.freq)
  {
    var freq := EmbedFrequencies(quad, bands, delta, dct);
    TransformKeepsShape(idct, freq, quad);
    QuadResult(idct(freq), freq)
  }

  /** The four quadrants of an image, each processed on its own. */
  function ProcessQuadrants(q: Quads, bands: seq<Band>, delta: real, dct: Transform, idct: Transform): (r: Quads)
    requires delta != 0.0 && KeepsShape(dct) && KeepsShape(idct)
    ensures SameShape(r.tl, q.tl) && SameShape(r.tr, q.tr)
    ensures SameShape(r.bl, q.bl) && SameShape(r.br, q.br)
  {
    Quads(ProcessQuadrant(q.tl, bands, delta, dct, idct).spatial,
          ProcessQuadrant(q.tr, bands, delta, dct, idct).spatial,
          ProcessQuadrant(q.bl, bands, delta, dct, idct).spatial,
          ProcessQuadrant(q.br, bands, delta, dct, idct).spatial)
  }

  /**
   * The image pipeline with explicit parameters: split at row and column 32,
   * process each quadrant independently, and reassemble top-left | top-right
   * over bottom-left | bottom-right. The result has the image's shape.
   */
  function EmbedImage(image: Matrix, bands: seq<Band>, delta: real, dct: Transform, idct: Transform): (r: Matrix)
    requires delta != 0.0 && KeepsShape(dct) && KeepsShape(idct)
    ensures SameShape(r, image)
  {
    var q := Split(image);
    var p := ProcessQuadrants(q, bands, delta, dct, idct);
    ReassembleSplit(image);
    ReassembleSameShape(p, q);
    Reassemble(p)
  }

  /** `embed_watermark`: the image pipeline with the configured bands and step. */
  function EmbedWatermark(image: Matrix, dct: Transform, idct: Transform): (r: Matrix)
    requires KeepsShape(dct) && KeepsShape(idct)
    ensures SameShape(r, image)
  {
    EmbedImage(image, Config.EmbeddingBandsQuad, Config.WatermarkDelta, dct, idct)
  }

  /**
   * Each quadrant of the embedded image is the processed corresponding
   * quadrant of the input and nothing else: no quadrant sees another.
   */
  lemma EmbedImageQuadrants(image: Matrix, height: nat, width: nat,
                            bands: seq<Band>, delta: real, dct: Transform, idct: Transform)
    requires delta != 0.0 && KeepsShape(dct) && KeepsShape(idct)
    requires IsMatrix(image, height, width) && height >= Cut && width >= Cut
    ensures Split(EmbedImage(image, bands, delta, dct, idct))
      == ProcessQuadrants(Split(image), bands, delta, dct, idct)
  {
    var q := Split(image);
    var p := ProcessQuadrants(q, bands, delta, dct, idct);
    SplitShape(image, height, width);
    AlignedSameShape(p, q);
    SplitReassemble(p);
  }

  /**
   * The transform pair returns the embedded coefficients of this quadrant:
   * forward-transforming the watermarked quadrant gives back its frequency
   * block.
   */
  ghost predicate Recovers(quad: Matrix, bands: seq<Band>, delta: real, dct: Transform, idct: Transform)
    requires delta != 0.0 && KeepsShape(dct) && KeepsShape(idct)
  {
    dct(ProcessQuadrant(quad, bands, delta, dct, idct).spatial) == ProcessQuadrant(quad, bands, delta, dct, idct).freq
  }

  ghost predicate RecoversAll(q: Quads, bands: seq<Band>, delta: real, dct: Transform, idct: Transform)
    requires delta != 0.0 && KeepsShape(dct) && KeepsShape(idct)
  {
    && Recovers(q.tl, bands, delta, dct, idct) && Recovers(q.tr, bands, delta, dct, idct)
    && Recovers(q.bl, bands, delta, dct, idct) && Recovers(q.br, bands, delta, dct, idct)
  }

  /** Re-processing a watermarked quadrant the transforms recover changes nothing. */
  lemma ProcessQuadrantIdempotent(quad: Matrix, bands: seq<Band>, delta: real, dct: Transform, idct: Transform)
    requires delta != 0.0 && KeepsShape(dct) && KeepsShape(idct)
    requires Recovers(quad, bands, delta, dct, idct)
    ensures var r := ProcessQuadrant(quad, bands, delta, dct, idct);
      ProcessQuadrant(r.spatial, bands, delta, dct, idct) == r
  {
    var r := ProcessQuadrant(quad, bands, delta, dct, idct);
    EmbedBlockFixedIff(r.freq, bands, delta);
  }

  /**
   * Embedding a watermarked image again returns it unchanged, provided the
   * transform pair recovers the embedded coefficients of every quadrant.
   */
  lemma EmbedImageIdempotent(image: Matrix, height: nat, width: nat,
                             bands: seq<Band>, delta: real, dct: Transform, idct: Transform)
    requires delta != 0.0 && KeepsShape(dct) && KeepsShape(idct)
    requires IsMatrix(image, height, width) && height >= Cut && width >= Cut
    requires RecoversAll(Split(image), bands, delta, dct, idct)
    ensures EmbedImage(EmbedImage(image, bands, delta, dct, idct), bands, delta, dct, idct)
      == EmbedImage(image, bands, delta, dct, idct)
  {
    var q := Split(image);
    var once := EmbedImage(image, bands, delta, dct, idct);
    EmbedImageQuadrants(image, height, width, bands, delta, dct, idct);
    ProcessQuadrantIdempotent(q.tl, bands, delta, dct, idct);
    ProcessQuadrantIdempotent(q.tr, bands, delta, dct, idct);
    ProcessQuadrantIdempotent(q.bl, bands, delta, dct, idct);
    ProcessQuadrantIdempotent(q.br, bands, delta, dct, idct);
    assert ProcessQuadrants(Split(once), bands, delta, dct, idct) == Split(once);
    ReassembleSplit(once);
  }
}
