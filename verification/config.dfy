/**
 * The watermark parameters shared by embedding and scoring, with the
 * repository's defaults.
 */
module Config {
  import opened Grid

  /** Quantization step of the QIM embedding (0.10). */
  const WatermarkDelta: real := 0.10

  /** Quarter-step offset every embedded coefficient carries above its grid point. */
  const WatermarkOffset: real := WatermarkDelta / 4.0

  /** One low-frequency band per quadrant: rows and columns 1..7. */
  const EmbeddingBandsQuad: seq<Band> := [Band(1, 8, 1, 8)]

  const ImageHeight: nat := 64
  const ImageWidth: nat := 64

  /**
   * The defaults are consistent: the offset is a quarter of a positive step
   * and strictly below half a step, the single default band covers rows and
   * columns 1..7 (49 coefficients) inside a 32 x 32 quadrant, and halving the
   * 64 x 64 canvas gives the 32 at which images are split.
   */
  lemma DefaultsConsistent()
    ensures WatermarkOffset == WatermarkDelta / 4.0
    ensures WatermarkDelta > 0.0
    ensures 0.0 < WatermarkOffset < WatermarkDelta / 2.0
    ensures |EmbeddingBandsQuad| == 1
    ensures forall b :: b in EmbeddingBandsQuad ==> b.FitsIn(ImageHeight / 2, ImageWidth / 2)
    ensures forall i, j :: EmbeddingBandsQuad[0].Covers(i, j) <==> 1 <= i <= 7 && 1 <= j <= 7
    ensures EmbeddingBandsQuad[0].Area() == 49
    ensures ImageHeight / 2 == 32 && ImageWidth / 2 == 32
  {
  }
}
