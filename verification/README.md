# QIM image watermark: a Dafny model of the embedder and the scorer

This project models the core of an invisible image watermark. It uses
quantization index modulation (QIM) in the 2-D cosine-transform domain.

The embedder (`core/watermark.py`) works in three steps:
- It splits a 64 x 64 image at row and column 32 into four quadrants.
- It forward-transforms each quadrant. In the frequency block, every coefficient inside each half-open band `[r_min, r_max) x [c_min, c_max)` is snapped to `round(c / delta) * delta + delta / 4`.
- It inverse-transforms each quadrant and stacks the quadrants back together: top-left | top-right over bottom-left | bottom-right.

The scorer (`core/metrics.py`) works as follows:
- For each band, it takes the median of the residuals `c - round(c / delta) * delta`.
- It scores each median by `max(0, 1 - |m - delta/4| / (delta/4)) * 100`.
- It averages the scores over the bands, then over the four quadrants.

Alongside the accuracy, it converts both images to 8 bits for the fidelity metrics. The band mask (`create_full_mask` in `core/transforms.py`) and the shared parameters (`config.py`) complete the core.

Conventions of the model:
- A numpy array is a row-major `seq<seq<real>>`. Floating-point values are idealised as exact reals, so every exact-equality result below holds for the real-number version of the code.
- `np.round` is round-half-to-even (`Quantize.RoundHalfEven`).
- Slices with non-negative bounds clamp to the array, exactly as numpy's do. A band reaching past a block selects only the cells inside it.
- The split at 32 is the hard-coded constant `Quadrants.Cut`. It is not derived from the image size.
- `dct2` and `idct2` are numerical library calls. Every operation that uses them takes them as parameters of type `Transforms.Transform`. The only thing assumed of them is `KeepsShape`: they preserve the shape of a matrix.
- End-to-end results are stated under `Watermark.Recovers`. That predicate says that forward-transforming a watermarked quadrant gives back the embedded coefficients.
- `np.median` of an empty band is NaN, and the `max(0, ...)` of the score turns it into 0. The model makes that median `None` and scores it 0.

Modules:
- `Grid`: matrices, bands, shapes.
- `Quantize`: rounding, residual, snap.
- `Stats`: sort, median, mean.
- `Config`: parameters.
- `Quadrants`: split and reassemble.
- `Transforms`: the transform boundary and the mask.
- `Watermark`: the embedder.
- `Metrics`: extraction, scoring and the 8-bit conversion.

## Model

| member | source | states |
|---|---|---|
| Quantize.RoundHalfEven | core/watermark.py:12 | `np.round` gives an integer within one half of its argument, and on an exact tie it gives the even neighbour |
| Quantize.RoundIsNearest | core/metrics.py:15 | no integer is strictly closer to the value than its rounding, so `np.round(c / delta) * delta` is the nearest grid point |
| Quantize.RoundUnique | core/metrics.py:15 | an integer less than half a unit away from the value is its rounding |
| Quantize.GridPointNearest | core/metrics.py:15 | no point of the `delta` grid is strictly closer to a coefficient than `np.round(c / delta) * delta` |
| Quantize.Residual | core/metrics.py:15-16 | the residual of a coefficient from its nearest grid point is at most half a step in absolute value |
| Quantize.Snap | core/watermark.py:10-12 | a snapped coefficient keeps the nearest grid point of the original and sits exactly a quarter step above it (residual `delta/4`) |
| Quantize.SnapIdempotent | core/watermark.py:11-12 | snapping an already snapped coefficient leaves it unchanged |
| Quantize.SnapFixedIff | core/watermark.py:10-12 | snapping leaves a coefficient unchanged exactly when its residual is already `delta/4` |
| Stats.Sort | core/metrics.py:17 | the arrangement `np.median` reads is ascending and a permutation of the residuals |
| Stats.SortedUnique | core/metrics.py:17 | two ascending arrangements of the same multiset are equal, so the sorted order is unique |
| Stats.Median | core/metrics.py:17 | the median is missing exactly for no values; for an odd count it is one of the values, and for an even count it is the midpoint of two values bracketing it (which order statistic it is: Stats.MedianOfSorted) |
| Stats.MedianOfSorted | core/metrics.py:17 | the median is the middle of every ascending arrangement of the values: the middle element for an odd count, the mean of the two middle elements for an even count |
| Stats.MedianPicksMiddle | core/metrics.py:17 | the median of 5, 1, 1 is 1, the middle order statistic, not merely some element |
| Stats.MedianWithin | core/metrics.py:17 | bounds holding for every value also hold for the median |
| Stats.MedianConstant | core/metrics.py:17 | if every residual of a band equals r, its median is r |
| Stats.MedianBetweenExtremes | core/metrics.py:17 | the median lies between the band's least and greatest residual |
| Stats.MedianPermutationInvariant | core/metrics.py:17 | the median depends only on the multiset of residuals, not on their order |
| Stats.Mean | core/metrics.py:26 | the mean times the count is the sum of the scores, and a list of equal scores has that score as its mean |
| Stats.MeanWithin | core/metrics.py:26 | the mean of scores within bounds stays within those bounds |
| Stats.MeanAtTopIff | core/metrics.py:26 | the mean of scores bounded by a maximum equals it exactly when every score does |
| Config.DefaultsConsistent | config.py:4-10 | the offset is a quarter of the step; the step is positive and the offset below half a step; the single default band covers exactly the coefficients with row and column in 1..7 (49 of them) and fits a 32 x 32 quadrant; halving 64 x 64 gives 32 x 32 quadrants |
| Quadrants.Split | core/watermark.py:24-27 | the two top quadrants have the same number of rows, and so do the two bottom ones |
| Quadrants.SplitShape | core/watermark.py:24-27 | for an H x W image with H, W >= 32 the quadrants are 32 x 32, 32 x (W-32), (H-32) x 32 and (H-32) x (W-32) |
| Quadrants.HStack | core/watermark.py:34-35 | each row of the side-by-side stack is the left row followed by the right row, with both lengths added |
| Quadrants.Reassemble | core/watermark.py:34-36 | the reassembled image has the top rows then the bottom rows; each row starts with the left quadrant's row and continues with the right quadrant's row |
| Quadrants.ReassembleSplit | core/watermark.py:24-36 | stacking the four unmodified quadrants of any image back together reproduces the image |
| Quadrants.SplitReassemble | core/watermark.py:24-36 | splitting stacked quadrants of split-compatible shape gives back the same four quadrants |
| Transforms.TransformKeepsShape | core/transforms.py:6-12 | a shape-preserving transform of a matrix shaped like another is shaped like that other |
| Transforms.PaintBands | core/transforms.py:21-22 | the inner loop over bands for one origin sets a cell to 1 exactly when some band shifted by that origin covers it, and otherwise leaves it unchanged, whatever the band order |
| Transforms.PaintOrigins | core/transforms.py:20-22 | after the loops over origins and bands, a cell is 1 exactly when some band shifted by some origin covers it, and otherwise keeps its value |
| Transforms.CreateMask | core/transforms.py:14-23 | the mask is H x W, every entry is 0 or 1, and a cell is 1 exactly when some band shifted to one of the origins (0,0), (0,W/2), (H/2,0), (H/2,W/2) covers it |
| Transforms.MaskOrderIrrelevant | core/transforms.py:20-22 | band lists naming the same bands, in any order and with any repetition, give the same mask |
| Transforms.OnlyOwnOrigin | core/transforms.py:18-22 | when bands fit in a quadrant, the cell at offset (i, j) from a quadrant origin is reached from some origin exactly when a band covers (i, j): no other quadrant's band spills into it |
| Transforms.MaskQuadrantsAlike | core/transforms.py:18-22 | when bands fit in a quadrant, the cell at offset (i, j) from every quadrant origin is 1 exactly when a band covers (i, j), so all four quadrants hold the same pattern |
| Transforms.MaskFirstRowsZero | core/transforms.py:20-22 | bands starting at row 1 or below leave rows 0 and H/2 (each quadrant's DC row) at 0 |
| Transforms.MaskFirstColumnsZero | core/transforms.py:20-22 | bands starting at column 1 or beyond leave columns 0 and W/2 at 0 |
| Transforms.MaskOnesSingleBand | core/transforms.py:16-22 | a single well-formed band fitting in a quadrant marks exactly four times its area |
| Transforms.DefaultMaskOnes | core/transforms.py:14-23 | with the configured band on 64 x 64 the mask holds exactly 4 x 49 = 196 ones |
| Transforms.DefaultMaskDcZero | core/transforms.py:20-22 | with the configured band the DC row and column of every quadrant are 0 |
| Watermark.EmbedBand | core/watermark.py:11-12 | one band's assignment gives every covered coefficient residual `delta/4` while keeping its nearest grid point, and copies every other coefficient; the shape is unchanged |
| Watermark.EmbedBlock | core/watermark.py:7-13 | the result has the block's shape; every coefficient some band covers is snapped, once, and every other coefficient is copied unchanged; the input value is not mutated |
| Watermark.EmbedBlockMarks | core/watermark.py:10-12 | after embedding, every covered coefficient's residual is exactly `delta/4` |
| Watermark.EmbedBlockFixedIff | core/watermark.py:11-12 | embedding leaves a block unchanged exactly when it already carries the mark |
| Watermark.EmbedBlockIdempotent | core/watermark.py:11-12 | re-embedding an embedded block with the same bands and step changes nothing |
| Watermark.EmbedBlockOrderIrrelevant | core/watermark.py:11-12 | band order and band overlap do not affect the embedded block |
| Watermark.EmbedFrequencies | core/watermark.py:17-18 | the embedded frequency block has the quadrant's shape and carries the mark |
| Watermark.ProcessQuadrant | core/watermark.py:15-20 | both returned domains have the quadrant's shape, the frequency block carries the mark, and the spatial quadrant is its inverse transform |
| Watermark.ProcessQuadrants | core/watermark.py:29-32 | each processed quadrant keeps the shape of its input quadrant |
| Watermark.EmbedImage | core/watermark.py:22-36 | the watermarked image has the input image's shape |
| Watermark.EmbedWatermark | core/watermark.py:22-36 | with the configured bands and step, the watermarked image has the input image's shape |
| Watermark.EmbedImageQuadrants | core/watermark.py:24-36 | each quadrant of the output is the processed corresponding quadrant of the input and depends on nothing else |
| Watermark.ProcessQuadrantIdempotent | core/watermark.py:15-20 | when the transforms recover the embedded coefficients, re-processing a watermarked quadrant returns the same quadrant and block |
| Watermark.EmbedImageIdempotent | core/watermark.py:22-36 | under the same condition for every quadrant, watermarking a watermarked image returns it unchanged |
| Metrics.BandValues | core/metrics.py:14 | every value of the band slice is a covered coefficient of the block, every covered coefficient is among them, and the slice is empty exactly when the band selects no cell (count and order: Metrics.BandValuesRowMajor) |
| Metrics.Clamp | core/metrics.py:14 | numpy's slice bounds clamped to a rows x cols block fit the block and select exactly the cells of the block the band covers |
| Metrics.BandValuesRowMajor | core/metrics.py:14 | the band slice is the clamped band rectangle flattened row by row: its length is the clamped band's area and entry `k` is the cell at row `k / width`, column `k % width` of it |
| Metrics.BandResiduals | core/metrics.py:15-16 | one residual per band value, each within half a step of 0, and none exactly when the band selects no cell |
| Metrics.ExtractMedians | core/metrics.py:10-18 | one median per band in band order; a median is present exactly when its band selects some coefficient, and then lies within half a step of 0 |
| Metrics.ExtractMarked | core/metrics.py:12-18 | in a marked block, every band that selects a coefficient has median residual exactly `delta/4` |
| Metrics.MarkedBandMedian | core/metrics.py:14-17 | a band all of whose coefficients have residual `delta/4` has that median |
| Metrics.BandAccuracy | core/metrics.py:24-25 | for a positive step the score is in [0, 100], equals 100 exactly when the median is `delta/4`, and is 0 for a drift of a quarter step or more; a missing (NaN) median scores 0 |
| Metrics.BandAccuracies | core/metrics.py:25 | one score per band, 0 for a band that selects no cell; for a positive step each is in [0, 100] and is 100 exactly when that band's median is `delta/4` |
| Metrics.BlockAccuracy | core/metrics.py:24-26 | the mean of the band scores is in [0, 100] for a positive step |
| Metrics.BlockAccuracyPerfectIff | core/metrics.py:24-26 | a block scores 100 exactly when every band's median is `delta/4` |
| Metrics.MarkedBlockScoresPerfect | core/metrics.py:22-26 | a marked block in which every band selects a coefficient scores 100 |
| Metrics.QuadrantAccuracy | core/metrics.py:20-26 | the accuracy of a spatial quadrant is in [0, 100] for a positive step |
| Metrics.WatermarkAccuracy | core/metrics.py:39-49 | the average over the four quadrants split at 32 is in [0, 100] for a positive step |
| Metrics.HitsSameShape | core/metrics.py:14 | whether a band selects some coefficient depends only on the block's shape |
| Metrics.FreshQuadrantScoresPerfect | core/metrics.py:20-26 | a freshly watermarked quadrant scores 100 when the transforms recover its embedded block and every band selects a coefficient |
| Metrics.FreshImageScoresPerfect | core/metrics.py:39-49 | an image of at least 32 x 32 watermarked with recovering transforms scores 100 when every band is non-empty and starts inside the smallest quadrant, and the transforms recover every quadrant's embedded block |
| Metrics.DefaultImageScoresPerfect | core/metrics.py:39-49 | with the configured band and step, a 64 x 64 image watermarked by `embed_watermark` scores 100 under recovering transforms |
| Metrics.ToByte | core/metrics.py:30-31 | the 8-bit sample is in 0..255, is 0 at or below 0 and 255 at or above 1, and in between is the truncation of `x * 255` |
| Metrics.ToByteMonotone | core/metrics.py:30-31 | the conversion never reverses the order of two samples |
| Metrics.ToByteTruncates | core/metrics.py:30-31 | 0.5 becomes 127, not 128: the conversion truncates |
| Metrics.ToBytes | core/metrics.py:30-31 | the 8-bit image has the input's shape and every sample in 0..255 |
| Metrics.Evaluate | core/metrics.py:28-50 | the report's 8-bit images have the inputs' row counts and its accuracy is in [0, 100] for a positive step |
| Metrics.AccuracyIgnoresOriginal | core/metrics.py:28-50 | the watermark accuracy is the same whatever the original image; the original feeds only the fidelity metrics |

## Left out

- `dct2` and `idct2` (core/transforms.py:6-12) are orthonormal cosine transforms from a numerical library. They are parameters, and only their shape preservation is assumed. Their round trip is floating-point and is not modelled. The end-to-end scoring and idempotence results therefore take `Recovers` as a hypothesis.
- PSNR and SSIM (core/metrics.py:4-5, 33-36) are foreign floating-point metrics. The model keeps only the 8-bit images they are computed from.
- These parts of the repository are not part of this model:
  - image loading, resizing and lossy re-encoding (utils/image.py);
  - the encrypted-compute pipeline and model (fhe/);
  - the HTTP server and client (server/);
  - the orchestration in main.py;
  - the re-exports in `__init__.py`.
  They are I/O, foreign libraries or plumbing.
- `BETA`, `JPEG_QUALITY` and `FHE_CONFIG` in config.py are not used by the modelled core, so they are not modelled.
- IEEE floating-point rounding is not modelled. Coefficients are exact reals, so `c / delta` and the snapped value carry no rounding error.
- Negative slice bounds, which wrap around in numpy, cannot be written: band fields are natural numbers.
- An empty band list makes `np.mean` return NaN. The scorer therefore requires at least one band, rather than modelling NaN propagation.
- Images whose height or width is at most 32 have an empty quadrant. The library's `dct` rejects a zero-length axis, so `embed_watermark` and `calculate_quadrant_robust_metrics_qim` raise on such an image. Watermark.EmbedImage, Watermark.EmbedWatermark and Metrics.WatermarkAccuracy are total there: they return an image or a score instead of failing, since the transforms are parameters.
- A zero step divides by zero in the code. Every operation requires `delta != 0`.
- Metrics.BandAccuracy, Metrics.BlockAccuracy, Metrics.QuadrantAccuracy, Metrics.WatermarkAccuracy: the [0, 100] bounds are stated only for a positive step. With a negative step the expected offset is negative, and the code's formula no longer bounds the score.
- Metrics.ToByte: it truncates after clipping, as `astype(np.uint8)` does, so 0.5 becomes 127, not 128 (Metrics.ToByteTruncates).
- Transforms.MaskOnesSingleBand: the exact count is proved for a single band. For several bands, overlaps make the count depend on the geometry. Only the cell-by-cell characterisation (Transforms.CreateMask) is stated for them.
- The images, the frequency blocks and the mask are float32 arrays in the program. The model idealises them all as exact reals.
