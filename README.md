# simple-inversion in Dafny

A model of `invert.py`, a script that turns RAW scans of a colour or black and
white negative film roll into positive 16-bit TIFF images. The files of a roll
are listed in sorted order. The first file is a flat-field: a frame of the
bare light source. The second is a half-exposed leader: film that is exposed
on its left part and unexposed (film base) on its right part. From these two
frames the script computes a crop box, a colour conversion matrix, and a base
and an exposed density per channel. Every later file is then:

- decoded to linear 16-bit camera RGB, cropped and colour converted;
- turned into densities `log10(flat / scan)` and rescaled so that base density
  is 0 and exposed density is 1;
- optionally reduced to a megapixel target;
- passed through the base curve `(10^(n*gamma) - 1) / (10^gamma - 1)`;
- cleaned (NaN becomes 0, values are clipped to `[0, 1]`), quantised to
  `uint16`, and written under `Inverted/<stem>.tiff`.

The model is split into modules:

- `Frames`: numpy arrays as nested sequences, with Python's clamped slicing.
- `Ext`: NaN, plus and minus infinity, and finite values. These are the IEEE
  special values a float computation passes on. Finite values are exact reals.
- `FieldCrop`: the crop mask, the `np.any` reductions, the `argmax` bounding
  box and the inclusive crop.
- `ColorConversion`: the choice of matrix and the exact-real conversion.
- `Calibration`: Python's `round`, the reference bands, the band means and
  the densities.
- `Normalize`: the per-sample rescaling, curve, clean-up and quantisation.
- `Files`: the glob, Python's `sorted` on names, and the output name.
- `Roll`: the resize plan, the calibration, the inversion of one scan, and the
  loop over the roll.

The model follows the code, including these behaviours of it that a reader
of the script might not expect:

- The crop mask is computed on the decoded 16-bit flat-field before colour
  conversion (`invert.py:74-88` run before `invert.py:101`).
- When the flat-field is black everywhere, the mask is empty. The `argmax`
  chain then gives the whole frame as the box, not a one-pixel box
  (`FieldCrop.DarkFrameKeepsWholeFrame`).
- With `gamma = 1` the base curve is `(10^n - 1) / 9`, not the identity. It
  fixes only 0 and 1 (`Normalize.CurveFixesEndpoints`).
- A scan sample of 0 under a lit flat-field sample has density `+inf`. When
  the reference densities are finite with the exposed density above the base
  density, `gamma` is positive and no resize is asked for, it is clipped to 1
  and written as white, 65535 (`Roll.ClearScanSampleIsWhite`). With a NaN
  reference density, as a leader two rows high gives
  (`Calibration.TwoRowLeaderGivesNaN`), the sample is written as 0 instead
  (`Normalize.NaNReferenceGivesBlack`).
- Black and white mode uses the weight vector `[1, 1, 1]`. The single channel
  is the sum of the three camera channels, not their mean
  (`ColorConversion.WeightsSumChannels`).
- A negative `--mp` gives `sqrt` of a negative number, which is NaN, and
  `round(nan)` raises. A zero-size frame divides by zero. The model turns both
  into calibration errors (`Roll.PlanResize`).
- The ProPhoto matrix uses the `rgb_xyz_matrix` of the last file opened before
  the conversion, which is the leader (`invert.py:71`, `invert.py:93`).
- The output stem follows `pathlib`: a name that starts with its only dot has
  no suffix. So `.CR3` and `.CR3.CR3` both write
  `Inverted/.CR3.tiff`, and the second overwrites the first
  (`Files.DotFileSharesOutput`).

## Model

| member | source | states |
|---|---|---|
| `Frames.Slice` | invert.py:87-88 | Python slicing with non-negative bounds: the length is clamped to the sequence, and entry `k` is entry `lo + k` |
| `Frames.SubFrameInBounds` | invert.py:87-88 | a slice inside an `h x w x c` array has the size of its ranges, and pixel `(i, j)` is pixel `(r0 + i, c0 + j)` |
| `Frames.SubFrameWhole` | invert.py:87-88 | slicing the full ranges gives the array back |
| `FieldCrop.MaxSum` | invert.py:75-76 | the result is at least every pixel's channel sum, and some pixel attains it |
| `FieldCrop.MaxSumIsTheMaximum` | invert.py:75-76 | any value that bounds every channel sum and is attained is `MaxSum` |
| `FieldCrop.MaskSelectsAboveHalfMax` | invert.py:75-76 | `CropMask`: with `m` the largest channel sum, the mask holds exactly the pixels whose sum `s` has `2 * s > m` (the integer form of `s > m / 2`) |
| `FieldCrop.MaskNonEmptyIffLit` | invert.py:75-76 | some pixel is selected if and only if the largest channel sum is positive; when it is 0, every sum is 0 |
| `FieldCrop.AnyTrueMeansSomeEntry` | invert.py:80 | the row reduction is true exactly when some entry is true |
| `FieldCrop.AnyInColumnMeansSomeRow` | invert.py:79 | the column reduction is true exactly when some row has `true` in that column |
| `FieldCrop.RowSummary` | invert.py:80 | `np.any(mask, axis=1)` has one entry per row, true exactly when the row holds a selected pixel |
| `FieldCrop.ColumnSummary` | invert.py:79 | `np.any(mask, axis=0)` has one entry per column, true exactly when the column holds a selected pixel |
| `FieldCrop.ArgMax` | invert.py:81 | `np.argmax` of a boolean vector is the first `true`, or 0 when there is none |
| `FieldCrop.LastTrue` | invert.py:82 | `len - 1 - argmax(v[::-1])` is the last `true`, or `len - 1` when there is none |
| `FieldCrop.BoxIsTight` | invert.py:79-84 | `FindBox`, the `argmax` chain on the mask: the box lies in the frame; when a pixel is selected, the box holds every selected pixel and each of its four edges touches one |
| `FieldCrop.DarkFrameKeepsWholeFrame` | invert.py:79-87 | a black flat-field gives the whole frame as its box, and the crop leaves the frame unchanged |
| `FieldCrop.CropShape` | invert.py:87-88 | `CropTo`, the inclusive crop: the crop has `rowMax - rowMin + 1` rows and `colMax - colMin + 1` columns, and its pixel `(i, j)` is pixel `(rowMin + i, colMin + j)` |
| `FieldCrop.CropKeepsMaximum` | invert.py:75-87 | a fitting box that holds every selected pixel keeps the brightest pixel, so the crop has the same largest channel sum |
| `FieldCrop.LitCropIsWhole` | invert.py:74-87 | the crop of a flat-field that is not black is its own bounding box |
| `FieldCrop.CropIsIdempotent` | invert.py:74-87 | cropping the cropped flat-field again with its own box changes nothing |
| `ColorConversion.ConversionMatrix` | invert.py:91-98 | `[1, 1, 1]` in black and white mode, the identity with `--processraw`, otherwise the ProPhoto chain; none exactly when ProPhoto is wanted and the camera matrix is singular |
| `ColorConversion.ConvertShape` | invert.py:101-102 | `Convert`, `f @ m.T`: converting an `h x w x c` frame with an `r x c` matrix gives an `h x w x r` frame |
| `ColorConversion.ConvertIdentity` | invert.py:96-102 | with `--processraw` the conversion leaves a three-channel frame unchanged |
| `ColorConversion.WeightsSumChannels` | invert.py:98-102 | in black and white mode a pixel becomes the single sample `r + g + b` |
| `ColorConversion.DotIsLinear` | invert.py:94 | the inner product is linear in its first argument |
| `ColorConversion.DotInterchange` | invert.py:94 | `u . (B p)` equals `(u B) . p`, the step behind the associativity of the product |
| `ColorConversion.ProductComposes` | invert.py:94 | applying the product `A @ B` to a pixel is applying `B`, then `A` |
| `ColorConversion.ProPhotoConversionChains` | invert.py:93-94 | the ProPhoto matrix maps a pixel as camera to XYZ, then Bradford D65 to D50, then XYZ to ProPhoto |
| `Calibration.Round` | invert.py:106-111 | Python's `round`: within a half of its argument, even on a tie, strictly inside the half otherwise |
| `Calibration.RoundIsUnique` | invert.py:106-111 | every integer within a half of `x`, and even when `x` is a tie, is `Round(x)` |
| `Calibration.RoundIsMonotone` | invert.py:106-111 | rounding keeps order |
| `Calibration.RoundSeparates` | invert.py:106-111 | values at least one apart, not both ties, round to different integers |
| `Calibration.BandsOf` | invert.py:105-111 | the band bounds are ordered: exposed band before base band inside the width, row band inside the height |
| `Calibration.ThirdsAreNoTies` | invert.py:110-111 | a third of an integer is never half-way between integers |
| `Calibration.RowBandEmptyIff` | invert.py:110-111 | the reference rows of a leader with `h >= 1` rows are empty exactly when `h == 2` |
| `Calibration.ColumnBandsEmptyIff` | invert.py:106-109 | both reference column bands of a leader with `w >= 1` columns are non-empty exactly when `w` is not 1, 3 or 4 |
| `Calibration.ChannelMean` | invert.py:124-127 | the mean of an empty band is NaN, and the mean of a non-empty band is finite |
| `Calibration.SumBounds` | invert.py:124-127 | a sum of `n` samples in `[lo, hi]` lies in `[n * lo, n * hi]` |
| `Calibration.MeanWithinBounds` | invert.py:124-127 | the mean of a non-empty band whose samples lie in `[lo, hi]` is finite and lies in `[lo, hi]` |
| `Calibration.MeanOfUniformRegion` | invert.py:124-127 | a non-empty band in which the channel is `v` everywhere has mean `v` |
| `Calibration.UniformBandMean` | invert.py:124-127 | `BandMeans`: a band of a frame in which channel `k` is `v` everywhere has mean `v` in that channel |
| `Calibration.UniformBandDensity` | invert.py:124-135 | `Densities` of the `BandMeans`: uniform bands `v0` on the flat-field and `v` on the leader give density `log10(v0 / v)` |
| `Calibration.UniformBandsGiveDensities` | invert.py:122-135 | with uniform bands, the base density is `log10(v0 / vb)` and the exposed density is `log10(v0 / ve)` in every channel |
| `Calibration.EmptyRowsHaveNoPixels` | invert.py:124-127 | a region whose rows are all empty has no pixels |
| `Calibration.EmptyBandDensity` | invert.py:124-135 | `Densities` of the `BandMeans`: an empty band gives a NaN density in every channel |
| `Calibration.EmptyBandGivesNaN` | invert.py:105-135 | when the row band or a column band is empty, that reference density is NaN in every channel |
| `Calibration.TwoRowLeaderGivesNaN` | invert.py:105-135 | a leader two rows high gives NaN base and exposed densities in every channel |
| `Calibration.MeasureReferences` | invert.py:122-135 | one base and one exposed density per channel of the leader |
| `Normalize.RescaleIsAffine` | invert.py:154 | `Rescale`: for finite references that differ, rescaling is `(d - base) / (exposed - base)`: base goes to 0, exposed to 1 |
| `Normalize.RescaleDegenerate` | invert.py:154 | equal references divide by zero: a density above them gives `+inf`, below gives `-inf`, equal gives NaN; cleaned this is white, black and black |
| `Normalize.NaNReferenceGivesBlack` | invert.py:154-163 | a NaN reference density makes every sample NaN, which is cleaned to 0 |
| `Normalize.Clean` | invert.py:162-163 | a cleaned sample lies in `[0, 1]` |
| `Normalize.CleanKeepsUnitValues` | invert.py:162-163 | values in `[0, 1]` are kept, negatives and `-inf` and NaN become 0, values above 1 and `+inf` become 1 |
| `Normalize.CurveFixesEndpoints` | invert.py:160 | `Curve`: the base curve maps 0 to 0 and 1 to 1 |
| `Normalize.ToUint16` | invert.py:169 | a cleaned sample is quantised into `[0, 65535]` |
| `Normalize.QuantisationKeepsOrder` | invert.py:169 | quantisation maps 0 to 0, 1 to 65535, and keeps order |
| `Normalize.InvertSample` | invert.py:153-163 | the per-sample inversion lies in `[0, 1]` |
| `Normalize.ZeroScanSampleIsWhite` | invert.py:153-163 | `SampleDensity`: a lit flat-field sample over a zero scan sample has density `+inf`, and the sample inverts to 1 |
| `Normalize.DarkFlatSampleIsBlack` | invert.py:153-163 | `SampleDensity`: a zero flat-field sample over a lit scan sample has density `-inf`, and the sample inverts to 0 |
| `Normalize.ClearFilmDensity` | invert.py:153-154 | `SampleDensity` and `Rescale`: a scan sample equal to the flat-field sample has density 0, which rescales to `-base / (exposed - base)` |
| `Normalize.CleanFrame` | invert.py:162-163 | cleaning keeps the layout and puts every sample in `[0, 1]` |
| `Normalize.QuantizeFrame` | invert.py:169 | quantisation keeps the layout and puts every sample in `[0, 65535]` |
| `Files.Glob` | invert.py:61 | the listing holds exactly the entries ending in `.` plus the extension, each as often as in the directory |
| `Files.LexLeIsTotal` | invert.py:61 | any two names are ordered one way or the other |
| `Files.LexLeIsAntisymmetric` | invert.py:61 | names ordered both ways are equal |
| `Files.LexLeIsTransitive` | invert.py:61 | the order on names is transitive |
| `Files.InsertKeepsOrder` | invert.py:61 | inserting into a sorted list keeps it sorted and adds exactly that name |
| `Files.SortNamesSorts` | invert.py:61 | `SortNames`, Python's `sorted`: sorting gives a sorted permutation of the names |
| `Files.SortedIsUnique` | invert.py:61 | two sorted permutations of the same names are equal |
| `Files.RollIsSortedMatches` | invert.py:61 | `RollFiles`: the roll is the sorted list of the matching files, whatever order the directory lists them in |
| `Files.LastDot` | invert.py:165 | the index of the last dot of a name, or -1 when there is none |
| `Files.StemStripsExtension` | invert.py:165 | `Stem`, `PurePath.stem`: the stem of a matching name is the name without `.` and the extension |
| `Files.OutputNamesDiffer` | invert.py:165 | `OutputName`: two different matching names with a non-empty stem write to different output files |
| `Files.DotFileSharesOutput` | invert.py:165 | `.CR3` and `.CR3.CR3` both match and both write `Inverted/.CR3.tiff` |
| `Roll.ScaleRatio` | invert.py:115 | the ratio is negative exactly when `--mp` is, and at least 1 exactly when the target is at least the frame's pixel count |
| `Roll.ScaledSide` | invert.py:119-120 | a side scaled by a factor in `[0, 1)` is neither negative nor longer than before |
| `Roll.PlanResize` | invert.py:113-120 | the plan fails exactly for a non-zero `--mp` with a zero side (division by zero) or a negative `--mp` (NaN root); it keeps the size exactly when `--mp` is 0 or the root is at least 1 |
| `Roll.RootAtLeastOne` | invert.py:115-116 | with the true square root, `sqrt(x) >= 1` exactly when `x >= 1` |
| `Roll.ShrinksOnlyBelowTarget` | invert.py:113-120 | with the true square root, the scans shrink exactly when a positive target is below the frame's pixel count |
| `Roll.ShrinkNeverEnlarges` | invert.py:116-120 | a shrink target is never wider or taller than the frame |
| `Roll.ChooseBox` | invert.py:74-84 | the crop box, when there is one, fits the frames of the roll |
| `Roll.Decoded` | invert.py:145-149 | a decoded frame cropped by a fitting box (`CropTo`, as for every scan) has the box's size, and each sample is the 16-bit sample at that place |
| `Roll.Converted` | invert.py:101-102 | the converted frame has the crop's size and one channel per matrix row, and each pixel is the matrix applied to the decoded pixel |
| `Roll.Measure` | invert.py:86-135 | the setup holds the given box and matrix, the flat-field cropped by that box and converted by that matrix, base and exposed densities measured on it and on the leader cropped and converted the same way, and the resize plan for the cropped size; only a negative `--mp` fails |
| `Roll.Calibrate` | invert.py:62-135 | fails exactly when ProPhoto output meets a singular camera matrix (reported first) or `--mp` is negative; otherwise the box is the flat-field's `FindBox` (or none with `--noautocrop`), the matrix is the one `ConversionMatrix` chooses, with one row in black and white mode and three otherwise, and the rest is what `Measure` gives for that box and matrix |
| `Roll.CalibratedShrinksOnlyBelowTarget` | invert.py:105-120 | with the true square root, the scans of a calibrated roll shrink exactly when a positive `--mp` target is below the pixel count of the cropped frame |
| `Roll.ZeroTargetKeepsSize` | invert.py:114-157 | with `--mp 0` the plan keeps the size, and no scan of the roll fails |
| `Roll.Normalized` | invert.py:151-154 | each sample of the scan is the rescaled density of the flat-field and scan samples at that place, in the crop's shape |
| `Roll.Develop` | invert.py:160-169 | curve, clean-up and quantisation keep the layout and put every sample in `[0, 65535]` |
| `Roll.InvertScan` | invert.py:143-169 | inverting one scan fails only when the resize target has an empty side; without a resize it is `Develop` of `Normalized`, and with one it is `Develop` of the resized `Normalized`, so the resize comes after the rescale and before the curve |
| `Roll.InvertedScanIsSixteenBit` | invert.py:160-169 | every sample of an inverted scan is a 16-bit value |
| `Roll.UnresizedScanIsPerSample` | invert.py:146-169 | without a resize the scan keeps the crop's shape, and each sample is the per-sample inversion at that place |
| `Roll.ClearScanSampleIsWhite` | invert.py:153-169 | without a resize, with finite references whose exposed density is above the base density, and with `gamma > 0`, a zero scan sample under a lit flat-field sample is written as 65535 |
| `Roll.UnlitSampleIsBlack` | invert.py:153-169 | under the same conditions, a lit scan sample under a zero flat-field sample is written as 0 |
| `Roll.InvertScans` | invert.py:143-177 | the scans are inverted in order and written under their output names, up to the first failure, whose error is the outcome |
| `Roll.InvertRoll` | invert.py:61-177 | fewer than two matching files is an error; then a failed calibration writes nothing; otherwise every scan after the first two is inverted as `InvertScans` says |

## Left out

- Command-line parsing (`invert.py:11-28`) is left out. The options reach the
  model as an `Options` value.
- The `--halfsize` option is left out, because it only changes the decoder
  (`invert.py:15`, `invert.py:52`).
- The ICC profiles, the TIFF encoding, the photometric tag and the ICC tag
  are not modelled (`invert.py:31-35`, `invert.py:166-177`). The model's
  output is the file name and the 16-bit array.
- `mkdir`, `np.seterr` and the progress prints are left out, because they do
  not change the data.
- The work of `rawpy` is left out. Reading and decoding a file, and the
  inverse of its `rgb_xyz_matrix`, are parameters of the `Camera` value.
  `Camera.Valid` states what the model assumes of them: every file of the roll
  decodes to the same `height x width x 3` shape, and the inverse is a `3 x 3`
  matrix or none.
- `np.log10`, `np.power(10, .)`, `np.sqrt` and `cv2.resize` are parameters of
  the `Library` value. Only the special values of `log10` and `power` are
  modelled: `log10(0) = -inf`, `log10` of a negative is NaN,
  `10^(-inf) = 0`, and so on.
  - The pixel-area algorithm of `cv2.resize` is not modelled.
  - `Roll.ShrinksOnlyBelowTarget` and `Roll.RootAtLeastOne` assume an exact
    square root.
  - A failure of `cv2.resize` other than an empty target is not modelled.
- Floating point is modelled as exact reals, so rounding error is not
  modelled:
  - The colour matrices and their products are exact.
  - The crop threshold `np.max(...)/2` is the exact integer test
    `2 * s > max`, which is what the float comparison computes for these
    sums.
  - Signed zero is not modelled: a division by zero has a `+0` denominator,
    as the differences of equal values give.
- A frame of the same roll with a different size is left out, and so is an
  empty decoded frame; `Camera.Valid` rules both out. In the source a scan that
  contains the crop box is cut to the flat-field's shape by the crop
  (`invert.py:149`) and is inverted without error. Otherwise `flat / scan`
  (`invert.py:153`) follows numpy's broadcasting rules. A crop or scan with
  a side of length 1 where the flat-field's is longer, or the other way
  round, is broadcast along that side and inverted. A crop or scan whose
  shape does not broadcast against the flat-field's makes numpy raise there.
  An empty frame makes `np.max` raise.
- Directory entries that are not files but match the pattern are left out.
  So are glob metacharacters inside the extension, the Windows separator in
  `str(Path("/"))`, and I/O errors.
- The options `--gamma` and `--mp` are reals in the model, so NaN or infinite
  option values are not modelled.
- In black and white mode the source drops the channel axis (it checks
  `bw.ndim == 3`, `invert.py:123-132`). The model keeps a channel axis of one
  channel, which gives the same means and densities.
- `Frames.Map`, `Normalize.DensityFrame`, `Normalize.RescaleFrame` and
  `Normalize.CurveFrame` are element-wise maps. Their contracts state the
  element-wise value, and the properties of those maps are stated on the
  sample functions they map and through `Roll.Normalized` and
  `Roll.UnresizedScanIsPerSample`.
- `Roll.InvertScans` and `Roll.InvertRoll` return the written files as a
  sequence instead of writing them. A later file with the same output name
  overwrites an earlier one on disk, which the sequence shows as two entries.
