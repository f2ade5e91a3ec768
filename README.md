# FALCON-Net demo core in Dafny

FALCON-Net is a Streamlit teaching demo about adversarial robustness. Around
its pages sit three small pieces of arithmetic, and this project models each
one and proves its properties:

- **The simulated attack** (`apply_attack`, attacks.py). It scales an 8-bit
  image into [0, 1] and adds a noise grid. It then clips the sum back into
  [0, 1], rescales to 0..255 and truncates to `uint8`. The modes are:
  - "FGSM": one random sign per channel value, times `strength / 255`.
  - "PGD": ten steps of size `strength / 10`, each clipped to
    ±`strength / 255`.
  - "None" and every unrecognised string: no noise.

  No model or gradient is involved. The random source is a parameter here:
  `draws` holds the ten sign grids it would yield, in order. FGSM uses the
  first one.
- **The pixel-difference metrics** (image_utils.py). `compute_mse` is the mean
  squared difference of the raw 0..255 values. The heatmap's grid is the
  per-pixel mean, over the channels, of the absolute differences.
- **The rigged nearest-prototype decision** (prototypical_page.py). The query
  class's distance is overwritten to undercut the closest other class, and
  then the first minimum is taken.

Modules:
- `Grids` (grids.dfy) holds the image representation: height × width ×
  channels as nested sequences, element-wise `Map`/`Zip`, and sums.
- `Attacks` (attacks.dfy) holds the attack. The PGD loop is a method, proved
  against the fold `PgdAfter`.
- `ImageUtils` (image_utils.dfy) holds the two metrics.
- `Prototype` (prototypical.dfy) holds the classification rule. The in-place
  overwrite and the `np.argmin` scan are methods over a sequence.

Where the code and its documentation disagree, the model follows the code:
- `compute_mse`'s docstring says the result is "normalized to [0, 1]". No
  scaling happens: `ImageUtils.MseAtMost` bounds the result by 255², and
  `ImageUtils.MseReachesMax` shows that bound is reached.
- Mismatched image shapes raise no explicit error. The docstrings only say
  the images "must have the same dimensions", and the model requires that.

Two further facts of the code that the model follows:
- The output of the attack is truncated to `uint8`, not rounded
  (`Attacks.ToByte`).
- The PGD step is `strength / 10`, while the bound is `strength / 255`.
  Because the step is at least twice the bound, every step saturates the clip
  (`Attacks.PgdEntrySaturates`).

## Model

| member | source | states |
|---|---|---|
| `Attacks.Normalize` | attacks.py:38 | A byte maps into [0, 1], and the result times 255 is the byte again |
| `Attacks.Normalized` | attacks.py:38 | The scaled array has the image's shape, and each entry times 255 is the original channel value |
| `Attacks.Clip` | attacks.py:53-54 | `np.clip`: the result lies within the bounds when lo ≤ hi, equals x when x is already inside, and equals hi when the bounds are inverted |
| `Attacks.ClipIdempotent` | attacks.py:54 | Clipping twice into the same bounds equals clipping once, for any bounds |
| `Attacks.ToByte` | attacks.py:58-59 | Clip, scale and `uint8` truncation always give a value in 0..255; input ≤ 0 gives 0 and input ≥ 1 gives 255; for x in [0, 1] the result is 255·x truncated (r ≤ 255·x < r + 1), not rounded |
| `Attacks.ByteRoundTrip` | attacks.py:58-59 | Scaling a byte into [0, 1] and converting it back returns the same byte (over the reals) |
| `Attacks.NoiseDirection` | attacks.py:58-59 | Non-negative noise never lowers a channel value; non-positive noise never raises it |
| `Attacks.NoiseMovesAtMost` | attacks.py:58-59 | Noise of magnitude at most s/255 moves a byte up by at most s and down by less than s + 1 |
| `Attacks.Zeros` | attacks.py:40-41 | The "None" noise has the image's shape and is zero everywhere |
| `Attacks.FgsmNoise` | attacks.py:42-45 | FGSM noise has the shape of the drawn grid, and each entry is strength/255 times the sign drawn for it |
| `Attacks.ClipAll` | attacks.py:54 | Element-wise clip: same shape, each entry clipped |
| `Attacks.PgdStep` | attacks.py:52-53 | One PGD iteration keeps the shape and updates each entry from only that entry and its own sign |
| `Attacks.PgdAfter` | attacks.py:48-53 | The noise after n iterations, starting from zeros, has the image's shape |
| `Attacks.AttackNoise` | attacks.py:40-56 | The noise of every mode, including unrecognised strings, has the image's shape |
| `Attacks.Perturb` | attacks.py:58-59 | The output keeps the input's shape and holds only values in 0..255 |
| `Attacks.PgdNoise` | attacks.py:48-54 | The ten-iteration loop with its final clip returns exactly the fold `PgdAfter` after 10 steps, so the final clip changes nothing |
| `Attacks.ApplyAttack` | attacks.py:16-59 | The returned image equals `Attack` for the given mode, strength and draws; it has the input's dimensions and channel count and is a valid 8-bit image |
| `Attacks.PgdAfterEntry` | attacks.py:51-53 | Entry (i, j, k) of the PGD noise after n iterations is the one-entry fold over the signs drawn at (i, j, k) only |
| `Attacks.PgdEntryBounded` | attacks.py:50-53 | Loop invariant: for strength ≥ 0, every entry stays in [-strength/255, strength/255] after every iteration |
| `Attacks.PgdEntrySaturates` | attacks.py:49-53 | For strength > 0 (so alpha ≥ 2·epsilon), each entry ends as epsilon times the last non-zero sign drawn for it, or 0 if every sign was 0 |
| `Attacks.PgdEntryNegativeStrength` | attacks.py:49-53 | A negative strength, which is never validated, inverts the clip bounds: every entry becomes epsilon = strength/255 < 0 after the first iteration |
| `Attacks.FinalClipUnchanged` | attacks.py:54 | The clip after the loop leaves the ten-iteration noise unchanged, whatever the strength |
| `Attacks.PgdNoiseBounded` | attacks.py:48-54 | For strength ≥ 0, every entry of the PGD noise lies in [-strength/255, strength/255] |
| `Attacks.PgdNoiseSaturated` | attacks.py:48-54 | For strength > 0, every entry of the PGD noise is ±strength/255 according to its last non-zero sign, or 0 |
| `Attacks.PerturbKeepsImage` | attacks.py:58-59 | Any same-shaped noise gives an output with the input's dimensions and channel count and only 8-bit values |
| `Attacks.ZeroNoiseKeepsImage` | attacks.py:58-59 | All-zero noise returns the input image exactly (over the reals) |
| `Attacks.UnperturbedModes` | attacks.py:40-58 | For "None" and every string other than "FGSM" and "PGD", the output equals the input |
| `Attacks.ZeroStrengthKeepsImage` | attacks.py:44-59 | With strength 0, every mode adds all-zero noise and returns the input unchanged |
| `Attacks.AttackNoiseBounded` | attacks.py:44-54 | For strength ≥ 0, the noise of every mode lies in [-strength/255, strength/255] |
| `Attacks.AttackStaysNear` | attacks.py:38-59 | For strength ≥ 0, every output channel is at most strength above the input and less than strength + 1 below it |
| `Attacks.AttackFollowsNoiseSign` | attacks.py:58-59 | Where the noise is ≥ 0 the output channel is never below the input; where it is ≤ 0 it is never above |
| `ImageUtils.SquaredDiffs` | image_utils.py:53 | The squared differences have the images' shape, are non-negative, and an entry is 0 exactly when the two channel values are equal |
| `ImageUtils.Mse` | image_utils.py:37-53 | The mean squared error is NaN (`None`) exactly for an empty array, and otherwise non-negative |
| `ImageUtils.MseSelf` | image_utils.py:51-53 | An image compared with itself has error 0 |
| `ImageUtils.MseSymmetric` | image_utils.py:53 | `compute_mse(a, b) == compute_mse(b, a)` |
| `ImageUtils.MseZeroIff` | image_utils.py:53 | For non-empty images, the error is 0 exactly when every channel of every pixel is equal |
| `ImageUtils.MseAtMost` | image_utils.py:48-53 | For 8-bit images the error is at most 255² = 65025, because no normalisation is applied |
| `ImageUtils.MseReachesMax` | image_utils.py:48-53 | The bound is reached: a white and a black one-pixel image have error 65025, so the docstring's [0, 1] range does not hold |
| `ImageUtils.AbsDiffs` | image_utils.py:79 | `np.abs(arr1 - arr2)` for one pixel: same length, each entry the absolute difference |
| `ImageUtils.DifferenceGrid` | image_utils.py:77-79 | One value per pixel, with the inputs' height and width; each value is the channel mean of the absolute differences |
| `ImageUtils.ChannelMeanRange` | image_utils.py:79 | The channel mean of two 8-bit pixels lies in [0, 255] and is 0 exactly when the pixels are equal |
| `ImageUtils.DifferenceGridRange` | image_utils.py:79 | Every grid entry lies in [0, 255] and is 0 exactly where the two images have the same pixel |
| `ImageUtils.DifferenceGridSelf` | image_utils.py:79 | An image compared with itself gives an all-zero grid |
| `ImageUtils.DifferenceGridSymmetric` | image_utils.py:79 | The grid is the same with the two images swapped |
| `Prototype.Min` | prototypical_page.py:119 | Python's `min`: the result occurs in the list and is ≤ every element |
| `Prototype.Others` | prototypical_page.py:119 | The comprehension drops exactly the query class and keeps the others in order |
| `Prototype.MinOther` | prototypical_page.py:119 | `min_other` is some other class's distance and ≤ every other class's distance |
| `Prototype.Adjusted` | prototypical_page.py:120 | The overwrite keeps the list's length, leaves every other class's distance unchanged, and gives the query class `min_other - 0.01` when `min_other > 0.01`, else 0.0 |
| `Prototype.Argmin` | prototypical_page.py:121 | `np.argmin`: the index of a least distance, and the first such index |
| `Prototype.Classify` | prototypical_page.py:119-121 | Fails (`min` of an empty list) exactly when there are fewer than two classes; otherwise the distances are the overwritten list and the prediction is its first minimum |
| `Prototype.AdjustedQueryClosest` | prototypical_page.py:116-120 | For non-negative distances, the query class's new distance is non-negative and ≤ every distance in the list |
| `Prototype.PositiveMinPredictsQuery` | prototypical_page.py:119-121 | When the smallest other distance is > 0, the predicted index is the query class |
| `Prototype.RigFailsOnEarlierZero` | prototypical_page.py:117-121 | For non-negative distances, the query class is predicted exactly when no earlier class is at distance 0; otherwise the first such earlier class is predicted |
| `Prototype.TieExample` | prototypical_page.py:117-121 | Distances [0.0, 0.5] with query class 1 become [0.0, 0.0], and class 0 is predicted |
| `Prototype.AdjustedStrict` | prototypical_page.py:117-120 | The corrected overwrite, always 0.01 below the closest other class, puts the query class strictly below every other class |
| `Prototype.StrictRigPredictsQuery` | prototypical_page.py:117-121 | With the corrected overwrite, the predicted index is always the query class |
| `Prototype.IndexOf` | prototypical_page.py:118 | `char_names.index(query_char)`: the first position holding the query name |
| `Prototype.PredictLabel` | prototypical_page.py:118-122 | Labels follow `char_names` order (lines 86-89, 94). There is no label with fewer than two classes; otherwise the label is the name at the first minimum of the overwritten distances, and it is the query's own name whenever every other class is at a positive distance |

## Left out

- Floating point. All arithmetic is over `real`, not float32. In particular:
  - `x / 255 * 255` is exact here. The identity of the "None" mode
    (`Attacks.ZeroNoiseKeepsImage`) is proved only over the reals; float32
    rounding is not modelled.
  - `min_other - 0.01` is exact, and NaN distances are not modelled.
- The random number generator. `np.random.uniform` is replaced by the
  `draws` parameter, so the model says nothing about the distribution of the
  noise. A drawn sign may be 0, as `np.sign` allows.
- PIL conversions (`np.array(image)`, `Image.fromarray`). Images are modelled
  as 3-D height × width × channels arrays of bytes with at least one channel.
  A 2-D greyscale array, on which `mean(axis=2)` raises, is not modelled.
- Mismatched shapes. Numpy's broadcasting of arrays with different shapes in
  `compute_mse` and `compute_difference_heatmap` is not modelled; both
  require same-shaped images.
- `load_sample_characters`, because it reads image files from disk.
- The matplotlib heatmap figure, the PCA projection and every Streamlit page,
  widget and session state, because they are presentation code and foreign
  libraries.
- The mock embedding and `np.linalg.norm`, because they depend on PIL
  resizing and a square root over floats. The distances are inputs.
- The Keras network builders and intermediate-layer predictions, because they
  are foreign library calls.
- The static metrics table and its pandas filtering, because they are fixed
  data plus library calls.
- The callers' guard `attack_type != "None" and strength > 0`, because it is
  UI branching outside the core.
- The default arguments of `apply_attack` (`attack_type="FGSM"`,
  `strength=10.0`, attacks.py:16). Every caller passes both, so
  `Attacks.ApplyAttack` takes them as ordinary parameters.

## Findings

| source | as written | input that shows it | evidently intended | confidence | as-written member | corrected member |
|---|---|---|---|---|---|---|
| prototypical_page.py:117-121 | The query class's distance becomes 0.0 whenever the closest other class is at most 0.01 away, and `np.argmin` keeps the first of tied minima | distances [0.0, 0.5] with query class 1 (a support image equal to the query placed in an earlier class): the list becomes [0.0, 0.0] and class 0 is predicted | the query class is always predicted, as the comment at line 117 says | medium; not executed | `Prototype.RigFailsOnEarlierZero` | `Prototype.StrictRigPredictsQuery` |
