# sxrd-tiff-summer: a Dafny model of the image-averaging core

The Python tools in this repository average series of synchrotron X-ray diffraction
(SXRD) images stored as numbered `.tif`/`.tiff` files. A measurement grid `shape_x`
points wide is scanned row after row. Grid point `(x, y)` is stored in the file whose
name carries the zero-padded number `(x + 1) + y * shape_x`.

This project models and proves properties of:

- **`avg_tiff_images_grid`**, the grid driver. For each sample, given as a sample
  number with a start and an end point, it walks the inclusive rectangle between the
  two points, y outer and x inner. It renders each point's file number as a
  five-digit token. Every listed path that contains the token is appended to the
  sample's provenance list and added pixel by pixel into an `int32` accumulator.
  The accumulator is then divided by the number of contributing images and cast
  back to `int32`. The driver writes the averaged image and a manifest: a header
  line, then one line per contributing path.
- **`plot_grid_points`**, which builds the interleaved start/end coordinate lists.
- **`grid_tiff_intensity`**, integer part: one maximum per image, their minimum and
  maximum as colour limits, and the reshape of the list onto the grid.
- **`get_experiment_numbers`**, which is `range(start, end + 1, step)`.
- **`avg_tiff_images`**, which averages every image of one folder.
- **`multiple_avg_tiff_images`**, which makes one such call per experiment number.

## How the model represents the program

- **Images.** An image is its flattened pixel sequence (`seq<int>`). A listing entry
  (`ImageFile`) is a sorted directory path together with the pixels the image codec
  would read from it.
- **No classes.** Nothing in the source is an object with fields. The numpy
  accumulators are rebound, not updated in place.
- **Loops.** Every Python loop is a Dafny `method` with a `while` loop. Its
  invariants tie the loop state to a specification function: `Accumulated`,
  `MatchesOf`, `RegionMatches`, `ManifestLines`. The properties are proved about
  those functions.
- **The `int32` accumulator.** It wraps around modulo 2^32 at every addition
  (`Wrap32`, `AddInt32`), as it does for the integer image types of 8 and 16 bits and
  for `int32` images (see "Left out" for wider types). `AccumulateStep` shows that this equals wrapping the exact
  sum once.
- **Division and cast.** `image_array / n` followed by `astype('int32')` truncates
  the real quotient toward zero (`TruncDiv`). This is not Dafny's Euclidean `/` and
  not Python's floor `//`.
- **Failures.** Outcomes are `Result`/`Option` values. Each carries the exception the
  code raises: `IndexError` for `image_list[1]`, `ValueError` for `range` with step 0,
  for `np.max` of an empty image, for `min` of an empty list and for a bad `reshape`.

### Behaviour of the code worth knowing

- **Token matching.** The token is searched for in the whole path string
  (`str(image_path).find(...)`), including its directories (`SubstringLookupAmbiguity`).
  Every matching path is added; the scan carries on after a match.
- **Overflow.** For images whose pixel type promotes with `int32` to `int32`, the
  accumulator stays `int32`, and each addition wraps around modulo 2^32.
- **Empty region.** When no path matches, nothing is raised: numpy divides by zero and
  the cast result is unspecified. The model records the average as `None`.
- **Short listing.** Both averaging routines read `image_list[1]` before the loop, so a
  listing of fewer than two images raises `IndexError` (`IndexOutOfRange`). The grid
  driver raises it only when there is a sample to process.
- **A failure ends the run.** No exception is caught. In `multiple_avg_tiff_images`,
  the first failing folder stops the loop, after the images of all earlier numbers
  have been written (`MultipleAvgTiffImages` returns both).

## Model

| member | source | states |
|---|---|---|
| `GridAddress.FileNumber` | sxrd_tiff_mapper_functions.py:216-217 | definition of `tiff_number = (x+1) + (y*width)`; its properties are `FileNumberInRange`, `FileNumberInjective`, `GridPointOfFileNumber` and `FileNumberOfGridPoint` |
| `GridAddress.FileNumberInRange` | sxrd_tiff_mapper_functions.py:216-217 | every point of a `width` by `height` grid has a file number in `[1, width*height]` |
| `GridAddress.FileNumberInjective` | sxrd_tiff_mapper_functions.py:216-217 | distinct grid points with in-range x have distinct file numbers |
| `GridAddress.GridPointOfFileNumber` | sxrd_tiff_mapper_functions.py:217 | dividing `n - 1` by the width recovers the point from its file number |
| `GridAddress.FileNumberOfGridPoint` | sxrd_tiff_mapper_functions.py:217 | every file number has a preimage `GridPoint(n)` with `0 <= x < width`, inside the grid for numbers in `[1, width*height]` (uniqueness is `FileNumberInjective`) |
| `GridAddress.RowNumbers` | sxrd_tiff_mapper_functions.py:214-217 | the inner loop visits `Extent(x0, x1)` points; the i-th has file number `FileNumber(x0 + i, y)` |
| `GridAddress.RegionNumbers` | sxrd_tiff_mapper_functions.py:213-217 | definition: the file numbers in the order the two loops visit them, y outer and x inner; its properties are `RegionNumbersStep`, `RegionLength`, `RegionMembership`, `RegionUpperBound`, `RegionStrictlyIncreasing` and `SinglePointRegion` |
| `GridAddress.RegionNumbersStep` | sxrd_tiff_mapper_functions.py:213-214 | one more row of the outer loop appends exactly that row's numbers |
| `GridAddress.RegionLength` | sxrd_tiff_mapper_functions.py:213-214 | the region has `(x1-x0+1)*(y1-y0+1)` numbers, or none when either range is empty |
| `GridAddress.RegionMembership` | sxrd_tiff_mapper_functions.py:213-217 | a number is in the region exactly when it is the file number of a point of the inclusive rectangle |
| `GridAddress.RegionUpperBound` | sxrd_tiff_mapper_functions.py:213-217 | with in-range x, no number exceeds the end point's file number |
| `GridAddress.RegionStrictlyIncreasing` | sxrd_tiff_mapper_functions.py:213-217 | with in-range x the numbers come out strictly increasing, so none repeats |
| `GridAddress.SinglePointRegion` | sxrd_tiff_mapper_functions.py:213-214 | a region whose start equals its end yields exactly one number |
| `GridAddress.ThreeWideSquareExample` | sxrd_tiff_mapper_functions.py:213-217 | on a grid 3 wide, the square (0,0)..(1,1) is files 1, 2, 4, 5 in that order |
| `Decimal.Digits` | sxrd_tiff_mapper_functions.py:218 | decimal digits of `n`, at least one, no leading zero |
| `Decimal.PadZeros` | sxrd_tiff_mapper_functions.py:218 | left-padding to the width: length `max(|s|, w)`, the original digits last, zeros before |
| `Decimal.Format05` | sxrd_tiff_mapper_functions.py:218 | `f"{n:05}"` is at least 5 characters long |
| `Decimal.ParseDigitsOfDigits` | sxrd_tiff_mapper_functions.py:218 | the decimal digits of `n` read back as `n` |
| `Decimal.Format05RoundTrip` | sxrd_tiff_mapper_functions.py:218 | the token of a non-negative number is all digits and reads back as the number |
| `Decimal.Format05FiveDigits` | sxrd_tiff_mapper_functions.py:218 | for `0 <= n < 100000` the token is exactly five digits and reads back as `n` |
| `Decimal.Format05Negative` | sxrd_tiff_mapper_functions.py:218 | a negative number's token is '-' and the digits of its magnitude |
| `Decimal.Format05Injective` | sxrd_tiff_mapper_functions.py:218 | distinct file numbers have distinct tokens |
| `Decimal.FindFrom` | sxrd_tiff_mapper_functions.py:222 | the search from `i` returns the first occurrence at or after `i`, or -1 when there is none |
| `Decimal.Find` | sxrd_tiff_mapper_functions.py:222 | `str.find` returns the lowest index of an occurrence, or -1 when there is none |
| `Decimal.FindIsContains` | sxrd_tiff_mapper_functions.py:222 | `find(...) != -1` holds exactly when the token occurs in the path |
| `Mapper.MatchesOf` | sxrd_tiff_mapper_functions.py:221-223 | the entries appended for one token are listing entries whose paths contain it, never more than the listing holds |
| `Mapper.MatchesOfConcat` | sxrd_tiff_mapper_functions.py:221-223 | matching keeps listing order: the matches in `a + b` are those in `a`, then those in `b` |
| `Mapper.MatchesOfMultiplicity` | sxrd_tiff_mapper_functions.py:221-223 | each entry is appended as often as it occurs in the listing when it matches, and never otherwise |
| `Mapper.MatchesOfEmpty` | sxrd_tiff_mapper_functions.py:221-223 | a token adds nothing exactly when no path contains it (silent skip) |
| `Mapper.MatchesOfUnique` | sxrd_tiff_mapper_functions.py:221-223 | with a single matching entry, exactly that entry is appended |
| `Mapper.RegionMatches` | sxrd_tiff_mapper_functions.py:213-223 | definition of the provenance list: the matches of each number's token, number after number; its properties are `RegionMatchesConcat`, `RegionMatchesLength` and `SinglePointProvenance`, and `CollectSample` proves the loops build it |
| `Mapper.RegionMatchesConcat` | sxrd_tiff_mapper_functions.py:213-223 | the provenance list of `a + b` is that of `a` followed by that of `b` |
| `Mapper.RegionMatchesLength` | sxrd_tiff_mapper_functions.py:221-223 | each number adds exactly its number of matches, at most `|numbers|*|listing|` in all |
| `Mapper.SinglePointProvenance` | sxrd_tiff_mapper_functions.py:213-223 | a one-point region whose number matches a single path contributes exactly that path |
| `Mapper.SubstringLookupAmbiguity` | sxrd_tiff_mapper_functions.py:218-222 | the path `000012.tif` carries the tokens of both file 1 and file 12 |
| `Mapper.AppendMatches` | sxrd_tiff_mapper_functions.py:221-224 | the scan for one token appends exactly `MatchesOf(token, listing)` and adds exactly those images into the accumulator |
| `Mapper.CollectRow` | sxrd_tiff_mapper_functions.py:214-224 | one row appends the matches of the row's numbers, in x order, and the accumulator holds the `int32` sum over the provenance so far |
| `Mapper.CollectSample` | sxrd_tiff_mapper_functions.py:209-224 | starting from zeros, the provenance is the matches of the region's numbers in loop order, and the accumulator is the `int32` sum over exactly that list |
| `Mapper.ManifestHeader` | sxrd_tiff_mapper_functions.py:254 | definition of the header line around the sample number; `ManifestRoundTrip` and `WriteManifest` place it first |
| `Mapper.ManifestLines` | sxrd_tiff_mapper_functions.py:254-258 | definition of the manifest's contents; `ManifestRoundTrip` states its shape and `WriteManifest` proves the write loop produces it |
| `Mapper.ManifestRoundTrip` | sxrd_tiff_mapper_functions.py:251-258 | the manifest is the header then one line per provenance entry, in order; stripping the newlines gives back the paths |
| `Mapper.WriteManifest` | sxrd_tiff_mapper_functions.py:254-258 | the lines written are the header followed by each provenance path with `\n` |
| `Mapper.SampleFolder` | sxrd_tiff_mapper_functions.py:233 | definition of `f"{output_filepath}sample_{sample_number}/"`; `SampleFoldersDistinct` states that it is injective |
| `Mapper.SampleFoldersDistinct` | sxrd_tiff_mapper_functions.py:233 | different sample numbers get different output folders |
| `Mapper.SampleOutputOf` | sxrd_tiff_mapper_functions.py:208-249 | definition of one sample's outputs: the provenance `RegionMatches`, the average over it, the manifest and the paths of lines 244 and 249; `AverageSample` is proved to compute it |
| `Mapper.AverageSample` | sxrd_tiff_mapper_functions.py:208-258 | one sample's output: its provenance, the truncated average over exactly that list (none when empty), the manifest and both output paths |
| `Mapper.Zip3` | sxrd_tiff_mapper_functions.py:205 | `zip` of the three lists has the shortest list's length and pairs entries position by position |
| `Mapper.MapSeq` | sxrd_tiff_mapper_functions.py:205-259 | one result per sample, in sample order |
| `Mapper.GridOutputs` | sxrd_tiff_mapper_functions.py:205-259 | definition of the driver's outputs, `SampleOutputOf` of each zipped sample; `GridOutputsAt` states it position by position and `AvgTiffImagesGrid` is proved to compute it |
| `Mapper.GridOutputsAt` | sxrd_tiff_mapper_functions.py:205-259 | output `k` of the grid is the output of the `k`-th sample number with the `k`-th start and end points |
| `Mapper.AvgTiffImagesGrid` | sxrd_tiff_mapper_functions.py:183-259 | fails with `IndexOutOfRange` exactly when there is a sample and fewer than two listed images; otherwise returns the outputs of all zipped samples in order |
| `Mapper.GridAverageExample` | sxrd_tiff_mapper_functions.py:213-229 | worked example: files 1, 2, 4, 5 of constant values 10, 20, 30, 40 average to 25 |
| `Mapper.PlotGridPoints` | sxrd_tiff_mapper_functions.py:156-164 | `x_points = [s0.x, e0.x, s1.x, e1.x, ...]` and `y_points` likewise, both of length `2*min(|starts|, |ends|)` |
| `Mapper.Max` | sxrd_tiff_mapper_functions.py:83 | `np.max`/`max` bounds every element and is one of them |
| `Mapper.Min` | sxrd_tiff_mapper_functions.py:90 | `min` is at most every element and is one of them |
| `Mapper.Reshape` | sxrd_tiff_mapper_functions.py:95-97 | `reshape((rows, cols))` succeeds exactly when the dimensions are positive with product `|xs|`; cell `(i, j)` holds entry `i*cols + j` |
| `Mapper.GridTiffIntensity` | sxrd_tiff_mapper_functions.py:79-97 | one maximum per image in listing order, `v_min`/`v_max` their min and max, the map their reshape; otherwise the exception raised first |
| `Mapper.IntensityLimits` | sxrd_tiff_mapper_functions.py:90-91 | the colour limits bound every maximum and are attained |
| `Mapper.MaxMapAddressing` | sxrd_tiff_mapper_functions.py:95-97 | the reshaped map puts file `n`'s maximum at the grid point of file number `n` |
| `Pixels.Zeros` | sxrd_tiff_mapper_functions.py:210 | definition of `np.zeros(shape, dtype='int32')` for `n` pixels; `AccumulatedOfNone` states that it is the accumulator of no images |
| `Pixels.Wrap32` | sxrd_tiff_mapper_functions.py:224 | storing in an `int32` yields a value in range that differs from the exact one by a multiple of 2^32 |
| `Pixels.AddInt32` | sxrd_tiff_mapper_functions.py:224 | definition of `image_array + image` on an `int32` accumulator, pixel by pixel with `Wrap32`; `AccumulateStep` relates it to `Accumulated` |
| `Pixels.Accumulated` | sxrd_tiff_summer_functions.py:61-64 | definition of the accumulator after a list of images: each pixel's exact sum, wrapped once; its properties are `AccumulateStep`, `AccumulatedIsExactSum` and `AveragePermutation` |
| `Pixels.WrapAdd` | sxrd_tiff_mapper_functions.py:224 | wrapping after every addition equals wrapping the exact sum once |
| `Pixels.WrapIdentity` | sxrd_tiff_mapper_functions.py:224 | values inside the `int32` range are stored unchanged |
| `Pixels.AccumulateStep` | sxrd_tiff_mapper_functions.py:224 | adding an image to the accumulator of a list gives the accumulator of the list extended by it |
| `Pixels.AccumulatedIsExactSum` | sxrd_tiff_summer_functions.py:61-64 | when no partial sum leaves the `int32` range, each pixel is the exact sum over the images |
| `Pixels.PixelSumConcat` | sxrd_tiff_summer_functions.py:63-64 | the pixel sum over `s + t` is the sum over `s` plus the sum over `t` |
| `Pixels.PixelSumPermutation` | sxrd_tiff_summer_functions.py:63-64 | the pixel sum depends only on the multiset of images |
| `Pixels.AveragePermutation` | sxrd_tiff_summer_functions.py:63-68 | the averaged image does not depend on the order of the images |
| `Pixels.PixelSumOfConstant` | sxrd_tiff_summer_functions.py:63-64 | summing N images of constant pixel `v` gives `N*v` |
| `Pixels.TruncDiv` | sxrd_tiff_mapper_functions.py:227-229 | `int(s / d)` truncates toward zero: `q*d <= s < q*d + d` for `s >= 0`, `q*d - d < s <= q*d` for `s < 0` |
| `Pixels.Finalise` | sxrd_tiff_mapper_functions.py:227-229 | definition of `(image_array / count).astype('int32')` as `TruncDiv` per pixel; `FinaliseInInt32` states that the cast cannot overflow |
| `Pixels.Average` | sxrd_tiff_summer_functions.py:61-68 | definition of `Finalise` after `Accumulated`; its properties are `AveragePermutation` and `AverageOfConstant` |
| `Pixels.TruncDivOfMultiple` | sxrd_tiff_summer_functions.py:66-68 | dividing `d*v` by `d` gives `v` exactly, whatever the sign |
| `Pixels.AverageOfConstant` | sxrd_tiff_summer_functions.py:66-68 | averaging identical constant images returns that constant when the sum stays in `int32` |
| `Pixels.FinaliseInInt32` | sxrd_tiff_summer_functions.py:68 | the final cast cannot overflow: every averaged pixel lies in the `int32` range |
| `Pixels.TruncationExamples` | sxrd_tiff_mapper_functions.py:227-229 | 100/4 gives 25, 2.9 gives 2, and -2.9 gives -2 where floor division gives -3 |
| `Summer.PyRange` | sxrd_tiff_summer_functions.py:20 | `range` is the progression `start + k*step` strictly short of `stop`, and the next value would reach `stop` |
| `Summer.ExperimentNumbers` | sxrd_tiff_summer_functions.py:18-21 | step 0 raises; otherwise entry `k` is `start + k*step` |
| `Summer.ExperimentNumbersShape` | sxrd_tiff_summer_functions.py:20 | with step > 0: non-empty exactly when `start <= end`, starts at `start`, steps by `step`, stays within `start..end` |
| `Summer.ExperimentNumbersLength` | sxrd_tiff_summer_functions.py:20 | with step > 0 the length is `(end-start)/step + 1` when `start <= end`, else 0 |
| `Summer.ExperimentNumbersIncludeEnd` | sxrd_tiff_summer_functions.py:20 | with step > 0, `end` is included exactly when `start <= end` and `(end-start) % step == 0` |
| `Summer.ExperimentNumbersNegativeStep` | sxrd_tiff_summer_functions.py:20 | with step < 0 the numbers count down from `start`, stay above `end + 1`, and never include `end` |
| `Summer.SummedPath` | sxrd_tiff_summer_functions.py:82 | definition of `f"{output_filepath}{experiment_number}_summed1.tiff"`; `AvgTiffImages` writes there |
| `Summer.SummedImageOf` | sxrd_tiff_summer_functions.py:59-82 | definition of what `avg_tiff_images` writes; `AvgTiffImages` is proved to compute it and `SummedImageOrderIndependent` states its order independence |
| `Summer.AvgTiffImages` | sxrd_tiff_summer_functions.py:59-82 | fails with `IndexOutOfRange` exactly when the folder has fewer than two images; otherwise the truncated average of the `int32` sum of all images, written to `<output>{n}_summed1.tiff` |
| `Summer.SummedImageOrderIndependent` | sxrd_tiff_summer_functions.py:59-68 | the written average does not depend on the order of the listing |
| `Summer.PyStr` | sxrd_tiff_summer_functions.py:98 | `str(n)` is non-empty |
| `Summer.PyStrRoundTrip` | sxrd_tiff_summer_functions.py:98 | `str(n)` reads back as `n`, with a leading '-' for negatives |
| `Summer.PyStrInjective` | sxrd_tiff_summer_functions.py:98 | different experiment numbers give different output names |
| `Summer.FirstShort` | sxrd_tiff_summer_functions.py:96-101 | the position of the first folder with fewer than two images: all earlier folders have at least two |
| `Summer.FirstShortAt` | sxrd_tiff_summer_functions.py:96-101 | that position is unique: it is any `m` with all earlier folders long and folder `m` short |
| `Summer.MultipleAvgTiffImages` | sxrd_tiff_summer_functions.py:86-101 | one average per experiment number, in order, up to the first short folder; fails exactly when there is one |

## Left out

- YAML configuration (`get_config`, `extract_input`, `extract_grid_input`): configuration I/O whose values become parameters.
- Globbing and sorting (`pathlib.Path(...).glob`, `sorted`): the sorted listing is an input sequence.
- The image codec (`io.imread`, `io.imsave`): each listing entry carries its pixels, and the model returns what would be saved together with the path it would be saved to.
- Images are flattened to one pixel sequence; their 2-D shape and numpy broadcasting are not modelled. Equal shapes are a precondition (`UniformListing`, `SameShape`), because the code does not check them.
- `os.path.isdir`/`os.makedirs`, every `print`, `tqdm`, and all matplotlib calls (`plt.rc`, `imshow`, `v_max`, colour bars, `savefig`): file-system plumbing, progress display and rendering.
- The `str.format` templating of the input and output paths in `multiple_avg_tiff_images`: each experiment's listing and output folder are parameters.
- `np.average`/`np.mean` in `grid_tiff_intensity` (lines 84, 109-110, 128): floating-point results. Only the integer maximum list is modelled.
- `Pixels.AddInt32`: assumes images whose pixel type promotes with `int32` to `int32` (signed or unsigned 8- and 16-bit integers, and `int32`). numpy gives a `uint32` or `int64` image an `int64` accumulator and a float image a float one; those add without wrap-around and are not modelled. The model's pixels are unbounded integers and are not restricted to the image type's range.
- `Mapper.Reshape`: a dimension of -1, which numpy infers, is reported as a mismatch.
- `Mapper.AverageSample`: for a sample with no matching image the model records no average. numpy would write an image of unspecified values, because division by zero gives inf/NaN and the cast of those is undefined.
- Sample numbers are taken as the text `f"...{sample_number}..."` renders; grid coordinates are unbounded integers.
- A background-subtraction pass is not present in these source files.
