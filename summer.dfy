/** The series averager (`sxrd_tiff_summer_functions.py`): the list of experiment numbers
    (`range(start, end + 1, step)`), the average of every image of one experiment's
    folder, and one such average per experiment number. */
module Summer {

  import opened Arith
  import opened Outcome
  import opened Pixels
  import opened Decimal

  // ---------------------------------------------------------------------------
  // Experiment numbers (lines 18-21)

  /** Python's `range(start, stop, step)` for a non-zero step: `start`, `start + step`, ...
      for as long as the value stays below `stop` (above it, for a negative step). */
  function PyRange(start: int, stop: int, step: int): (r: seq<int>)
    requires step != 0
    ensures forall k | 0 <= k < |r| :: r[k] == start + k * step
    ensures forall k | 0 <= k < |r| :: if step > 0 then r[k] < stop else r[k] > stop
    ensures if step > 0 then start + |r| * step >= stop else start + |r| * step <= stop
    decreases if step > 0 then stop - start else start - stop
  {
    if (step > 0 && start < stop) || (step < 0 && start > stop) then
      var rest := PyRange(start + step, stop, step);
      assert forall k | 1 <= k <= |rest| :: (start + step) + (k - 1) * step == start + k * step by {
        forall k | 1 <= k <= |rest| ensures (start + step) + (k - 1) * step == start + k * step {
          assert (k - 1) * step == k * step - step;
        }
      }
      assert start + step + |rest| * step == start + (|rest| + 1) * step;
      [start] + rest
    else
      []
  }

  /** `get_experiment_numbers`: `list(range(start, end + 1, step))`; a zero step raises. */
  function ExperimentNumbers(start: int, end: int, step: int): (r: Result<seq<int>>)
    ensures r.Err? <==> step == 0
    ensures r.Err? ==> r.failure == ZeroRangeStep
    ensures r.Ok? ==> forall k | 0 <= k < |r.value| :: r.value[k] == start + k * step
  {
    if step == 0 then Err(ZeroRangeStep) else Ok(PyRange(start, end + 1, step))
  }

  /** With a positive step the list starts at `start`, consecutive entries differ by
      `step` and every entry lies in `start..end`. */
  lemma ExperimentNumbersShape(start: int, end: int, step: int)
    requires step > 0
    ensures var ns := ExperimentNumbers(start, end, step).value;
      && (|ns| > 0 <==> start <= end)
      && (|ns| > 0 ==> ns[0] == start)
      && (forall k | 0 < k < |ns| :: ns[k] - ns[k - 1] == step)
      && (forall k | 0 <= k < |ns| :: start <= ns[k] <= end)
  {
    var ns := ExperimentNumbers(start, end, step).value;
    forall k | 0 < k < |ns| ensures ns[k] - ns[k - 1] == step {
      assert k * step - (k - 1) * step == step;
    }
    forall k | 0 <= k < |ns| ensures start <= ns[k] {
      MulAtLeast(k, step);
    }
  }

  /** With a positive step there are `(end - start) / step + 1` numbers when
      `start <= end` and none otherwise. */
  lemma ExperimentNumbersLength(start: int, end: int, step: int)
    requires step > 0
    ensures |ExperimentNumbers(start, end, step).value| ==
      if start <= end then (end - start) / step + 1 else 0
  {
    var ns := ExperimentNumbers(start, end, step).value;
    var n := |ns|;
    ExperimentNumbersShape(start, end, step);
    if start <= end {
      var last := ns[n - 1];
      assert last == start + (n - 1) * step;
      assert start + n * step >= end + 1;
      assert n * step == (n - 1) * step + step;
      DivModUnique(end - start, step, n - 1, end - last);
    }
  }

  /** With a positive step, `end` is one of the numbers exactly when `start <= end` and
      `end - start` is a multiple of the step. */
  lemma ExperimentNumbersIncludeEnd(start: int, end: int, step: int)
    requires step > 0
    ensures end in ExperimentNumbers(start, end, step).value <==> start <= end && (end - start) % step == 0
  {
    var ns := ExperimentNumbers(start, end, step).value;
    ExperimentNumbersShape(start, end, step);
    ExperimentNumbersLength(start, end, step);
    if end in ns {
      var k :| 0 <= k < |ns| && ns[k] == end;
      DivModUnique(end - start, step, k, 0);
    }
    if start <= end && (end - start) % step == 0 {
      var k := (end - start) / step;
      DivModUnique(end - start, step, k, 0);
      assert ns[k] == start + k * step;
    }
  }

  /** With a negative step the numbers count down from `start` and stay above `end + 1`,
      so `end` itself is never among them. */
  lemma ExperimentNumbersNegativeStep(start: int, end: int, step: int)
    requires step < 0
    ensures var ns := ExperimentNumbers(start, end, step).value;
      && (|ns| > 0 <==> start > end + 1)
      && (forall k | 0 <= k < |ns| :: end + 1 < ns[k] <= start)
      && end !in ns
  {
    var ns := ExperimentNumbers(start, end, step).value;
    forall k | 0 <= k < |ns| ensures ns[k] <= start {
      MulAtLeast(k, -step);
      NegMul(k, -step);
    }
  }

  // ---------------------------------------------------------------------------
  // Averaging one experiment's folder (lines 50-84)

  /** The averaged image and the path `io.imsave` writes it to. */
  datatype SummedImage = SummedImage(path: string, pixels: Image)

  /** `f"{output_filepath}{experiment_number}_summed1.tiff"` (the suffix is split into short
      literals, which keeps verification cheap). */
  function SummedPath(outputFilepath: string, experimentNumber: string): string {
    outputFilepath + experimentNumber + "_summed1" + ".tiff"
  }

  /** What `avg_tiff_images` writes for a listing of at least two images: the truncated
      average of the `int32` sum of all of them, with the shape of `image_list[1]`. */
  function SummedImageOf(experimentNumber: string, outputFilepath: string, listing: seq<Image>): SummedImage
    requires |listing| >= 2
  {
    SummedImage(SummedPath(outputFilepath, experimentNumber), Average(listing, |listing[1]|))
  }

  lemma AccumulatedOfNone(n: nat)
    ensures Accumulated([], n) == Zeros(n)
  {
    assert forall p | 0 <= p < n :: Accumulated([], n)[p] == 0;
  }

  /** `avg_tiff_images`: zeros shaped like `image_list[1]`, every image of the sorted
      listing added in turn, then the sum divided by the number of images and cast
      back to `int32`. A listing of fewer than two images makes `image_list[1]` raise. */
  method AvgTiffImages(experimentNumber: string, outputFilepath: string, listing: seq<Image>)
    returns (r: Result<SummedImage>)
    requires SameShape(listing)
    ensures r.Err? <==> |listing| < 2
    ensures r.Err? ==> r.failure == IndexOutOfRange
    ensures r.Ok? ==> r.value == SummedImageOf(experimentNumber, outputFilepath, listing)
  {
    if |listing| < 2 {
      return Err(IndexOutOfRange);
    }
    var n := |listing[1]|;
    var acc := Zeros(n);
    AccumulatedOfNone(n);
    assert listing[..0] == [];
    var i := 0;
    while i < |listing|
      invariant 0 <= i <= |listing|
      invariant acc == Accumulated(listing[..i], n)
    {
      AccumulateStep(listing[..i], listing[i], n);
      assert listing[..i + 1] == listing[..i] + [listing[i]];
      acc := AddInt32(acc, listing[i]);
      i := i + 1;
    }
    assert listing[..i] == listing;
    var averaged := Finalise(acc, |listing|);
    r := Ok(SummedImage(SummedPath(outputFilepath, experimentNumber), averaged));
  }

  /** The average of a folder does not depend on the order of its listing. */
  lemma SummedImageOrderIndependent(experimentNumber: string, outputFilepath: string,
                                    a: seq<Image>, b: seq<Image>)
    requires |a| >= 2 && multiset(a) == multiset(b) && SameShape(a)
    ensures |b| >= 2 && SummedImageOf(experimentNumber, outputFilepath, b) ==
                        SummedImageOf(experimentNumber, outputFilepath, a)
  {
    AveragePermutation(a, b, |a[1]|);
    assert b[1] in multiset(a) by { assert b[1] in b; }
    var j :| 0 <= j < |a| && a[j] == b[1];
    assert |b[1]| == |a[1]|;
  }

  // ---------------------------------------------------------------------------
  // Every experiment number (lines 86-101)

  /** `str(n)` for an integer. */
  function PyStr(n: int): (s: string)
    ensures |s| > 0
  {
    if n >= 0 then Digits(n) else "-" + Digits(-n)
  }

  /** `str(n)` reads back as `n`: its digits for `n >= 0`, a '-' and the digits of `-n`
      otherwise. */
  lemma PyStrRoundTrip(n: int)
    ensures n >= 0 ==> AllDigits(PyStr(n)) && ParseDigits(PyStr(n)) == n
    ensures n < 0 ==> PyStr(n)[0] == '-' && AllDigits(PyStr(n)[1..]) && ParseDigits(PyStr(n)[1..]) == -n
  {
    if n >= 0 {
      ParseDigitsOfDigits(n);
    } else {
      assert PyStr(n)[1..] == Digits(-n);
      ParseDigitsOfDigits(-n);
    }
  }

  /** Different experiment numbers give different output file names. */
  lemma PyStrInjective(n: int, m: int)
    requires PyStr(n) == PyStr(m)
    ensures n == m
  {
    PyStrRoundTrip(n);
    PyStrRoundTrip(m);
  }

  /** The position of the first listing with fewer than two images, or the number of
      listings when there is none. */
  function FirstShort(listings: seq<seq<Image>>): (m: nat)
    ensures m <= |listings|
    ensures forall k | 0 <= k < m :: |listings[k]| >= 2
    ensures m < |listings| ==> |listings[m]| < 2
    decreases |listings|
  {
    if listings == [] then 0
    else if |listings[0]| < 2 then 0
    else 1 + FirstShort(listings[1..])
  }

  /** `multiple_avg_tiff_images`: one `avg_tiff_images` call per experiment number, in the
      given order, each on the folder and output path of that number. The first folder
      with fewer than two images raises, after the images of all earlier numbers have been
      written; `written` is what was written and `failure` what was raised. */
  method MultipleAvgTiffImages(experimentNumbers: seq<int>, listings: seq<seq<Image>>, outputFilepaths: seq<string>)
    returns (written: seq<SummedImage>, failure: Option<Failure>)
    requires |listings| == |experimentNumbers| && |outputFilepaths| == |experimentNumbers|
    requires forall k | 0 <= k < |listings| :: SameShape(listings[k])
    ensures var m := FirstShort(listings);
      && |written| == m
      && (forall k | 0 <= k < m ::
            written[k] == SummedImageOf(PyStr(experimentNumbers[k]), outputFilepaths[k], listings[k]))
      && (failure.Some? <==> m < |listings|)
      && (failure.Some? ==> failure.value == IndexOutOfRange)
  {
    written, failure := [], None;
    var k := 0;
    while k < |experimentNumbers|
      invariant 0 <= k <= |experimentNumbers|
      invariant forall j | 0 <= j < k :: |listings[j]| >= 2
      invariant |written| == k
      invariant forall j | 0 <= j < k ::
        written[j] == SummedImageOf(PyStr(experimentNumbers[j]), outputFilepaths[j], listings[j])
    {
      var r := AvgTiffImages(PyStr(experimentNumbers[k]), outputFilepaths[k], listings[k]);
      if r.Err? {
        FirstShortAt(listings, k);
        return written, Some(r.failure);
      }
      written := written + [r.value];
      k := k + 1;
    }
    FirstShortAt(listings, k);
  }

  /** `FirstShort` is the first position whose listing is short. */
  lemma {:induction false} FirstShortAt(listings: seq<seq<Image>>, m: nat)
    requires m <= |listings|
    requires forall k | 0 <= k < m :: |listings[k]| >= 2
    requires m < |listings| ==> |listings[m]| < 2
    ensures FirstShort(listings) == m
    decreases m
  {
    if m > 0 {
      FirstShortAt(listings[1..], m - 1);
    }
  }
}
