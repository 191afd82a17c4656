/** The grid mapper (`sxrd_tiff_mapper_functions.py`): one averaged image and one
    provenance manifest per sample region of the measurement grid, the start/end point
    lists shown on the grid plot, and the per-image maximum-intensity map.
    A listing entry stands for one sorted `0*.tif*` path together with the pixels the
    image codec reads from it. */
module Mapper {

  import opened Arith
  import opened Outcome
  import opened Pixels
  import opened Decimal
  import opened GridAddress

  datatype ImageFile = ImageFile(path: string, pixels: Image)

  function PixelsOf(files: seq<ImageFile>): seq<Image> {
    seq(|files|, i requires 0 <= i < |files| => files[i].pixels)
  }

  function PathsOf(files: seq<ImageFile>): seq<string> {
    seq(|files|, i requires 0 <= i < |files| => files[i].path)
  }

  /** All images of the listing have the same number of pixels. */
  predicate UniformListing(listing: seq<ImageFile>) {
    forall i, j | 0 <= i < |listing| && 0 <= j < |listing| :: |listing[i].pixels| == |listing[j].pixels|
  }

  /** `str(image_path).find(tiff_string) != -1`. */
  predicate Matches(f: ImageFile, token: string) {
    Find(f.path, token) != -1
  }

  /** The entries the inner scan appends for one token: every matching entry, in
      listing order (the scan does not stop at the first match). */
  function MatchesOf(token: string, listing: seq<ImageFile>): (r: seq<ImageFile>)
    ensures |r| <= |listing|
    ensures forall f | f in r :: f in listing && Matches(f, token)
    decreases |listing|
  {
    if listing == [] then []
    else
      var last := listing[|listing| - 1];
      MatchesOf(token, listing[..|listing| - 1]) + (if Matches(last, token) then [last] else [])
  }

  /** The provenance list of a sequence of file numbers: the matches of each number's
      token, number after number. */
  function RegionMatches(numbers: seq<int>, listing: seq<ImageFile>): seq<ImageFile>
    decreases |numbers|
  {
    if numbers == [] then []
    else RegionMatches(numbers[..|numbers| - 1], listing) + MatchesOf(Format05(numbers[|numbers| - 1]), listing)
  }

  // ---------------------------------------------------------------------------
  // Properties of the lookup

  lemma ConcatAssoc<T>(a: seq<T>, b: seq<T>, c: seq<T>)
    ensures (a + b) + c == a + (b + c)
  {
  }

  lemma SplitLast<T>(a: seq<T>, b: seq<T>)
    requires |b| > 0
    ensures b == b[..|b| - 1] + [b[|b| - 1]]
    ensures a + b == (a + b[..|b| - 1]) + [b[|b| - 1]]
  {
  }

  /** One more listing entry appends it to the matches exactly when its path carries the token. */
  lemma MatchesOfAppend(token: string, front: seq<ImageFile>, last: ImageFile)
    ensures MatchesOf(token, front + [last]) == MatchesOf(token, front) + (if Matches(last, token) then [last] else [])
  {
    assert (front + [last])[..|front|] == front;
  }

  /** Matching respects listing order: the matches in `a + b` are those in `a`, then those in `b`. */
  lemma {:induction false} MatchesOfConcat(token: string, a: seq<ImageFile>, b: seq<ImageFile>)
    ensures MatchesOf(token, a + b) == MatchesOf(token, a) + MatchesOf(token, b)
    decreases |b|
  {
    if b == [] {
      assert a + b == a;
    } else {
      var front, last := b[..|b| - 1], b[|b| - 1];
      var tail := if Matches(last, token) then [last] else [];
      SplitLast(a, b);
      MatchesOfAppend(token, a + front, last);
      MatchesOfAppend(token, front, last);
      MatchesOfConcat(token, a, front);
      ConcatAssoc(MatchesOf(token, a), MatchesOf(token, front), tail);
    }
  }

  /** Each entry occurs among the matches exactly as often as in the listing when its
      path contains the token, and never otherwise. */
  lemma {:induction false} MatchesOfMultiplicity(token: string, listing: seq<ImageFile>, f: ImageFile)
    ensures multiset(MatchesOf(token, listing))[f] == if Matches(f, token) then multiset(listing)[f] else 0
    decreases |listing|
  {
    if listing != [] {
      var front, last := listing[..|listing| - 1], listing[|listing| - 1];
      assert listing == front + [last];
      MatchesOfMultiplicity(token, front, f);
    }
  }

  /** A number whose token no path contains adds nothing. */
  lemma MatchesOfEmpty(token: string, listing: seq<ImageFile>)
    ensures MatchesOf(token, listing) == [] <==> forall i | 0 <= i < |listing| :: !Matches(listing[i], token)
  {
    if MatchesOf(token, listing) == [] {
      forall i | 0 <= i < |listing| ensures !Matches(listing[i], token) {
        MatchesOfMultiplicity(token, listing, listing[i]);
      }
    } else {
      var f := MatchesOf(token, listing)[0];
      assert f in listing && Matches(f, token);
    }
  }

  /** With exactly one matching entry, the scan appends exactly that entry. */
  lemma {:induction false} MatchesOfUnique(token: string, listing: seq<ImageFile>, k: int)
    requires 0 <= k < |listing| && Matches(listing[k], token)
    requires forall i | 0 <= i < |listing| && i != k :: !Matches(listing[i], token)
    ensures MatchesOf(token, listing) == [listing[k]]
    decreases |listing|
  {
    var front := listing[..|listing| - 1];
    if k == |listing| - 1 {
      MatchesOfEmpty(token, front);
    } else {
      MatchesOfUnique(token, front, k);
    }
  }

  /** The provenance list of `a + b` is that of `a` followed by that of `b`. */
  lemma {:induction false} RegionMatchesConcat(a: seq<int>, b: seq<int>, listing: seq<ImageFile>)
    ensures RegionMatches(a + b, listing) == RegionMatches(a, listing) + RegionMatches(b, listing)
    decreases |b|
  {
    if b == [] {
      assert a + b == a;
    } else {
      var front, last := b[..|b| - 1], b[|b| - 1];
      var tail := MatchesOf(Format05(last), listing);
      SplitLast(a, b);
      RegionMatchesAppend(a + front, last, listing);
      RegionMatchesAppend(front, last, listing);
      RegionMatchesConcat(a, front, listing);
      ConcatAssoc(RegionMatches(a, listing), RegionMatches(front, listing), tail);
    }
  }

  /** The provenance list grows by exactly the number of matches of each file number. */
  lemma {:induction false} RegionMatchesLength(numbers: seq<int>, listing: seq<ImageFile>)
    ensures |RegionMatches(numbers, listing)| <= |numbers| * |listing|
    ensures |numbers| > 0 ==>
      |RegionMatches(numbers, listing)| ==
        |RegionMatches(numbers[..|numbers| - 1], listing)| + |MatchesOf(Format05(numbers[|numbers| - 1]), listing)|
    decreases |numbers|
  {
    if numbers != [] {
      RegionMatchesLength(numbers[..|numbers| - 1], listing);
      assert (|numbers| - 1) * |listing| + |listing| == |numbers| * |listing|;
    }
  }

  /** A single-point region contributes exactly the entries matching that point's number,
      and exactly one entry when a single path carries that number. */
  lemma SinglePointProvenance(p: Point, width: int, listing: seq<ImageFile>, k: int)
    requires 0 <= k < |listing| && Matches(listing[k], Format05(FileNumber(p.x, p.y, width)))
    requires forall i | 0 <= i < |listing| && i != k :: !Matches(listing[i], Format05(FileNumber(p.x, p.y, width)))
    ensures RegionMatches(RegionNumbers(p, p, width), listing) == [listing[k]]
  {
    var n := FileNumber(p.x, p.y, width);
    SinglePointRegion(p, width);
    assert [n][..0] == [];
    MatchesOfUnique(Format05(n), listing, k);
  }

  lemma TokenOfOne()
    ensures Format05(1) == "00001"
  {
    assert Digits(1) == "1";
    assert ZeroRun(4) == "0000";
  }

  lemma TokenOfTwelve()
    ensures Format05(12) == "00012"
  {
    assert Digits(12) == "12";
    assert ZeroRun(3) == "000";
  }

  /** The lookup is a substring test on the whole path, so a six-digit name carries the
      tokens of two different grid points. */
  lemma SubstringLookupAmbiguity()
    ensures Matches(ImageFile("000012.tif", []), Format05(1))
    ensures Matches(ImageFile("000012.tif", []), Format05(12))
  {
    TokenOfOne();
    TokenOfTwelve();
    assert OccursAt("000012.tif", "00001", 0);
    assert OccursAt("000012.tif", "00012", 1);
  }

  // ---------------------------------------------------------------------------
  // Accumulation over one sample region

  lemma PixelsOfAppend(files: seq<ImageFile>, f: ImageFile)
    ensures PixelsOf(files + [f]) == PixelsOf(files) + [f.pixels]
  {
  }

  lemma RegionMatchesAppend(numbers: seq<int>, n: int, listing: seq<ImageFile>)
    ensures RegionMatches(numbers + [n], listing) == RegionMatches(numbers, listing) + MatchesOf(Format05(n), listing)
  {
    assert (numbers + [n])[..|numbers|] == numbers;
  }

  /** `sxrd_tiff_mapper_functions.py` lines 221-224, the innermost scan for one token: every listing entry whose path
      contains the token is appended to the provenance list and added into the `int32`
      accumulator. */
  method AppendMatches(listing: seq<ImageFile>, token: string, npix: nat,
                       acc0: Image, provenance0: seq<ImageFile>)
    returns (acc: Image, provenance: seq<ImageFile>)
    requires forall i | 0 <= i < |listing| :: |listing[i].pixels| == npix
    requires acc0 == Accumulated(PixelsOf(provenance0), npix)
    ensures provenance == provenance0 + MatchesOf(token, listing)
    ensures acc == Accumulated(PixelsOf(provenance), npix)
  {
    acc, provenance := acc0, provenance0;
    assert listing[..0] == [];
    var i := 0;
    while i < |listing|
      invariant 0 <= i <= |listing|
      invariant provenance == provenance0 + MatchesOf(token, listing[..i])
      invariant acc == Accumulated(PixelsOf(provenance), npix)
    {
      assert listing[..i + 1][..i] == listing[..i];
      if Find(listing[i].path, token) != -1 {
        AccumulateStep(PixelsOf(provenance), listing[i].pixels, npix);
        PixelsOfAppend(provenance, listing[i]);
        provenance := provenance + [listing[i]];
        acc := AddInt32(acc, listing[i].pixels);
      }
      i := i + 1;
    }
    assert listing[..|listing|] == listing;
  }

  lemma RowNumbersAppend(x0: int, x: int, y: int, width: int)
    requires x0 <= x
    ensures RowNumbers(x0, x, y, width) == RowNumbers(x0, x - 1, y, width) + [FileNumber(x, y, width)]
  {
  }

  /** `sxrd_tiff_mapper_functions.py` lines 214-224, one row of the region: for x in `x0..x1`, the matches of grid point
      (x, y)'s token are appended and accumulated. */
  method CollectRow(listing: seq<ImageFile>, x0: int, x1: int, y: int, width: int, npix: nat,
                    ghost visited: seq<int>, acc0: Image, provenance0: seq<ImageFile>)
    returns (acc: Image, provenance: seq<ImageFile>)
    requires forall i | 0 <= i < |listing| :: |listing[i].pixels| == npix
    requires provenance0 == RegionMatches(visited, listing)
    requires acc0 == Accumulated(PixelsOf(provenance0), npix)
    ensures provenance == RegionMatches(visited + RowNumbers(x0, x1, y, width), listing)
    ensures acc == Accumulated(PixelsOf(provenance), npix)
  {
    acc, provenance := acc0, provenance0;
    var x := x0;
    assert visited + RowNumbers(x0, x - 1, y, width) == visited;
    while x <= x1
      invariant x == x0 || x0 < x <= x1 + 1
      invariant provenance == RegionMatches(visited + RowNumbers(x0, x - 1, y, width), listing)
      invariant acc == Accumulated(PixelsOf(provenance), npix)
      decreases x1 - x
    {
      var tiffNumber := FileNumber(x, y, width);
      acc, provenance := AppendMatches(listing, Format05(tiffNumber), npix, acc, provenance);
      RegionMatchesAppend(visited + RowNumbers(x0, x - 1, y, width), tiffNumber, listing);
      RowNumbersAppend(x0, x, y, width);
      ConcatAssoc(visited, RowNumbers(x0, x - 1, y, width), [tiffNumber]);
      x := x + 1;
    }
    if x1 >= x0 {
      assert x - 1 == x1;
    } else {
      assert RowNumbers(x0, x1, y, width) == [] == RowNumbers(x0, x - 1, y, width);
    }
  }

  /** Lines 209-224: zeros, then for y in `start.y..end.y` one row after another. */
  method CollectSample(listing: seq<ImageFile>, start: Point, end: Point, width: int, npix: nat)
    returns (acc: Image, provenance: seq<ImageFile>)
    requires forall i | 0 <= i < |listing| :: |listing[i].pixels| == npix
    ensures provenance == RegionMatches(RegionNumbers(start, end, width), listing)
    ensures acc == Accumulated(PixelsOf(provenance), npix)
  {
    acc := Zeros(npix);
    provenance := [];
    ghost var visited: seq<int> := [];
    var y := start.y;
    while y <= end.y
      invariant y == start.y || start.y < y <= end.y + 1
      invariant visited == RegionNumbers(start, Point(end.x, y - 1), width)
      invariant provenance == RegionMatches(visited, listing)
      invariant acc == Accumulated(PixelsOf(provenance), npix)
      decreases end.y - y
    {
      acc, provenance := CollectRow(listing, start.x, end.x, y, width, npix, visited, acc, provenance);
      RegionNumbersStep(start, end.x, y, width);
      visited := visited + RowNumbers(start.x, end.x, y, width);
      ghost var row := Point(end.x, y);
      y := y + 1;
      assert Point(end.x, y - 1) == row;
    }
    if end.y < start.y {
      assert RegionNumbers(start, end, width) == [];
    } else {
      assert Point(end.x, y - 1) == end;
    }
  }

  // ---------------------------------------------------------------------------
  // The provenance manifest (lines 249-258)

  function ManifestHeader(sampleNumber: string): string {
    HeaderHead() + sampleNumber + HeaderTail()
  }

  /** The strings written to the manifest file, in order. */
  function ManifestLines(sampleNumber: string, provenance: seq<ImageFile>): seq<string> {
    [ManifestHeader(sampleNumber)] + seq(|provenance|, i requires 0 <= i < |provenance| => provenance[i].path + "\n")
  }

  /** Reads the contributing paths back from the manifest: every line after the header,
      without its final newline. */
  function ManifestPaths(lines: seq<string>): seq<string>
    requires |lines| > 0
  {
    seq(|lines| - 1, i requires 0 <= i < |lines| - 1 => if lines[i + 1] == [] then [] else lines[i + 1][..|lines[i + 1]| - 1])
  }

  /** The manifest is the header followed by exactly one line per provenance entry, in
      provenance order; reading it back gives the provenance paths. */
  lemma ManifestRoundTrip(sampleNumber: string, provenance: seq<ImageFile>)
    ensures var lines := ManifestLines(sampleNumber, provenance);
      |lines| == |provenance| + 1 && lines[0] == ManifestHeader(sampleNumber) &&
      ManifestPaths(lines) == PathsOf(provenance)
  {
    var lines := ManifestLines(sampleNumber, provenance);
    forall i | 0 <= i < |provenance| ensures ManifestPaths(lines)[i] == provenance[i].path {
      var line := provenance[i].path + "\n";
      assert lines[i + 1] == line;
      assert line[..|line| - 1] == provenance[i].path;
    }
  }

  /** Lines 257-258: the header, then one path line per provenance entry. */
  method WriteManifest(sampleNumber: string, provenance: seq<ImageFile>) returns (lines: seq<string>)
    ensures lines == ManifestLines(sampleNumber, provenance)
  {
    lines := [ManifestHeader(sampleNumber)];
    var i := 0;
    while i < |provenance|
      invariant 0 <= i <= |provenance|
      invariant |lines| == i + 1 && lines[0] == ManifestHeader(sampleNumber)
      invariant forall k | 0 <= k < i :: lines[k + 1] == provenance[k].path + "\n"
    {
      lines := lines + [provenance[i].path + "\n"];
      i := i + 1;
    }
  }

  // ---------------------------------------------------------------------------
  // The per-sample driver (lines 202-259)

  datatype SampleOutput = SampleOutput(
    sampleNumber: string,
    averaged: Option<Image>,     // None: no entry matched, numpy divides by zero and the cast is unspecified
    provenance: seq<ImageFile>,
    manifest: seq<string>,
    imagePath: string,
    manifestPath: string)

  function SampleFolder(outputRoot: string, sampleNumber: string): string {
    outputRoot + "sample_" + sampleNumber + "/"
  }

  /** Different sample numbers write into different folders. */
  lemma SampleFoldersDistinct(outputRoot: string, a: string, b: string)
    requires a != b
    ensures SampleFolder(outputRoot, a) != SampleFolder(outputRoot, b)
  {
    var prefix := outputRoot + "sample_";
    var sa, sb := SampleFolder(outputRoot, a), SampleFolder(outputRoot, b);
    assert sa[|prefix|..|sa| - 1] == a;
    assert sb[|prefix|..|sb| - 1] == b;
  }

  function Min2(a: int, b: int): int {
    if a <= b then a else b
  }

  /** The fixed text around the sample number in the manifest's first line. String
      literals are written in short pieces, which keeps their verification cheap. */
  function HeaderHead(): string {
    "The summed" + " tiff image" + " for sample "
  }
  function HeaderTail(): string {
    " was created" + " from the" + " average" + " intensity" + " of the" + " following" +
    " diffraction" + " pattern" + " images..." + " \n"
  }

  /** What the driver produces for one sample: its provenance list (the matches of the
      region's file numbers), the truncated average of the `int32` sum over exactly that
      list (none when the list is empty), its manifest and the two output paths. The path
      suffixes are split into short literals for the same reason as the header. */
  ghost function SampleOutputOf(experimentNumber: string, outputRoot: string, listing: seq<ImageFile>,
                                sampleNumber: string, start: Point, end: Point, width: int): SampleOutput
    requires |listing| >= 2
  {
    var provenance := RegionMatches(RegionNumbers(start, end, width), listing);
    var folder := SampleFolder(outputRoot, sampleNumber);
    SampleOutput(
      sampleNumber,
      if |provenance| == 0 then None else Some(Average(PixelsOf(provenance), |listing[1].pixels|)),
      provenance,
      ManifestLines(sampleNumber, provenance),
      folder + experimentNumber + "_summed1" + ".tiff",
      folder + "sample_" + sampleNumber + "_image_list" + ".txt")
  }

  /** Lines 208-259, the body of the per-sample loop: accumulate the region, divide by the
      number of contributing images, and produce the manifest and the two output paths. */
  method AverageSample(experimentNumber: string, outputRoot: string, listing: seq<ImageFile>,
                       sampleNumber: string, start: Point, end: Point, width: int)
    returns (o: SampleOutput)
    requires UniformListing(listing) && |listing| >= 2
    ensures o == SampleOutputOf(experimentNumber, outputRoot, listing, sampleNumber, start, end, width)
  {
    var npix := |listing[1].pixels|;
    var acc, provenance := CollectSample(listing, start, end, width, npix);
    var averaged: Option<Image> := None;
    if |provenance| > 0 {
      averaged := Some(Finalise(acc, |provenance|));
      assert |PixelsOf(provenance)| == |provenance|;
      assert averaged == Some(Average(PixelsOf(provenance), npix));
    }
    var manifest := WriteManifest(sampleNumber, provenance);
    var folder := SampleFolder(outputRoot, sampleNumber);
    o := SampleOutput(sampleNumber, averaged, provenance, manifest,
                      folder + experimentNumber + "_summed1" + ".tiff",
                      folder + "sample_" + sampleNumber + "_image_list" + ".txt");
  }

  /** One entry of `zip(sample_number, start_points, end_points)`. */
  datatype Sample = Sample(number: string, start: Point, end: Point)

  /** Line 205: `zip` pairs the three lists position by position and stops at the shortest. */
  function Zip3(sampleNumbers: seq<string>, startPoints: seq<Point>, endPoints: seq<Point>): (r: seq<Sample>)
    ensures |r| == Min2(Min2(|sampleNumbers|, |startPoints|), |endPoints|)
    ensures forall k | 0 <= k < |r| :: r[k] == Sample(sampleNumbers[k], startPoints[k], endPoints[k])
  {
    var count := Min2(Min2(|sampleNumbers|, |startPoints|), |endPoints|);
    seq(count, k requires 0 <= k < count => Sample(sampleNumbers[k], startPoints[k], endPoints[k]))
  }

  /** `f` applied to every element of `xs`, in order. */
  ghost function MapSeq<A, B>(f: A -> B, xs: seq<A>): (r: seq<B>)
    ensures |r| == |xs|
    ensures forall i | 0 <= i < |xs| :: r[i] == f(xs[i])
    decreases |xs|
  {
    if xs == [] then [] else MapSeq(f, xs[..|xs| - 1]) + [f(xs[|xs| - 1])]
  }

  lemma MapSeqPrefix<A, B>(f: A -> B, xs: seq<A>, k: int)
    requires 0 <= k < |xs|
    ensures MapSeq(f, xs[..k + 1]) == MapSeq(f, xs[..k]) + [f(xs[k])]
  {
    assert xs[..k + 1][..k] == xs[..k];
  }

  /** The outputs of the grid driver: one `SampleOutputOf` per sample, in sample order. */
  ghost function GridOutputs(experimentNumber: string, outputRoot: string, listing: seq<ImageFile>,
                             samples: seq<Sample>, width: int): seq<SampleOutput>
    requires |listing| >= 2
  {
    MapSeq((s: Sample) => SampleOutputOf(experimentNumber, outputRoot, listing, s.number, s.start, s.end, width), samples)
  }

  /** Output `k` of the grid is the output of the `k`-th sample number with the `k`-th
      start point and the `k`-th end point. */
  lemma GridOutputsAt(experimentNumber: string, outputRoot: string, listing: seq<ImageFile>,
                      sampleNumbers: seq<string>, startPoints: seq<Point>, endPoints: seq<Point>,
                      width: int, k: int)
    requires |listing| >= 2
    requires 0 <= k < Min2(Min2(|sampleNumbers|, |startPoints|), |endPoints|)
    ensures var outputs := GridOutputs(experimentNumber, outputRoot, listing, Zip3(sampleNumbers, startPoints, endPoints), width);
      |outputs| == Min2(Min2(|sampleNumbers|, |startPoints|), |endPoints|) &&
      outputs[k] == SampleOutputOf(experimentNumber, outputRoot, listing, sampleNumbers[k], startPoints[k], endPoints[k], width)
  {
  }

  /** `avg_tiff_images_grid`: one output per (sample number, start point, end point)
      triple, as many as the shortest of the three lists. The template image
      `image_list[1]` is read for each sample, so a listing of fewer than two entries
      fails as soon as there is a sample to process. */
  method AvgTiffImagesGrid(experimentNumber: string, outputRoot: string, listing: seq<ImageFile>,
                           sampleNumbers: seq<string>, startPoints: seq<Point>, endPoints: seq<Point>,
                           width: int)
    returns (r: Result<seq<SampleOutput>>)
    requires UniformListing(listing)
    ensures var samples := Zip3(sampleNumbers, startPoints, endPoints);
      && (r.Err? <==> |samples| > 0 && |listing| < 2)
      && (r.Err? ==> r.failure == IndexOutOfRange)
      && (r.Ok? && |samples| == 0 ==> r.value == [])
      && (r.Ok? && |samples| > 0 ==> r.value == GridOutputs(experimentNumber, outputRoot, listing, samples, width))
  {
    var samples := Zip3(sampleNumbers, startPoints, endPoints);
    if |samples| == 0 {
      return Ok([]);
    }
    if |listing| < 2 {
      // `image_list[1]` raises in the first iteration, before any output is written
      return Err(IndexOutOfRange);
    }
    ghost var f := (s: Sample) => SampleOutputOf(experimentNumber, outputRoot, listing, s.number, s.start, s.end, width);
    var outputs: seq<SampleOutput> := [];
    var k := 0;
    while k < |samples|
      invariant 0 <= k <= |samples|
      invariant outputs == MapSeq(f, samples[..k])
    {
      var o := AverageSample(experimentNumber, outputRoot, listing, samples[k].number, samples[k].start, samples[k].end, width);
      MapSeqPrefix(f, samples, k);
      outputs := outputs + [o];
      k := k + 1;
    }
    assert samples[..k] == samples;
    r := Ok(outputs);
  }

  function ExamplePath(d: char): string {
    "0000" + [d] + ".tif"
  }

  /** A listing of six files named 00001.tif to 00006.tif, in that order. */
  predicate ExampleNames(listing: seq<ImageFile>) {
    |listing| == 6 && forall i | 0 <= i < 6 :: listing[i].path == ExamplePath(DigitChar(i + 1))
  }

  lemma SingleDigitToken(n: int)
    requires 0 <= n < 10
    ensures Format05(n) == "0000" + [DigitChar(n)]
  {
    assert Digits(n) == [DigitChar(n)];
    assert ZeroRun(4) == "0000";
  }

  /** The path of file `d` carries the token of digit `e` exactly when `d == e`. */
  lemma ExamplePathMatch(d: char, e: char)
    requires IsDigit(d) && IsDigit(e)
    ensures Find(ExamplePath(d), "0000" + [e]) != -1 <==> d == e
  {
    var s, t := ExamplePath(d), "0000" + [e];
    if d == e {
      assert OccursAt(s, t, 0);
    } else {
      forall j | 0 <= j && j + |t| <= |s| ensures !OccursAt(s, t, j) {
        assert s[j..j + |t|][4] == s[j + 4];
      }
    }
  }

  /** In such a listing each of the numbers 1 to 6 matches exactly its own file. */
  lemma ExampleMatches(listing: seq<ImageFile>, n: int)
    requires ExampleNames(listing) && 1 <= n <= 6
    ensures MatchesOf(Format05(n), listing) == [listing[n - 1]]
  {
    SingleDigitToken(n);
    forall i | 0 <= i < |listing| && i != n - 1 ensures !Matches(listing[i], Format05(n)) {
      ExamplePathMatch(DigitChar(i + 1), DigitChar(n));
    }
    ExamplePathMatch(DigitChar(n), DigitChar(n));
    MatchesOfUnique(Format05(n), listing, n - 1);
  }

  /** One step of the provenance list: a number matching a single entry appends that entry. */
  lemma RegionMatchesStep(numbers: seq<int>, n: int, listing: seq<ImageFile>, before: seq<ImageFile>, f: ImageFile)
    requires RegionMatches(numbers, listing) == before
    requires MatchesOf(Format05(n), listing) == [f]
    ensures RegionMatches(numbers + [n], listing) == before + [f]
  {
    RegionMatchesAppend(numbers, n, listing);
  }

  lemma ExampleProvenance(listing: seq<ImageFile>)
    requires ExampleNames(listing)
    ensures RegionMatches([1, 2, 4, 5], listing) == [listing[0], listing[1], listing[3], listing[4]]
  {
    var n0: seq<int> := [];
    var p0: seq<ImageFile> := [];
    ExampleMatches(listing, 1);
    ExampleMatches(listing, 2);
    ExampleMatches(listing, 4);
    ExampleMatches(listing, 5);
    RegionMatchesStep(n0, 1, listing, p0, listing[0]);
    var n1, p1 := n0 + [1], p0 + [listing[0]];
    RegionMatchesStep(n1, 2, listing, p1, listing[1]);
    var n2, p2 := n1 + [2], p1 + [listing[1]];
    RegionMatchesStep(n2, 4, listing, p2, listing[3]);
    var n3, p3 := n2 + [4], p2 + [listing[3]];
    RegionMatchesStep(n3, 5, listing, p3, listing[4]);
    AppendFour(1, 2, 4, 5);
    AppendFour(listing[0], listing[1], listing[3], listing[4]);
  }

  lemma PixelsOfFour(a: ImageFile, b: ImageFile, c: ImageFile, d: ImageFile)
    ensures PixelsOf([a, b, c, d]) == [a.pixels, b.pixels, c.pixels, d.pixels]
  {
  }

  lemma AppendFour<T>(a: T, b: T, c: T, d: T)
    ensures var none: seq<T> := []; none + [a] + [b] + [c] + [d] == [a, b, c, d]
  {
  }

  lemma PixelSumOfFour(a: Image, b: Image, c: Image, d: Image, p: int)
    ensures PixelSum([a, b, c, d], p) == PixelAt(a, p) + PixelAt(b, p) + PixelAt(c, p) + PixelAt(d, p)
  {
    var s := [a, b, c, d];
    var none: seq<Image> := [];
    assert s[..3] == [a, b, c] && s[..3][..2] == [a, b] && s[..3][..2][..1] == [a] && s[..3][..2][..1][..0] == none;
    assert PixelSum([a], p) == PixelAt(a, p);
    assert PixelSum([a, b], p) == PixelAt(a, p) + PixelAt(b, p);
    assert PixelSum([a, b, c], p) == PixelAt(a, p) + PixelAt(b, p) + PixelAt(c, p);
  }

  lemma ExampleAverage()
    ensures Average([[10, 10, 10, 10], [20, 20, 20, 20], [30, 30, 30, 30], [40, 40, 40, 40]], 4) == [25, 25, 25, 25]
  {
    var images: seq<Image> := [[10, 10, 10, 10], [20, 20, 20, 20], [30, 30, 30, 30], [40, 40, 40, 40]];
    forall p | 0 <= p < 4 ensures PixelSum(images, p) == 100 {
      PixelSumOfFour(images[0], images[1], images[2], images[3], p);
    }
  }

  /** The worked example: on a grid three points wide the square (0, 0)..(1, 1) collects
      files 1, 2, 4 and 5, and constant 2x2 images valued 10, 20, 30 and 40 there average
      to 25, whatever files 3 and 6 hold. */
  lemma GridAverageExample(listing: seq<ImageFile>)
    requires ExampleNames(listing)
    requires listing[0].pixels == [10, 10, 10, 10] && listing[1].pixels == [20, 20, 20, 20]
    requires listing[3].pixels == [30, 30, 30, 30] && listing[4].pixels == [40, 40, 40, 40]
    ensures var provenance := RegionMatches(RegionNumbers(Point(0, 0), Point(1, 1), 3), listing);
      provenance == [listing[0], listing[1], listing[3], listing[4]] &&
      Average(PixelsOf(provenance), 4) == [25, 25, 25, 25]
  {
    ThreeWideSquareExample();
    ExampleProvenance(listing);
    PixelsOfFour(listing[0], listing[1], listing[3], listing[4]);
    ExampleAverage();
  }

  // ---------------------------------------------------------------------------
  // Start and end points of the grid plot (lines 156-164)

  /** `plot_grid_points`: x and y coordinates of each start point followed by its end point,
      for as many pairs as the shorter list holds. */
  method PlotGridPoints(startPoints: seq<Point>, endPoints: seq<Point>)
    returns (xPoints: seq<int>, yPoints: seq<int>)
    ensures |xPoints| == 2 * Min2(|startPoints|, |endPoints|) && |yPoints| == |xPoints|
    ensures forall i | 0 <= i < Min2(|startPoints|, |endPoints|) ::
      xPoints[2 * i] == startPoints[i].x && xPoints[2 * i + 1] == endPoints[i].x &&
      yPoints[2 * i] == startPoints[i].y && yPoints[2 * i + 1] == endPoints[i].y
  {
    xPoints, yPoints := [], [];
    var i := 0;
    while i < Min2(|startPoints|, |endPoints|)
      invariant 0 <= i <= Min2(|startPoints|, |endPoints|)
      invariant |xPoints| == 2 * i && |yPoints| == 2 * i
      invariant forall j | 0 <= j < i ::
        xPoints[2 * j] == startPoints[j].x && xPoints[2 * j + 1] == endPoints[j].x &&
        yPoints[2 * j] == startPoints[j].y && yPoints[2 * j + 1] == endPoints[j].y
    {
      xPoints := xPoints + [startPoints[i].x, endPoints[i].x];
      yPoints := yPoints + [startPoints[i].y, endPoints[i].y];
      i := i + 1;
    }
  }

  // ---------------------------------------------------------------------------
  // Maximum-intensity map (lines 79-97)

  /** `np.max` of an image and `max` of a list. */
  function Max(s: seq<int>): (m: int)
    requires |s| > 0
    ensures forall k | 0 <= k < |s| :: s[k] <= m
    ensures exists k | 0 <= k < |s| :: s[k] == m
    decreases |s|
  {
    if |s| == 1 then s[0]
    else
      var rest := Max(s[..|s| - 1]);
      if s[|s| - 1] > rest then s[|s| - 1] else rest
  }

  /** `min` of a list. */
  function Min(s: seq<int>): (m: int)
    requires |s| > 0
    ensures forall k | 0 <= k < |s| :: m <= s[k]
    ensures exists k | 0 <= k < |s| :: s[k] == m
    decreases |s|
  {
    if |s| == 1 then s[0]
    else
      var rest := Min(s[..|s| - 1]);
      if s[|s| - 1] < rest then s[|s| - 1] else rest
  }

  /** Row `i` of a `rows` by `cols` grid occupies entries `i * cols` to `i * cols + cols - 1`. */
  lemma RowBounds(rows: int, cols: int)
    requires cols > 0
    ensures forall i | 0 <= i < rows :: 0 <= i * cols && i * cols + cols <= rows * cols
  {
    forall i | 0 <= i < rows ensures 0 <= i * cols && i * cols + cols <= rows * cols {
      MulMono(0, i, cols);
      MulMono(i + 1, rows, cols);
    }
  }

  lemma ReshapeCells(xs: seq<int>, rows: int, cols: int, grid: seq<seq<int>>)
    requires cols > 0 && |grid| == rows
    requires forall i | 0 <= i < rows :: 0 <= i * cols && i * cols + cols <= |xs| && grid[i] == xs[i * cols .. i * cols + cols]
    ensures forall i | 0 <= i < rows :: |grid[i]| == cols
    ensures forall i, j | 0 <= i < rows && 0 <= j < cols :: i * cols + j < |xs| && grid[i][j] == xs[i * cols + j]
  {
    forall i, j | 0 <= i < rows && 0 <= j < cols ensures i * cols + j < |xs| && grid[i][j] == xs[i * cols + j] {
      assert grid[i] == xs[i * cols .. i * cols + cols];
    }
  }

  /** `np.array(xs).reshape((rows, cols))` for positive dimensions: row `i` holds entries
      `i * cols` to `i * cols + cols - 1`. */
  function Reshape(xs: seq<int>, rows: int, cols: int): (r: Option<seq<seq<int>>>)
    ensures r.Some? <==> rows > 0 && cols > 0 && rows * cols == |xs|
    ensures r.Some? ==> |r.value| == rows
    ensures r.Some? ==> forall i | 0 <= i < rows :: |r.value[i]| == cols
    ensures r.Some? ==> forall i, j | 0 <= i < rows && 0 <= j < cols ::
      i * cols + j < |xs| && r.value[i][j] == xs[i * cols + j]
  {
    if rows > 0 && cols > 0 && rows * cols == |xs| then
      RowBounds(rows, cols);
      var grid := seq(rows, i requires 0 <= i < rows && 0 <= i * cols && i * cols + cols <= |xs| =>
                               xs[i * cols .. i * cols + cols]);
      ReshapeCells(xs, rows, cols, grid);
      Some(grid)
    else None
  }

  datatype IntensityMap = IntensityMap(maxList: seq<int>, vMin: int, vMax: int, maxMap: seq<seq<int>>)

  /** `grid_tiff_intensity`, integer part: the maximum of each image in listing order,
      their minimum and maximum as colour limits, and the list reshaped to
      `(shape_y, shape_x)`. */
  method GridTiffIntensity(images: seq<Image>, shapeX: int, shapeY: int) returns (r: Result<IntensityMap>)
    ensures r.Ok? <==>
      (forall i | 0 <= i < |images| :: |images[i]| > 0) && |images| > 0 &&
      shapeX > 0 && shapeY > 0 && shapeX * shapeY == |images|
    ensures r.Err? ==>
      r.failure == (if exists i | 0 <= i < |images| :: |images[i]| == 0 then EmptyImage
                    else if |images| == 0 then EmptySequence
                    else ReshapeMismatch)
    ensures r.Ok? ==>
      && |r.value.maxList| == |images|
      && (forall i | 0 <= i < |images| :: |images[i]| > 0 && r.value.maxList[i] == Max(images[i]))
      && r.value.vMin == Min(r.value.maxList)
      && r.value.vMax == Max(r.value.maxList)
      && Reshape(r.value.maxList, shapeY, shapeX) == Some(r.value.maxMap)
  {
    var maxList: seq<int> := [];
    var k := 0;
    while k < |images|
      invariant 0 <= k <= |images|
      invariant forall i | 0 <= i < k :: |images[i]| > 0
      invariant |maxList| == k && forall i | 0 <= i < k :: maxList[i] == Max(images[i])
    {
      if |images[k]| == 0 {
        return Err(EmptyImage);
      }
      maxList := maxList + [Max(images[k])];
      k := k + 1;
    }
    if |maxList| == 0 {
      return Err(EmptySequence);
    }
    var vMin, vMax := Min(maxList), Max(maxList);
    var maxMap := Reshape(maxList, shapeY, shapeX);
    if maxMap.None? {
      return Err(ReshapeMismatch);
    }
    r := Ok(IntensityMap(maxList, vMin, vMax, maxMap.value));
  }

  /** The colour limits bound every entry of the maximum list and are attained. */
  lemma IntensityLimits(m: IntensityMap)
    requires |m.maxList| > 0 && m.vMin == Min(m.maxList) && m.vMax == Max(m.maxList)
    ensures forall k | 0 <= k < |m.maxList| :: m.vMin <= m.maxList[k] <= m.vMax
    ensures m.vMin in m.maxList && m.vMax in m.maxList
  {
  }

  /** The reshaped map agrees with the file numbering: the cell of grid point `GridPoint(n)`
      holds the entry of file number `n`, i.e. listing position `n - 1`. */
  lemma MaxMapAddressing(xs: seq<int>, shapeY: int, shapeX: int, n: int)
    requires Reshape(xs, shapeY, shapeX).Some?
    requires 1 <= n <= |xs|
    ensures var p := GridPoint(n, shapeX);
      var grid := Reshape(xs, shapeY, shapeX).value;
      0 <= p.y < shapeY && 0 <= p.x < shapeX && grid[p.y][p.x] == xs[n - 1]
  {
    FileNumberOfGridPoint(n, shapeX, shapeY);
  }
}
