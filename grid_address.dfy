/** Addressing of the diffraction measurement grid: the images of a scan are numbered
    1, 2, 3, ... along X, row after row, so grid point (x, y) of a grid `width` points
    wide is stored in file number `(x + 1) + y * width`. */
module GridAddress {

  import opened Arith

  datatype Point = Point(x: int, y: int)

  /** The 1-based file number of grid point (x, y). */
  function FileNumber(x: int, y: int, width: int): int {
    (x + 1) + y * width
  }

  /** The grid point stored in file number `n`: the inverse of `FileNumber`. */
  function GridPoint(n: int, width: int): Point
    requires width > 0
  {
    Point((n - 1) % width, (n - 1) / width)
  }

  /** Number of values in the inclusive range `a..b` (Python's `range(a, b + 1)`). */
  function Extent(a: int, b: int): nat {
    if b < a then 0 else b - a + 1
  }

  /** The file numbers of row `y` from `x0` to `x1` inclusive, in the order of the inner loop. */
  function RowNumbers(x0: int, x1: int, y: int, width: int): (r: seq<int>)
    ensures |r| == Extent(x0, x1)
    ensures forall i | 0 <= i < |r| :: r[i] == FileNumber(x0 + i, y, width)
    decreases x1 - x0
  {
    if x1 < x0 then [] else RowNumbers(x0, x1 - 1, y, width) + [FileNumber(x1, y, width)]
  }

  /** The file numbers of the inclusive rectangle `start..end`, y outer and x inner. */
  function RegionNumbers(start: Point, end: Point, width: int): seq<int>
    decreases end.y - start.y
  {
    if end.y < start.y then []
    else RegionNumbers(start, Point(end.x, end.y - 1), width) + RowNumbers(start.x, end.x, end.y, width)
  }

  /** One more row of the outer loop appends that row's numbers. */
  lemma RegionNumbersStep(start: Point, x1: int, y: int, width: int)
    requires start.y <= y
    ensures RegionNumbers(start, Point(x1, y), width) ==
      RegionNumbers(start, Point(x1, y - 1), width) + RowNumbers(start.x, x1, y, width)
  {
  }

  // ---------------------------------------------------------------------------
  // The file-number map

  /** Every point of a `width` by `height` grid has a file number in `[1, width * height]`. */
  lemma FileNumberInRange(x: int, y: int, width: int, height: int)
    requires 0 <= x < width && 0 <= y < height
    ensures 1 <= FileNumber(x, y, width) <= width * height
  {
    MulMono(0, y, width);
    MulMono(y, height - 1, width);
    assert (height - 1) * width == height * width - width;
  }

  /** Reading the grid point back from the file number recovers the point. */
  lemma GridPointOfFileNumber(x: int, y: int, width: int)
    requires 0 <= x < width
    ensures GridPoint(FileNumber(x, y, width), width) == Point(x, y)
  {
    DivModUnique(x + y * width, width, y, x);
  }

  /** Every file number belongs to a grid point with `0 <= x < width`; file numbers in
      `[1, width * height]` belong to points of the `width` by `height` grid. */
  lemma FileNumberOfGridPoint(n: int, width: int, height: int)
    requires width > 0
    ensures var p := GridPoint(n, width);
      0 <= p.x < width && FileNumber(p.x, p.y, width) == n &&
      (1 <= n <= width * height ==> 0 <= p.y < height)
  {
    var p := GridPoint(n, width);
    assert n - 1 == p.y * width + p.x;
    if 1 <= n <= width * height {
      if p.y < 0 {
        MulMono(p.y, -1, width);
      }
      if p.y >= height {
        MulMono(height, p.y, width);
      }
    }
  }

  /** Distinct grid points (with in-range x) have distinct file numbers. */
  lemma FileNumberInjective(x1: int, y1: int, x2: int, y2: int, width: int)
    requires 0 <= x1 < width && 0 <= x2 < width
    requires FileNumber(x1, y1, width) == FileNumber(x2, y2, width)
    ensures x1 == x2 && y1 == y2
  {
    GridPointOfFileNumber(x1, y1, width);
    GridPointOfFileNumber(x2, y2, width);
  }

  // ---------------------------------------------------------------------------
  // The region enumeration

  /** The loops visit `Extent(x0, x1) * Extent(y0, y1)` points; none when either range is empty. */
  lemma {:induction false} RegionLength(start: Point, end: Point, width: int)
    ensures |RegionNumbers(start, end, width)| == Extent(start.x, end.x) * Extent(start.y, end.y)
    decreases end.y - start.y
  {
    if end.y >= start.y {
      RegionLength(start, Point(end.x, end.y - 1), width);
      var c := Extent(start.x, end.x);
      assert c * Extent(start.y, end.y - 1) + c == c * Extent(start.y, end.y);
    }
  }

  /** The region's numbers are exactly the file numbers of the rectangle's points. */
  lemma {:induction false} RegionMembership(start: Point, end: Point, width: int, n: int)
    ensures n in RegionNumbers(start, end, width) <==>
      exists x, y :: start.x <= x <= end.x && start.y <= y <= end.y && n == FileNumber(x, y, width)
    decreases end.y - start.y
  {
    if end.y >= start.y {
      var below := Point(end.x, end.y - 1);
      var row := RowNumbers(start.x, end.x, end.y, width);
      RegionMembership(start, below, width, n);
      if n in row {
        var i :| 0 <= i < |row| && row[i] == n;
        assert n == FileNumber(start.x + i, end.y, width);
      }
      if exists x :: start.x <= x <= end.x && n == FileNumber(x, end.y, width) {
        var x :| start.x <= x <= end.x && n == FileNumber(x, end.y, width);
        assert row[x - start.x] == n;
      }
    }
  }

  /** Each number of a region with in-range x is at most the number of its last point. */
  lemma RegionUpperBound(start: Point, end: Point, width: int, n: int)
    requires 0 <= start.x && end.x < width
    requires n in RegionNumbers(start, end, width)
    ensures n <= FileNumber(end.x, end.y, width)
  {
    RegionMembership(start, end, width, n);
    var x, y :| start.x <= x <= end.x && start.y <= y <= end.y && n == FileNumber(x, y, width);
    MulMono(y, end.y, width);
  }

  /** With in-range x the numbers come out strictly increasing, so none repeats. */
  lemma {:induction false} RegionStrictlyIncreasing(start: Point, end: Point, width: int)
    requires 0 <= start.x && end.x < width
    ensures var r := RegionNumbers(start, end, width);
      forall i, j | 0 <= i < j < |r| :: r[i] < r[j]
    decreases end.y - start.y
  {
    if end.y >= start.y {
      var below := Point(end.x, end.y - 1);
      var a := RegionNumbers(start, below, width);
      var b := RowNumbers(start.x, end.x, end.y, width);
      RegionStrictlyIncreasing(start, below, width);
      forall i | 0 <= i < |a| ensures a[i] < FileNumber(start.x, end.y, width) {
        RegionUpperBound(start, below, width, a[i]);
        assert (end.y - 1) * width == end.y * width - width;
      }
      assert a + b == RegionNumbers(start, end, width);
    }
  }

  /** A region whose start equals its end visits exactly one point. */
  lemma SinglePointRegion(p: Point, width: int)
    ensures RegionNumbers(p, p, width) == [FileNumber(p.x, p.y, width)]
  {
    assert RegionNumbers(p, Point(p.x, p.y - 1), width) == [];
  }

  /** On a grid three points wide, the square from (0, 0) to (1, 1) is files 1, 2, 4 and 5. */
  lemma ThreeWideSquareExample()
    ensures RegionNumbers(Point(0, 0), Point(1, 1), 3) == [1, 2, 4, 5]
  {
    SinglePointRegion(Point(0, 0), 3);
    assert RegionNumbers(Point(0, 0), Point(1, 0), 3) == [1, 2];
  }
}
