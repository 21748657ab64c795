/** The two geometry helpers of the bounding-box utilities: a box's integer center point and
    the squared distance between two points. */
module BboxUtils {

  datatype Point = Point(x: real, y: real)

  /** A detector box in pixel coordinates (top-left x1, y1; bottom-right x2, y2). */
  datatype Box = Box(x1: real, y1: real, x2: real, y2: real)

  /** Python's `int(r)`: truncation toward zero. */
  function Trunc(r: real): (n: int)
    ensures r >= 0.0 ==> 0 <= n && n as real <= r < n as real + 1.0
    ensures r < 0.0 ==> n <= 0 && n as real - 1.0 < r <= n as real
  {
    if r >= 0.0 then r.Floor else -((-r).Floor)
  }

  predicate IsIntegral(r: real) { r == r.Floor as real }

  /** Truncation is monotone, so it keeps the order of a box's corners. */
  lemma TruncMonotone(a: real, b: real)
    ensures a <= b ==> Trunc(a) <= Trunc(b)
  {
  }

  /** `calculate_center_point`: truncate every corner coordinate, halve the sums, truncate again. */
  function CalculateCenterPoint(b: Box): (c: Point)
    ensures IsIntegral(c.x) && IsIntegral(c.y)
    ensures b.x1 <= b.x2 ==> Trunc(b.x1) as real <= c.x <= Trunc(b.x2) as real
    ensures b.y1 <= b.y2 ==> Trunc(b.y1) as real <= c.y <= Trunc(b.y2) as real
  {
    TruncMonotone(b.x1, b.x2);
    TruncMonotone(b.y1, b.y2);
    var x1, y1, x2, y2 := Trunc(b.x1), Trunc(b.y1), Trunc(b.x2), Trunc(b.y2);
    HalfBetween(x1, x2);
    HalfBetween(y1, y2);
    Point(Trunc((x1 + x2) as real / 2.0) as real, Trunc((y1 + y2) as real / 2.0) as real)
  }

  /** Halving the sum of two integers and truncating lands between them. */
  lemma HalfBetween(a: int, b: int)
    ensures a <= b ==> a <= Trunc((a + b) as real / 2.0) <= b
    ensures IsIntegral(Trunc((a + b) as real / 2.0) as real)
  {
    var r := (a + b) as real / 2.0;
    assert a as real <= r <= b as real || b < a;
  }

  /** `measure_euclidean_distance`: the SQUARED straight-line distance (no square root is taken). */
  function MeasureEuclideanDistance(p1: Point, p2: Point): (d: real)
    ensures d >= 0.0
    ensures p1 == p2 ==> d == 0.0
  {
    SquareNonNegative(p1.x - p2.x);
    SquareNonNegative(p1.y - p2.y);
    (p1.x - p2.x) * (p1.x - p2.x) + (p1.y - p2.y) * (p1.y - p2.y)
  }

  lemma SquareNonNegative(r: real)
    ensures r * r >= 0.0
  {
    if r < 0.0 {
      var n := -r;
      assert n * n > 0.0;
      assert r * r == n * n;
    }
  }

  lemma DistanceSymmetric(p1: Point, p2: Point)
    ensures MeasureEuclideanDistance(p1, p2) == MeasureEuclideanDistance(p2, p1)
  {
  }
}
