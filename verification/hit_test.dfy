/**
  Resolving a click to an existing control point: the squared distance in
  (distance, speed) space, `np.argmin`, and `get_closest_point_idx`.
 */
module HitTest {
  import opened Wrappers
  import opened Profile

  /** Hit radius used by every caller of `get_closest_point_idx`. */
  const DefaultThreshold: real := 2.5

  /** Squared Euclidean distance from p to the click (x, y), with no axis scaling. */
  function SqDist(p: Point, x: real, y: real): real
  {
    (x - p.x) * (x - p.x) + (y - p.speed) * (y - p.speed)
  }

  /** The list of squared distances built before `np.argmin` is applied. */
  function Distances(s: seq<Point>, x: real, y: real): (d: seq<real>)
    ensures |d| == |s|
    ensures forall i :: 0 <= i < |s| ==> d[i] == SqDist(s[i], x, y)
  {
    seq(|s|, i requires 0 <= i < |s| => SqDist(s[i], x, y))
  }

  /** `np.argmin`: the position of the first smallest entry. */
  function FirstMin(d: seq<real>): (k: nat)
    requires |d| > 0
    ensures k < |d|
    ensures forall j :: 0 <= j < |d| ==> d[k] <= d[j]
    ensures forall j :: 0 <= j < k ==> d[k] < d[j]
    decreases |d|
  {
    if |d| == 1 then
      0
    else
      var k := FirstMin(d[..|d| - 1]);
      if d[|d| - 1] < d[k] then |d| - 1 else k
  }

  /**
    k is what a click at (x, y) should resolve to: a point strictly inside the
    threshold, nearest of all, and the first of the nearest.
   */
  predicate IsFirstNearestHit(s: seq<Point>, x: real, y: real, threshold: real, k: nat)
  {
    && k < |s|
    && SqDist(s[k], x, y) < threshold * threshold
    && (forall j :: 0 <= j < |s| ==> SqDist(s[k], x, y) <= SqDist(s[j], x, y))
    && (forall j :: 0 <= j < k ==> SqDist(s[k], x, y) < SqDist(s[j], x, y))
  }

  /** No point lies strictly inside the threshold around (x, y). */
  predicate NoneWithin(s: seq<Point>, x: real, y: real, threshold: real)
  {
    forall j :: 0 <= j < |s| ==> threshold * threshold <= SqDist(s[j], x, y)
  }

  /** `get_closest_point_idx(x, y, threshold)` over the point list s. */
  function ClosestPointIdx(s: seq<Point>, x: real, y: real, threshold: real): (r: Option<nat>)
    ensures s == [] ==> r == None
    ensures r.Some? ==> IsFirstNearestHit(s, x, y, threshold, r.value)
    ensures r.None? <==> NoneWithin(s, x, y, threshold)
  {
    if s == [] then
      None
    else
      var d := Distances(s, x, y);
      var k := FirstMin(d);
      if d[k] < threshold * threshold then Some(k) else None
  }

  /**
    The answer is exactly the first nearest point inside the threshold: no
    other index satisfies that description.
   */
  lemma ClosestIsUniqueHit(s: seq<Point>, x: real, y: real, threshold: real, k: nat)
    ensures ClosestPointIdx(s, x, y, threshold) == Some(k) <==> IsFirstNearestHit(s, x, y, threshold, k)
  {
    if IsFirstNearestHit(s, x, y, threshold, k) {
      assert !NoneWithin(s, x, y, threshold);
    }
  }

  /** A click on a point hits it; a click far from the only point misses. */
  lemma HitRadiusExamples()
    ensures ClosestPointIdx([Point(5.0, 5.0)], 5.0, 5.0, DefaultThreshold) == Some(0)
    ensures ClosestPointIdx([Point(10.0, 10.0)], 5.0, 5.0, DefaultThreshold) == None
    ensures ClosestPointIdx([Point(4.0, 5.0), Point(6.0, 5.0)], 5.0, 5.0, DefaultThreshold) == Some(0)
  {
    assert SqDist(Point(10.0, 10.0), 5.0, 5.0) == 50.0;
    var two := [Point(4.0, 5.0), Point(6.0, 5.0)];
    assert SqDist(two[0], 5.0, 5.0) == 1.0 && SqDist(two[1], 5.0, 5.0) == 1.0;
    assert IsFirstNearestHit(two, 5.0, 5.0, DefaultThreshold, 0);
    ClosestIsUniqueHit(two, 5.0, 5.0, DefaultThreshold, 0);
  }
}
