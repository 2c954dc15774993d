/**
  The control points of a speed profile: their clamped speeds and the
  stable re-sort by distance that `update_plot` performs after every change.
 */
module Profile {

  /** Lowest and highest speed a control point may carry, in m/s. */
  const MinSpeed: real := 0.0
  const MaxSpeed: real := 15.0

  /** A control point: a distance along the track (m) and a target speed (m/s). */
  datatype Point = Point(x: real, speed: real)

  /** `np.clip(v, MinSpeed, MaxSpeed)`, taken as exact. */
  function Clamp(v: real): (r: real)
    ensures MinSpeed <= r <= MaxSpeed
    ensures MinSpeed <= v <= MaxSpeed ==> r == v
    ensures v < MinSpeed ==> r == MinSpeed
    ensures MaxSpeed < v ==> r == MaxSpeed
  {
    if v < MinSpeed then MinSpeed else if MaxSpeed < v then MaxSpeed else v
  }

  /** The point a click at (x, y) creates: distance as given, speed clamped. */
  function ClampedPoint(x: real, y: real): Point
  {
    Point(x, Clamp(y))
  }

  predicate SpeedOk(p: Point)
  {
    MinSpeed <= p.speed <= MaxSpeed
  }

  /** Every point's speed lies in [MinSpeed, MaxSpeed]. */
  predicate SpeedsInRange(s: seq<Point>)
  {
    forall i :: 0 <= i < |s| ==> SpeedOk(s[i])
  }

  /** Non-decreasing by distance. */
  predicate Sorted(s: seq<Point>)
  {
    forall i, j :: 0 <= i < j < |s| ==> s[i].x <= s[j].x
  }

  /** A non-empty sequence is its prefix followed by its last element. */
  lemma SplitLast<T>(s: seq<T>)
    requires |s| > 0
    ensures s == s[..|s| - 1] + [s[|s| - 1]]
  {
  }

  /** A non-empty sequence is its first element followed by the rest. */
  lemma SplitFirst<T>(s: seq<T>)
    requires |s| > 0
    ensures s == [s[0]] + s[1..]
  {
  }

  /** A bound below every distance of a also lies below every distance of any sub-multiset b. */
  lemma LowerBoundCarriesOver(a: seq<Point>, b: seq<Point>, lo: real)
    requires multiset(b) <= multiset(a)
    requires forall i :: 0 <= i < |a| ==> lo <= a[i].x
    ensures forall i :: 0 <= i < |b| ==> lo <= b[i].x
  {
    forall i | 0 <= i < |b|
      ensures lo <= b[i].x
    {
      assert b[i] in multiset(a);
    }
  }

  lemma SortedHeadIsLeast(s: seq<Point>)
    requires Sorted(s) && s != []
    ensures forall i :: 0 <= i < |s| ==> s[0].x <= s[i].x
  {
  }

  lemma SortedInitIsBelowLast(s: seq<Point>)
    requires Sorted(s) && s != []
    ensures Sorted(s[..|s| - 1])
    ensures forall i :: 0 <= i < |s| - 1 ==> s[i].x <= s[|s| - 1].x
  {
  }

  /** A point no farther than any point of a sorted list can go in front of it. */
  lemma SortedCons(q: Point, s: seq<Point>)
    requires Sorted(s)
    requires forall i :: 0 <= i < |s| ==> q.x <= s[i].x
    ensures Sorted([q] + s)
  {
  }

  /**
    Inserts p into a sorted sequence after every point whose distance does
    not exceed p's, so points at equal distance keep their arrival order.
   */
  function Insert(s: seq<Point>, p: Point): (r: seq<Point>)
    requires Sorted(s)
    ensures Sorted(r)
    ensures multiset(r) == multiset(s) + multiset{p}
    ensures |r| == |s| + 1
    decreases |s|
  {
    if s == [] || p.x < s[0].x then
      InsertFront(s, p);
      [p] + s
    else
      var rest := Insert(s[1..], p);
      InsertBehindHead(s, p, rest);
      [s[0]] + rest
  }

  /** A point nearer than the head of a sorted list goes in front of it. */
  lemma InsertFront(s: seq<Point>, p: Point)
    requires Sorted(s)
    requires s == [] || p.x < s[0].x
    ensures Sorted([p] + s)
    ensures multiset([p] + s) == multiset(s) + multiset{p}
  {
    if s != [] {
      SortedHeadIsLeast(s);
    }
    SortedCons(p, s);
  }

  /** The head of a sorted list stays in front of the tail with p inserted. */
  lemma InsertBehindHead(s: seq<Point>, p: Point, rest: seq<Point>)
    requires Sorted(s) && s != [] && s[0].x <= p.x
    requires Sorted(rest) && multiset(rest) == multiset(s[1..]) + multiset{p}
    ensures Sorted([s[0]] + rest)
    ensures multiset([s[0]] + rest) == multiset(s) + multiset{p}
  {
    var pool := s[1..] + [p];
    assert multiset(pool) == multiset(s[1..]) + multiset{p};
    assert forall i :: 0 <= i < |pool| ==> s[0].x <= pool[i].x;
    LowerBoundCarriesOver(pool, rest, s[0].x);
    SortedCons(s[0], rest);
    SplitFirst(s);
  }

  /**
    The stable sort of `speed_points.sort(key=lambda p: p[0])`, written as
    an insertion sort that inserts the points in list order.
   */
  function SortByDistance(s: seq<Point>): (r: seq<Point>)
    ensures Sorted(r)
    ensures multiset(r) == multiset(s)
    ensures |r| == |s|
    decreases |s|
  {
    if s == [] then
      []
    else
      SplitLast(s);
      Insert(SortByDistance(s[..|s| - 1]), s[|s| - 1])
  }

  /** One step of the sort: insert the last point into the sorted rest. */
  lemma SortByDistanceSnoc(s: seq<Point>)
    requires s != []
    ensures SortByDistance(s) == Insert(SortByDistance(s[..|s| - 1]), s[|s| - 1])
  {
  }

  /** Sorting two points that are out of order swaps them. */
  lemma SortSwapsPair(p: Point, q: Point)
    requires q.x < p.x
    ensures SortByDistance([p, q]) == [q, p]
  {
    assert [p, q][..1] == [p];
    assert [p][..0] == [];
    assert SortByDistance([p]) == [p];
  }

  /** The points of s lying exactly at distance k, in their order in s. */
  function AtDistance(s: seq<Point>, k: real): seq<Point>
    decreases |s|
  {
    if s == [] then [] else (if s[0].x == k then [s[0]] else []) + AtDistance(s[1..], k)
  }

  lemma {:induction false} AtDistanceConcat(a: seq<Point>, b: seq<Point>, k: real)
    ensures AtDistance(a + b, k) == AtDistance(a, k) + AtDistance(b, k)
    decreases |a|
  {
    if a == [] {
      assert a + b == b;
    } else {
      var head := if a[0].x == k then [a[0]] else [];
      SplitFirst(a);
      AppendIsAssociative([a[0]], a[1..], b);
      AtDistanceCons(a[0], a[1..] + b, k);
      AtDistanceConcat(a[1..], b, k);
      AtDistanceCons(a[0], a[1..], k);
      AppendIsAssociative(head, AtDistance(a[1..], k), AtDistance(b, k));
    }
  }

  lemma {:induction false} AtDistanceBelowAll(s: seq<Point>, k: real)
    requires forall i :: 0 <= i < |s| ==> k < s[i].x
    ensures AtDistance(s, k) == []
    decreases |s|
  {
    if s != [] {
      AtDistanceBelowAll(s[1..], k);
    }
  }

  lemma AtDistanceCons(q: Point, s: seq<Point>, k: real)
    ensures AtDistance([q] + s, k) == (if q.x == k then [q] else []) + AtDistance(s, k)
  {
    assert ([q] + s)[1..] == s;
  }

  lemma {:induction false} InsertAtDistance(s: seq<Point>, p: Point, k: real)
    requires Sorted(s)
    ensures AtDistance(Insert(s, p), k) == AtDistance(s, k) + AtDistance([p], k)
    decreases |s|
  {
    var here := if p.x == k then [p] else [];
    assert AtDistance([p], k) == here by {
      AtDistanceCons(p, [], k);
    }
    if s == [] {
      assert Insert(s, p) == [p];
    } else if p.x < s[0].x {
      assert Insert(s, p) == [p] + s;
      AtDistanceCons(p, s, k);
      if p.x == k {
        SortedHeadIsLeast(s);
        AtDistanceBelowAll(s, k);
      }
    } else {
      var rest := Insert(s[1..], p);
      assert Insert(s, p) == [s[0]] + rest;
      InsertAtDistance(s[1..], p, k);
      AtDistanceCons(s[0], rest, k);
      AtDistanceCons(s[0], s[1..], k);
      assert [s[0]] + s[1..] == s;
      var head := if s[0].x == k then [s[0]] else [];
      AppendIsAssociative(head, AtDistance(s[1..], k), here);
    }
  }

  lemma AppendIsAssociative(a: seq<Point>, b: seq<Point>, c: seq<Point>)
    ensures a + (b + c) == (a + b) + c
  {
  }

  /**
    Stability: for every distance, the points at that distance appear in the
    sorted result in the same order as in the input.
   */
  lemma {:induction false} SortIsStable(s: seq<Point>, k: real)
    ensures AtDistance(SortByDistance(s), k) == AtDistance(s, k)
    decreases |s|
  {
    if s != [] {
      var init, last := s[..|s| - 1], s[|s| - 1];
      SortByDistanceSnoc(s);
      SortIsStable(init, k);
      InsertAtDistance(SortByDistance(init), last, k);
      assert AtDistance(s, k) == AtDistance(init, k) + AtDistance([last], k) by {
        SplitLast(s);
        AtDistanceConcat(init, [last], k);
      }
    }
  }

  lemma {:induction false} InsertLast(s: seq<Point>, p: Point)
    requires Sorted(s)
    requires forall i :: 0 <= i < |s| ==> s[i].x <= p.x
    ensures Insert(s, p) == s + [p]
    decreases |s|
  {
    if s != [] {
      InsertLast(s[1..], p);
      SplitFirst(s);
    }
  }

  /** Re-sorting a list that is already sorted leaves it exactly as it is. */
  lemma {:induction false} SortedIsFixpoint(s: seq<Point>)
    ensures Sorted(s) ==> SortByDistance(s) == s
    decreases |s|
  {
    if s != [] && Sorted(s) {
      var init, last := s[..|s| - 1], s[|s| - 1];
      SortedInitIsBelowLast(s);
      SortedIsFixpoint(init);
      assert SortByDistance(s) == Insert(init, last);
      InsertLast(init, last);
      SplitLast(s);
    }
  }

  /** Sorting twice is sorting once. */
  lemma SortIdempotent(s: seq<Point>)
    ensures SortByDistance(SortByDistance(s)) == SortByDistance(s)
  {
    SortedIsFixpoint(SortByDistance(s));
  }

  /** The clamp invariant survives rearranging the points and dropping some of them. */
  lemma SpeedsInRangeCarriesOver(a: seq<Point>, b: seq<Point>)
    requires multiset(b) <= multiset(a)
    ensures SpeedsInRange(a) ==> SpeedsInRange(b)
  {
    if SpeedsInRange(a) {
      forall i | 0 <= i < |b|
        ensures SpeedOk(b[i])
      {
        assert b[i] in multiset(a);
      }
    }
  }

  /** A sequence is the part before position k, the element at k, and the part after. */
  lemma SplitAt<T>(s: seq<T>, k: nat)
    requires k < |s|
    ensures s == s[..k] + [s[k]] + s[k + 1..]
  {
  }

  /** Deleting position k keeps the points before k in place and moves the rest down one. */
  lemma DeleteShifts(s: seq<Point>, k: nat)
    requires k < |s|
    ensures |s[..k] + s[k + 1..]| == |s| - 1
    ensures forall j :: 0 <= j < |s| - 1 ==> (s[..k] + s[k + 1..])[j] == (if j < k then s[j] else s[j + 1])
  {
  }

  /** Deleting position k removes one copy of s[k] and nothing else. */
  lemma DeleteMultiset(s: seq<Point>, k: nat)
    requires k < |s|
    ensures multiset(s[..k] + s[k + 1..]) == multiset(s) - multiset{s[k]}
  {
    SplitAt(s, k);
  }

  /** Deleting one position from a sorted list leaves it sorted. */
  lemma DeleteKeepsSorted(s: seq<Point>, k: nat)
    requires k < |s|
    ensures Sorted(s) ==> Sorted(s[..k] + s[k + 1..])
  {
    var r := s[..k] + s[k + 1..];
    if Sorted(s) {
      forall i, j | 0 <= i < j < |r|
        ensures r[i].x <= r[j].x
      {
        var a := if i < k then i else i + 1;
        var b := if j < k then j else j + 1;
        assert r[i] == s[a] && r[j] == s[b];
      }
    }
  }

  /** The list with the element at position k deleted (`del s[k]`). */
  function RemoveAt(s: seq<Point>, k: nat): (r: seq<Point>)
    requires k < |s|
    ensures |r| == |s| - 1
    ensures multiset(r) == multiset(s) - multiset{s[k]}
    ensures forall j :: 0 <= j < |r| ==> r[j] == (if j < k then s[j] else s[j + 1])
    ensures Sorted(s) ==> Sorted(r)
  {
    DeleteMultiset(s, k);
    DeleteShifts(s, k);
    DeleteKeepsSorted(s, k);
    s[..k] + s[k + 1..]
  }
}
