/**
  The two reductions over the sorted point list: the segment table that
  `save_data` exports and the transit time that `calculate_total_time` shows.
 */
module Metrics {
  import opened Wrappers
  import opened Profile

  /** One exported row: boundary speeds (m/s) and the distance covered (m). */
  datatype Segment = Segment(initialSpeed: real, finalSpeed: real, distance: real)

  /** The segment between two adjacent control points. */
  function Between(a: Point, b: Point): Segment
  {
    Segment(a.speed, b.speed, b.x - a.x)
  }

  /** The segment table: one row per adjacent pair, in list order. */
  function Segments(s: seq<Point>): (r: seq<Segment>)
    ensures |s| <= 1 ==> r == []
    ensures 1 < |s| ==> |r| == |s| - 1
    ensures forall i :: 0 <= i < |r| ==>
      && r[i].initialSpeed == s[i].speed
      && r[i].finalSpeed == s[i + 1].speed
      && r[i].distance == s[i + 1].x - s[i].x
    decreases |s|
  {
    if |s| < 2 then [] else Segments(s[..|s| - 1]) + [Between(s[|s| - 2], s[|s| - 1])]
  }

  /** On a list sorted by distance no exported segment runs backwards. */
  lemma SortedSegmentsNonNegative(s: seq<Point>)
    requires Sorted(s)
    ensures forall i :: 0 <= i < |Segments(s)| ==> 0.0 <= Segments(s)[i].distance
  {
  }

  /**
    Lays the segments end to end from distance x0: the inverse of `Segments`
    once the first point's distance is known.
   */
  function Rebuild(x0: real, segs: seq<Segment>): (r: seq<Point>)
    requires |segs| > 0
    ensures |r| == |segs| + 1
    decreases |segs|
  {
    if |segs| == 1 then
      [Point(x0, segs[0].initialSpeed), Point(x0 + segs[0].distance, segs[0].finalSpeed)]
    else
      var prev := Rebuild(x0, segs[..|segs| - 1]);
      var last := segs[|segs| - 1];
      prev + [Point(prev[|prev| - 1].x + last.distance, last.finalSpeed)]
  }

  /** The table of a list is the table of the list without its last point, plus one row. */
  lemma SegmentsSnoc(s: seq<Point>)
    requires |s| >= 2
    ensures Segments(s)[..|s| - 2] == Segments(s[..|s| - 1])
    ensures Segments(s)[|s| - 2] == Between(s[|s| - 2], s[|s| - 1])
  {
  }

  /** Rebuilding from a table appends one point per row, placed one row's distance further on. */
  lemma RebuildSnoc(x0: real, segs: seq<Segment>, prev: seq<Point>)
    requires |segs| >= 2
    requires Rebuild(x0, segs[..|segs| - 1]) == prev
    ensures |prev| == |segs|
    ensures Rebuild(x0, segs) == prev + [Point(prev[|prev| - 1].x + segs[|segs| - 1].distance, segs[|segs| - 1].finalSpeed)]
  {
  }

  /** One step of `RebuildSegments`: the last point comes back from the last row. */
  lemma RebuildSegmentsStep(s: seq<Point>)
    requires |s| > 2
    requires Rebuild(s[0].x, Segments(s[..|s| - 1])) == s[..|s| - 1]
    ensures Rebuild(s[0].x, Segments(s)) == s
  {
    var init, segs := s[..|s| - 1], Segments(s);
    assert segs[..|segs| - 1] == Segments(init) by {
      SegmentsSnoc(s);
    }
    var last := Point(init[|init| - 1].x + segs[|segs| - 1].distance, segs[|segs| - 1].finalSpeed);
    RebuildSnoc(s[0].x, segs, init);
    assert last == s[|s| - 1] by {
      SegmentsSnoc(s);
    }
    SplitLast(s);
  }

  /** The exported table loses nothing but the first point's distance. */
  lemma {:induction false} RebuildSegments(s: seq<Point>)
    requires |s| >= 2
    ensures Rebuild(s[0].x, Segments(s)) == s
    decreases |s|
  {
    if |s| == 2 {
      SegmentsSnoc(s);
      assert Segments(s) == [Between(s[0], s[1])];
      assert s == [s[0], s[1]];
    } else {
      RebuildSegments(s[..|s| - 1]);
      RebuildSegmentsStep(s);
    }
  }

  /** The segment's time is either skipped (both speeds zero) or has a nonzero divisor. */
  predicate Guarded(g: Segment)
  {
    (g.initialSpeed == 0.0 && g.finalSpeed == 0.0) || g.initialSpeed + g.finalSpeed != 0.0
  }

  /** Time to cover one segment at the average of its boundary speeds. */
  function SegmentTime(g: Segment): (t: real)
    requires Guarded(g)
    ensures g.initialSpeed == 0.0 && g.finalSpeed == 0.0 ==> t == 0.0
    ensures g.initialSpeed != 0.0 || g.finalSpeed != 0.0 ==>
      t * ((g.initialSpeed + g.finalSpeed) / 2.0) == g.distance
    ensures 0.0 <= g.initialSpeed && 0.0 <= g.finalSpeed && 0.0 <= g.distance ==> 0.0 <= t
  {
    if g.initialSpeed == 0.0 && g.finalSpeed == 0.0 then
      0.0
    else
      g.distance / ((g.initialSpeed + g.finalSpeed) / 2.0)
  }

  /** Every adjacent pair of s can be timed without dividing by zero. */
  predicate TimeDefined(s: seq<Point>)
  {
    forall i :: 0 < i < |s| ==> Guarded(Between(s[i - 1], s[i]))
  }

  /** Under the clamp invariant every pair is timeable: a nonzero speed makes the average positive. */
  lemma ClampedSpeedsDefineTime(s: seq<Point>)
    requires SpeedsInRange(s)
    ensures TimeDefined(s)
    ensures forall i :: 0 < i < |s| && !(s[i - 1].speed == 0.0 && s[i].speed == 0.0) ==>
      0.0 < (s[i - 1].speed + s[i].speed) / 2.0
  {
    forall i | 0 < i < |s|
      ensures Guarded(Between(s[i - 1], s[i]))
    {
      assert SpeedOk(s[i - 1]) && SpeedOk(s[i]);
    }
  }

  /** The displayed total transit time, summed left to right over adjacent pairs. */
  function TotalTime(s: seq<Point>): (t: real)
    requires TimeDefined(s)
    ensures |s| <= 1 ==> t == 0.0
    ensures Sorted(s) && SpeedsInRange(s) ==> 0.0 <= t
    decreases |s|
  {
    if |s| < 2 then
      0.0
    else
      var init := s[..|s| - 1];
      assert Sorted(s) ==> Sorted(init);
      assert SpeedsInRange(s) ==> SpeedsInRange(init);
      assert SpeedsInRange(s) ==> SpeedOk(s[|s| - 2]) && SpeedOk(s[|s| - 1]);
      TotalTime(init) + SegmentTime(Between(s[|s| - 2], s[|s| - 1]))
  }

  /** Sum of the times of a segment table. */
  function SumTimes(segs: seq<Segment>): real
    requires forall i :: 0 <= i < |segs| ==> Guarded(segs[i])
    decreases |segs|
  {
    if segs == [] then 0.0 else SumTimes(segs[..|segs| - 1]) + SegmentTime(segs[|segs| - 1])
  }

  /** One step of the recursion of `TotalTime`, for a list of at least two points. */
  lemma TotalTimeUnfold(s: seq<Point>)
    requires TimeDefined(s)
    requires |s| >= 2
    ensures TimeDefined(s[..|s| - 1])
    ensures TotalTime(s) == TotalTime(s[..|s| - 1]) + SegmentTime(Between(s[|s| - 2], s[|s| - 1]))
  {
  }

  /** Every row of the table of a timeable list is timeable. */
  lemma SegmentsGuarded(s: seq<Point>)
    requires TimeDefined(s)
    ensures forall i :: 0 <= i < |Segments(s)| ==> Guarded(Segments(s)[i])
  {
    var segs := Segments(s);
    forall i | 0 <= i < |segs|
      ensures Guarded(segs[i])
    {
      assert segs[i] == Between(s[i], s[i + 1]);
    }
  }

  /** The displayed time is the sum over the exported table's rows. */
  lemma {:induction false} TotalTimeIsSumOverSegments(s: seq<Point>)
    requires TimeDefined(s)
    ensures forall i :: 0 <= i < |Segments(s)| ==> Guarded(Segments(s)[i])
    ensures TotalTime(s) == SumTimes(Segments(s))
    decreases |s|
  {
    SegmentsGuarded(s);
    if |s| >= 2 {
      var init, last := s[..|s| - 1], Between(s[|s| - 2], s[|s| - 1]);
      var segs, before := Segments(s), Segments(init);
      TotalTimeUnfold(s);
      TotalTimeIsSumOverSegments(init);
      assert segs == before + [last];
      assert segs[..|segs| - 1] == before;
      assert SumTimes(segs) == SumTimes(before) + SegmentTime(last);
    }
  }

  /** Three points (0,0), (10,10), (20,10) give two rows and 3 seconds. */
  lemma WorkedExample()
    ensures Segments([Point(0.0, 0.0), Point(10.0, 10.0), Point(20.0, 10.0)])
      == [Segment(0.0, 10.0, 10.0), Segment(10.0, 10.0, 10.0)]
    ensures TimeDefined([Point(0.0, 0.0), Point(10.0, 10.0), Point(20.0, 10.0)])
    ensures TotalTime([Point(0.0, 0.0), Point(10.0, 10.0), Point(20.0, 10.0)]) == 3.0
  {
    var s := [Point(0.0, 0.0), Point(10.0, 10.0), Point(20.0, 10.0)];
    var two := [Point(0.0, 0.0), Point(10.0, 10.0)];
    assert s[..2] == two;
    assert two[..1] == [Point(0.0, 0.0)];
    assert SegmentTime(Segment(0.0, 10.0, 10.0)) == 2.0;
    assert SegmentTime(Segment(10.0, 10.0, 10.0)) == 1.0;
    assert TotalTime(two) == 2.0;
  }

  /** A stop-to-stop pair adds nothing; a pair with one tiny nonzero speed adds a finite time. */
  lemma BothZeroSkipExamples()
    ensures TotalTime([Point(0.0, 0.0), Point(10.0, 0.0)]) == 0.0
    ensures TotalTime([Point(0.0, 0.0001), Point(10.0, 0.0)]) == 200000.0
  {
    var a := [Point(0.0, 0.0), Point(10.0, 0.0)];
    var b := [Point(0.0, 0.0001), Point(10.0, 0.0)];
    assert a[..1] == [Point(0.0, 0.0)];
    assert b[..1] == [Point(0.0, 0.0001)];
  }

  /** `calculate_total_time`: the loop over i in 1 .. len - 1 with its skip of stop-to-stop pairs. */
  method CalculateTotalTime(s: seq<Point>) returns (total: real)
    requires TimeDefined(s)
    ensures total == TotalTime(s)
  {
    total := 0.0;
    if |s| > 1 {
      var i := 1;
      while i < |s|
        invariant 1 <= i <= |s|
        invariant TimeDefined(s[..i])
        invariant total == TotalTime(s[..i])
      {
        var initialSpeed := s[i - 1].speed;
        var finalSpeed := s[i].speed;
        var distance := s[i].x - s[i - 1].x;
        assert s[..i + 1][..i] == s[..i];
        assert Guarded(Between(s[i - 1], s[i]));
        if !(initialSpeed == 0.0 && finalSpeed == 0.0) {
          var avgSpeed := (initialSpeed + finalSpeed) / 2.0;
          total := total + distance / avgSpeed;
        }
        i := i + 1;
      }
      assert s[..i] == s;
    }
  }

  /** The three columns of the saved table. */
  datatype Columns = Columns(initialSpeeds: seq<real>, finalSpeeds: seq<real>, distances: seq<real>)

  /**
    `save_data` without the file write: nothing for fewer than two points,
    otherwise the columns of the segment table.
   */
  method SaveData(s: seq<Point>) returns (table: Option<Columns>)
    ensures table.None? <==> |s| <= 1
    ensures table.Some? ==>
      var c := table.value;
      && |c.initialSpeeds| == |c.finalSpeeds| == |c.distances| == |s| - 1
      && forall i :: 0 <= i < |s| - 1 ==>
        && c.initialSpeeds[i] == s[i].speed
        && c.finalSpeeds[i] == s[i + 1].speed
        && c.distances[i] == s[i + 1].x - s[i].x
    ensures table.Some? ==> forall i :: 0 <= i < |s| - 1 ==>
      Segments(s)[i] == Segment(table.value.initialSpeeds[i], table.value.finalSpeeds[i], table.value.distances[i])
  {
    if |s| <= 1 {
      return None;
    }
    var initialSpeeds, finalSpeeds, distances := [], [], [];
    var i := 1;
    while i < |s|
      invariant 1 <= i <= |s|
      invariant |initialSpeeds| == |finalSpeeds| == |distances| == i - 1
      invariant forall j :: 0 <= j < i - 1 ==>
        && initialSpeeds[j] == s[j].speed
        && finalSpeeds[j] == s[j + 1].speed
        && distances[j] == s[j + 1].x - s[j].x
    {
      initialSpeeds := initialSpeeds + [s[i - 1].speed];
      finalSpeeds := finalSpeeds + [s[i].speed];
      distances := distances + [s[i].x - s[i - 1].x];
      i := i + 1;
    }
    table := Some(Columns(initialSpeeds, finalSpeeds, distances));
    var segs := Segments(s);
    forall j | 0 <= j < |s| - 1
      ensures segs[j] == Segment(initialSpeeds[j], finalSpeeds[j], distances[j])
    {
      assert |segs| == |s| - 1;
      var g := segs[j];
      assert g.initialSpeed == s[j].speed;
      assert initialSpeeds[j] == s[j].speed;
      assert g.finalSpeed == s[j + 1].speed;
      assert finalSpeeds[j] == s[j + 1].speed;
      assert g.distance == distances[j];
    }
  }
}
