/**
  The editing session: the point list and the drag index shared by the
  press, motion and release handlers and the Clear button. Every handler is a
  pure step from one state to the next.
 */
module Editor {
  import opened Wrappers
  import opened Profile
  import opened HitTest
  import opened Metrics

  /**
    The session state. `drag` is a raw list position captured at press time;
    it is not re-resolved after a re-sort, so it may name a different point,
    or no point at all, by the time it is used.
   */
  datatype EditorState = EditorState(points: seq<Point>, drag: Option<nat>)

  /** Mouse buttons, already decoded from the press event. */
  datatype Button = Left | Middle | Right

  /** The events that reach the editor, with their data coordinates already decoded. */
  datatype Event =
    | Press(button: Button, x: real, y: real)
    | Motion(x: real, y: real)
    | Release
    | ClearClicked

  /** An empty profile with nothing being dragged. */
  const Initial := EditorState([], None)

  /** What holds after every handler: sorted by distance, speeds clamped. */
  predicate Valid(st: EditorState)
  {
    Sorted(st.points) && SpeedsInRange(st.points)
  }

  /** `after` is `before` with p added and the list re-sorted. */
  predicate AddedSorted(before: seq<Point>, after: seq<Point>, p: Point)
  {
    && |after| == |before| + 1
    && multiset(after) == multiset(before) + multiset{p}
    && Sorted(after)
  }

  /**
    Left press: resolve the click to a point and start dragging it, or, when
    no point is within the hit radius, add a clamped point and drag nothing.
   */
  function OnLeftPress(st: EditorState, x: real, y: real): (r: EditorState)
    ensures r.drag.Some? <==> !NoneWithin(st.points, x, y, DefaultThreshold)
    ensures r.drag.Some? ==>
      && r.points == st.points
      && IsFirstNearestHit(st.points, x, y, DefaultThreshold, r.drag.value)
    ensures r.drag.None? ==> AddedSorted(st.points, r.points, Point(x, Clamp(y)))
    ensures SpeedsInRange(st.points) ==> SpeedsInRange(r.points)
  {
    match ClosestPointIdx(st.points, x, y, DefaultThreshold)
    case Some(k) =>
      EditorState(st.points, Some(k))
    case None =>
      var added := st.points + [ClampedPoint(x, y)];
      var sorted := SortByDistance(added);
      assert SpeedsInRange(st.points) ==> SpeedsInRange(added);
      SpeedsInRangeCarriesOver(added, sorted);
      EditorState(sorted, None)
  }

  /** `remove_point`: delete the point the click resolves to, if any, and re-sort. */
  function RemovePoint(s: seq<Point>, x: real, y: real): (r: seq<Point>)
    ensures NoneWithin(s, x, y, DefaultThreshold) ==> r == s
    ensures !NoneWithin(s, x, y, DefaultThreshold) ==>
      var k := ClosestPointIdx(s, x, y, DefaultThreshold).value;
      && |r| == |s| - 1
      && multiset(r) == multiset(s) - multiset{s[k]}
      && Sorted(r)
      && (Sorted(s) ==> r == s[..k] + s[k + 1..])
    ensures SpeedsInRange(s) ==> SpeedsInRange(r)
  {
    match ClosestPointIdx(s, x, y, DefaultThreshold)
    case None =>
      s
    case Some(k) =>
      var removed := RemoveAt(s, k);
      var sorted := SortByDistance(removed);
      SpeedsInRangeCarriesOver(s, removed);
      SpeedsInRangeCarriesOver(removed, sorted);
      SortedIsFixpoint(removed);
      sorted
  }

  /**
    The write that a motion event performs before the re-sort: the element at
    position i is replaced and every other element is kept. A position past
    the end of the list makes the source raise IndexError, written here as None.
   */
  function DragUpdate(s: seq<Point>, i: nat, x: real, y: real): (r: Option<seq<Point>>)
    ensures r.None? <==> |s| <= i
    ensures r.Some? ==>
      && |r.value| == |s|
      && r.value[i] == Point(x, Clamp(y))
      && forall j :: 0 <= j < |s| && j != i ==> r.value[j] == s[j]
  {
    if i < |s| then Some(s[i := ClampedPoint(x, y)]) else None
  }

  /**
    Motion: while a drag index is held, overwrite whatever point now sits at
    that index and re-sort. The index itself is kept as it is.
   */
  function OnMotion(st: EditorState, x: real, y: real): (r: EditorState)
    ensures r.drag == st.drag
    ensures st.drag.None? ==> r.points == st.points
    ensures st.drag.Some? && |st.points| <= st.drag.value ==> r.points == st.points
    ensures st.drag.Some? && st.drag.value < |st.points| ==>
      && Sorted(r.points)
      && multiset(r.points)
        == multiset(st.points) - multiset{st.points[st.drag.value]} + multiset{Point(x, Clamp(y))}
    ensures SpeedsInRange(st.points) ==> SpeedsInRange(r.points)
  {
    match st.drag
    case None =>
      st
    case Some(i) =>
      match DragUpdate(st.points, i, x, y)
      case None =>
        st
      case Some(written) =>
        var sorted := SortByDistance(written);
        assert written == st.points[i := ClampedPoint(x, y)];
        assert multiset(written)
          == multiset(st.points) - multiset{st.points[i]} + multiset{ClampedPoint(x, y)};
        assert SpeedsInRange(st.points) ==> SpeedsInRange(written);
        SpeedsInRangeCarriesOver(written, sorted);
        EditorState(sorted, st.drag)
  }

  /** Release: forget the drag index; the points stay as they are. */
  function OnRelease(st: EditorState): (r: EditorState)
    ensures r.points == st.points && r.drag == None
  {
    st.(drag := None)
  }

  /**
    The Clear button: the list becomes empty, so there is nothing to export and
    no time to show. The drag index is left untouched.
   */
  function ClearPoints(st: EditorState): (r: EditorState)
    ensures r.points == [] && r.drag == st.drag
    ensures Segments(r.points) == []
    ensures TimeDefined(r.points) && TotalTime(r.points) == 0.0
  {
    st.(points := [])
  }

  /** The handler each event is dispatched to. */
  function Step(st: EditorState, e: Event): (r: EditorState)
    ensures Valid(st) ==> Valid(r)
  {
    match e
    case Press(Left, x, y) => OnLeftPress(st, x, y)
    case Press(Right, x, y) => st.(points := RemovePoint(st.points, x, y))
    case Press(Middle, _, _) => st
    case Motion(x, y) => OnMotion(st, x, y)
    case Release => OnRelease(st)
    case ClearClicked => ClearPoints(st)
  }

  /** The state after handling the events in order. */
  function Run(st: EditorState, events: seq<Event>): EditorState
    decreases |events|
  {
    if events == [] then st else Run(Step(st, events[0]), events[1..])
  }

  /** Sortedness and the clamp hold after any sequence of events from the start. */
  lemma {:induction false} RunPreservesValid(st: EditorState, events: seq<Event>)
    requires Valid(st)
    ensures Valid(Run(st, events))
    decreases |events|
  {
    if events != [] {
      RunPreservesValid(Step(st, events[0]), events[1..]);
    }
  }

  /** Every reachable state is sorted with clamped speeds, so its time is defined and non-negative. */
  lemma ReachableStatesAreValid(events: seq<Event>)
    ensures Valid(Run(Initial, events))
    ensures TimeDefined(Run(Initial, events).points)
    ensures 0.0 <= TotalTime(Run(Initial, events).points)
  {
    RunPreservesValid(Initial, events);
    ClampedSpeedsDefineTime(Run(Initial, events).points);
  }

  /** After a release, motion changes nothing until the next press. */
  lemma MotionAfterReleaseIsInert(st: EditorState, x: real, y: real)
    ensures Step(Step(st, Release), Motion(x, y)) == Step(st, Release)
  {
  }

  /** Dragging the first of two points past the second swaps their positions in the list. */
  lemma MotionPastNeighbour(a: Point, b: Point, x: real, y: real)
    requires b.x < x
    ensures OnMotion(EditorState([a, b], Some(0)), x, y) == EditorState([b, Point(x, Clamp(y))], Some(0))
  {
    var p := ClampedPoint(x, y);
    assert [a, b][0 := p] == [p, b];
    assert DragUpdate([a, b], 0, x, y) == Some([p, b]);
    SortSwapsPair(p, b);
  }

  /**
    The drag index is a list position, not a point: once the dragged point a
    has been moved past its neighbour b, the next motion rewrites b, which the
    user never pressed on, and b is lost from the profile.
   */
  lemma StaleDragIndexRewritesNeighbour(a: Point, b: Point, x1: real, y1: real, x2: real, y2: real)
    requires a.x <= b.x < x1 < x2
    ensures
      var pressed := EditorState([a, b], Some(0));
      var crossed := Step(pressed, Motion(x1, y1));
      && crossed == EditorState([b, Point(x1, Clamp(y1))], Some(0))
      && Step(crossed, Motion(x2, y2)) == EditorState([Point(x1, Clamp(y1)), Point(x2, Clamp(y2))], Some(0))
  {
    MotionPastNeighbour(a, b, x1, y1);
    MotionPastNeighbour(b, ClampedPoint(x1, y1), x2, y2);
  }

  /**
    A drag index can also outlive the list: a right click during a drag of the
    last point that deletes any point leaves the index one past the end, and
    every later motion is then ignored (the source's IndexError).
   */
  lemma StaleDragIndexPastEnd(st: EditorState, x: real, y: real, mx: real, my: real)
    requires |st.points| > 0 && st.drag == Some(|st.points| - 1)
    requires !NoneWithin(st.points, x, y, DefaultThreshold)
    ensures
      var removed := Step(st, Press(Right, x, y));
      && removed.drag == st.drag
      && |removed.points| == st.drag.value
      && Step(removed, Motion(mx, my)) == removed
  {
  }
}
