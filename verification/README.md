# Drive-cycle speed-profile editor

A model of the control-point editor in `2_Drive_Cycle_Generation/generateDriveCycle.py`.
The user sketches a speed profile over track distance by clicking control
points `(distance, speed)` onto a canvas:

- a left click either grabs the nearest point within the hit radius or adds a new point with its speed clamped to `[0, 15]` m/s;
- motion while a point is grabbed overwrites the point at the grabbed list position;
- release lets go;
- a right click deletes the nearest point within the hit radius, if there is one;
- the Clear button empties the list.

After every change the list is re-sorted by distance. Two reductions read the
sorted list: the segment table the Save button exports, with one
`(initial speed, final speed, distance)` row per adjacent pair, and the total
transit time shown above the plot. The total time is the sum over segments of
`distance / ((v0 + v1) / 2)`, and pairs where both speeds are zero are skipped.

Layout:

| file | module | contents |
|---|---|---|
| `wrappers.dfy` | `Wrappers` | `Option`, standing in for Python's `None` |
| `profile.dfy` | `Profile` | speed limits, `Point`, the clamp, the stable sort by distance, deletion at an index |
| `hit_test.dfy` | `HitTest` | squared distance, `np.argmin`, `get_closest_point_idx` |
| `metrics.dfy` | `Metrics` | segment table and its inverse, per-segment and total time, the `calculate_total_time` and `save_data` loops |
| `editor.dfy` | `Editor` | editor state (points plus drag index), one pure step per event handler, properties of event sequences |

Distances and speeds are `real`: `np.clip` and the division are exact here.
The drag index is a raw list position, kept as an `Option<nat>`. It is taken
when the press happens and reused after every re-sort, just as the handlers
do. So after a dragged point crosses a neighbour, the next motion rewrites the
neighbour (`Editor.StaleDragIndexRewritesNeighbour`). A drag follows a list
position, not a point, so after a reorder it moves whichever point now sits
at that position.

## Model

| member | source | states |
|---|---|---|
| Profile.Clamp | 2_Drive_Cycle_Generation/generateDriveCycle.py:16-17 | the clamped speed always lies in [0, 15]; a speed already in range is kept; one below or above the range saturates at the nearer limit |
| Profile.Insert | 2_Drive_Cycle_Generation/generateDriveCycle.py:72 | inserting into a distance-sorted list yields a sorted list one longer, holding exactly the old points plus the new one |
| Profile.SortByDistance | 2_Drive_Cycle_Generation/generateDriveCycle.py:72 | the re-sorted list is non-decreasing by distance and a permutation of its input |
| Profile.SortIsStable | 2_Drive_Cycle_Generation/generateDriveCycle.py:72 | for every distance, the points at that distance keep their input order after the sort |
| Profile.SortedIsFixpoint | 2_Drive_Cycle_Generation/generateDriveCycle.py:72 | re-sorting a list that is already sorted leaves it exactly unchanged |
| Profile.SortIdempotent | 2_Drive_Cycle_Generation/generateDriveCycle.py:72 | sorting twice gives the same list as sorting once |
| Profile.SpeedsInRangeCarriesOver | 2_Drive_Cycle_Generation/generateDriveCycle.py:72 | rearranging or dropping points keeps every speed within the clamp range |
| Profile.RemoveAt | 2_Drive_Cycle_Generation/generateDriveCycle.py:91 | deleting position k shortens the list by one, removes exactly one copy of the point at k, keeps every other point in its original order (points before k stay put, points after k move down one place), and keeps a sorted list sorted |
| HitTest.FirstMin | 2_Drive_Cycle_Generation/generateDriveCycle.py:100 | the argmin index is in bounds, its entry is no larger than any entry, and it is strictly smaller than every earlier entry, so ties go to the first |
| HitTest.ClosestPointIdx | 2_Drive_Cycle_Generation/generateDriveCycle.py:96-103 | an empty list gives None; an answer is an in-bounds, nearest, first-of-nearest index strictly inside threshold²; None comes back exactly when no point is strictly inside threshold² |
| HitTest.ClosestIsUniqueHit | 2_Drive_Cycle_Generation/generateDriveCycle.py:96-103 | the answer is Some(k) if and only if k is the first nearest point strictly inside the threshold |
| HitTest.HitRadiusExamples | 2_Drive_Cycle_Generation/generateDriveCycle.py:96-103 | a click on a point hits it; a click about 7 units away with radius 2.5 misses; two equidistant points resolve to the first |
| Editor.OnLeftPress | 2_Drive_Cycle_Generation/generateDriveCycle.py:46-52 | the drag is set exactly when some point is within the radius; the list is then unchanged and the drag is the first nearest hit; otherwise the list grows by one, holds every old point plus (x, clamped y), is sorted, and nothing is dragged; clamped speeds stay clamped |
| Editor.RemovePoint | 2_Drive_Cycle_Generation/generateDriveCycle.py:88-93 | a miss leaves the list unchanged; a hit removes exactly the hit point, the list shrinks by one and is sorted, and on a sorted list the others keep their relative order; clamped speeds stay clamped |
| Editor.DragUpdate | 2_Drive_Cycle_Generation/generateDriveCycle.py:61 | an index past the end is an error; otherwise only that position is replaced, by (x, clamped y), and every other position is kept |
| Editor.OnMotion | 2_Drive_Cycle_Generation/generateDriveCycle.py:57-63 | the drag index is kept as it is; without a drag or with an index past the end the points do not change; otherwise the result is sorted and is the old multiset with the point at the index swapped for the new clamped point; clamped speeds stay clamped |
| Editor.OnRelease | 2_Drive_Cycle_Generation/generateDriveCycle.py:66-68 | release drops the drag index and keeps the points |
| Editor.ClearPoints | 2_Drive_Cycle_Generation/generateDriveCycle.py:153-157 | after Clear the list is empty, the segment table is empty and the total time is 0; the drag index is not reset |
| Editor.Step | 2_Drive_Cycle_Generation/generateDriveCycle.py:41-68 | every event handler keeps the list sorted by distance with all speeds in range |
| Editor.RunPreservesValid | 2_Drive_Cycle_Generation/generateDriveCycle.py:41-72 | any sequence of events from a sorted, clamped state ends in a sorted, clamped state |
| Editor.ReachableStatesAreValid | 2_Drive_Cycle_Generation/generateDriveCycle.py:106-120 | every state reached from the empty editor is sorted and clamped, every pair in it can be timed without dividing by zero, and its total time is non-negative |
| Editor.MotionAfterReleaseIsInert | 2_Drive_Cycle_Generation/generateDriveCycle.py:59 | after a release, a motion event changes nothing |
| Editor.MotionPastNeighbour | 2_Drive_Cycle_Generation/generateDriveCycle.py:61 | dragging the first of two points past the second leaves the moved point at index 1 while the drag index still says 0 |
| Editor.StaleDragIndexRewritesNeighbour | 2_Drive_Cycle_Generation/generateDriveCycle.py:47 | once the dragged point has crossed its neighbour, the next motion overwrites the neighbour, which was never pressed, and the neighbour is lost |
| Editor.StaleDragIndexPastEnd | 2_Drive_Cycle_Generation/generateDriveCycle.py:53-54 | a right-click delete while the last point is dragged leaves the drag index one past the end, and later motion then changes nothing |
| Metrics.Segments | 2_Drive_Cycle_Generation/generateDriveCycle.py:126-141 | fewer than two points give no rows; n points give n - 1 rows, row i holding the speed of point i, the speed of point i + 1 and the distance between them |
| Metrics.SortedSegmentsNonNegative | 2_Drive_Cycle_Generation/generateDriveCycle.py:137 | on a list sorted by distance every exported distance is non-negative |
| Metrics.RebuildSegments | 2_Drive_Cycle_Generation/generateDriveCycle.py:134-141 | for two or more points, laying the exported rows end to end from the first point's distance gives back the original list, so the export loses nothing but that distance |
| Metrics.SaveData | 2_Drive_Cycle_Generation/generateDriveCycle.py:126-141 | nothing is saved exactly when there are fewer than two points; otherwise the three columns have n - 1 entries each, and column entry i agrees with row i of the segment table |
| Metrics.SegmentTime | 2_Drive_Cycle_Generation/generateDriveCycle.py:114-119 | a stop-to-stop pair takes 0; any other pair takes the time that, multiplied by the average speed, gives the distance; non-negative inputs give a non-negative time |
| Metrics.ClampedSpeedsDefineTime | 2_Drive_Cycle_Generation/generateDriveCycle.py:114-118 | with speeds in [0, 15], every pair that is not stop-to-stop has a strictly positive average speed, so the divisor is positive and the division is defined |
| Metrics.TotalTime | 2_Drive_Cycle_Generation/generateDriveCycle.py:106-120 | fewer than two points give 0, and a sorted list with clamped speeds has a non-negative total |
| Metrics.TotalTimeIsSumOverSegments | 2_Drive_Cycle_Generation/generateDriveCycle.py:106-120 | the displayed time equals the sum of the segment times over the exported table |
| Metrics.CalculateTotalTime | 2_Drive_Cycle_Generation/generateDriveCycle.py:106-120 | the loop with its skip of stop-to-stop pairs computes exactly the total time |
| Metrics.WorkedExample | 2_Drive_Cycle_Generation/generateDriveCycle.py:106-120 | points (0, 0), (10, 10), (20, 10) give rows (0, 10, 10) and (10, 10, 10) and a total of 3 s |
| Metrics.BothZeroSkipExamples | 2_Drive_Cycle_Generation/generateDriveCycle.py:114-115 | a stop-to-stop pair adds 0; a pair with one tiny non-zero speed is timed, not skipped |

## Left out

- Terrain loading (`pd.read_csv`), the CSV write and the `print` calls in `save_data` and `clear_points`: file and console I/O. `Metrics.SaveData` returns the columns instead of writing them.
- All matplotlib work: figure and axes, `set_data`, `plt.draw`, the `.2f` text readout, buttons, `mpl_connect`. This is presentation only.
- The `event.inaxes` checks and the raw event objects: events arrive already decoded as `Editor.Event`, so there are no clicks outside the axes. A middle or other button press is a no-op.
- IEEE-754 rounding: `np.clip`, the subtraction and the division are exact over `real`.
- Metrics.TotalTime: requires every adjacent pair to be stop-to-stop or to have a non-zero speed sum. With speeds of opposite sign that cancel, the source's numpy division would instead add an infinite or NaN time. This never arises under the clamp, which every reachable state keeps (`Editor.ReachableStatesAreValid`).
- Editor.DragUpdate: an index past the end, where the source raises IndexError inside the motion handler, is modelled as an error value. The motion step then leaves the state unchanged, because the exception aborts the handler before any write.
- Scaling all distances by k > 0 scales the total time by k; this is not proved, because it rests on nonlinear real arithmetic through the division.
- A drag that keeps moving the same point across a reorder is not claimed, because the code does not do that; the model proves the opposite (`Editor.StaleDragIndexRewritesNeighbour`).
