# Pure-pursuit path-tracking helpers

A Dafny model of the five geometry helpers the CARLA pure-pursuit controller
uses to follow a closed path of waypoints
(`PythonClient/carla/controller/utils.py`):

- `project_point` projects the vehicle onto the active segment, with the
  projection parameter clamped to the segment;
- `next_carrot` places the carrot (the look-ahead target) a fixed distance
  further along the segment's unit direction;
- `calculate_delta` turns the bearing to the carrot into a steering angle.
  It wraps the heading error into one turn and saturates it at `delta_max`;
- `update_waypoint_trajectory` picks the active segment from a waypoint
  counter, joins the last waypoint back to the first, and reports when the
  counter has run out;
- `calculate_distance` is the Euclidean distance.

Every helper is a pure function of its arguments, so the model is pure too:
datatypes, functions and lemmas, all over `real`. The files are:

- `reals.dfy`: sign and order facts about products, squares and quotients;
- `vectors.dfy`: plane points, `numpy.linalg.norm` and the unit vector;
- `angles.dfy`: `np.mod` and the heading-error wrap;
- `utils.dfy`: the five helpers and their properties;
- `scenarios.dfy`: the situations of the unit tests in
  `PythonClient/carla/controller/utils_test.py`, stated exactly.

Two numpy functions have no closed form over the reals, so they are
parameters of the model:

- `sqrt: real -> real` stands for `np.sqrt` and `numpy.linalg.norm`. It is
  required to be a square root: `IsSquareRoot(sqrt)` says it is non-negative
  and squares back on every non-negative real.
- `arctan2: (real, real) -> real` stands for `np.arctan2`. Nothing is assumed
  about it in general. Each delta scenario requires the quadrant of the
  bearing. `UtilsScenarios.DeltaSaturatesAtBound` also requires the bearing
  to exceed 30 degrees (`Pi/6 < arctan2(2, 1)`), and
  `UtilsScenarios.DeltaFourthQuadrant` requires the exact value
  `arctan2(-1, 1) == -Pi/4`.

Other modelling choices:

- `math.pi` is the rational constant `3.141592653589793`.
- `np.mod(x, m)` for positive `m` is `x - m * floor(x / m)`.
- A degenerate segment (`p0 == p1`) makes `project_point` divide zero by zero,
  and numpy returns NaN coordinates. `next_carrot` also normalises the zero
  vector. Both give `None` in the model. The helpers raise no error in that
  case, so it is not excluded by a precondition.
- In `project_point`, `np.power(LA.norm(v2), 2)` is the squared length of
  `v2` over the reals. The projection therefore needs no square root.

The helpers validate nothing, and the model keeps every case the code
handles. Where a docstring or a test says otherwise, the model follows the
code:

- A negative look-ahead moves the carrot backwards along the segment.
- The wrap `np.mod(delta + pi, 2 * pi) - pi` at line 91 lands in `[-Pi, Pi)`.
  A carrot straight behind the vehicle gives exactly `-Pi`
  (`Utils.CalculateDeltaStraightBehind`).
- A negative `delta_max` is not rejected. Because the saturation at lines
  94-97 is an `if`/`elif`, a wrapped error above `delta_max` gives
  `delta_max`, and every other error gives `-delta_max`
  (`Utils.CalculateDeltaNegativeBound`).
- The docstring of `calculate_delta` calls `position` an array of two points
  and `delta_max` a distance. The code reads `position` as `[x, y, heading]`
  (lines 82-86) and compares `delta_max` with an angle. The model's `Pose`
  and `deltaMax` follow the code.
- The second projection test expects `(3.25, 3.79)`. The exact projection is
  `(113/34, 129/34)`, about `(3.32, 3.79)`, and the test passes only because
  of its 10% tolerance. `UtilsScenarios.ProjectBelowSegment` states the exact
  value.

## Model

| member | source | states |
|---|---|---|
| Angles.Mod | PythonClient/carla/controller/utils.py:91 | `np.mod` with a positive divisor: the remainder lies in `[0, m)` and differs from `x` by a whole number of `m`s |
| Angles.Wrap | PythonClient/carla/controller/utils.py:89-91 | the wrapped heading error lies in `[-Pi, Pi)` and differs from the raw error by whole turns |
| Angles.WrapUnique | PythonClient/carla/controller/utils.py:89-91 | the wrap is the only value in `[-Pi, Pi)` that differs from the raw error by whole turns |
| Angles.WrapFixesPrincipal | PythonClient/carla/controller/utils.py:89-91 | an error already in `[-Pi, Pi)` is left unchanged by the wrap |
| Angles.WrapPeriodic | PythonClient/carla/controller/utils.py:89-91 | adding any whole number of turns to the error does not change the wrapped value |
| Vectors.Norm | PythonClient/carla/controller/utils.py:59 | `LA.norm(v)` is non-negative, squares to the squared length, and is positive for a non-zero vector |
| Vectors.UnitVector | PythonClient/carla/controller/utils.py:57-59 | `v / LA.norm(v)` for non-zero `v` has length one, is parallel to `v` and points the same way |
| Utils.ProjectPoint | PythonClient/carla/controller/utils.py:7-36 | the projection is undefined (NaN, `None`) exactly for a degenerate segment; otherwise it is some point `p0 + s (p1 - p0)` with `s` in `[0, 1]` |
| Utils.ProjectPointClamps | PythonClient/carla/controller/utils.py:27-34 | parameter below 0 gives exactly `p0`, above 1 exactly `p1`, otherwise `p0 + t (p1 - p0)`; together, the point at the clamped parameter |
| Utils.ProjectPointIsClosest | PythonClient/carla/controller/utils.py:7-36 | for every point `q` of the segment, the squared distance from `point` to `q` is at least that to the projection plus the squared distance from the projection to `q`, so the projection is the unique closest point |
| Utils.ParameterOfPointAt | PythonClient/carla/controller/utils.py:24-27 | a point `p0 + u (p1 - p0)` of the segment's line has projection parameter `u` |
| Utils.ProjectPointIdempotent | PythonClient/carla/controller/utils.py:7-36 | projecting the projection again returns the same point |
| Utils.NextCarrot | PythonClient/carla/controller/utils.py:39-62 | the carrot is undefined (NaN, `None`) exactly for a degenerate segment |
| Utils.NextCarrotOffset | PythonClient/carla/controller/utils.py:55-61 | the carrot minus the projection is parallel to `p1 - p0`, has squared length `lookahead_dis^2`, and points forward along the segment exactly when `lookahead_dis > 0` |
| Utils.NextCarrotBeyondEnd | PythonClient/carla/controller/utils.py:55-61 | the carrot is not clamped: from a projection at or past `p1`, a positive look-ahead puts the carrot's projection parameter above 1, beyond the segment's end |
| Utils.CalculateDelta | PythonClient/carla/controller/utils.py:65-99 | for `delta_max >= 0` the angle lies in `[-delta_max, delta_max]`; a wrapped error inside the bound is returned unchanged; one above it gives `delta_max` and one below it gives `-delta_max` |
| Utils.CalculateDeltaHeadingTurns | PythonClient/carla/controller/utils.py:82-91 | adding whole turns to the vehicle's heading does not change the steering angle |
| Utils.CalculateDeltaUnsaturated | PythonClient/carla/controller/utils.py:89-97 | with `delta_max >= Pi` the angle is the wrapped heading error itself, in `[-Pi, Pi)` |
| Utils.CalculateDeltaNegativeBound | PythonClient/carla/controller/utils.py:94-97 | with `delta_max < 0` the angle is `delta_max` when the wrapped error exceeds it and `-delta_max` otherwise, never the wrapped error itself |
| Utils.CalculateDeltaStraightBehind | PythonClient/carla/controller/utils.py:89-97 | heading 0 with the carrot at bearing `Pi` and `delta_max >= Pi` gives exactly `-Pi`, not 0 and not `Pi` |
| Utils.UpdateWaypointTrajectory | PythonClient/carla/controller/utils.py:102-134 | the counter has run out exactly when it is at least the number of waypoints; otherwise the segment runs from waypoint `counter` to waypoint `(counter + 1) mod n` |
| Utils.WaypointSegmentsChain | PythonClient/carla/controller/utils.py:124-132 | each active segment ends where the next counter's segment starts, and the last one ends at the first waypoint, so the segments form a closed loop |
| Utils.WaypointsStayExhausted | PythonClient/carla/controller/utils.py:119-122 | once the counter has run out, every larger counter has run out too |
| Utils.CalculateDistance | PythonClient/carla/controller/utils.py:137-151 | the distance is non-negative and its square is `(x2 - x1)^2 + (y2 - y1)^2` |
| Utils.DistanceSymmetric | PythonClient/carla/controller/utils.py:149-151 | the distance does not depend on the order of the two points |
| Utils.DistanceZeroIffEqual | PythonClient/carla/controller/utils.py:149-151 | the distance is zero if and only if the two points are equal |
| Utils.DistanceTriangle | PythonClient/carla/controller/utils.py:149-151 | the triangle inequality: the distance from `p` to `r` is at most the distance from `p` to `q` plus the distance from `q` to `r` |
| Utils.DistanceFollowsSquaredDistance | PythonClient/carla/controller/utils.py:149-151 | `calculate_distance` orders points as their squared distances do |
| Utils.ProjectPointMinimisesDistance | PythonClient/carla/controller/utils.py:7-10 | measured with `calculate_distance`, no point of the segment is nearer to `point` than its projection |
| UtilsScenarios.ProjectAboveSegment | PythonClient/carla/controller/utils_test.py:15-25 | segment (0,1)-(3,4), point (1,4): the projection is exactly (2,3) |
| UtilsScenarios.ProjectBelowSegment | PythonClient/carla/controller/utils_test.py:30-41 | segment (5,1)-(2,6), point (2,3): the projection is exactly (113/34, 129/34) |
| UtilsScenarios.ProjectBehindSegment | PythonClient/carla/controller/utils_test.py:46-56 | segment (1,2)-(4,3), point (-1,1) behind the start: the projection is exactly the first waypoint |
| UtilsScenarios.ProjectBeyondSegment | PythonClient/carla/controller/utils_test.py:61-71 | the same segment, point (6,1) beyond the end: the projection is exactly the second waypoint |
| UtilsScenarios.ProjectVehicleOntoSegment | PythonClient/carla/controller/utils_test.py:75-79 | segment (0,1)-(2,4), vehicle at (2,2): the projection is exactly (14/13, 34/13) |
| UtilsScenarios.CarrotAheadOfVehicle | PythonClient/carla/controller/utils_test.py:73-89 | in that situation, with look-ahead 5, the carrot is that projection plus 5 times the unit direction of (2,3) |
| UtilsScenarios.CarrotNearExpected | PythonClient/carla/controller/utils_test.py:82-89 | that projection plus 5 times the unit direction of (2,3) lies within 0.01 of the expected (3.85, 6.77) in each coordinate |
| UtilsScenarios.CarrotWithinTolerance | PythonClient/carla/controller/utils_test.py:73-89 | `next_carrot` on segment (0,1)-(2,4) from (2,2) with look-ahead 5 lies within 0.01 of the expected (3.85, 6.77) in each coordinate |
| UtilsScenarios.DeltaFirstQuadrant | PythonClient/carla/controller/utils_test.py:95-109 | pose (2,2,0), carrot (3,4), bound 90 degrees: for a bearing in the first quadrant, the angle is the bearing `arctan2(2, 1)` |
| UtilsScenarios.DeltaSecondQuadrant | PythonClient/carla/controller/utils_test.py:114-128 | carrot (1,5), bound 180 degrees: for a bearing in the second quadrant, the angle is the bearing `arctan2(3, -1)` |
| UtilsScenarios.DeltaThirdQuadrant | PythonClient/carla/controller/utils_test.py:133-148 | carrot (1,1), bound 60 degrees: a third-quadrant bearing saturates to exactly `-Pi/3` |
| UtilsScenarios.DeltaFourthQuadrant | PythonClient/carla/controller/utils_test.py:153-168 | carrot (3,1), bound 60 degrees: for the bearing `-Pi/4`, the angle is exactly `-Pi/4` |
| UtilsScenarios.DeltaSaturatesAtBound | PythonClient/carla/controller/utils_test.py:174-188 | carrot (3,4), bound 30 degrees: a first-quadrant bearing above 30 degrees saturates to exactly `Pi/6` |
| UtilsScenarios.WaypointsInTurn | PythonClient/carla/controller/utils_test.py:190-228 | over three waypoints, counters 0, 1, 2 and 3 give w1-w2, w2-w3 and w3-w1, then run out |
| UtilsScenarios.DistanceAcrossDiagonal | PythonClient/carla/controller/utils_test.py:231-236 | from (0,0) to (2,2) the distance squares to 8 and lies between 2.82 and 2.83 |
| UtilsScenarios.DistanceBackAndDown | PythonClient/carla/controller/utils_test.py:238-243 | from (10,10) to (0,6) the distance squares to 116 and lies between 10.77 and 10.78 |

## Left out

- Floating point: the model computes over exact reals, with no rounding, overflow, infinities or NaN propagation. The one NaN case the helpers produce on valid-looking input, a degenerate segment, is `None`.
- `np.sqrt`, `numpy.linalg.norm` and `np.arctan2` are parameters. `sqrt` is required to be a square root. Nothing general is assumed of `arctan2`, so no lemma states that the bearing lies in `(-Pi, Pi]`.
- UtilsScenarios.DeltaFirstQuadrant, DeltaSecondQuadrant, DeltaThirdQuadrant, DeltaFourthQuadrant, DeltaSaturatesAtBound: the tests compare degrees to two or one decimal places. These lemmas require the quadrant of `arctan2` at the test's arguments instead of its numerical value; DeltaSaturatesAtBound also requires `Pi/6 < arctan2(2, 1)`, and DeltaFourthQuadrant requires the exact value `arctan2(-1, 1) == -Pi/4`.
- Tolerance comparisons (`assert_allclose` with `rtol`, `assertAlmostEqual` with `places`) are replaced by exact values or by explicit bounds at least as tight.
- The console message `print('Ran out of waypoints.')` (utils.py:120) is I/O. Only the lowered flag is modelled.
- Utils.UpdateWaypointTrajectory: the counter is a `nat`. In Python a counter from `-n` to `-1` reaches the `else` branch (utils.py:131-132) and indexes from the end of the list; for example, `-1` gives `(w[n-1], w[0])`. A counter below `-n` raises `IndexError` at line 131. Neither case is modelled.
- The two `None` waypoints returned with the lowered flag are folded into the `RanOut` case.
- `PythonClient/live_plotter.py` is plotting and window management and is not part of this model.

