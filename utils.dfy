/** The pure-pursuit path-tracking helpers of the controller: projecting the
    vehicle onto the active trajectory segment, placing the carrot point a
    look-ahead distance further along it, turning the bearing to the carrot
    into a saturated steering angle, choosing the active segment from the
    waypoint counter, and measuring distances.

    Everything is over the reals. The two library calls the helpers make that
    have no closed form here come in as parameters: `sqrt` (for `np.sqrt` and
    `numpy.linalg.norm`), required to be a square root, and `arctan2` (for
    `np.arctan2`), about which nothing is assumed. */
module Utils {

  import opened RealArith
  import opened Vectors
  import opened Angles

  datatype Option<T> = None | Some(value: T)

  /** A trajectory segment, the `vector` argument `[p0, p1]` of the helpers. */
  datatype Segment = Segment(p0: Point, p1: Point)

  /** The vehicle's `position` as `calculate_delta` reads it: `[x, y, heading]`,
      the heading in radians. */
  datatype Pose = Pose(x: real, y: real, heading: real)

  /** The result of `update_waypoint_trajectory`: the two waypoints of the
      active segment with `update_trajectory` raised, or `RanOut`, where the
      flag is lowered and both waypoints are `None`. */
  datatype Trajectory = Next(wp1: Point, wp2: Point) | RanOut

  function Direction(seg: Segment): Point { Sub(seg.p1, seg.p0) }

  /** Only a degenerate segment has a zero direction. */
  lemma DirectionNonZero(seg: Segment)
    requires seg.p0 != seg.p1
    ensures Direction(seg) != Point(0.0, 0.0)
  {}

  /** The point a fraction `s` of the way from `p0` to `p1`
      (`s` outside `[0, 1]` gives a point on the extended line). */
  function PointAt(seg: Segment, s: real): Point { Add(seg.p0, Scale(s, Direction(seg))) }

  /** The projection parameter `dot(point - p0, p1 - p0) / |p1 - p0|^2` of
      `project_point`, where `|p1 - p0|^2` is the squared length itself
      (`np.power(LA.norm(v2), 2)` equals it over the reals). */
  function ProjectionParameter(seg: Segment, point: Point): real
    requires seg.p0 != seg.p1
  {
    SquaredNormPositive(Direction(seg));
    Dot(Sub(point, seg.p0), Direction(seg)) / SquaredNorm(Direction(seg))
  }

  /** The projection parameter is `q` when the dot product is `q` times the
      squared length. */
  lemma ProjectionParameterIs(seg: Segment, point: Point, q: real)
    requires seg.p0 != seg.p1
    requires Dot(Sub(point, seg.p0), Direction(seg)) == q * SquaredNorm(Direction(seg))
    ensures ProjectionParameter(seg, point) == q
  {
    SquaredNormPositive(Direction(seg));
    QuotientOf(Dot(Sub(point, seg.p0), Direction(seg)), SquaredNorm(Direction(seg)), q);
  }

  /** The projection parameter clamped into `[0, 1]`. */
  function Clamp01(t: real): (c: real)
    ensures 0.0 <= c <= 1.0
    ensures 0.0 <= t <= 1.0 ==> c == t
  {
    if t < 0.0 then 0.0 else if t > 1.0 then 1.0 else t
  }

  // ---------------------------------------------------------------------------
  // project_point

  /** `project_point(vector, point)`. For a degenerate segment (`p0 == p1`) the
      source divides 0 by 0 and yields NaN coordinates: that is `None` here.
      Otherwise the result lies on the segment. */
  function ProjectPoint(seg: Segment, point: Point): (r: Option<Point>)
    ensures r.None? <==> seg.p0 == seg.p1
    ensures r.Some? ==> exists s :: 0.0 <= s <= 1.0 && r.value == PointAt(seg, s)
  {
    if seg.p0 == seg.p1 then None
    else
      var v2 := Sub(seg.p1, seg.p0);
      var distance := ProjectionParameter(seg, point);
      if distance < 0.0 then
        assert seg.p0 == PointAt(seg, 0.0);
        Some(seg.p0)
      else if distance > 1.0 then
        assert seg.p1 == PointAt(seg, 1.0);
        Some(seg.p1)
      else
        assert Add(seg.p0, Scale(distance, v2)) == PointAt(seg, distance);
        Some(Add(seg.p0, Scale(distance, v2)))
  }

  /** The three branches of `project_point`: behind the start the result is
      exactly `p0`, beyond the end exactly `p1`, and in between the point at
      the projection parameter. Together: the point at the clamped parameter. */
  lemma ProjectPointClamps(seg: Segment, point: Point)
    requires seg.p0 != seg.p1
    ensures var t := ProjectionParameter(seg, point);
      && (t < 0.0 ==> ProjectPoint(seg, point) == Some(seg.p0))
      && (t > 1.0 ==> ProjectPoint(seg, point) == Some(seg.p1))
      && (0.0 <= t <= 1.0 ==> ProjectPoint(seg, point) == Some(PointAt(seg, t)))
      && ProjectPoint(seg, point) == Some(PointAt(seg, Clamp01(t)))
  {
    assert seg.p0 == PointAt(seg, 0.0);
    assert seg.p1 == PointAt(seg, 1.0);
  }

  /** On the line through the origin with direction `v`, the point `c v`
      is nearer to `w` than `s v` by at least `|(s - c) v|^2` whenever
      `(s - c) (w.v - c |v|^2)` is not positive. */
  lemma NearerOnLine(w: Point, v: Point, s: real, c: real, k: real)
    requires k == (s - c) * (Dot(w, v) - c * SquaredNorm(v))
    requires k <= 0.0
    ensures SquaredNorm(Sub(Scale(s, v), w))
         >= SquaredNorm(Sub(Scale(c, v), w)) + SquaredNorm(Scale(s - c, v))
  {
    assert SquaredNorm(Sub(Scale(s, v), w))
        == SquaredNorm(Sub(Scale(c, v), w)) + SquaredNorm(Scale(s - c, v)) - 2.0 * k;
  }

  /** `NearerOnLine` for the segment's own line: `PointAt(seg, c)` is nearer to
      `point` than `PointAt(seg, s)` by at least the squared distance between
      the two, when `(s - c) ((point - p0).(p1 - p0) - c |p1 - p0|^2)` is not
      positive. */
  lemma NearerAlongSegment(seg: Segment, point: Point, s: real, c: real, k: real)
    requires k == (s - c) * (Dot(Sub(point, seg.p0), Direction(seg)) - c * SquaredNorm(Direction(seg)))
    requires k <= 0.0
    ensures SquaredDistance(point, PointAt(seg, s))
         >= SquaredDistance(point, PointAt(seg, c)) + SquaredDistance(PointAt(seg, c), PointAt(seg, s))
  {
    var v, w := Direction(seg), Sub(point, seg.p0);
    NearerOnLine(w, v, s, c, k);
    assert Sub(PointAt(seg, s), point) == Sub(Scale(s, v), w);
    assert Sub(PointAt(seg, c), point) == Sub(Scale(c, v), w);
    assert Sub(PointAt(seg, s), PointAt(seg, c)) == Scale(s - c, v);
  }

  /** The point at the clamped projection parameter is nearer to `point`
      than any other point `q` of the segment, by at least its squared
      distance to `q`. */
  lemma {:induction false} ClampedParameterIsNearest(seg: Segment, point: Point, s: real)
    requires seg.p0 != seg.p1
    requires 0.0 <= s <= 1.0
    ensures var c := PointAt(seg, Clamp01(ProjectionParameter(seg, point)));
      SquaredDistance(point, PointAt(seg, s)) >= SquaredDistance(point, c) + SquaredDistance(c, PointAt(seg, s))
  {
    var len2, d := SquaredNorm(Direction(seg)), Dot(Sub(point, seg.p0), Direction(seg));
    DirectionNonZero(seg);
    SquaredNormPositive(Direction(seg));
    var t := ProjectionParameter(seg, point);
    QuotientTimesDivisor(d, len2);
    if t < 0.0 {
      FactorSign(t, len2, d);
      NearerAlongSegment(seg, point, s, 0.0, s * d);
    } else if t > 1.0 {
      FactorSign(t - 1.0, len2, d - len2);
      NearerAlongSegment(seg, point, s, 1.0, (s - 1.0) * (d - len2));
    } else {
      NearerAlongSegment(seg, point, s, t, (s - t) * (d - t * len2));
    }
  }

  /** `project_point` returns the point of the segment closest to `point`, as
      its docstring promises, and the only one: any other point `q` of the
      segment is farther away by at least the squared distance from the
      projection to `q`. */
  lemma ProjectPointIsClosest(seg: Segment, point: Point, s: real)
    requires seg.p0 != seg.p1
    requires 0.0 <= s <= 1.0
    ensures var c, q := ProjectPoint(seg, point).value, PointAt(seg, s);
      SquaredDistance(point, q) >= SquaredDistance(point, c) + SquaredDistance(c, q)
  {
    ProjectPointClamps(seg, point);
    ClampedParameterIsNearest(seg, point, s);
  }

  /** A point already on the segment has itself as projection parameter. */
  lemma ParameterOfPointAt(seg: Segment, u: real)
    requires seg.p0 != seg.p1
    ensures ProjectionParameter(seg, PointAt(seg, u)) == u
  {
    var v := Direction(seg);
    SquaredNormPositive(v);
    assert Dot(Sub(PointAt(seg, u), seg.p0), v) == u * SquaredNorm(v);
  }

  /** Projecting twice is projecting once. */
  lemma ProjectPointIdempotent(seg: Segment, point: Point)
    requires seg.p0 != seg.p1
    ensures ProjectPoint(seg, ProjectPoint(seg, point).value) == ProjectPoint(seg, point)
  {
    var c := Clamp01(ProjectionParameter(seg, point));
    ProjectPointClamps(seg, point);
    ParameterOfPointAt(seg, c);
    ProjectPointClamps(seg, PointAt(seg, c));
  }

  // ---------------------------------------------------------------------------
  // next_carrot

  /** `next_carrot(vector, pose_2d, lookahead_dis)`: the projection moved
      `lookahead_dis` along the segment's unit direction, and not clamped to
      the segment. A degenerate segment yields NaN coordinates in the source
      (`None` here). */
  function NextCarrot(seg: Segment, pose2d: Point, lookaheadDis: real, sqrt: real -> real): (r: Option<Point>)
    requires IsSquareRoot(sqrt)
    ensures r.None? <==> seg.p0 == seg.p1
  {
    match ProjectPoint(seg, pose2d)
    case None => None
    case Some(projectedPoint) =>
      var vecDiff := Sub(seg.p1, seg.p0);
      DirectionNonZero(seg);
      var unitVec := UnitVector(vecDiff, sqrt);
      Some(Add(projectedPoint, Scale(lookaheadDis, unitVec)))
  }

  /** A look-ahead `look` along a unit vector `u` that is parallel to `v` and
      points along it: parallel to `v`, of squared length `look^2`, and
      pointing along `v` exactly when `look` is positive. */
  lemma ScaledUnitOffset(u: Point, v: Point, look: real)
    requires SquaredNorm(u) == 1.0 && Cross(u, v) == 0.0 && Dot(u, v) > 0.0
    ensures var o := Scale(look, u);
      && Cross(o, v) == 0.0
      && SquaredNorm(o) == look * look
      && (Dot(o, v) > 0.0 <==> look > 0.0)
  {
    var o := Scale(look, u);
    assert Cross(o, v) == look * Cross(u, v);
    MulEqual(look, Cross(u, v), 0.0);
    assert SquaredNorm(o) == (look * look) * SquaredNorm(u);
    MulEqual(look * look, SquaredNorm(u), 1.0);
    assert Dot(o, v) == look * Dot(u, v);
    FactorSign(look, Dot(u, v), Dot(o, v));
  }

  /** The carrot sits exactly `lookahead_dis` from the projection, on the line
      of the segment: the offset is parallel to `p1 - p0`, its squared length
      is `lookahead_dis^2`, and it points forward exactly when the look-ahead
      distance is positive. */
  lemma NextCarrotOffset(seg: Segment, pose2d: Point, lookaheadDis: real, sqrt: real -> real)
    requires IsSquareRoot(sqrt)
    requires seg.p0 != seg.p1
    ensures var offset := Sub(NextCarrot(seg, pose2d, lookaheadDis, sqrt).value, ProjectPoint(seg, pose2d).value);
      && Cross(offset, Direction(seg)) == 0.0
      && SquaredNorm(offset) == lookaheadDis * lookaheadDis
      && (Dot(offset, Direction(seg)) > 0.0 <==> lookaheadDis > 0.0)
  {
    DirectionNonZero(seg);
    var u := UnitVector(Direction(seg), sqrt);
    var p := ProjectPoint(seg, pose2d).value;
    assert Sub(Add(p, Scale(lookaheadDis, u)), p) == Scale(lookaheadDis, u);
    ScaledUnitOffset(u, Direction(seg), lookaheadDis);
  }

  /** The carrot is deliberately not clamped: when the vehicle projects onto
      the end of the segment (or past it), a positive look-ahead puts the
      carrot beyond `p1`, pulling the vehicle on towards the next segment. */
  lemma NextCarrotBeyondEnd(seg: Segment, pose2d: Point, lookaheadDis: real, sqrt: real -> real)
    requires IsSquareRoot(sqrt)
    requires seg.p0 != seg.p1
    requires ProjectionParameter(seg, pose2d) >= 1.0
    requires lookaheadDis > 0.0
    ensures ProjectionParameter(seg, NextCarrot(seg, pose2d, lookaheadDis, sqrt).value) > 1.0
  {
    var v := Direction(seg);
    DirectionNonZero(seg);
    SquaredNormPositive(v);
    var u := UnitVector(v, sqrt);
    ProjectPointClamps(seg, pose2d);
    assert PointAt(seg, 1.0) == seg.p1;
    var carrot := Add(seg.p1, Scale(lookaheadDis, u));
    var len2, shift := SquaredNorm(v), lookaheadDis * Dot(u, v);
    assert Dot(Sub(carrot, seg.p0), v) == len2 + shift;
    ProductPositive(lookaheadDis, Dot(u, v), shift);
    BeyondOne(len2 + shift, len2, shift);
  }

  /** `(len2 + shift) / len2` exceeds 1 for positive `len2` and `shift`. */
  lemma BeyondOne(d: real, len2: real, shift: real)
    requires len2 > 0.0 && shift > 0.0 && d == len2 + shift
    ensures d / len2 > 1.0
  {
    QuotientTimesDivisor(d, len2);
    FactorSign(d / len2 - 1.0, len2, shift);
  }

  // ---------------------------------------------------------------------------
  // calculate_delta

  /** The heading error before it is wrapped: `-(theta - arctan2(y, x))` with
      `(x, y)` the vector from the vehicle to the carrot. */
  function HeadingError(position: Pose, carrot: Point, arctan2: (real, real) -> real): real
  {
    var x := carrot.x - position.x;
    var y := carrot.y - position.y;
    -(position.heading - arctan2(y, x))
  }

  /** `calculate_delta(position, carrot, delta_max)`: the heading error wrapped
      into `[-Pi, Pi)` and then saturated to `delta_max`. With a non-negative
      `delta_max` the steering angle never leaves `[-delta_max, delta_max]`;
      a wrapped error inside the bound passes unchanged, one outside it is
      replaced by the bound on its side. */
  function CalculateDelta(position: Pose, carrot: Point, deltaMax: real, arctan2: (real, real) -> real): (delta: real)
    ensures deltaMax >= 0.0 ==> -deltaMax <= delta <= deltaMax
    ensures var wrapped := Wrap(HeadingError(position, carrot, arctan2));
      && (-deltaMax <= wrapped <= deltaMax ==> delta == wrapped)
      && (wrapped > deltaMax ==> delta == deltaMax)
      && (wrapped < -deltaMax && wrapped <= deltaMax ==> delta == -deltaMax)
  {
    var delta := Wrap(HeadingError(position, carrot, arctan2));
    if delta > deltaMax then deltaMax
    else if delta < -deltaMax then -deltaMax
    else delta
  }

  /** Whole turns of the vehicle's heading do not change the steering angle. */
  lemma CalculateDeltaHeadingTurns(position: Pose, carrot: Point, deltaMax: real, arctan2: (real, real) -> real, k: int)
    ensures var turned := position.(heading := position.heading + 2.0 * Pi * k as real);
      CalculateDelta(turned, carrot, deltaMax, arctan2) == CalculateDelta(position, carrot, deltaMax, arctan2)
  {
    var turned := position.(heading := position.heading + 2.0 * Pi * k as real);
    var e := HeadingError(position, carrot, arctan2);
    assert HeadingError(turned, carrot, arctan2) == e + 2.0 * Pi * (-k) as real;
    WrapPeriodic(e, -k);
  }

  /** A bound of at least `Pi` never saturates: the steering angle is the
      wrapped heading error itself, in `[-Pi, Pi)`. */
  lemma CalculateDeltaUnsaturated(position: Pose, carrot: Point, deltaMax: real, arctan2: (real, real) -> real)
    requires deltaMax >= Pi
    ensures var delta := CalculateDelta(position, carrot, deltaMax, arctan2);
      && delta == Wrap(HeadingError(position, carrot, arctan2))
      && -Pi <= delta < Pi
  {}

  /** A negative bound: the `if`/`elif` saturation returns `delta_max` for a
      wrapped error above it and `-delta_max` for every other error, so the
      angle is never the wrapped error itself. */
  lemma CalculateDeltaNegativeBound(position: Pose, carrot: Point, deltaMax: real, arctan2: (real, real) -> real)
    requires deltaMax < 0.0
    ensures var wrapped := Wrap(HeadingError(position, carrot, arctan2));
      CalculateDelta(position, carrot, deltaMax, arctan2) == (if wrapped > deltaMax then deltaMax else -deltaMax)
  {}

  /** A carrot straight behind the vehicle (bearing `Pi` at heading 0) wraps
      to exactly `-Pi`, the closed end of `[-Pi, Pi)`, when the bound allows it. */
  lemma CalculateDeltaStraightBehind(position: Pose, carrot: Point, deltaMax: real, arctan2: (real, real) -> real)
    requires position.heading == 0.0
    requires arctan2(carrot.y - position.y, carrot.x - position.x) == Pi
    requires deltaMax >= Pi
    ensures CalculateDelta(position, carrot, deltaMax, arctan2) == -Pi
  {
    assert IsWholeMultiple(Pi - -Pi, 2.0 * Pi);
    WrapUnique(Pi, -Pi);
  }

  // ---------------------------------------------------------------------------
  // update_waypoint_trajectory

  /** `update_waypoint_trajectory(waypoints, waypoint_counter)`: while the
      counter is inside the list, the active segment runs from waypoint
      `counter` to the next one, the last waypoint wrapping round to the
      first; a counter at or past the end lowers the flag. */
  function UpdateWaypointTrajectory(waypoints: seq<Point>, waypointCounter: nat): (r: Trajectory)
    ensures r.RanOut? <==> waypointCounter >= |waypoints|
    ensures r.Next? ==>
              r.wp1 == waypoints[waypointCounter]
              && r.wp2 == waypoints[(waypointCounter + 1) % |waypoints|]
  {
    if waypointCounter >= |waypoints| then
      RanOut
    else if waypointCounter == |waypoints| - 1 then
      Next(waypoints[waypointCounter], waypoints[0])
    else
      Next(waypoints[waypointCounter], waypoints[waypointCounter + 1])
  }

  /** The segments chosen for consecutive counters join up into a closed loop:
      each segment ends where the next one starts, and the segment of the last
      waypoint ends at the start of the first. */
  lemma WaypointSegmentsChain(waypoints: seq<Point>, i: nat)
    requires i < |waypoints|
    ensures UpdateWaypointTrajectory(waypoints, i).wp2
         == UpdateWaypointTrajectory(waypoints, (i + 1) % |waypoints|).wp1
  {}

  /** Once the counter has run out it stays run out. */
  lemma WaypointsStayExhausted(waypoints: seq<Point>, i: nat, j: nat)
    requires UpdateWaypointTrajectory(waypoints, i).RanOut?
    requires i <= j
    ensures UpdateWaypointTrajectory(waypoints, j).RanOut?
  {}

  // ---------------------------------------------------------------------------
  // calculate_distance

  /** `calculate_distance(point1, point2)`: the Euclidean distance, whose square
      is the sum of the squared coordinate differences. */
  function CalculateDistance(point1: Point, point2: Point, sqrt: real -> real): (distance: real)
    requires IsSquareRoot(sqrt)
    ensures distance >= 0.0
    ensures distance * distance
         == (point2.x - point1.x) * (point2.x - point1.x) + (point2.y - point1.y) * (point2.y - point1.y)
  {
    sqrt((point2.y - point1.y) * (point2.y - point1.y) + (point2.x - point1.x) * (point2.x - point1.x))
  }

  /** The distance does not depend on the order of its arguments. */
  lemma DistanceSymmetric(point1: Point, point2: Point, sqrt: real -> real)
    requires IsSquareRoot(sqrt)
    ensures CalculateDistance(point1, point2, sqrt) == CalculateDistance(point2, point1, sqrt)
  {
    assert (point2.y - point1.y) * (point2.y - point1.y) + (point2.x - point1.x) * (point2.x - point1.x)
        == (point1.y - point2.y) * (point1.y - point2.y) + (point1.x - point2.x) * (point1.x - point2.x);
  }

  /** The distance is zero exactly between equal points. */
  lemma DistanceZeroIffEqual(point1: Point, point2: Point, sqrt: real -> real)
    requires IsSquareRoot(sqrt)
    ensures CalculateDistance(point1, point2, sqrt) == 0.0 <==> point1 == point2
  {
    var r := CalculateDistance(point1, point2, sqrt);
    var dx, dy := point2.x - point1.x, point2.y - point1.y;
    if point1 == point2 {
      assert dx == 0.0 && dy == 0.0;
      SquareInjective(r, 0.0);
    } else {
      assert dx != 0.0 || dy != 0.0;
      SumOfSquaresPositive(dx, dy, r * r);
    }
  }

  /** The triangle inequality: going from `p` to `r` by way of `q` is never
      shorter than going directly. */
  lemma DistanceTriangle(p: Point, q: Point, r: Point, sqrt: real -> real)
    requires IsSquareRoot(sqrt)
    ensures CalculateDistance(p, r, sqrt) <= CalculateDistance(p, q, sqrt) + CalculateDistance(q, r, sqrt)
  {
    var a, b := Sub(q, p), Sub(r, q);
    var d1, d2, d3 := CalculateDistance(p, q, sqrt), CalculateDistance(q, r, sqrt), CalculateDistance(p, r, sqrt);
    assert d1 * d1 == SquaredNorm(a);
    assert d2 * d2 == SquaredNorm(b);
    assert d3 * d3 == SquaredNorm(a) + 2.0 * Dot(a, b) + SquaredNorm(b);
    CauchySchwarz(a, b, d1, d2);
    var s := d1 + d2;
    assert s * s == d1 * d1 + 2.0 * (d1 * d2) + d2 * d2;
    SquareOrder(d3, s, d3 * d3, s * s);
  }

  /** `calculate_distance` orders points as their squared distances do. */
  lemma DistanceFollowsSquaredDistance(point: Point, a: Point, b: Point, sqrt: real -> real)
    requires IsSquareRoot(sqrt)
    requires SquaredDistance(point, a) <= SquaredDistance(point, b)
    ensures CalculateDistance(point, a, sqrt) <= CalculateDistance(point, b, sqrt)
  {
    var near, far := CalculateDistance(point, a, sqrt), CalculateDistance(point, b, sqrt);
    assert near * near == SquaredNorm(Sub(a, point));
    assert far * far == SquaredNorm(Sub(b, point));
    SquareOrder(near, far, near * near, far * far);
  }

  /** Measured with `calculate_distance`, no point of the segment is nearer to
      `point` than its projection. */
  lemma ProjectPointMinimisesDistance(seg: Segment, point: Point, s: real, sqrt: real -> real)
    requires IsSquareRoot(sqrt)
    requires seg.p0 != seg.p1
    requires 0.0 <= s <= 1.0
    ensures CalculateDistance(point, ProjectPoint(seg, point).value, sqrt)
         <= CalculateDistance(point, PointAt(seg, s), sqrt)
  {
    var c, q := ProjectPoint(seg, point).value, PointAt(seg, s);
    ProjectPointIsClosest(seg, point, s);
    assert SquaredDistance(c, q) >= 0.0;
    DistanceFollowsSquaredDistance(point, c, q, sqrt);
  }
}
