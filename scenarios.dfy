/** The concrete situations the helpers' unit tests describe, stated exactly
    over the reals. Where the source compares floats with a tolerance, the
    lemma gives the exact value together with bounds at least as tight as the
    tolerance. Facts about `np.arctan2` at particular arguments are taken as
    requirements, since `arctan2` is a parameter of the model: the quadrant
    of each bearing, the lower bound `Pi / 6 < arctan2(2, 1)` for the
    saturation case, and the one exact value `arctan2(-1, 1) == -Pi / 4`. */
module UtilsScenarios {

  import opened RealArith
  import opened Vectors
  import opened Angles
  import opened Utils

  // ---------------------------------------------------------------------------
  // project_point
  //
  // The segments and points come in as parameters fixed by `requires`, which
  // keeps the verifier from evaluating the projection on literals.

  /** A point above the segment from (0, 1) to (3, 4) projects onto (2, 3). */
  lemma ProjectAboveSegment(seg: Segment, point: Point)
    requires seg == Segment(Point(0.0, 1.0), Point(3.0, 4.0)) && point == Point(1.0, 4.0)
    ensures ProjectPoint(seg, point) == Some(Point(2.0, 3.0))
  {
    ProjectionParameterIs(seg, point, 2.0 / 3.0);
    ProjectPointClamps(seg, point);
  }

  /** A point below the segment from (5, 1) to (2, 6) projects onto
      (113/34, 129/34), about (3.32, 3.79). */
  lemma ProjectBelowSegment(seg: Segment, point: Point)
    requires seg == Segment(Point(5.0, 1.0), Point(2.0, 6.0)) && point == Point(2.0, 3.0)
    ensures ProjectPoint(seg, point) == Some(Point(113.0 / 34.0, 129.0 / 34.0))
  {
    ProjectionParameterIs(seg, point, 19.0 / 34.0);
    ProjectPointClamps(seg, point);
  }

  /** A point behind the start of the segment from (1, 2) to (4, 3) projects
      onto the start itself. */
  lemma ProjectBehindSegment(seg: Segment, point: Point)
    requires seg == Segment(Point(1.0, 2.0), Point(4.0, 3.0)) && point == Point(-1.0, 1.0)
    ensures ProjectPoint(seg, point) == Some(Point(1.0, 2.0))
  {
    ProjectionParameterIs(seg, point, -7.0 / 10.0);
    ProjectPointClamps(seg, point);
  }

  /** A point beyond the end of the same segment projects onto its end. */
  lemma ProjectBeyondSegment(seg: Segment, point: Point)
    requires seg == Segment(Point(1.0, 2.0), Point(4.0, 3.0)) && point == Point(6.0, 1.0)
    ensures ProjectPoint(seg, point) == Some(Point(4.0, 3.0))
  {
    ProjectionParameterIs(seg, point, 14.0 / 10.0);
    ProjectPointClamps(seg, point);
  }

  // ---------------------------------------------------------------------------
  // next_carrot

  /** Within 0.01 of the carrot (3.85, 6.77) the test expects, in each
      coordinate. */
  predicate NearExpectedCarrot(c: Point) {
    3.84 < c.x < 3.86 && 6.76 < c.y < 6.78
  }

  /** On the segment from (0, 1) to (2, 4), the vehicle at (2, 2) projects to
      (14/13, 34/13), and the carrot lies five units further along the unit
      direction of the segment, (2, 3) / sqrt(13). */
  lemma CarrotAheadOfVehicle(seg: Segment, pose2d: Point, sqrt: real -> real)
    requires IsSquareRoot(sqrt)
    requires seg == Segment(Point(0.0, 1.0), Point(2.0, 4.0)) && pose2d == Point(2.0, 2.0)
    ensures NextCarrot(seg, pose2d, 5.0, sqrt)
      == Some(Add(Point(14.0 / 13.0, 34.0 / 13.0), Scale(5.0, UnitVector(Direction(seg), sqrt))))
  {
    ProjectVehicleOntoSegment(seg, pose2d);
  }

  /** That carrot lies within 0.01 of (3.85, 6.77). */
  lemma CarrotNearExpected(seg: Segment, sqrt: real -> real)
    requires IsSquareRoot(sqrt)
    requires seg == Segment(Point(0.0, 1.0), Point(2.0, 4.0))
    ensures NearExpectedCarrot(Add(Point(14.0 / 13.0, 34.0 / 13.0), Scale(5.0, UnitVector(Direction(seg), sqrt))))
  {
    assert Direction(seg) == Point(2.0, 3.0);
    var u := UnitVector(Direction(seg), sqrt);
    StepFromProjection(u, Add(Point(14.0 / 13.0, 34.0 / 13.0), Scale(5.0, u)));
  }

  /** The carrot test as one statement: `next_carrot` on that segment, from
      the vehicle at (2, 2) with look-ahead 5, lies within 0.01 of
      (3.85, 6.77). */
  lemma CarrotWithinTolerance(seg: Segment, pose2d: Point, sqrt: real -> real)
    requires IsSquareRoot(sqrt)
    requires seg == Segment(Point(0.0, 1.0), Point(2.0, 4.0)) && pose2d == Point(2.0, 2.0)
    ensures NearExpectedCarrot(NextCarrot(seg, pose2d, 5.0, sqrt).value)
  {
    CarrotAheadOfVehicle(seg, pose2d, sqrt);
    CarrotNearExpected(seg, sqrt);
  }

  /** Five units along the unit vector in the direction (2, 3), starting from
      (14/13, 34/13), lands within 0.01 of (3.85, 6.77). */
  lemma StepFromProjection(u: Point, carrot: Point)
    requires SquaredNorm(u) == 1.0 && Cross(u, Point(2.0, 3.0)) == 0.0 && Dot(u, Point(2.0, 3.0)) > 0.0
    requires carrot == Add(Point(14.0 / 13.0, 34.0 / 13.0), Scale(5.0, u))
    ensures NearExpectedCarrot(carrot)
  {
    UnitAlongTwoThree(u);
  }

  /** The vehicle at (2, 2) projects onto (14/13, 34/13) of the segment from
      (0, 1) to (2, 4). */
  lemma ProjectVehicleOntoSegment(seg: Segment, pose2d: Point)
    requires seg == Segment(Point(0.0, 1.0), Point(2.0, 4.0)) && pose2d == Point(2.0, 2.0)
    ensures ProjectPoint(seg, pose2d) == Some(Point(14.0 / 13.0, 34.0 / 13.0))
  {
    ProjectionParameterIs(seg, pose2d, 7.0 / 13.0);
    ProjectPointClamps(seg, pose2d);
    assert PointAt(seg, 7.0 / 13.0) == Point(14.0 / 13.0, 34.0 / 13.0);
  }

  /** The unit vector along (2, 3) is `(2, 3) / sqrt(13)`: its first
      coordinate is about 0.5547 and its second is one and a half times that. */
  lemma UnitAlongTwoThree(u: Point)
    requires SquaredNorm(u) == 1.0 && Cross(u, Point(2.0, 3.0)) == 0.0 && Dot(u, Point(2.0, 3.0)) > 0.0
    ensures 0.5547 < u.x < 0.55471 && u.y == 1.5 * u.x
  {
    assert u.y == 1.5 * u.x;
    SquareEqual(u.y, 1.5 * u.x);
    assert u.x * u.x == 4.0 / 13.0;
    RootBetween(u.x, 0.5547, 0.55471);
  }

  // ---------------------------------------------------------------------------
  // calculate_delta

  /** First quadrant: the carrot (3, 4) seen from (2, 2) with heading 0 lies at
      bearing `arctan2(2, 1)`, inside the 90-degree bound, so the steering
      angle is that bearing. */
  lemma DeltaFirstQuadrant(arctan2: (real, real) -> real)
    requires 0.0 < arctan2(2.0, 1.0) < Pi / 2.0
    ensures CalculateDelta(Pose(2.0, 2.0, 0.0), Point(3.0, 4.0), Pi / 2.0, arctan2) == arctan2(2.0, 1.0)
  {
    WrapFixesPrincipal(arctan2(2.0, 1.0));
  }

  /** Second quadrant: the carrot (1, 5) lies at bearing `arctan2(3, -1)`,
      inside the 180-degree bound. */
  lemma DeltaSecondQuadrant(arctan2: (real, real) -> real)
    requires Pi / 2.0 < arctan2(3.0, -1.0) < Pi
    ensures CalculateDelta(Pose(2.0, 2.0, 0.0), Point(1.0, 5.0), Pi, arctan2) == arctan2(3.0, -1.0)
  {
    WrapFixesPrincipal(arctan2(3.0, -1.0));
  }

  /** Third quadrant: the carrot (1, 1) lies behind and to the right, beyond
      the 60-degree bound, so the steering angle saturates at -60 degrees. */
  lemma DeltaThirdQuadrant(arctan2: (real, real) -> real)
    requires -Pi < arctan2(-1.0, -1.0) < -Pi / 2.0
    ensures CalculateDelta(Pose(2.0, 2.0, 0.0), Point(1.0, 1.0), Pi / 3.0, arctan2) == -Pi / 3.0
  {
    WrapFixesPrincipal(arctan2(-1.0, -1.0));
  }

  /** Fourth quadrant: the carrot (3, 1) lies at bearing -45 degrees, inside
      the 60-degree bound. */
  lemma DeltaFourthQuadrant(arctan2: (real, real) -> real)
    requires arctan2(-1.0, 1.0) == -Pi / 4.0
    ensures CalculateDelta(Pose(2.0, 2.0, 0.0), Point(3.0, 1.0), Pi / 3.0, arctan2) == -Pi / 4.0
  {
    WrapFixesPrincipal(-Pi / 4.0);
  }

  /** Saturation from above: the first-quadrant bearing exceeds a 30-degree
      bound, so the steering angle is exactly 30 degrees. */
  lemma DeltaSaturatesAtBound(arctan2: (real, real) -> real)
    requires Pi / 6.0 < arctan2(2.0, 1.0) < Pi / 2.0
    ensures CalculateDelta(Pose(2.0, 2.0, 0.0), Point(3.0, 4.0), Pi / 6.0, arctan2) == Pi / 6.0
  {
    WrapFixesPrincipal(arctan2(2.0, 1.0));
  }

  // ---------------------------------------------------------------------------
  // update_waypoint_trajectory

  /** Stepping the counter over three waypoints gives the segments w1-w2,
      w2-w3 and w3-w1, and then runs out. */
  lemma WaypointsInTurn()
    ensures var w1, w2, w3 := Point(0.0, 1.0), Point(2.0, 1.0), Point(2.0, 4.0);
      && UpdateWaypointTrajectory([w1, w2, w3], 0) == Next(w1, w2)
      && UpdateWaypointTrajectory([w1, w2, w3], 1) == Next(w2, w3)
      && UpdateWaypointTrajectory([w1, w2, w3], 2) == Next(w3, w1)
      && UpdateWaypointTrajectory([w1, w2, w3], 3) == RanOut
  {}

  // ---------------------------------------------------------------------------
  // calculate_distance

  /** From (0, 0) to (2, 2) the distance is `sqrt(8)`, between 2.82 and 2.83. */
  lemma DistanceAcrossDiagonal(sqrt: real -> real)
    requires IsSquareRoot(sqrt)
    ensures var d := CalculateDistance(Point(0.0, 0.0), Point(2.0, 2.0), sqrt);
      d * d == 8.0 && 2.82 < d < 2.83
  {
    var d := CalculateDistance(Point(0.0, 0.0), Point(2.0, 2.0), sqrt);
    RootBetween(d, 2.82, 2.83);
  }

  /** From (10, 10) to (0, 6) the distance is `sqrt(116)`, between 10.77 and
      10.78. */
  lemma DistanceBackAndDown(sqrt: real -> real)
    requires IsSquareRoot(sqrt)
    ensures var d := CalculateDistance(Point(10.0, 10.0), Point(0.0, 6.0), sqrt);
      d * d == 116.0 && 10.77 < d < 10.78
  {
    var d := CalculateDistance(Point(10.0, 10.0), Point(0.0, 6.0), sqrt);
    RootBetween(d, 10.77, 10.78);
  }
}
