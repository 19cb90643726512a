/** Point-in-polygon by ray casting and the polygon predicates built on it
    (Math2DPrimitives/Utilities/PolygonUtilities.cs), over polygons whose
    sides join consecutive vertices and close from the last vertex back to
    the first (Polygon.cs).

    The source marks the sides that cross the scanline through the query
    point with a mutable flag on each side and clears the flags afterwards.
    Here the marking is a pure function of the side, and the method that
    follows the loop returns the cleared flags. */
module PolygonUtilities {
  import opened Wrappers
  import opened General
  import opened Primitives
  import opened Lines
  import opened LineClassification
  import opened CoordinateUtilities

  /** A polygon by its vertices; side construction reads the last vertex, so
      there is at least one. */
  type Polygon = s: seq<Point2D> | |s| > 0 witness [Origin]

  /** The vertex a side starting at vertex `i` runs to. */
  function Next(poly: Polygon, i: nat): (j: nat)
    requires i < |poly|
    ensures j < |poly|
    ensures j == 0 <==> i == |poly| - 1
  {
    if i + 1 < |poly| then i + 1 else 0
  }

  /** `ConstructSides`: one segment per vertex, to the next vertex. The sides
      form a closed chain. */
  function Sides(poly: Polygon): (r: seq<Line2D>)
    ensures |r| == |poly|
    ensures forall i :: 0 <= i < |r| ==> r[i].ends.Some? && StartPoint(r[i]) == poly[i]
    ensures forall i :: 0 <= i < |r| ==> EndPoint(r[i]) == StartPoint(r[Next(poly, i)])
  {
    seq(|poly|, i requires 0 <= i < |poly| => CreateByPoints(poly[i], poly[Next(poly, i)]))
  }

  /** Every side is the segment `CreateByPoints` builds from its endpoints. */
  lemma SidesAreSegments(poly: Polygon, i: nat)
    requires i < |poly|
    ensures IsSegment(Sides(poly)[i])
  {
  }

  /** `PointThreshold.CreateBySlope(0, t)`: the horizontal scanline y = t,
      without endpoints. */
  function Threshold(t: real): (l: Line2D)
    ensures l.ends.None? && l.slopeForm == Some(SlopeForm(0.0, t))
    ensures forall p :: LiesOn(l, p) <==> p.y == t
  {
    CreateBySlope(0.0, t)
  }

  // ---------------------------------------------------------------------
  // Cross sides
  // ---------------------------------------------------------------------

  /** The rule of `ModifyPolygonSides`: the endpoint Ys strictly straddle the
      scanline, or one endpoint is on it and the other strictly below. */
  predicate IsCrossSide(side: Line2D, t: real) {
    (StartPoint(side).y > t && EndPoint(side).y < t)
      || (EndPoint(side).y > t && StartPoint(side).y < t)
      || (StartPoint(side).y == t && EndPoint(side).y < t)
      || (StartPoint(side).y < t && EndPoint(side).y == t)
  }

  /** The rule is the half-open interval test: the scanline is above the
      lower endpoint and at most at the upper one. So a side wholly at, above
      or below the scanline never crosses, and at a vertex on the scanline
      only a side going down from it counts. */
  lemma CrossSideHalfOpen(side: Line2D, t: real)
    ensures IsCrossSide(side, t) <==> Min(StartPoint(side).y, EndPoint(side).y) < t <= Max(StartPoint(side).y, EndPoint(side).y)
    ensures StartPoint(side).y == t ==> (IsCrossSide(side, t) <==> EndPoint(side).y < t)
    ensures EndPoint(side).y == t ==> (IsCrossSide(side, t) <==> StartPoint(side).y < t)
    ensures StartPoint(side).y == EndPoint(side).y ==> !IsCrossSide(side, t)
  {
  }

  /** `ModifyPolygonSides`: the cross flag of every side. */
  function ModifyPolygonSides(sides: seq<Line2D>, t: real): (flags: seq<bool>)
    ensures |flags| == |sides|
    ensures forall i :: 0 <= i < |sides| ==>
              (flags[i] <==> Min(StartPoint(sides[i]).y, EndPoint(sides[i]).y) < t <= Max(StartPoint(sides[i]).y, EndPoint(sides[i]).y))
  {
    var flags := seq(|sides|, i requires 0 <= i < |sides| => IsCrossSide(sides[i], t));
    assert forall i :: 0 <= i < |sides| ==> flags[i] == IsCrossSide(sides[i], t);
    forall i | 0 <= i < |sides|
      ensures flags[i] <==> Min(StartPoint(sides[i]).y, EndPoint(sides[i]).y) < t <= Max(StartPoint(sides[i]).y, EndPoint(sides[i]).y)
    {
      CrossSideHalfOpen(sides[i], t);
    }
    flags
  }

  /** `ResetPolygonSides`: every flag cleared. */
  function ResetPolygonSides(sides: seq<Line2D>): (flags: seq<bool>)
    ensures |flags| == |sides|
    ensures forall i :: 0 <= i < |flags| ==> !flags[i]
  {
    seq(|sides|, i => false)
  }

  /** Where a side meets the scanline through height `t`, as the source
      computes it. For a vertical side the Y is read from the scanline's
      absent start point, so only the X is meaningful. */
  function CrossingPoint(side: Line2D, t: real): Option<Point2D> {
    Intersect(side, Threshold(t))
  }

  /** A cross side meets the scanline; the X the source computes is the X of
      a point of the side at height `t`. */
  lemma CrossingOnSide(side: Line2D, t: real)
    requires IsSegment(side) && IsCrossSide(side, t)
    ensures CrossingPoint(side, t).Some?
    ensures LiesOn(side, Point2D(CrossingPoint(side, t).value.x, t))
  {
    var th := Threshold(t);
    assert StartPoint(side).y != EndPoint(side).y;
    if StartPoint(side).x == EndPoint(side).x {
      assert VerticalMeetsHorizontal(side, th);
    } else {
      var f := side.slopeForm.value;
      assert f.slope * (EndPoint(side).x - StartPoint(side).x) == EndPoint(side).y - StartPoint(side).y;
      assert CrossingSlopes(side, th);
      IntersectCorrectedOnBothLines(side, th);
    }
    IntersectCorrectedSameX(side, th);
    var q := IntersectCorrected(side, th).value;
    assert q.y == t;
    assert q == Point2D(CrossingPoint(side, t).value.x, t);
  }

  /** A side counts when it crosses the scanline strictly to the right of the
      point. A non-finite crossing compares false, as NaN does. */
  predicate CountsAsCrossing(side: Line2D, p: Point2D) {
    IsCrossSide(side, p.y) && CrossingPoint(side, p.y).Some? && CrossingPoint(side, p.y).value.x > p.x
  }

  /** The number of sides that count, taken from the front. */
  function CountCrossings(sides: seq<Line2D>, p: Point2D): (n: nat)
    ensures n <= |sides|
  {
    if |sides| == 0 then 0
    else CountCrossings(sides[..|sides| - 1], p) + (if CountsAsCrossing(sides[|sides| - 1], p) then 1 else 0)
  }

  // ---------------------------------------------------------------------
  // Edges
  // ---------------------------------------------------------------------

  /** The loop of `IsPointOnEdge` over a list of sides, stopping at the first
      side the point lies on. */
  function OnSomeSide(sides: seq<Line2D>, p: Point2D): (r: bool)
    requires forall i :: 0 <= i < |sides| ==> IsLineHavingPoints(sides[i])
    ensures r <==> exists i :: 0 <= i < |sides| && LiesOnBoundedLine(p, sides[i])
  {
    if |sides| == 0 then false
    else if LiesOnBoundedLine(p, sides[0]) then true
    else
      assert forall i :: 1 <= i < |sides| ==> sides[i] == sides[1..][i - 1];
      OnSomeSide(sides[1..], p)
  }

  /** `IsPointOnEdge`: the point passes the bounded test of some side. */
  function IsPointOnEdge(poly: Polygon, p: Point2D): (r: bool)
    ensures r <==> exists i :: 0 <= i < |poly| && LiesOnBoundedLine(p, Sides(poly)[i])
  {
    OnSomeSide(Sides(poly), p)
  }

  /** A point on one side is on an edge. */
  lemma OnEdgeBySide(poly: Polygon, p: Point2D, i: nat)
    requires i < |poly| && LiesOnBoundedLine(p, Sides(poly)[i])
    ensures IsPointOnEdge(poly, p)
  {
  }

  /** Every vertex is on an edge. */
  lemma VerticesOnEdge(poly: Polygon, i: nat)
    requires i < |poly|
    ensures IsPointOnEdge(poly, poly[i])
  {
    assert LiesOnBoundedLine(poly[i], Sides(poly)[i]);
  }

  // ---------------------------------------------------------------------
  // Point in polygon
  // ---------------------------------------------------------------------

  /** `IsPointInPolygon`: inside when an odd number of sides cross the
      scanline to the right of the point, or when the point is on an edge. */
  function IsPointInPolygon(poly: Polygon, p: Point2D): (r: bool)
    ensures IsPointOnEdge(poly, p) ==> r
    ensures !IsPointOnEdge(poly, p) ==> (r <==> CountCrossings(Sides(poly), p) % 2 == 1)
  {
    CountCrossings(Sides(poly), p) % 2 != 0 || IsPointOnEdge(poly, p)
  }

  /** One more side adds one to the count exactly when it counts. */
  lemma CountStep(sides: seq<Line2D>, i: nat, p: Point2D)
    requires i < |sides|
    ensures CountCrossings(sides[..i + 1], p) == CountCrossings(sides[..i], p) + (if CountsAsCrossing(sides[i], p) then 1 else 0)
  {
    assert sides[..i + 1][..i] == sides[..i];
  }

  /** The loop of `IsPointInPolygon`: mark the cross sides, collect the
      crossings to the right of the point, decide, and clear the marks. */
  method PointInPolygon(poly: Polygon, p: Point2D) returns (inside: bool, flags: seq<bool>)
    ensures inside == IsPointInPolygon(poly, p)
    ensures |flags| == |poly| && forall i :: 0 <= i < |flags| ==> !flags[i]
  {
    var sides := Sides(poly);
    flags := ModifyPolygonSides(sides, p.y);
    var count := 0;
    var i := 0;
    while i < |sides|
      invariant 0 <= i <= |sides|
      invariant count == CountCrossings(sides[..i], p)
    {
      CrossSideHalfOpen(sides[i], p.y);
      if flags[i] {
        var q := CrossingPoint(sides[i], p.y);
        if q.Some? && q.value.x > p.x {
          count := count + 1;
        }
      }
      CountStep(sides, i, p);
      i := i + 1;
    }
    assert sides[..i] == sides;
    inside := count % 2 != 0 || IsPointOnEdge(poly, p);
    flags := ResetPolygonSides(sides);
  }

  // ---------------------------------------------------------------------
  // Aggregates: loops that keep a flag
  // ---------------------------------------------------------------------

  /** A loop that starts from `flag` and clears it at every element failing
      the test. */
  function AllFrom<T>(test: T -> bool, xs: seq<T>, flag: bool): (r: bool)
    ensures r <==> flag && forall i :: 0 <= i < |xs| ==> test(xs[i])
  {
    if |xs| == 0 then flag
    else
      assert forall i :: 1 <= i < |xs| ==> xs[i] == xs[1..][i - 1];
      AllFrom(test, xs[1..], if !test(xs[0]) then false else flag)
  }

  /** A loop that starts from `flag` and sets it at every element passing
      the test. */
  function AnyFrom<T>(test: T -> bool, xs: seq<T>, flag: bool): (r: bool)
    ensures r <==> flag || exists i :: 0 <= i < |xs| && test(xs[i])
  {
    if |xs| == 0 then flag
    else
      assert forall i :: 1 <= i < |xs| ==> xs[i] == xs[1..][i - 1];
      AnyFrom(test, xs[1..], if test(xs[0]) then true else flag)
  }

  /** `ArePointsInPolygon`: every point is inside; true for no points. */
  function ArePointsInPolygon(poly: Polygon, points: seq<Point2D>): (r: bool)
    ensures r <==> forall i :: 0 <= i < |points| ==> IsPointInPolygon(poly, points[i])
  {
    AllFrom(p => IsPointInPolygon(poly, p), points, true)
  }

  /** `IsAnyPointInPolygon`: some point is inside; false for no points. */
  function IsAnyPointInPolygon(poly: Polygon, points: seq<Point2D>): (r: bool)
    ensures r <==> exists i :: 0 <= i < |points| && IsPointInPolygon(poly, points[i])
  {
    AnyFrom(p => IsPointInPolygon(poly, p), points, false)
  }

  /** `AreAllPointsOnEdge`: every point is on an edge. */
  function AreAllPointsOnEdge(poly: Polygon, points: seq<Point2D>): (r: bool)
    ensures r <==> forall i :: 0 <= i < |points| ==> IsPointOnEdge(poly, points[i])
  {
    AllFrom(p => IsPointOnEdge(poly, p), points, true)
  }

  /** `IsAnyPointOnEdge` as written: its flag starts true, so it never
      becomes false. */
  function IsAnyPointOnEdge(poly: Polygon, points: seq<Point2D>): (r: bool)
    ensures r
  {
    AnyFrom(p => IsPointOnEdge(poly, p), points, true)
  }

  /** `IsAnyPointOnEdge` with the flag starting false, as its documentation
      describes: some point is on an edge. */
  function IsAnyPointOnEdgeCorrected(poly: Polygon, points: seq<Point2D>): (r: bool)
    ensures r <==> exists i :: 0 <= i < |points| && IsPointOnEdge(poly, points[i])
  {
    AnyFrom(p => IsPointOnEdge(poly, p), points, false)
  }

  /** `IsPolygonHavingHorizontalSides`: some side is horizontal. */
  function IsPolygonHavingHorizontalSides(poly: Polygon): (r: bool)
    ensures r <==> exists i :: 0 <= i < |poly| && Near(poly[i].y, poly[Next(poly, i)].y)
  {
    AnyFrom(side => Horizontal(side), Sides(poly), false)
  }

  /** `IsPolygonHavingVerticalSides`: some side is vertical. */
  function IsPolygonHavingVerticalSides(poly: Polygon): (r: bool)
    ensures r <==> exists i :: 0 <= i < |poly| && Near(poly[i].x, poly[Next(poly, i)].x)
  {
    AnyFrom(side => Vertical(side), Sides(poly), false)
  }

  // ---------------------------------------------------------------------
  // An example
  // ---------------------------------------------------------------------

  /** The square of side `a` with corners (0, 0), (a, 0), (a, a) and
      (0, a), in that order. */
  predicate IsSquare(poly: Polygon, a: real) {
    |poly| == 4
      && poly[0] == Point2D(0.0, 0.0) && poly[1] == Point2D(a, 0.0)
      && poly[2] == Point2D(a, a) && poly[3] == Point2D(0.0, a)
  }

  /** Four sides running round the square of side `a`: bottom, right, top,
      left. */
  predicate SquareChain(sides: seq<Line2D>, a: real) {
    |sides| == 4
      && StartPoint(sides[0]) == Point2D(0.0, 0.0) && EndPoint(sides[0]) == Point2D(a, 0.0)
      && StartPoint(sides[1]) == Point2D(a, 0.0) && EndPoint(sides[1]) == Point2D(a, a)
      && StartPoint(sides[2]) == Point2D(a, a) && EndPoint(sides[2]) == Point2D(0.0, a)
      && StartPoint(sides[3]) == Point2D(0.0, a) && EndPoint(sides[3]) == Point2D(0.0, 0.0)
      && sides[0].ends.Some? && sides[1].ends.Some? && sides[2].ends.Some? && sides[3].ends.Some?
  }

  /** The sides of the square run round it. */
  lemma SquareSides(poly: Polygon, a: real)
    requires IsSquare(poly, a)
    ensures SquareChain(Sides(poly), a)
  {
    assert Next(poly, 0) == 1 && Next(poly, 1) == 2 && Next(poly, 2) == 3 && Next(poly, 3) == 0;
  }

  /** A side with endpoints with equal Xs meets every scanline right on that
      X; the Y is the (0, 0) start the scanline reads. */
  lemma VerticalSideCrossing(side: Line2D, t: real)
    requires side.ends.Some? && StartPoint(side).x == EndPoint(side).x
    ensures CrossingPoint(side, t) == Some(Point2D(StartPoint(side).x, 0.0))
  {
  }

  /** A side that does not cross the scanline never counts. */
  lemma NotCrossingNeverCounts(side: Line2D, p: Point2D)
    requires !IsCrossSide(side, p.y)
    ensures !CountsAsCrossing(side, p)
  {
  }

  /** A vertical cross side counts exactly when it is to the right of the
      point. */
  lemma VerticalCrossSideCounts(side: Line2D, p: Point2D)
    requires side.ends.Some? && StartPoint(side).x == EndPoint(side).x && IsCrossSide(side, p.y)
    ensures CountsAsCrossing(side, p) <==> StartPoint(side).x > p.x
  {
    VerticalSideCrossing(side, p.y);
  }

  /** Counting over four sides, one at a time. */
  lemma CountFour(sides: seq<Line2D>, p: Point2D)
    requires |sides| == 4
    ensures CountCrossings(sides, p)
         == (if CountsAsCrossing(sides[0], p) then 1 else 0) + (if CountsAsCrossing(sides[1], p) then 1 else 0)
          + (if CountsAsCrossing(sides[2], p) then 1 else 0) + (if CountsAsCrossing(sides[3], p) then 1 else 0)
  {
    assert sides[..1][..0] == [];
    assert CountCrossings(sides[..1], p) == (if CountsAsCrossing(sides[0], p) then 1 else 0);
    assert sides[..2][..1] == sides[..1];
    assert CountCrossings(sides[..2], p) == CountCrossings(sides[..1], p) + (if CountsAsCrossing(sides[1], p) then 1 else 0);
    assert sides[..3][..2] == sides[..2];
    assert CountCrossings(sides[..3], p) == CountCrossings(sides[..2], p) + (if CountsAsCrossing(sides[2], p) then 1 else 0);
    assert sides[..3] == sides[..|sides| - 1];
  }

  /** Exactly one of four sides counts. */
  lemma OneOfFour(sides: seq<Line2D>, p: Point2D)
    requires |sides| == 4
    requires !CountsAsCrossing(sides[0], p) && CountsAsCrossing(sides[1], p)
    requires !CountsAsCrossing(sides[2], p) && !CountsAsCrossing(sides[3], p)
    ensures CountCrossings(sides, p) == 1
  {
    CountFour(sides, p);
  }

  /** None of four sides counts. */
  lemma NoneOfFour(sides: seq<Line2D>, p: Point2D)
    requires |sides| == 4
    requires !CountsAsCrossing(sides[0], p) && !CountsAsCrossing(sides[1], p)
    requires !CountsAsCrossing(sides[2], p) && !CountsAsCrossing(sides[3], p)
    ensures CountCrossings(sides, p) == 0
  {
    CountFour(sides, p);
  }

  /** For a point strictly inside the square, only the right side crosses
      the scanline to its right. */
  lemma InteriorCount(sides: seq<Line2D>, a: real, p: Point2D)
    requires SquareChain(sides, a) && 0.0 < p.x < a && 0.0 < p.y < a
    ensures CountCrossings(sides, p) == 1
  {
    NotCrossingNeverCounts(sides[0], p);
    VerticalCrossSideCounts(sides[1], p);
    NotCrossingNeverCounts(sides[2], p);
    VerticalCrossSideCounts(sides[3], p);
    OneOfFour(sides, p);
  }

  /** Every point strictly inside the square is inside by the crossing
      count. */
  lemma SquareInteriorInside(poly: Polygon, a: real, p: Point2D)
    requires IsSquare(poly, a) && 0.0 < p.x < a && 0.0 < p.y < a
    ensures CountCrossings(Sides(poly), p) == 1
    ensures IsPointInPolygon(poly, p)
  {
    SquareSides(poly, a);
    InteriorCount(Sides(poly), a, p);
  }

  /** For a point above the square, beyond the tolerance of its top side, no
      side crosses the scanline and the point is on no side. */
  lemma AboveOffSides(sides: seq<Line2D>, a: real, p: Point2D)
    requires SquareChain(sides, a) && a > Fudge && p.y > a + Fudge
    ensures CountCrossings(sides, p) == 0
    ensures forall i :: 0 <= i < |sides| ==> !LiesOnBoundedLine(p, sides[i])
  {
    NotCrossingNeverCounts(sides[0], p);
    NotCrossingNeverCounts(sides[1], p);
    NotCrossingNeverCounts(sides[2], p);
    NotCrossingNeverCounts(sides[3], p);
    NoneOfFour(sides, p);
    assert !LiesOnBoundedLine(p, sides[0]) by { BoundedOnHorizontal(p, sides[0]); }
    assert !LiesOnBoundedLine(p, sides[1]) by { BoundedOnVertical(p, sides[1]); }
    assert !LiesOnBoundedLine(p, sides[2]) by { BoundedOnHorizontal(p, sides[2]); }
    assert !LiesOnBoundedLine(p, sides[3]) by { BoundedOnVertical(p, sides[3]); }
  }

  /** A point above the square, beyond the tolerance, is outside it and on
      no edge. */
  lemma SquareAbovePointOutside(poly: Polygon, a: real, p: Point2D)
    requires IsSquare(poly, a) && a > Fudge && p.y > a + Fudge
    ensures !IsPointOnEdge(poly, p)
    ensures !IsPointInPolygon(poly, p)
  {
    SquareSides(poly, a);
    AboveOffSides(Sides(poly), a, p);
  }

  /** For a point on the open right side of the square, no crossing lies
      strictly to its right, and the bounded test of that side holds. */
  lemma RightSideCount(sides: seq<Line2D>, a: real, p: Point2D)
    requires SquareChain(sides, a) && a > Fudge && p.x == a && 0.0 < p.y < a
    ensures CountCrossings(sides, p) == 0
    ensures LiesOnBoundedLine(p, sides[1])
  {
    NotCrossingNeverCounts(sides[0], p);
    VerticalCrossSideCounts(sides[1], p);
    NotCrossingNeverCounts(sides[2], p);
    VerticalCrossSideCounts(sides[3], p);
    NoneOfFour(sides, p);
    BoundedOnVertical(p, sides[1]);
  }

  /** Points of the open right side are inside the square by the edge rule
      alone: their crossing count is even. */
  lemma SquareRightSideInside(poly: Polygon, a: real, p: Point2D)
    requires IsSquare(poly, a) && a > Fudge && p.x == a && 0.0 < p.y < a
    ensures CountCrossings(Sides(poly), p) == 0
    ensures IsPointOnEdge(poly, p) && IsPointInPolygon(poly, p)
  {
    SquareSides(poly, a);
    RightSideCount(Sides(poly), a, p);
    OnEdgeBySide(poly, p, 1);
  }

  /** For any points all above the square and off every edge, the empty
      list included, `IsAnyPointOnEdge` still answers true while the
      corrected loop answers false. */
  lemma IsAnyPointOnEdgeIgnoresPoints(poly: Polygon, a: real, points: seq<Point2D>)
    requires IsSquare(poly, a) && a > Fudge
    requires forall i :: 0 <= i < |points| ==> points[i].y > a + Fudge
    ensures IsAnyPointOnEdge(poly, points) && !IsAnyPointOnEdgeCorrected(poly, points)
  {
    forall i | 0 <= i < |points|
      ensures !IsPointOnEdge(poly, points[i])
    {
      SquareAbovePointOutside(poly, a, points[i]);
    }
  }
}
