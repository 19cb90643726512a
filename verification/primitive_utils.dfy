/** The obsolete class PrimitiveUtils (Math2DPrimitives/Utilities/PrimitiveUtils.cs),
    an older copy of the line, point and polygon utilities. Each member here
    follows the obsolete text on its own, with its exceptions as `Failure`
    values, and its contract proves that it agrees with the current model
    of the same operation. The private helpers of the class (the endpoint
    test, the coordinate-range tests, `AreNumbersInRange` and the cross-side
    marking) have the same text as the current ones and are shared. */
module PrimitiveUtils {
  import opened Wrappers
  import opened General
  import opened Primitives
  import opened Lines
  import opened LineClassification
  import opened CoordinateUtilities
  import opened LineUtilities
  import opened PolygonUtilities

  /** C#'s short-circuit `a && b` over calls that may throw: `b` only
      matters when `a` returned true. */
  function AndThen(a: Result<bool, LineError>, b: Result<bool, LineError>): (r: Result<bool, LineError>)
    ensures r == Success(true) <==> a == Success(true) && b == Success(true)
    ensures a.Failure? ==> r == a
  {
    match a
    case Failure(e) => Failure(e)
    case Success(x) => if !x then Success(false) else b
  }

  /** C#'s short-circuit `a || b`: `b` only matters when `a` returned
      false. */
  function OrElse(a: Result<bool, LineError>, b: Result<bool, LineError>): (r: Result<bool, LineError>)
    ensures r == Success(false) <==> a == Success(false) && b == Success(false)
    ensures a.Failure? ==> r == a
  {
    match a
    case Failure(e) => Failure(e)
    case Success(x) => if x then Success(true) else b
  }

  // ---------------------------------------------------------------------
  // Lines
  // ---------------------------------------------------------------------

  /** `IsLineVertical`. */
  function IsLineVertical(l: Line2D): (r: Result<bool, LineError>)
    ensures r == IsVertical(l)
  {
    if !IsLineHavingPoints(l) then Failure(NoDefinedPoints)
    else Success(Abs(StartPoint(l).x - EndPoint(l).x) <= Fudge)
  }

  /** `IsLineHorizontal`. */
  function IsLineHorizontal(l: Line2D): (r: Result<bool, LineError>)
    ensures r == IsHorizontal(l)
  {
    if !IsLineHavingPoints(l) then Failure(NoDefinedPoints)
    else Success(Abs(StartPoint(l).y - EndPoint(l).y) <= Fudge)
  }

  /** `IsLineInclined`: not horizontal and, only then, not vertical. */
  function IsLineInclined(l: Line2D): (r: Result<bool, LineError>)
    ensures r == IsInclined(l)
  {
    match IsLineHorizontal(l)
    case Failure(e) => Failure(e)
    case Success(h) =>
      if h then Success(false)
      else
        match IsLineVertical(l)
        case Failure(e) => Failure(e)
        case Success(v) => Success(!v)
  }

  /** `InclinedLinesCollinear` of the obsolete class. */
  function InclinedLinesCollinear(l1: Line2D, l2: Line2D): (r: Result<bool, LineError>)
    ensures r == LineClassification.InclinedLinesCollinear(l1, l2)
  {
    match IsLineInclined(l1)
    case Failure(e) => Failure(e)
    case Success(i1) =>
      if !i1 then Failure(NotInclined)
      else
        match IsLineInclined(l2)
        case Failure(e) => Failure(e)
        case Success(i2) =>
          if !i2 then Failure(NotInclined)
          else Success(NearSlopeForms(l1.slopeForm, l2.slopeForm))
  }

  /** `IsPointOnLine` of the obsolete class, which does not ask for
      endpoints first: an endpoint answers true at once, and only then do the
      orientation tests throw. On a line without endpoints both endpoints
      read as the origin, so the origin is on it and every other point
      fails. An undefined slope is NaN, never near anything. */
  function IsPointOnLine(l: Line2D, p: Point2D): (r: Result<bool, LineError>)
    ensures IsLineHavingPoints(l) ==> r == Success(LiesOnBoundedLine(p, l))
    ensures !IsLineHavingPoints(l) ==> r == (if p == Origin then Success(true) else Failure(NoDefinedPoints))
  {
    if p == StartPoint(l) || p == EndPoint(l) then Success(true)
    else
      match IsLineHorizontal(l)
      case Failure(e) => Failure(e)
      case Success(h) =>
        if h then
          Success(Abs(StartPoint(l).y - p.y) <= Fudge && AreNumbersInRange(StartPoint(l).x, EndPoint(l).x, [p.x]))
        else
          match IsLineVertical(l)
          case Failure(e) => Failure(e)
          case Success(v) =>
            if v then
              Success(Abs(StartPoint(l).x - p.x) <= Fudge && AreNumbersInRange(StartPoint(l).y, EndPoint(l).y, [p.y]))
            else
              match IsLineInclined(l)
              case Failure(e) => Failure(e)
              case Success(i) =>
                if i then
                  Success(NearSlopeForm(l, p)
                          && AreNumbersInRange(StartPoint(l).x, EndPoint(l).x, [p.x])
                          && AreNumbersInRange(StartPoint(l).y, EndPoint(l).y, [p.y]))
                else
                  Success(false)
  }

  /** `IsLineTotallyOverLapping`: the current test, with the obsolete point
      test in the inclined case. It throws whenever either line has no
      endpoints. */
  function IsLineTotallyOverLapping(l1: Line2D, l2: Line2D): (r: Result<bool, LineError>)
    ensures r.Failure? <==> !IsLineHavingPoints(l1) || !IsLineHavingPoints(l2)
    ensures r.Success? ==> r.value == IsTotallyOverLapping(l1, l2)
  {
    match AndThen(IsLineHorizontal(l1), IsLineHorizontal(l2))
    case Failure(e) => Failure(e)
    case Success(hh) =>
      if hh then
        Success(Abs(StartPoint(l1).y - StartPoint(l2).y) <= Fudge && IsXLineCoordsInRange(l1, l2))
      else
        match AndThen(IsLineVertical(l1), IsLineVertical(l2))
        case Failure(e) => Failure(e)
        case Success(vv) =>
          if vv then
            Success(Abs(StartPoint(l1).x - StartPoint(l2).x) <= Fudge && IsYLineCoordsInRange(l1, l2))
          else
            match AndThen(IsLineInclined(l1), IsLineInclined(l2))
            case Failure(e) => Failure(e)
            case Success(ii) =>
              if !ii then Success(false)
              else
                match InclinedLinesCollinear(l1, l2)
                case Failure(e) => Failure(e)
                case Success(c) =>
                  if !c then Success(false)
                  else
                    OrElse(AndThen(IsPointOnLine(l1, StartPoint(l2)), IsPointOnLine(l1, EndPoint(l2))),
                           AndThen(IsPointOnLine(l2, StartPoint(l1)), IsPointOnLine(l2, EndPoint(l1))))
  }

  /** Some endpoint of either line passes the obsolete point test of the
      other, tried in the source's order. */
  function SomeEndOnOtherObsolete(l1: Line2D, l2: Line2D): (r: Result<bool, LineError>)
    requires IsLineHavingPoints(l1) && IsLineHavingPoints(l2)
    ensures r == Success(SomeEndOnOther(l1, l2))
  {
    OrElse(OrElse(IsPointOnLine(l1, StartPoint(l2)), IsPointOnLine(l1, EndPoint(l2))),
           OrElse(IsPointOnLine(l2, StartPoint(l1)), IsPointOnLine(l2, EndPoint(l1))))
  }

  /** `IsLinePartiallyOverLapping`: lines sharing an endpoint are refused
      before anything can throw, so two lines without endpoints, which both
      read as the origin, give false; otherwise it throws whenever either
      line has no endpoints. */
  function IsLinePartiallyOverLapping(l1: Line2D, l2: Line2D): (r: Result<bool, LineError>)
    ensures r.Failure? <==> !ShareEndpoint(l1, l2) && (!IsLineHavingPoints(l1) || !IsLineHavingPoints(l2))
    ensures ShareEndpoint(l1, l2) ==> r == Success(false)
    ensures IsLineHavingPoints(l1) && IsLineHavingPoints(l2) ==> r == Success(IsPartiallyOverLapping(l1, l2))
  {
    if ShareEndpoint(l1, l2) then Success(false)
    else
      match AndThen(IsLineHorizontal(l1), IsLineHorizontal(l2))
      case Failure(e) => Failure(e)
      case Success(hh) =>
        if hh then
          if Abs(StartPoint(l1).y - StartPoint(l2).y) <= Fudge then SomeEndOnOtherObsolete(l1, l2)
          else Success(false)
        else
          match AndThen(IsLineVertical(l1), IsLineVertical(l2))
          case Failure(e) => Failure(e)
          case Success(vv) =>
            if vv then
              if Abs(StartPoint(l1).x - StartPoint(l2).x) <= Fudge then SomeEndOnOtherObsolete(l1, l2)
              else Success(false)
            else
              match AndThen(IsLineInclined(l1), IsLineInclined(l2))
              case Failure(e) => Failure(e)
              case Success(ii) =>
                if !ii then Success(false)
                else
                  match InclinedLinesCollinear(l1, l2)
                  case Failure(e) => Failure(e)
                  case Success(c) =>
                    if !c then Success(false)
                    else SomeEndOnOtherObsolete(l1, l2)
  }

  /** `IsLineGenerallyOverLapping`: partially, or else totally. */
  function IsLineGenerallyOverLapping(l1: Line2D, l2: Line2D): (r: Result<bool, LineError>)
    ensures r.Failure? <==> !IsLineHavingPoints(l1) || !IsLineHavingPoints(l2)
    ensures r.Success? ==> r.value == IsGenerallyOverLapping(l1, l2)
  {
    OrElse(IsLinePartiallyOverLapping(l1, l2), IsLineTotallyOverLapping(l1, l2))
  }

  // ---------------------------------------------------------------------
  // Points
  // ---------------------------------------------------------------------

  /** `GetMidPoint(start, end)` of the obsolete class. */
  function GetMidPoint(start: Point2D, end: Point2D): (r: Point2D)
    ensures r == CoordinateUtilities.GetMidPoint(start, end)
  {
    Point2D((start.x + end.x) / 2.0, (start.y + end.y) / 2.0)
  }

  /** `GetMidPoint(line)` of the obsolete class. */
  function GetLineMidPoint(l: Line2D): (r: Point2D)
    ensures r == MidPoint(l)
  {
    GetMidPoint(StartPoint(l), EndPoint(l))
  }

  /** `MirrorPoint` of the obsolete class, with the source's own
      intersection in the inclined case. */
  function MirrorPoint(p: Point2D, l: Line2D): (r: Option<Point2D>)
    requires IsLineHavingPoints(l)
    ensures r == CoordinateUtilities.MirrorPoint(p, l)
  {
    if IsLineHorizontal(l).value then
      var foot := Point2D(p.x, StartPoint(l).y);
      Some(Point2D(2.0 * foot.x - p.x, 2.0 * foot.y - p.y))
    else if IsLineVertical(l).value then
      var foot := Point2D(StartPoint(l).x, p.y);
      Some(Point2D(2.0 * foot.x - p.x, 2.0 * foot.y - p.y))
    else if l.slopeForm.None? || l.slopeForm.value.slope == 0.0 then
      None
    else
      match Intersect(CreateByPointAndSlope(p, -1.0 / l.slopeForm.value.slope), l)
      case None => None
      case Some(foot) => Some(Point2D(2.0 * foot.x - p.x, 2.0 * foot.y - p.y))
  }

  // ---------------------------------------------------------------------
  // Polygons
  // ---------------------------------------------------------------------

  /** The loop of the obsolete `IsPointOnEdge`, with the obsolete point
      test. */
  function OnAnySide(sides: seq<Line2D>, p: Point2D): (r: bool)
    requires forall i :: 0 <= i < |sides| ==> IsLineHavingPoints(sides[i])
    ensures r == OnSomeSide(sides, p)
  {
    if |sides| == 0 then false
    else if IsPointOnLine(sides[0], p) == Success(true) then true
    else OnAnySide(sides[1..], p)
  }

  /** `IsPointOnEdge` of the obsolete class. */
  function IsPointOnEdge(poly: Polygon, p: Point2D): (r: bool)
    ensures r == PolygonUtilities.IsPointOnEdge(poly, p)
  {
    OnAnySide(Sides(poly), p)
  }

  /** `IsPointInPolygon` of the obsolete class: the same crossing count, and
      the obsolete edge test. */
  function IsPointInPolygon(poly: Polygon, p: Point2D): (r: bool)
    ensures r == PolygonUtilities.IsPointInPolygon(poly, p)
  {
    CountCrossings(Sides(poly), p) % 2 != 0 || IsPointOnEdge(poly, p)
  }

  /** `ArePointsInPolygon` of the obsolete class. */
  function ArePointsInPolygon(poly: Polygon, points: seq<Point2D>): (r: bool)
    ensures r == PolygonUtilities.ArePointsInPolygon(poly, points)
  {
    AllFrom(p => IsPointInPolygon(poly, p), points, true)
  }

  /** `IsAnyPointInPolygon` of the obsolete class. */
  function IsAnyPointInPolygon(poly: Polygon, points: seq<Point2D>): (r: bool)
    ensures r == PolygonUtilities.IsAnyPointInPolygon(poly, points)
  {
    AnyFrom(p => IsPointInPolygon(poly, p), points, false)
  }

  /** `AreAllPointsOnEdge` of the obsolete class. */
  function AreAllPointsOnEdge(poly: Polygon, points: seq<Point2D>): (r: bool)
    ensures r == PolygonUtilities.AreAllPointsOnEdge(poly, points)
  {
    AllFrom(p => IsPointOnEdge(poly, p), points, true)
  }

  /** `IsAnyPointOnEdge` of the obsolete class, with the same flag that
      starts true. */
  function IsAnyPointOnEdge(poly: Polygon, points: seq<Point2D>): (r: bool)
    ensures r && r == PolygonUtilities.IsAnyPointOnEdge(poly, points)
  {
    AnyFrom(p => IsPointOnEdge(poly, p), points, true)
  }

  /** `IsPolygonHavingHorizontalSides` of the obsolete class. */
  function IsPolygonHavingHorizontalSides(poly: Polygon): (r: bool)
    ensures r == PolygonUtilities.IsPolygonHavingHorizontalSides(poly)
  {
    var sides := Sides(poly);
    var r := AnyFrom(side => IsLineHorizontal(side) == Success(true), sides, false);
    assert r <==> exists i :: 0 <= i < |sides| && Horizontal(sides[i]);
    r
  }

  /** `IsPolygonHavingVerticalSides` of the obsolete class. */
  function IsPolygonHavingVerticalSides(poly: Polygon): (r: bool)
    ensures r == PolygonUtilities.IsPolygonHavingVerticalSides(poly)
  {
    var sides := Sides(poly);
    var r := AnyFrom(side => IsLineVertical(side) == Success(true), sides, false);
    assert r <==> exists i :: 0 <= i < |sides| && Vertical(sides[i]);
    r
  }
}
