/** The circle predicates and the case structure of the circle operations
    (Math2DPrimitives/Utilities/CircleUtilities.cs).

    A circle is its radius and centre (Circle.cs); `Circle.Equals` compares
    both exactly, which is datatype equality here. Distances are taken with
    a square root the caller supplies, as in `Primitives.GetDistance`; the
    distance from a line may be +Infinity, which is greater than every
    radius, or NaN, with which every comparison is false. The intersection
    points and the centres of the two-circle case are computed with
    normalised vectors and square roots, so only the number of results is
    modelled. */
module CircleUtilities {
  import opened Wrappers
  import opened General
  import opened Primitives
  import opened Lines
  import opened LineUtilities

  datatype Circle = Circle(radius: real, center: Point2D)

  /** The distance between the centres of two circles. */
  function CentreDistance(c: Circle, other: Circle, sqrt: real -> real): real {
    Primitives.GetDistance(c.center, other.center, sqrt)
  }

  // ---------------------------------------------------------------------
  // Two circles
  // ---------------------------------------------------------------------

  /** `IsTouchingExternally`: the centre distance is within the tolerance of
      the sum of the radii. */
  function IsTouchingExternally(c: Circle, other: Circle, sqrt: real -> real): (r: bool)
    ensures c == other ==> !r
  {
    if c == other then false
    else Abs(CentreDistance(c, other, sqrt) - (c.radius + other.radius)) <= Fudge
  }

  /** `IsTouchingInternally`: the centre distance is within the tolerance of
      the receiver's radius minus the other radius, without an absolute
      value. */
  function IsTouchingInternally(c: Circle, other: Circle, sqrt: real -> real): (r: bool)
    ensures c == other ==> !r
  {
    if c == other then false
    else Abs(CentreDistance(c, other, sqrt) - (c.radius - other.radius)) <= Fudge
  }

  /** `IsDistant`: the centres are farther apart than the sum of the radii. */
  function IsDistant(c: Circle, other: Circle, sqrt: real -> real): (r: bool)
    ensures c == other ==> !r
  {
    if c == other then false
    else CentreDistance(c, other, sqrt) > c.radius + other.radius
  }

  /** `IsInscribedInEachOther`: the centres are no farther apart than the
      difference of the radii. */
  function IsInscribedInEachOther(c: Circle, other: Circle, sqrt: real -> real): (r: bool)
    ensures c == other ==> !r
  {
    if c == other then false
    else CentreDistance(c, other, sqrt) <= Abs(other.radius - c.radius)
  }

  /** `IsIntersecting`: neither inscribed nor distant. */
  function IsIntersecting(c: Circle, other: Circle, sqrt: real -> real): (r: bool)
    ensures c == other ==> !r
  {
    if c == other then false
    else !IsInscribedInEachOther(c, other, sqrt) && !IsDistant(c, other, sqrt)
  }

  /** Two distinct circles with radii that are not negative are in exactly
      one of the three relations distant, inscribed and intersecting. */
  lemma CircleRelationsPartition(c: Circle, other: Circle, sqrt: real -> real)
    requires c != other && 0.0 <= c.radius && 0.0 <= other.radius
    ensures !(IsDistant(c, other, sqrt) && IsInscribedInEachOther(c, other, sqrt))
    ensures IsIntersecting(c, other, sqrt) <==> !IsDistant(c, other, sqrt) && !IsInscribedInEachOther(c, other, sqrt)
    ensures IsDistant(c, other, sqrt) || IsInscribedInEachOther(c, other, sqrt) || IsIntersecting(c, other, sqrt)
  {
    assert Abs(other.radius - c.radius) <= c.radius + other.radius;
  }

  /** Distance, inscription, external tangency and intersection do not
      depend on the order of the circles. */
  lemma CircleRelationsSymmetric(c: Circle, other: Circle, sqrt: real -> real)
    ensures IsDistant(c, other, sqrt) == IsDistant(other, c, sqrt)
    ensures IsInscribedInEachOther(c, other, sqrt) == IsInscribedInEachOther(other, c, sqrt)
    ensures IsTouchingExternally(c, other, sqrt) == IsTouchingExternally(other, c, sqrt)
    ensures IsIntersecting(c, other, sqrt) == IsIntersecting(other, c, sqrt)
  {
    DistanceSymmetric(c.center, other.center, sqrt);
  }

  /** Two circles where the smaller touches the bigger from inside, at the
      point of the bigger circle straight to the right of its centre. */
  predicate InsideRightTangent(big: Circle, small: Circle) {
    Fudge < small.radius && small.radius + Fudge < big.radius
      && small.center == Point2D(big.center.x + (big.radius - small.radius), big.center.y)
  }

  /** Their centres are the difference of the radii apart. */
  lemma InsideRightTangentDistance(big: Circle, small: Circle, sqrt: real -> real)
    requires IsSqrt(sqrt) && InsideRightTangent(big, small)
    ensures big != small
    ensures CentreDistance(big, small, sqrt) == big.radius - small.radius
    ensures CentreDistance(small, big, sqrt) == big.radius - small.radius
  {
    DistanceAlongAxis(big.center, small.center, sqrt);
    DistanceSymmetric(big.center, small.center, sqrt);
  }

  /** Internal tangency does depend on the order: the bigger circle sees the
      smaller one touching it from inside, but not the other way round,
      because the radii are subtracted in the receiver's order. */
  lemma TouchingInternallyNotSymmetric(big: Circle, small: Circle, sqrt: real -> real)
    requires IsSqrt(sqrt) && InsideRightTangent(big, small)
    ensures IsTouchingInternally(big, small, sqrt)
    ensures !IsTouchingInternally(small, big, sqrt)
  {
    InsideRightTangentDistance(big, small, sqrt);
  }

  /** The branches of `Intersect(circle)`: none when distant, one when
      touching externally, one when touching internally, two otherwise. */
  datatype CircleIntersection = Disjoint | ExternalTangent | InternalTangent | Crossing

  /** The number of points each branch reports. */
  function PointCount(k: CircleIntersection): (n: nat)
    ensures n == 0 <==> k == Disjoint
    ensures n == 1 <==> k == ExternalTangent || k == InternalTangent
  {
    match k
    case Disjoint => 0
    case ExternalTangent => 1
    case InternalTangent => 1
    case Crossing => 2
  }

  /** `Intersect(circle)` as written: the internal-tangency guard asks the
      second circle about itself, so it never holds and that branch is dead. */
  function IntersectCircles(c: Circle, other: Circle, sqrt: real -> real): (k: CircleIntersection)
    ensures k != InternalTangent
    ensures k == Disjoint <==> IsDistant(c, other, sqrt)
    ensures k == ExternalTangent <==> !IsDistant(c, other, sqrt) && IsTouchingExternally(c, other, sqrt)
  {
    if IsDistant(c, other, sqrt) then Disjoint
    else if IsTouchingExternally(c, other, sqrt) then ExternalTangent
    else if IsTouchingInternally(other, other, sqrt) then InternalTangent
    else Crossing
  }

  /** A circle intersected with itself reports two points. */
  lemma SameCircleCrosses(c: Circle, sqrt: real -> real)
    ensures IntersectCircles(c, c, sqrt) == Crossing
    ensures PointCount(IntersectCircles(c, c, sqrt)) == 2
  {
  }

  /** Circles that touch from inside meet at one point, yet the
      intersection as written reports two, in either order. */
  lemma InternalTangencyMissed(big: Circle, small: Circle, sqrt: real -> real)
    requires IsSqrt(sqrt) && InsideRightTangent(big, small)
    ensures IntersectCircles(big, small, sqrt) == Crossing
    ensures IntersectCircles(small, big, sqrt) == Crossing
  {
    InsideRightTangentDistance(big, small, sqrt);
  }

  /** `Intersect(circle)` with the internal-tangency guard asking about the
      two circles, in whichever order makes the bigger one the receiver, as
      the choice of bigger and smaller circle in that branch expects. */
  function IntersectCirclesCorrected(c: Circle, other: Circle, sqrt: real -> real): (k: CircleIntersection)
    ensures k == Disjoint <==> IsDistant(c, other, sqrt)
    ensures k == ExternalTangent <==> !IsDistant(c, other, sqrt) && IsTouchingExternally(c, other, sqrt)
    ensures k == InternalTangent <==>
              !IsDistant(c, other, sqrt) && !IsTouchingExternally(c, other, sqrt)
              && (IsTouchingInternally(c, other, sqrt) || IsTouchingInternally(other, c, sqrt))
  {
    if IsDistant(c, other, sqrt) then Disjoint
    else if IsTouchingExternally(c, other, sqrt) then ExternalTangent
    else if IsTouchingInternally(c, other, sqrt) || IsTouchingInternally(other, c, sqrt) then InternalTangent
    else Crossing
  }

  /** The corrected intersection does not depend on the order of the
      circles. */
  lemma IntersectCirclesCorrectedSymmetric(c: Circle, other: Circle, sqrt: real -> real)
    ensures IntersectCirclesCorrected(c, other, sqrt) == IntersectCirclesCorrected(other, c, sqrt)
  {
    CircleRelationsSymmetric(c, other, sqrt);
  }

  /** It finds the single point where circles touch from inside. */
  lemma InternalTangencyFound(big: Circle, small: Circle, sqrt: real -> real)
    requires IsSqrt(sqrt) && InsideRightTangent(big, small)
    ensures IntersectCirclesCorrected(big, small, sqrt) == InternalTangent
    ensures IntersectCirclesCorrected(small, big, sqrt) == InternalTangent
    ensures PointCount(IntersectCirclesCorrected(big, small, sqrt)) == 1
  {
    InsideRightTangentDistance(big, small, sqrt);
  }

  // ---------------------------------------------------------------------
  // A circle and a line
  // ---------------------------------------------------------------------

  /** `IsDistant(line)`: the centre is farther from the line than the
      radius. An infinite distance is farther than any radius. */
  function IsDistantFromLine(c: Circle, l: Line2D, sqrt: real -> real): (r: bool)
    ensures r <==> Lines.GetDistance(l, c.center, sqrt).PositiveInfinity?
                   || (Lines.GetDistance(l, c.center, sqrt).Finite? && Lines.GetDistance(l, c.center, sqrt).value > c.radius)
  {
    Exceeds(Lines.GetDistance(l, c.center, sqrt), c.radius)
  }

  /** `IsIntersecting(line)`: the centre is nearer to the line than the
      radius. */
  function IsIntersectingLine(c: Circle, l: Line2D, sqrt: real -> real): (r: bool)
    ensures r ==> Lines.GetDistance(l, c.center, sqrt).Finite?
  {
    FallsShort(Lines.GetDistance(l, c.center, sqrt), c.radius)
  }

  /** `IsTangent`: the centre is within the tolerance of the radius from the
      line. */
  function IsTangent(c: Circle, l: Line2D, sqrt: real -> real): (r: bool)
    ensures r ==> Lines.GetDistance(l, c.center, sqrt).Finite?
  {
    NearTo(Lines.GetDistance(l, c.center, sqrt), c.radius)
  }

  /** A line is never both distant from and intersecting a circle; at
      exactly the radius it is tangent. Distant and tangent overlap within
      the tolerance, and so do intersecting and tangent. An infinitely far
      line is distant and nothing else; a NaN distance is none of the
      three. */
  lemma LineRelations(c: Circle, l: Line2D, sqrt: real -> real)
    ensures !(IsDistantFromLine(c, l, sqrt) && IsIntersectingLine(c, l, sqrt))
    ensures Lines.GetDistance(l, c.center, sqrt) == Finite(c.radius) ==>
              IsTangent(c, l, sqrt) && !IsDistantFromLine(c, l, sqrt) && !IsIntersectingLine(c, l, sqrt)
    ensures Lines.GetDistance(l, c.center, sqrt).Finite? ==>
              IsDistantFromLine(c, l, sqrt) || IsIntersectingLine(c, l, sqrt) || Lines.GetDistance(l, c.center, sqrt) == Finite(c.radius)
    ensures Lines.GetDistance(l, c.center, sqrt).PositiveInfinity? ==>
              IsDistantFromLine(c, l, sqrt) && !IsIntersectingLine(c, l, sqrt) && !IsTangent(c, l, sqrt)
    ensures Lines.GetDistance(l, c.center, sqrt).NotANumber? ==>
              !IsDistantFromLine(c, l, sqrt) && !IsIntersectingLine(c, l, sqrt) && !IsTangent(c, l, sqrt)
  {
  }

  /** The branches of `Intersect(line)`: none when distant, one when
      tangent, two otherwise; so none for an infinitely far line and two
      when the distance is NaN. */
  function IntersectLine(c: Circle, l: Line2D, sqrt: real -> real): (n: nat)
    ensures n <= 2
    ensures n == 0 <==> IsDistantFromLine(c, l, sqrt)
    ensures n == 1 <==> !IsDistantFromLine(c, l, sqrt) && IsTangent(c, l, sqrt)
    ensures Lines.GetDistance(l, c.center, sqrt).PositiveInfinity? ==> n == 0
    ensures Lines.GetDistance(l, c.center, sqrt).NotANumber? ==> n == 2
  {
    if IsDistantFromLine(c, l, sqrt) then 0
    else if IsTangent(c, l, sqrt) then 1
    else 2
  }

  /** A line built from the standard form (0, 0, k) with k not zero is
      distant from every circle, and `Intersect(line)` finds no point. */
  lemma NoCoefficientsLineMissesCircle(c: Circle, k: real, sqrt: real -> real)
    requires IsSqrt(sqrt)
    requires k != 0.0
    ensures IsDistantFromLine(c, CreateByStandardForm(0.0, 0.0, k), sqrt)
    ensures !IsIntersectingLine(c, CreateByStandardForm(0.0, 0.0, k), sqrt)
    ensures !IsTangent(c, CreateByStandardForm(0.0, 0.0, k), sqrt)
    ensures IntersectLine(c, CreateByStandardForm(0.0, 0.0, k), sqrt) == 0
  {
    NoCoefficientsInfinitelyFar(k, c.center, sqrt);
  }

  /** A line through the centre of a circle whose radius exceeds the
      tolerance meets it twice. */
  lemma LineThroughCentre(c: Circle, l: Line2D, sqrt: real -> real)
    requires IsSqrt(sqrt)
    requires l.generalForm.Some? && (l.generalForm.value.xConstant != 0.0 || l.generalForm.value.yConstant != 0.0)
    requires OnGeneralForm(l.generalForm.value, c.center) && c.radius > Fudge
    ensures IsIntersectingLine(c, l, sqrt)
    ensures IntersectLine(c, l, sqrt) == 2
  {
    DistanceZeroIffOnLine(l, c.center, sqrt);
  }

  // ---------------------------------------------------------------------
  // A circle and a point
  // ---------------------------------------------------------------------

  /** `IsPointOn`: the point is within the tolerance of the radius from the
      centre. */
  predicate IsPointOn(c: Circle, p: Point2D, sqrt: real -> real) {
    Abs(Primitives.GetDistance(c.center, p, sqrt) - c.radius) <= Fudge
  }

  /** `IsPointIn`: strictly nearer to the centre than the radius. */
  predicate IsPointIn(c: Circle, p: Point2D, sqrt: real -> real) {
    Primitives.GetDistance(c.center, p, sqrt) < c.radius
  }

  /** `IsPointOut`: strictly farther from the centre than the radius. */
  predicate IsPointOut(c: Circle, p: Point2D, sqrt: real -> real) {
    Primitives.GetDistance(c.center, p, sqrt) > c.radius
  }

  /** A point is never both in and out; a point at exactly the radius is on
      the circle and neither in nor out; every point is in, out or at exactly
      the radius. */
  lemma PointRelations(c: Circle, p: Point2D, sqrt: real -> real)
    ensures !(IsPointIn(c, p, sqrt) && IsPointOut(c, p, sqrt))
    ensures Primitives.GetDistance(c.center, p, sqrt) == c.radius ==>
              IsPointOn(c, p, sqrt) && !IsPointIn(c, p, sqrt) && !IsPointOut(c, p, sqrt)
    ensures IsPointIn(c, p, sqrt) || IsPointOut(c, p, sqrt) || Primitives.GetDistance(c.center, p, sqrt) == c.radius
  {
  }

  /** The point one radius to the right of the centre is on the circle, and
      the centre is inside every circle of positive radius. */
  lemma RightmostPointOn(c: Circle, sqrt: real -> real)
    requires IsSqrt(sqrt) && 0.0 <= c.radius
    ensures IsPointOn(c, Point2D(c.center.x + c.radius, c.center.y), sqrt)
    ensures IsPointIn(c, c.center, sqrt) <==> 0.0 < c.radius
  {
    DistanceAlongAxis(c.center, Point2D(c.center.x + c.radius, c.center.y), sqrt);
    DistanceNonNegative(c.center, c.center, sqrt);
  }

  // ---------------------------------------------------------------------
  // Creation
  // ---------------------------------------------------------------------

  /** The outcomes of `CreateCirclesFrom2Pts`: no circle, one circle (the
      pair holds it twice), or two circles whose centres are not modelled. */
  datatype CirclesThroughPoints = NoCircle | OneCircle(circle: Circle) | TwoCircles

  /** `CreateCirclesFrom2Pts`: no circle when the diameter is shorter than
      the distance between the points; one, about the midpoint of the points,
      when the diameter is within the tolerance of that distance; two
      otherwise. */
  function CreateCirclesFrom2Pts(p1: Point2D, p2: Point2D, radius: real, sqrt: real -> real): (r: CirclesThroughPoints)
    ensures r.NoCircle? <==> 2.0 * radius < Primitives.GetDistance(p1, p2, sqrt)
    ensures r.OneCircle? <==> !(2.0 * radius < Primitives.GetDistance(p1, p2, sqrt))
                              && Near(2.0 * radius, Primitives.GetDistance(p1, p2, sqrt))
    ensures r.TwoCircles? <==> 2.0 * radius - Primitives.GetDistance(p1, p2, sqrt) > Fudge
    ensures r.OneCircle? ==> r.circle.radius == radius
    ensures r.OneCircle? ==> SquaredDistance(p1, r.circle.center) == SquaredDistance(r.circle.center, p2)
  {
    var distance := Primitives.GetDistance(p1, p2, sqrt);
    if 2.0 * radius < distance then NoCircle
    else if Abs(2.0 * radius - distance) <= Fudge then OneCircle(Circle(radius, MidPoint(CreateByPoints(p1, p2))))
    else TwoCircles
  }

  /** With a genuine square root, a negative radius gives no circle, and
      through a single point there is one circle exactly when the radius is
      within half the tolerance of zero, centred on that point. */
  lemma CirclesThroughOnePoint(p: Point2D, radius: real, sqrt: real -> real)
    requires IsSqrt(sqrt)
    ensures radius < 0.0 ==> CreateCirclesFrom2Pts(p, p, radius, sqrt).NoCircle?
    ensures 0.0 <= radius ==>
              (CreateCirclesFrom2Pts(p, p, radius, sqrt).OneCircle? <==> 2.0 * radius <= Fudge)
    ensures CreateCirclesFrom2Pts(p, p, radius, sqrt).OneCircle? ==>
              CreateCirclesFrom2Pts(p, p, radius, sqrt).circle == Circle(radius, p)
  {
    DistanceNonNegative(p, p, sqrt);
  }

  /** `OffsetPoint`: nothing for a point that is not on the circle, the point
      itself for a zero arc, and otherwise the point turned about the centre
      by the angle arcLength / radius. The rotation is trigonometric and is
      supplied by the caller; with a zero radius the angle is not finite and
      neither is the result. */
  function OffsetPoint(c: Circle, p: Point2D, arcLength: real, sqrt: real -> real,
                       rotate: (Vector2D, real) -> Vector2D): (r: Option<Point2D>)
    ensures !IsPointOn(c, p, sqrt) ==> r.None?
    ensures IsPointOn(c, p, sqrt) && arcLength == 0.0 ==> r == Some(p)
    ensures r.None? <==> !IsPointOn(c, p, sqrt) || (arcLength != 0.0 && c.radius == 0.0)
  {
    if !IsPointOn(c, p, sqrt) then None
    else if arcLength == 0.0 then Some(p)
    else if c.radius == 0.0 then None
    else
      var turned := rotate(VectorBetween(c.center, p), arcLength / c.radius);
      Some(Point2D(c.center.x + turned.x, c.center.y + turned.y))
  }

  /** A rotation that keeps the length of every vector keeps the offset
      point at the same distance from the centre, so on the circle. */
  lemma OffsetPointStaysOnCircle(c: Circle, p: Point2D, arcLength: real, sqrt: real -> real,
                                 rotate: (Vector2D, real) -> Vector2D)
    requires forall v, angle :: Dot(rotate(v, angle), rotate(v, angle)) == Dot(v, v)
    requires OffsetPoint(c, p, arcLength, sqrt, rotate).Some?
    ensures SquaredDistance(c.center, OffsetPoint(c, p, arcLength, sqrt, rotate).value) == SquaredDistance(c.center, p)
    ensures IsPointOn(c, OffsetPoint(c, p, arcLength, sqrt, rotate).value, sqrt)
  {
    var q := OffsetPoint(c, p, arcLength, sqrt, rotate).value;
    if arcLength != 0.0 {
      var v := VectorBetween(c.center, p);
      var turned := rotate(v, arcLength / c.radius);
      assert Dot(turned, turned) == Dot(v, v);
      assert q == Point2D(c.center.x + turned.x, c.center.y + turned.y);
      SquareOfNegation(turned.x);
      SquareOfNegation(turned.y);
      SquareOfNegation(v.x);
      SquareOfNegation(v.y);
      assert SquaredDistance(c.center, q) == Dot(turned, turned);
      assert SquaredDistance(c.center, p) == Dot(v, v);
    }
  }
}
