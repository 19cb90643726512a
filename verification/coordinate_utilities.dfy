/** Point-on-line tests, midpoint and mirror image
    (Math2DPrimitives/Utilities/CoordinateUtilities.cs). The tests and the
    mirror need a line with endpoints, as their documentation says; the
    orientation tests they call would otherwise throw. */
module CoordinateUtilities {
  import opened Wrappers
  import opened General
  import opened Primitives
  import opened Lines
  import opened LineClassification

  /** Within the tolerance of the slope form; an undefined slope form makes
      the difference NaN, which is never within it. */
  predicate NearSlopeForm(l: Line2D, p: Point2D) {
    l.slopeForm.Some? && Near(p.y, l.slopeForm.value.slope * p.x + l.slopeForm.value.yIntercept)
  }

  /** `LiesOnBoundedLine`: an endpoint, or within the tolerance of the line
      and between the endpoints. A horizontal line only checks X, a vertical
      one only Y, an inclined one both. */
  function LiesOnBoundedLine(p: Point2D, l: Line2D): (r: bool)
    requires IsLineHavingPoints(l)
    ensures p == StartPoint(l) || p == EndPoint(l) ==> r
  {
    if p == StartPoint(l) || p == EndPoint(l) then true
    else if IsHorizontal(l).value then
      Abs(StartPoint(l).y - p.y) <= Fudge && AreNumbersInRange(StartPoint(l).x, EndPoint(l).x, [p.x])
    else if IsVertical(l).value then
      Abs(StartPoint(l).x - p.x) <= Fudge && AreNumbersInRange(StartPoint(l).y, EndPoint(l).y, [p.y])
    else if IsInclined(l).value then
      NearSlopeForm(l, p)
        && AreNumbersInRange(StartPoint(l).x, EndPoint(l).x, [p.x])
        && AreNumbersInRange(StartPoint(l).y, EndPoint(l).y, [p.y])
    else
      false
  }

  /** `LiesOnUnBoundedLine`: the same branches without the range checks. */
  function LiesOnUnBoundedLine(p: Point2D, l: Line2D): (r: bool)
    requires IsLineHavingPoints(l)
    ensures p == StartPoint(l) || p == EndPoint(l) ==> r
  {
    if p == StartPoint(l) || p == EndPoint(l) then true
    else if IsHorizontal(l).value then
      Abs(StartPoint(l).y - p.y) <= Fudge
    else if IsVertical(l).value then
      Abs(StartPoint(l).x - p.x) <= Fudge
    else if IsInclined(l).value then
      NearSlopeForm(l, p)
    else
      false
  }

  /** The bounded test only adds range checks to the unbounded one. */
  lemma BoundedImpliesUnbounded(p: Point2D, l: Line2D)
    requires IsLineHavingPoints(l)
    ensures LiesOnBoundedLine(p, l) ==> LiesOnUnBoundedLine(p, l)
  {
  }

  /** On a horizontal segment a point that is not an endpoint is on it
      exactly when it is within the tolerance in Y and between the endpoints
      in X. */
  lemma BoundedOnHorizontal(p: Point2D, l: Line2D)
    requires IsLineHavingPoints(l) && Horizontal(l)
    requires p != StartPoint(l) && p != EndPoint(l)
    ensures LiesOnBoundedLine(p, l) <==>
              Near(p.y, StartPoint(l).y) && Min(StartPoint(l).x, EndPoint(l).x) <= p.x <= Max(StartPoint(l).x, EndPoint(l).x)
  {
    InRangeSingle(StartPoint(l).x, EndPoint(l).x, p.x);
  }

  /** On a vertical segment that is not horizontal: within the tolerance in X
      and between the endpoints in Y. */
  lemma BoundedOnVertical(p: Point2D, l: Line2D)
    requires IsLineHavingPoints(l) && !Horizontal(l) && Vertical(l)
    requires p != StartPoint(l) && p != EndPoint(l)
    ensures LiesOnBoundedLine(p, l) <==>
              Near(p.x, StartPoint(l).x) && Min(StartPoint(l).y, EndPoint(l).y) <= p.y <= Max(StartPoint(l).y, EndPoint(l).y)
  {
    InRangeSingle(StartPoint(l).y, EndPoint(l).y, p.y);
  }

  /** On an inclined segment: within the tolerance of the slope form and
      inside the bounding box of the endpoints. */
  lemma BoundedOnInclined(p: Point2D, l: Line2D)
    requires IsLineHavingPoints(l) && !Horizontal(l) && !Vertical(l)
    requires p != StartPoint(l) && p != EndPoint(l)
    ensures LiesOnBoundedLine(p, l) <==>
              NearSlopeForm(l, p)
              && Min(StartPoint(l).x, EndPoint(l).x) <= p.x <= Max(StartPoint(l).x, EndPoint(l).x)
              && Min(StartPoint(l).y, EndPoint(l).y) <= p.y <= Max(StartPoint(l).y, EndPoint(l).y)
  {
    InRangeSingle(StartPoint(l).x, EndPoint(l).x, p.x);
    InRangeSingle(StartPoint(l).y, EndPoint(l).y, p.y);
  }

  /** The point a fraction `t` of the way from `s` to `e`. */
  function PointAlong(s: Point2D, e: Point2D, t: real): Point2D {
    Point2D(s.x + t * (e.x - s.x), s.y + t * (e.y - s.y))
  }

  /** Every point of the exact segment between the endpoints passes the
      bounded test, whatever the segment's orientation. */
  lemma BoundedContainsSegment(l: Line2D, t: real)
    requires IsSegment(l)
    requires 0.0 <= t <= 1.0
    ensures LiesOnBoundedLine(PointAlong(StartPoint(l), EndPoint(l), t), l)
  {
    if Horizontal(l) || Vertical(l) {
      ContainsAligned(l, t);
    } else {
      assert StartPoint(l).x != EndPoint(l).x;
      assert l.slopeForm.Some?;
      ContainsInclined(l, t);
    }
  }

  lemma ContainsAligned(l: Line2D, t: real)
    requires IsLineHavingPoints(l) && (Horizontal(l) || Vertical(l))
    requires 0.0 <= t <= 1.0
    ensures LiesOnBoundedLine(PointAlong(StartPoint(l), EndPoint(l), t), l)
  {
    if Horizontal(l) {
      ContainsHorizontal(l, t);
    } else {
      ContainsVertical(l, t);
    }
  }

  lemma ContainsHorizontal(l: Line2D, t: real)
    requires IsLineHavingPoints(l) && Horizontal(l)
    requires 0.0 <= t <= 1.0
    ensures LiesOnBoundedLine(PointAlong(StartPoint(l), EndPoint(l), t), l)
  {
    var s, e := StartPoint(l), EndPoint(l);
    assert Near(s.y, e.y);
    BetweenEnds(s.x, e.x, t);
    var q := PointAlong(s, e, t);
    WithinFraction(s.y, e.y, t, q.y);
    HorizontalSufficient(q, l);
  }

  lemma ContainsVertical(l: Line2D, t: real)
    requires IsLineHavingPoints(l) && !Horizontal(l) && Vertical(l)
    requires 0.0 <= t <= 1.0
    ensures LiesOnBoundedLine(PointAlong(StartPoint(l), EndPoint(l), t), l)
  {
    var s, e := StartPoint(l), EndPoint(l);
    assert Near(s.x, e.x);
    BetweenEnds(s.y, e.y, t);
    var q := PointAlong(s, e, t);
    WithinFraction(s.x, e.x, t, q.x);
    VerticalSufficient(q, l);
  }

  lemma ContainsInclined(l: Line2D, t: real)
    requires IsLineHavingPoints(l) && !Horizontal(l) && !Vertical(l)
    requires l.slopeForm.Some? && OnSlopeForm(l.slopeForm.value, StartPoint(l)) && OnSlopeForm(l.slopeForm.value, EndPoint(l))
    requires 0.0 <= t <= 1.0
    ensures LiesOnBoundedLine(PointAlong(StartPoint(l), EndPoint(l), t), l)
  {
    BetweenEnds(StartPoint(l).x, EndPoint(l).x, t);
    BetweenEnds(StartPoint(l).y, EndPoint(l).y, t);
    FractionOnSlopeForm(l.slopeForm.value, StartPoint(l), EndPoint(l), t);
    InclinedSufficient(PointAlong(StartPoint(l), EndPoint(l), t), l);
  }

  lemma HorizontalSufficient(p: Point2D, l: Line2D)
    requires IsLineHavingPoints(l) && Horizontal(l)
    requires Abs(StartPoint(l).y - p.y) <= Fudge
    requires Min(StartPoint(l).x, EndPoint(l).x) <= p.x <= Max(StartPoint(l).x, EndPoint(l).x)
    ensures LiesOnBoundedLine(p, l)
  {
    InRangeSingle(StartPoint(l).x, EndPoint(l).x, p.x);
  }

  lemma VerticalSufficient(p: Point2D, l: Line2D)
    requires IsLineHavingPoints(l) && !Horizontal(l) && Vertical(l)
    requires Abs(StartPoint(l).x - p.x) <= Fudge
    requires Min(StartPoint(l).y, EndPoint(l).y) <= p.y <= Max(StartPoint(l).y, EndPoint(l).y)
    ensures LiesOnBoundedLine(p, l)
  {
    InRangeSingle(StartPoint(l).y, EndPoint(l).y, p.y);
  }

  lemma InclinedSufficient(p: Point2D, l: Line2D)
    requires IsLineHavingPoints(l) && !Horizontal(l) && !Vertical(l)
    requires l.slopeForm.Some? && OnSlopeForm(l.slopeForm.value, p)
    requires Min(StartPoint(l).x, EndPoint(l).x) <= p.x <= Max(StartPoint(l).x, EndPoint(l).x)
    requires Min(StartPoint(l).y, EndPoint(l).y) <= p.y <= Max(StartPoint(l).y, EndPoint(l).y)
    ensures LiesOnBoundedLine(p, l)
  {
    assert p.y - (l.slopeForm.value.slope * p.x + l.slopeForm.value.yIntercept) == 0.0;
    assert NearSlopeForm(l, p);
    assert IsInclined(l) == Success(true);
    InRangeSingle(StartPoint(l).x, EndPoint(l).x, p.x);
    InRangeSingle(StartPoint(l).y, EndPoint(l).y, p.y);
  }

  lemma BetweenEnds(a: real, b: real, t: real)
    requires 0.0 <= t <= 1.0
    ensures Min(a, b) <= a + t * (b - a) <= Max(a, b)
  {
    if a <= b {
      MulNonNegative(t, b - a);
      MulNonNegative(1.0 - t, b - a);
    } else {
      MulNonNegative(t, a - b);
      MulNonNegative(1.0 - t, a - b);
    }
  }

  lemma WithinFraction(a: real, b: real, t: real, c: real)
    requires 0.0 <= t <= 1.0
    requires Near(a, b)
    requires c == a + t * (b - a)
    ensures Abs(a - c) <= Fudge
  {
    assert a - c == t * (a - b);
    if a <= b {
      MulNonNegative(t, b - a);
      MulNonNegative(1.0 - t, b - a);
      assert t * (a - b) <= 0.0;
      assert b - a <= Fudge;
      assert -(t * (a - b)) <= b - a;
    } else {
      MulNonNegative(t, a - b);
      MulNonNegative(1.0 - t, a - b);
      assert 0.0 <= t * (a - b);
      assert a - b <= Fudge;
      assert t * (a - b) <= a - b;
    }
  }

  lemma MulNonNegative(a: real, b: real)
    requires 0.0 <= a && 0.0 <= b
    ensures 0.0 <= a * b
  {
  }

  lemma FractionOnSlopeForm(f: SlopeForm, s: Point2D, e: Point2D, t: real)
    requires OnSlopeForm(f, s) && OnSlopeForm(f, e)
    ensures OnSlopeForm(f, PointAlong(s, e, t))
  {
    assert e.y - s.y == f.slope * (e.x - s.x);
    assert t * (e.y - s.y) == f.slope * (t * (e.x - s.x));
  }

  // ---------------------------------------------------------------------
  // Midpoint
  // ---------------------------------------------------------------------

  /** `GetMidPoint`: the coordinate-wise average. */
  function GetMidPoint(start: Point2D, end: Point2D): (r: Point2D)
    ensures r == PointAlong(start, end, 0.5)
  {
    Point2D((start.x + end.x) / 2.0, (start.y + end.y) / 2.0)
  }

  lemma MidPointSymmetric(p: Point2D, q: Point2D)
    ensures GetMidPoint(p, q) == GetMidPoint(q, p)
    ensures GetMidPoint(p, p) == p
  {
  }

  /** The midpoint is as far from one end as from the other. */
  lemma MidPointEquidistant(p: Point2D, q: Point2D)
    ensures SquaredDistance(p, GetMidPoint(p, q)) == SquaredDistance(GetMidPoint(p, q), q)
  {
    assert GetMidPoint(p, q).x - p.x == q.x - GetMidPoint(p, q).x;
    assert GetMidPoint(p, q).y - p.y == q.y - GetMidPoint(p, q).y;
  }

  /** The midpoint of a segment passes the bounded test. */
  lemma MidPointOnSegment(l: Line2D)
    requires IsSegment(l)
    ensures LiesOnBoundedLine(GetMidPoint(StartPoint(l), EndPoint(l)), l)
  {
    BoundedContainsSegment(l, 0.5);
  }

  // ---------------------------------------------------------------------
  // Mirror image
  // ---------------------------------------------------------------------

  /** `MirrorPoint`: across a horizontal line keep X and reflect Y in the
      start's Y; across a vertical one reflect X in the start's X; otherwise
      reflect through the foot of the perpendicular, where the line of slope
      `-1/m` through the point meets the line. A zero or undefined slope
      makes that slope non-finite: `None`. */
  function MirrorPoint(p: Point2D, l: Line2D): (r: Option<Point2D>)
    requires IsLineHavingPoints(l)
    ensures Horizontal(l) || Vertical(l) ==> r.Some?
  {
    if IsHorizontal(l).value then
      Some(Point2D(2.0 * p.x - p.x, 2.0 * StartPoint(l).y - p.y))
    else if IsVertical(l).value then
      Some(Point2D(2.0 * StartPoint(l).x - p.x, 2.0 * p.y - p.y))
    else if l.slopeForm.None? || l.slopeForm.value.slope == 0.0 then
      None
    else
      match Intersect(CreateByPointAndSlope(p, -1.0 / l.slopeForm.value.slope), l)
      case None => None
      case Some(foot) => Some(Point2D(2.0 * foot.x - p.x, 2.0 * foot.y - p.y))
  }

  /** Across a horizontal line the mirror keeps X, reflects Y in the start's
      Y, and undoes itself. */
  lemma MirrorHorizontal(p: Point2D, l: Line2D)
    requires IsLineHavingPoints(l) && Horizontal(l)
    ensures MirrorPoint(p, l) == Some(Point2D(p.x, 2.0 * StartPoint(l).y - p.y))
    ensures MirrorPoint(MirrorPoint(p, l).value, l) == Some(p)
  {
  }

  /** Across a vertical line that is not horizontal the mirror reflects X in
      the start's X, keeps Y, and undoes itself. */
  lemma MirrorVertical(p: Point2D, l: Line2D)
    requires IsLineHavingPoints(l) && !Horizontal(l) && Vertical(l)
    ensures MirrorPoint(p, l) == Some(Point2D(2.0 * StartPoint(l).x - p.x, p.y))
    ensures MirrorPoint(MirrorPoint(p, l).value, l) == Some(p)
  {
  }

  /** Slopes of perpendicular lines: `-1/m` is never `m`. */
  lemma NegativeReciprocalDiffers(m: real)
    requires m != 0.0
    ensures -1.0 / m != m
    ensures m * (-1.0 / m) == -1.0
  {
    assert m * (-1.0 / m) == -1.0;
    if m > 0.0 {
      MulNonNegative(m, m);
    } else {
      MulNonNegative(-m, -m);
      assert (-m) * (-m) == m * m;
    }
    assert 0.0 <= m * m;
  }

  /** The slope of a segment that is neither horizontal nor vertical is
      defined and not zero. */
  lemma InclinedSlope(l: Line2D)
    requires IsSegment(l) && !Horizontal(l) && !Vertical(l)
    ensures l.slopeForm.Some? && l.slopeForm.value.slope != 0.0
    ensures OnSlopeForm(l.slopeForm.value, StartPoint(l)) && OnSlopeForm(l.slopeForm.value, EndPoint(l))
  {
    assert StartPoint(l).x != EndPoint(l).x;
    assert StartPoint(l).y != EndPoint(l).y;
    assert l.slopeForm.value.slope * (EndPoint(l).x - StartPoint(l).x) == EndPoint(l).y - StartPoint(l).y;
  }

  /** The perpendicular through the point has no endpoints, so against a
      line that is not horizontal the shortcut of `Intersect` does not fire:
      the foot the mirror uses is the corrected intersection. */
  lemma MirrorIntersectAsWritten(p: Point2D, l: Line2D)
    requires IsLineHavingPoints(l) && !Horizontal(l)
    requires l.slopeForm.Some? && l.slopeForm.value.slope != 0.0
    ensures IntersectCorrected(CreateByPointAndSlope(p, -1.0 / l.slopeForm.value.slope), l)
         == Intersect(CreateByPointAndSlope(p, -1.0 / l.slopeForm.value.slope), l)
  {
  }

  /** The perpendicular through `p` to a line of slope `m`. */
  function Perpendicular(p: Point2D, m: real): SlopeForm
    requires m != 0.0
  {
    CreateByPointAndSlope(p, -1.0 / m).slopeForm.value
  }

  /** Across an inclined segment the mirror image is defined, the foot of the
      perpendicular is where the mirror is taken. */
  lemma MirrorInclinedFoot(p: Point2D, l: Line2D)
    requires IsSegment(l) && !Horizontal(l) && !Vertical(l)
    ensures l.slopeForm.Some? && l.slopeForm.value.slope != 0.0
    ensures MirrorPoint(p, l).Some?
    ensures MirrorPoint(p, l).value.x == 2.0 * SolveSlopeForms(Perpendicular(p, l.slopeForm.value.slope), l.slopeForm.value).value.x - p.x
    ensures MirrorPoint(p, l).value.y == 2.0 * SolveSlopeForms(Perpendicular(p, l.slopeForm.value.slope), l.slopeForm.value).value.y - p.y
  {
    InclinedSlope(l);
    NegativeReciprocalDiffers(l.slopeForm.value.slope);
  }

  /** Across an inclined segment the midpoint of a point and its image lies
      on the line, the displacement is perpendicular to the segment, a point
      on the line is its own image, and mirroring twice gives the point
      back. */
  lemma MirrorInclined(p: Point2D, l: Line2D)
    requires IsSegment(l) && !Horizontal(l) && !Vertical(l)
    ensures MirrorPoint(p, l).Some?
    ensures LiesOn(l, GetMidPoint(p, MirrorPoint(p, l).value))
    ensures Dot(VectorBetween(p, MirrorPoint(p, l).value), VectorBetween(StartPoint(l), EndPoint(l))) == 0.0
    ensures LiesOn(l, p) ==> MirrorPoint(p, l) == Some(p)
    ensures MirrorPoint(MirrorPoint(p, l).value, l) == Some(p)
  {
    MirrorMidpointOnLine(p, l);
    MirrorDisplacementPerpendicular(p, l);
    MirrorFixesLine(p, l);
    MirrorInvolution(p, l);
  }

  lemma MirrorMidpointOnLine(p: Point2D, l: Line2D)
    requires IsSegment(l) && !Horizontal(l) && !Vertical(l)
    ensures MirrorPoint(p, l).Some?
    ensures LiesOn(l, GetMidPoint(p, MirrorPoint(p, l).value))
  {
    MirrorInclinedFoot(p, l);
    var f := l.slopeForm.value;
    var foot := SolveSlopeForms(Perpendicular(p, f.slope), f).value;
    var q := MirrorPoint(p, l).value;
    assert GetMidPoint(p, q).x == foot.x && GetMidPoint(p, q).y == foot.y;
  }

  lemma MirrorDisplacementPerpendicular(p: Point2D, l: Line2D)
    requires IsSegment(l) && !Horizontal(l) && !Vertical(l)
    ensures MirrorPoint(p, l).Some?
    ensures Dot(VectorBetween(p, MirrorPoint(p, l).value), VectorBetween(StartPoint(l), EndPoint(l))) == 0.0
  {
    InclinedSlope(l);
    MirrorInclinedFoot(p, l);
    var f := l.slopeForm.value;
    var g := Perpendicular(p, f.slope);
    NegativeReciprocalDiffers(f.slope);
    var foot := SolveSlopeForms(g, f).value;
    var q := MirrorPoint(p, l).value;
    assert q == Point2D(2.0 * foot.x - p.x, 2.0 * foot.y - p.y);
    ReflectionPerpendicular(p, foot, g, StartPoint(l), EndPoint(l), f);
  }

  /** Reflecting a point through a foot on its own slope form moves it
      orthogonally to any line whose slope multiplies with that one to -1. */
  lemma ReflectionPerpendicular(p: Point2D, foot: Point2D, g: SlopeForm, s: Point2D, e: Point2D, f: SlopeForm)
    requires OnSlopeForm(g, p) && OnSlopeForm(g, foot)
    requires OnSlopeForm(f, s) && OnSlopeForm(f, e)
    requires f.slope * g.slope == -1.0
    ensures Dot(VectorBetween(p, Point2D(2.0 * foot.x - p.x, 2.0 * foot.y - p.y)), VectorBetween(s, e)) == 0.0
  {
    var q := Point2D(2.0 * foot.x - p.x, 2.0 * foot.y - p.y);
    PerpendicularStep(p, foot, g);
    assert e.y - s.y == f.slope * (e.x - s.x);
    PerpendicularDot(q.x - p.x, q.y - p.y, e.x - s.x, e.y - s.y, g.slope, f.slope);
  }

  lemma MirrorFixesLine(p: Point2D, l: Line2D)
    requires IsSegment(l) && !Horizontal(l) && !Vertical(l)
    ensures LiesOn(l, p) ==> MirrorPoint(p, l) == Some(p)
  {
    MirrorInclinedFoot(p, l);
    if LiesOn(l, p) {
      var f := l.slopeForm.value;
      var g := Perpendicular(p, f.slope);
      NegativeReciprocalDiffers(f.slope);
      SlopeFormsMeetOnce(g, f, p);
    }
  }

  lemma MirrorInvolution(p: Point2D, l: Line2D)
    requires IsSegment(l) && !Horizontal(l) && !Vertical(l)
    ensures MirrorPoint(p, l).Some?
    ensures MirrorPoint(MirrorPoint(p, l).value, l) == Some(p)
  {
    MirrorInclinedFoot(p, l);
    var f := l.slopeForm.value;
    var g := Perpendicular(p, f.slope);
    NegativeReciprocalDiffers(f.slope);
    var foot := SolveSlopeForms(g, f).value;
    var q := MirrorPoint(p, l).value;
    PerpendicularStep(p, foot, g);
    assert OnSlopeForm(g, q);
    PointAndSlopeUnique(q, g);
    assert Perpendicular(q, f.slope) == g;
    MirrorInclinedFoot(q, l);
  }

  /** Two points of a slope form differ by a multiple of the slope, and so do
      their reflections. */
  lemma PerpendicularStep(p: Point2D, foot: Point2D, g: SlopeForm)
    requires OnSlopeForm(g, p) && OnSlopeForm(g, foot)
    ensures (2.0 * foot.y - p.y) - p.y == g.slope * ((2.0 * foot.x - p.x) - p.x)
    ensures OnSlopeForm(g, Point2D(2.0 * foot.x - p.x, 2.0 * foot.y - p.y))
  {
    assert foot.y - p.y == g.slope * (foot.x - p.x);
    assert g.slope * ((2.0 * foot.x - p.x) - p.x) == 2.0 * (g.slope * (foot.x - p.x));
    assert g.slope * (2.0 * foot.x - p.x) == 2.0 * (g.slope * foot.x) - g.slope * p.x;
  }

  /** Directions with slopes whose product is -1 are orthogonal. */
  lemma PerpendicularDot(u1: real, u2: real, v1: real, v2: real, k: real, m: real)
    requires u2 == k * u1 && v2 == m * v1 && m * k == -1.0
    ensures u1 * v1 + u2 * v2 == 0.0
  {
    assert u2 * v2 == (k * m) * (u1 * v1);
  }
}
