/** `Line2D` (Math2DPrimitives/Line.cs): a line kept in slope form
    `y = m·x + b` and in general form `A·x + B·y + C = 0` side by side, with
    optional endpoints.

    The source computes both forms in floating point, so a factory that
    divides by zero stores an infinity or NaN. Here such a form is `None`,
    and every comparison against it is false, as a comparison against NaN
    would be. A line built without endpoints reads the value-type default
    (0, 0) as its start and end point. */
module Lines {
  import opened Wrappers
  import opened General
  import opened Primitives

  datatype SlopeForm = SlopeForm(slope: real, yIntercept: real)

  datatype GeneralForm = GeneralForm(xConstant: real, yConstant: real, constant: real)

  datatype Ends = Ends(start: Point2D, end: Point2D)

  datatype Line2D = Line2D(slopeForm: Option<SlopeForm>, generalForm: Option<GeneralForm>, ends: Option<Ends>)

  predicate OnSlopeForm(f: SlopeForm, p: Point2D) {
    p.y == f.slope * p.x + f.yIntercept
  }

  predicate OnGeneralForm(g: GeneralForm, p: Point2D) {
    g.xConstant * p.x + g.yConstant * p.y + g.constant == 0.0
  }

  /** `StartPoint`: the stored start, or (0, 0) when the line has none. */
  function StartPoint(l: Line2D): Point2D {
    if l.ends.Some? then l.ends.value.start else Origin
  }

  /** `EndPoint`: the stored end, or (0, 0) when the line has none. */
  function EndPoint(l: Line2D): Point2D {
    if l.ends.Some? then l.ends.value.end else Origin
  }

  // ---------------------------------------------------------------------
  // Forms computed from two points
  // ---------------------------------------------------------------------

  /** `GetSlopeFromPoints`: rise over run, undefined for equal X. */
  function GetSlopeFromPoints(p1: Point2D, p2: Point2D): (r: Option<real>)
    ensures r.Some? <==> p1.x != p2.x
    ensures r.Some? ==> r.value * (p2.x - p1.x) == p2.y - p1.y
  {
    if p1.x == p2.x then None else Some((p2.y - p1.y) / (p2.x - p1.x))
  }

  /** `GetYInterceptFromPoints`: the intercept that puts both points on the
      line of slope `GetSlopeFromPoints`. */
  function GetYInterceptFromPoints(p1: Point2D, p2: Point2D): (r: Option<real>)
    ensures r.Some? <==> p1.x != p2.x
    ensures r.Some? ==> OnSlopeForm(SlopeForm(GetSlopeFromPoints(p1, p2).value, r.value), p1)
    ensures r.Some? ==> OnSlopeForm(SlopeForm(GetSlopeFromPoints(p1, p2).value, r.value), p2)
  {
    match GetSlopeFromPoints(p1, p2)
    case None => None
    case Some(m) =>
      var b := p1.y - m * p1.x;
      assert p2.y == m * p2.x + b by {
        assert m * (p2.x - p1.x) == p2.y - p1.y;
      }
      Some(b)
  }

  /** Two points with different X lie on exactly one slope form. */
  lemma SlopeFormThroughTwoPoints(f: SlopeForm, p1: Point2D, p2: Point2D)
    requires p1.x != p2.x
    requires OnSlopeForm(f, p1) && OnSlopeForm(f, p2)
    ensures f.slope == GetSlopeFromPoints(p1, p2).value
    ensures f.yIntercept == GetYInterceptFromPoints(p1, p2).value
  {
    var m := GetSlopeFromPoints(p1, p2).value;
    assert f.slope * (p2.x - p1.x) == p2.y - p1.y;
    assert m * (p2.x - p1.x) == p2.y - p1.y;
    assert (f.slope - m) * (p2.x - p1.x) == 0.0;
  }

  /** The general form `(1, 1/(-m), -b/(-m))` that CreateByPoints stores
      describes the same points as `y = m·x + b` whenever m is not zero. */
  lemma GeneralFormOfSlope(m: real, b: real, p: Point2D)
    requires m != 0.0
    ensures OnGeneralForm(GeneralForm(1.0, 1.0 / (-m), -b / (-m)), p) <==> OnSlopeForm(SlopeForm(m, b), p)
  {
    var k := 1.0 / (-m);
    assert k * (-m) == 1.0;
    assert -b / (-m) == -b * k;
    var lhs := 1.0 * p.x + k * p.y + (-b * k);
    assert lhs * (-m) == (p.y - (m * p.x + b)) by {
      assert lhs * (-m) == -m * p.x + (k * (-m)) * p.y - b * (k * (-m));
    }
    if lhs == 0.0 {
      assert p.y - (m * p.x + b) == 0.0;
    }
    if OnSlopeForm(SlopeForm(m, b), p) {
      assert lhs * (-m) == 0.0;
    }
  }

  // ---------------------------------------------------------------------
  // Factories
  // ---------------------------------------------------------------------

  /** `CreateByPoints`: keeps the endpoints and derives both forms; the slope
      form is undefined for a vertical pair and the general form also for a
      horizontal one, where `1 / (-slope)` divides by zero. */
  function CreateByPoints(start: Point2D, end: Point2D): (l: Line2D)
    ensures l.ends == Some(Ends(start, end))
    ensures StartPoint(l) == start && EndPoint(l) == end
    ensures l.slopeForm.Some? <==> start.x != end.x
    ensures l.slopeForm.Some? ==> OnSlopeForm(l.slopeForm.value, start) && OnSlopeForm(l.slopeForm.value, end)
    ensures l.generalForm.Some? <==> start.x != end.x && start.y != end.y
    ensures l.generalForm.Some? ==> l.generalForm.value.xConstant == 1.0
    ensures l.generalForm.Some? ==> OnGeneralForm(l.generalForm.value, start) && OnGeneralForm(l.generalForm.value, end)
  {
    match GetSlopeFromPoints(start, end)
    case None => Line2D(None, None, Some(Ends(start, end)))
    case Some(m) =>
      var b := GetYInterceptFromPoints(start, end).value;
      if m == 0.0 then
        assert start.y == end.y by {
          assert m * (end.x - start.x) == end.y - start.y;
        }
        Line2D(Some(SlopeForm(m, b)), None, Some(Ends(start, end)))
      else
        assert start.y != end.y by {
          assert m * (end.x - start.x) == end.y - start.y;
          assert m * (end.x - start.x) != 0.0;
        }
        GeneralFormOfSlope(m, b, start);
        GeneralFormOfSlope(m, b, end);
        Line2D(Some(SlopeForm(m, b)), Some(GeneralForm(1.0, 1.0 / (-m), -b / (-m))), Some(Ends(start, end)))
  }

  /** `CreateBySlope`: slope form `(m, b)` and general form `(-m, 1, -b)`,
      no endpoints. */
  function CreateBySlope(slope: real, yIntercept: real): (l: Line2D)
    ensures l.ends.None?
    ensures l.slopeForm == Some(SlopeForm(slope, yIntercept))
    ensures l.generalForm.Some? && l.generalForm.value.yConstant == 1.0
    ensures forall p :: OnSlopeForm(l.slopeForm.value, p) <==> OnGeneralForm(l.generalForm.value, p)
  {
    Line2D(Some(SlopeForm(slope, yIntercept)), Some(GeneralForm(-slope, 1.0, -yIntercept)), None)
  }

  /** `CreateByStandardForm`: keeps `(A, B, C)` and derives the slope form
      `(-A/B, -C/B)`, undefined when B is zero. */
  function CreateByStandardForm(xConstant: real, yConstant: real, constant: real): (l: Line2D)
    ensures l.ends.None?
    ensures l.generalForm == Some(GeneralForm(xConstant, yConstant, constant))
    ensures l.slopeForm.Some? <==> yConstant != 0.0
    ensures l.slopeForm.Some? ==> forall p :: OnSlopeForm(l.slopeForm.value, p) <==> OnGeneralForm(l.generalForm.value, p)
  {
    if yConstant == 0.0 then
      Line2D(None, Some(GeneralForm(xConstant, yConstant, constant)), None)
    else
      var f := SlopeForm(-xConstant / yConstant, -constant / yConstant);
      var g := GeneralForm(xConstant, yConstant, constant);
      assert forall p :: OnSlopeForm(f, p) <==> OnGeneralForm(g, p) by {
        forall p: Point2D
          ensures OnSlopeForm(f, p) <==> OnGeneralForm(g, p)
        {
          StandardFormAgrees(xConstant, yConstant, constant, p);
        }
      }
      Line2D(Some(f), Some(g), None)
  }

  lemma StandardFormAgrees(a: real, b: real, c: real, p: Point2D)
    requires b != 0.0
    ensures OnSlopeForm(SlopeForm(-a / b, -c / b), p) <==> OnGeneralForm(GeneralForm(a, b, c), p)
  {
    var lhs := a * p.x + b * p.y + c;
    assert (p.y - ((-a / b) * p.x + (-c / b))) * b == lhs by {
      assert (-a / b) * b == -a;
      assert (-c / b) * b == -c;
    }
    if lhs == 0.0 {
      assert p.y - ((-a / b) * p.x + (-c / b)) == 0.0;
    }
  }

  /** `CreateByPointAndSlope`: the line of the given slope through the point. */
  function CreateByPointAndSlope(point: Point2D, slope: real): (l: Line2D)
    ensures l.ends.None? && l.slopeForm.Some? && l.generalForm.Some?
    ensures l.slopeForm.value.slope == slope
    ensures OnSlopeForm(l.slopeForm.value, point)
    ensures OnGeneralForm(l.generalForm.value, point)
  {
    CreateBySlope(slope, point.y - slope * point.x)
  }

  /** A slope form through a point is fixed by its slope: it is the one
      CreateByPointAndSlope builds. */
  lemma PointAndSlopeUnique(point: Point2D, f: SlopeForm)
    requires OnSlopeForm(f, point)
    ensures CreateByPointAndSlope(point, f.slope).slopeForm == Some(f)
  {
    var g := CreateByPointAndSlope(point, f.slope).slopeForm.value;
    assert g.slope == f.slope;
    assert g.yIntercept == f.yIntercept;
  }

  // ---------------------------------------------------------------------
  // Well-formed lines
  // ---------------------------------------------------------------------

  /** A line with endpoints as CreateByPoints builds it: the only factory that
      stores endpoints. */
  predicate IsSegment(l: Line2D) {
    l.ends.Some? && l == CreateByPoints(StartPoint(l), EndPoint(l))
  }

  /** Every line a factory can return. */
  predicate WellFormed(l: Line2D) {
    l.ends.None? || IsSegment(l)
  }

  /** Membership in the line a value stands for: its slope form when it has
      one, the vertical through its endpoints when it is a vertical segment,
      its general form otherwise. */
  predicate LiesOn(l: Line2D, p: Point2D) {
    if l.slopeForm.Some? then OnSlopeForm(l.slopeForm.value, p)
    else if l.ends.Some? then p.x == StartPoint(l).x
    else l.generalForm.Some? && OnGeneralForm(l.generalForm.value, p)
  }

  /** Both endpoints of a segment lie on it, and so does nothing with another
      slope through the start. */
  lemma SegmentContainsEnds(l: Line2D)
    requires IsSegment(l)
    ensures LiesOn(l, StartPoint(l)) && LiesOn(l, EndPoint(l))
  {
  }

  // ---------------------------------------------------------------------
  // Intersections
  // ---------------------------------------------------------------------

  /** The shortcut of `Intersect`: the receiver's endpoints share X and the
      other line's endpoints share Y. */
  predicate VerticalMeetsHorizontal(l: Line2D, other: Line2D) {
    StartPoint(l).x == EndPoint(l).x && StartPoint(other).y == EndPoint(other).y
  }

  /** Two slope forms with different slopes. */
  predicate CrossingSlopes(l: Line2D, other: Line2D) {
    l.slopeForm.Some? && other.slopeForm.Some? && l.slopeForm.value.slope != other.slopeForm.value.slope
  }

  /** The instance `Intersect(Line2D)` as written: the vertical/horizontal
      shortcut, else the solution of the two slope forms, whose X is
      `(b2 - b1) / (m1 - m2)` and whose Y is read off the other line. Equal or
      undefined slopes make the division non-finite: `None`. */
  function Intersect(l: Line2D, other: Line2D): (r: Option<Point2D>)
    ensures VerticalMeetsHorizontal(l, other) ==> r == Some(Point2D(StartPoint(l).x, StartPoint(other).y))
    ensures !VerticalMeetsHorizontal(l, other) ==> (r.Some? <==> CrossingSlopes(l, other))
    ensures !VerticalMeetsHorizontal(l, other) && r.Some? ==>
              OnSlopeForm(l.slopeForm.value, r.value) && OnSlopeForm(other.slopeForm.value, r.value)
  {
    if VerticalMeetsHorizontal(l, other) then
      Some(Point2D(StartPoint(l).x, StartPoint(other).y))
    else if CrossingSlopes(l, other) then
      SolveSlopeForms(l.slopeForm.value, other.slopeForm.value)
    else
      None
  }

  /** The point on both slope forms, with Y computed from the second. */
  function SolveSlopeForms(f: SlopeForm, g: SlopeForm): (r: Option<Point2D>)
    requires f.slope != g.slope
    ensures r.Some? && OnSlopeForm(f, r.value) && OnSlopeForm(g, r.value)
  {
    assert (f.slope - g.slope) * ((g.yIntercept - f.yIntercept) / (f.slope - g.slope)) == g.yIntercept - f.yIntercept;
    Some(Point2D((g.yIntercept - f.yIntercept) / (f.slope - g.slope),
                 g.slope * ((g.yIntercept - f.yIntercept) / (f.slope - g.slope)) + g.yIntercept))
  }

  /** Two slope forms with different slopes share exactly one point. */
  lemma SlopeFormsMeetOnce(f: SlopeForm, g: SlopeForm, p: Point2D)
    requires f.slope != g.slope
    requires OnSlopeForm(f, p) && OnSlopeForm(g, p)
    ensures SolveSlopeForms(f, g) == Some(p)
  {
    assert (f.slope - g.slope) * p.x == g.yIntercept - f.yIntercept;
    assert p.x == ((f.slope - g.slope) * p.x) / (f.slope - g.slope);
    assert p.x == (g.yIntercept - f.yIntercept) / (f.slope - g.slope);
    assert p.y == g.slope * ((g.yIntercept - f.yIntercept) / (f.slope - g.slope)) + g.yIntercept;
    assert SolveSlopeForms(f, g).value.x == p.x;
    assert SolveSlopeForms(f, g).value.y == p.y;
  }

  /** The static `Intersect(l1, l2)`: no shortcut, X written as
      `(b1 - b2) / (m2 - m1)` and Y read off the first line. */
  function IntersectStatic(l1: Line2D, l2: Line2D): (r: Option<Point2D>)
    ensures r.Some? <==> CrossingSlopes(l1, l2)
  {
    if CrossingSlopes(l1, l2) then
      var f := l1.slopeForm.value;
      var g := l2.slopeForm.value;
      var x := (f.yIntercept - g.yIntercept) / (g.slope - f.slope);
      Some(Point2D(x, f.slope * x + f.yIntercept))
    else
      None
  }

  /** Away from the shortcut, the instance and the static form give the same
      point, and that point is on both lines. */
  lemma IntersectFormsAgree(l: Line2D, other: Line2D)
    requires !VerticalMeetsHorizontal(l, other)
    ensures Intersect(l, other) == IntersectStatic(l, other)
    ensures IntersectStatic(l, other).Some? ==>
              OnSlopeForm(l.slopeForm.value, IntersectStatic(l, other).value) &&
              OnSlopeForm(other.slopeForm.value, IntersectStatic(l, other).value)
  {
    if CrossingSlopes(l, other) {
      StaticSolves(l.slopeForm.value, other.slopeForm.value);
      SlopeFormsMeetOnce(l.slopeForm.value, other.slopeForm.value, IntersectStatic(l, other).value);
    }
  }

  lemma StaticSolves(f: SlopeForm, g: SlopeForm)
    requires f.slope != g.slope
    ensures OnSlopeForm(f, Point2D((f.yIntercept - g.yIntercept) / (g.slope - f.slope),
                                   f.slope * ((f.yIntercept - g.yIntercept) / (g.slope - f.slope)) + f.yIntercept))
    ensures OnSlopeForm(g, Point2D((f.yIntercept - g.yIntercept) / (g.slope - f.slope),
                                   f.slope * ((f.yIntercept - g.yIntercept) / (g.slope - f.slope)) + f.yIntercept))
  {
    assert (g.slope - f.slope) * ((f.yIntercept - g.yIntercept) / (g.slope - f.slope)) == f.yIntercept - g.yIntercept;
  }

  /** `Intersect(slope, yIntercept)`: against CreateBySlope. */
  function IntersectWithSlope(l: Line2D, slope: real, yIntercept: real): (r: Option<Point2D>)
    ensures l.ends.Some? && !VerticalMeetsHorizontal(l, CreateBySlope(slope, yIntercept)) && r.Some? ==>
              OnSlopeForm(SlopeForm(slope, yIntercept), r.value)
  {
    Intersect(l, CreateBySlope(slope, yIntercept))
  }

  /** `Intersect(A, B, C)`: against CreateByStandardForm. */
  function IntersectWithStandardForm(l: Line2D, xConstant: real, yConstant: real, constant: real): (r: Option<Point2D>)
    ensures !VerticalMeetsHorizontal(l, CreateByStandardForm(xConstant, yConstant, constant)) && r.Some? ==>
              OnGeneralForm(GeneralForm(xConstant, yConstant, constant), r.value)
  {
    Intersect(l, CreateByStandardForm(xConstant, yConstant, constant))
  }

  /** A receiver with endpoints: for well-formed lines whose slopes cross the
      shortcut never fires, and the result is the one common point. */
  lemma IntersectOfSegment(l: Line2D, other: Line2D)
    requires IsSegment(l) && CrossingSlopes(l, other)
    ensures Intersect(l, other).Some?
    ensures LiesOn(l, Intersect(l, other).value) && LiesOn(other, Intersect(l, other).value)
  {
  }

  /** The shortcut reads endpoints the lines may not have: for any two lines
      without endpoints it fires and answers (0, 0). */
  lemma IntersectWithoutEndsIsOrigin(l: Line2D, other: Line2D)
    requires l.ends.None? && other.ends.None?
    ensures Intersect(l, other) == Some(Origin)
  {
  }

  /** y = x and y = 2x + 5 meet at (-5, -5), yet the shortcut answers (0, 0),
      which is not on the second line. */
  lemma IntersectWithoutEndsMissesLine()
    ensures Intersect(CreateBySlope(1.0, 0.0), CreateBySlope(2.0, 5.0)) == Some(Origin)
    ensures !LiesOn(CreateBySlope(2.0, 5.0), Origin)
    ensures SolveSlopeForms(SlopeForm(1.0, 0.0), SlopeForm(2.0, 5.0)) == Some(Point2D(-5.0, -5.0))
  {
  }

  /** `Intersect` with the shortcut taken only for a receiver that really is
      a vertical segment; it then meets any line with a slope form on that
      vertical. */
  function IntersectCorrected(l: Line2D, other: Line2D): (r: Option<Point2D>)
    ensures r.Some? && other.slopeForm.Some? ==> OnSlopeForm(other.slopeForm.value, r.value)
  {
    if l.ends.Some? && StartPoint(l).x == EndPoint(l).x then
      if other.slopeForm.Some? then
        var x := StartPoint(l).x;
        Some(Point2D(x, other.slopeForm.value.slope * x + other.slopeForm.value.yIntercept))
      else if VerticalMeetsHorizontal(l, other) then
        Some(Point2D(StartPoint(l).x, StartPoint(other).y))
      else
        None
    else if CrossingSlopes(l, other) then
      SolveSlopeForms(l.slopeForm.value, other.slopeForm.value)
    else
      None
  }

  /** The corrected intersection of well-formed lines lies on both of them
      whenever the two are not parallel slope forms, and it exists whenever
      one is a vertical segment and the other has a slope form, or the slopes
      cross. */
  lemma IntersectCorrectedOnBothLines(l: Line2D, other: Line2D)
    requires WellFormed(l) && WellFormed(other)
    ensures CrossingSlopes(l, other) ==> IntersectCorrected(l, other).Some?
    ensures l.ends.Some? && l.slopeForm.None? && other.slopeForm.Some? ==> IntersectCorrected(l, other).Some?
    ensures IntersectCorrected(l, other).Some? && other.slopeForm.Some? ==>
              LiesOn(l, IntersectCorrected(l, other).value) && LiesOn(other, IntersectCorrected(l, other).value)
  {
  }

  /** Where the shortcut does not fire, or fires on a receiver with endpoints,
      the corrected version gives the same X as the one written. */
  lemma IntersectCorrectedSameX(l: Line2D, other: Line2D)
    requires IsSegment(l)
    ensures Intersect(l, other).Some? ==> IntersectCorrected(l, other).Some?
    ensures Intersect(l, other).Some? ==> IntersectCorrected(l, other).value.x == Intersect(l, other).value.x
    ensures !VerticalMeetsHorizontal(l, other) && StartPoint(l).x != EndPoint(l).x ==>
              IntersectCorrected(l, other) == Intersect(l, other)
  {
  }

  // ---------------------------------------------------------------------
  // Distance from a point
  // ---------------------------------------------------------------------

  /** The double `GetDistance` produces: a finite value, +Infinity (a
      non-zero numerator over a zero divisor) or NaN (zero over zero, or a
      general form that is itself non-finite). */
  datatype Distance = Finite(value: real) | PositiveInfinity | NotANumber

  /** `distance > bound` on a double, for a finite bound. */
  predicate Exceeds(d: Distance, bound: real) {
    match d
    case Finite(v) => v > bound
    case PositiveInfinity => true
    case NotANumber => false
  }

  /** `distance < bound` on a double, for a finite bound. */
  predicate FallsShort(d: Distance, bound: real) {
    d.Finite? && d.value < bound
  }

  /** `Math.Abs(distance - bound) <= fudge` on a double, for a finite bound. */
  predicate NearTo(d: Distance, bound: real) {
    d.Finite? && Abs(d.value - bound) <= Fudge
  }

  /** `GetDistance(point)`: |A·x + B·y + C| / sqrt(A² + B²). The source also
      takes the absolute value of A² + B², which changes nothing over the
      reals. An undefined general form gives NaN; a zero divisor gives
      +Infinity, or NaN when the numerator is zero too. */
  function GetDistance(l: Line2D, p: Point2D, sqrt: real -> real): (r: Distance)
    ensures !r.NotANumber? ==> l.generalForm.Some?
  {
    match l.generalForm
    case None => NotANumber
    case Some(g) =>
      var num := Abs(g.xConstant * p.x + g.yConstant * p.y + g.constant);
      var den := sqrt(g.xConstant * g.xConstant + g.yConstant * g.yConstant);
      if den != 0.0 then Finite(num / den)
      else if num == 0.0 then NotANumber
      else PositiveInfinity
  }

  /** With a genuine square root the distance is finite exactly when A and
      B are not both zero; otherwise it is +Infinity for C not zero and NaN
      for C zero. An undefined general form gives NaN. */
  lemma DistanceCases(l: Line2D, p: Point2D, sqrt: real -> real)
    requires IsSqrt(sqrt)
    ensures GetDistance(l, p, sqrt).Finite? <==>
              l.generalForm.Some? && (l.generalForm.value.xConstant != 0.0 || l.generalForm.value.yConstant != 0.0)
    ensures GetDistance(l, p, sqrt).PositiveInfinity? <==>
              l.generalForm.Some? && l.generalForm.value.xConstant == 0.0 && l.generalForm.value.yConstant == 0.0
              && l.generalForm.value.constant != 0.0
    ensures GetDistance(l, p, sqrt).NotANumber? <==>
              l.generalForm.None? || l.generalForm.value == GeneralForm(0.0, 0.0, 0.0)
  {
    if l.generalForm.Some? {
      var g := l.generalForm.value;
      if g.xConstant != 0.0 || g.yConstant != 0.0 {
        assert 0.0 < g.xConstant * g.xConstant + g.yConstant * g.yConstant;
        assert 0.0 < sqrt(g.xConstant * g.xConstant + g.yConstant * g.yConstant);
      } else {
        assert g.xConstant * g.xConstant + g.yConstant * g.yConstant == 0.0;
        SqrtUnique(sqrt, 0.0, 0.0);
      }
    }
  }

  /** With a genuine square root and (A, B) not both zero the distance is
      finite, never negative, and zero exactly on the line. */
  lemma DistanceZeroIffOnLine(l: Line2D, p: Point2D, sqrt: real -> real)
    requires IsSqrt(sqrt)
    requires l.generalForm.Some?
    requires l.generalForm.value.xConstant != 0.0 || l.generalForm.value.yConstant != 0.0
    ensures GetDistance(l, p, sqrt).Finite?
    ensures 0.0 <= GetDistance(l, p, sqrt).value
    ensures GetDistance(l, p, sqrt).value == 0.0 <==> OnGeneralForm(l.generalForm.value, p)
  {
    var g := l.generalForm.value;
    assert 0.0 < g.xConstant * g.xConstant + g.yConstant * g.yConstant;
    assert 0.0 < sqrt(g.xConstant * g.xConstant + g.yConstant * g.yConstant);
    DivisionByPositive(Abs(g.xConstant * p.x + g.yConstant * p.y + g.constant),
                       sqrt(g.xConstant * g.xConstant + g.yConstant * g.yConstant));
  }

  /** `CreateByStandardForm(0, 0, k)` with k not zero is accepted, and every
      point is infinitely far from it. */
  lemma NoCoefficientsInfinitelyFar(k: real, p: Point2D, sqrt: real -> real)
    requires IsSqrt(sqrt)
    requires k != 0.0
    ensures GetDistance(CreateByStandardForm(0.0, 0.0, k), p, sqrt) == PositiveInfinity
  {
    DistanceCases(CreateByStandardForm(0.0, 0.0, k), p, sqrt);
  }

  lemma DivisionByPositive(n: real, d: real)
    requires 0.0 <= n && 0.0 < d
    ensures 0.0 <= n / d
    ensures n / d == 0.0 <==> n == 0.0
  {
    if n / d == 0.0 {
      assert n == (n / d) * d;
    }
  }

  /** The endpoints of a segment with a general form are at distance zero
      from it. */
  lemma DistanceToOwnEnds(l: Line2D, sqrt: real -> real)
    requires IsSqrt(sqrt)
    requires IsSegment(l) && l.generalForm.Some?
    ensures GetDistance(l, StartPoint(l), sqrt) == Finite(0.0)
    ensures GetDistance(l, EndPoint(l), sqrt) == Finite(0.0)
  {
    DistanceZeroIffOnLine(l, StartPoint(l), sqrt);
    DistanceZeroIffOnLine(l, EndPoint(l), sqrt);
  }
}
