/** Overlap tests between segments, the interval helpers they rest on, and
    the midpoint of a line (Math2DPrimitives/Utilities/LineUtilities.cs).
    Every overlap test needs both lines to have endpoints, as its
    documentation says; the orientation tests it calls would otherwise
    throw. */
module LineUtilities {
  import opened Wrappers
  import opened General
  import opened Primitives
  import opened Lines
  import opened LineClassification
  import opened CoordinateUtilities

  // ---------------------------------------------------------------------
  // Interval containment
  // ---------------------------------------------------------------------

  /** The closed interval spanned by `a1, a2` contains the one spanned by
      `b1, b2`. */
  predicate IntervalContains(a1: real, a2: real, b1: real, b2: real) {
    Min(a1, a2) <= Min(b1, b2) && Max(b1, b2) <= Max(a1, a2)
  }

  /** The test shared by `IsXLineCoordsInRange` and `IsYLineCoordsInRange`:
      sort the four values and ask whether one pair supplies both the least
      and the greatest. That is containment of one interval in the other. */
  function CoordsInRange(s1: real, e1: real, s2: real, e2: real): (r: bool)
    ensures r <==> IntervalContains(s1, e1, s2, e2) || IntervalContains(s2, e2, s1, e1)
  {
    var a := Sort([s1, e1, s2, e2]);
    FourExtremes([s1, e1, s2, e2], a[0], a[3]);
    ExtremesMeanContainment(s1, e1, s2, e2, a[0], a[3]);
    (s1 == a[0] && e1 == a[3]) || (e1 == a[0] && s1 == a[3])
      || (s2 == a[0] && e2 == a[3]) || (e2 == a[0] && s2 == a[3])
  }

  /** The ends of a sorted list of four values are the least and the
      greatest of them, and each is one of them. */
  lemma FourExtremes(list: seq<real>, lo: real, hi: real)
    requires |list| == 4
    requires lo == Sort(list)[0] && hi == Sort(list)[3]
    ensures lo <= list[0] && lo <= list[1] && lo <= list[2] && lo <= list[3]
    ensures list[0] <= hi && list[1] <= hi && list[2] <= hi && list[3] <= hi
    ensures lo == list[0] || lo == list[1] || lo == list[2] || lo == list[3]
    ensures hi == list[0] || hi == list[1] || hi == list[2] || hi == list[3]
  {
    SortedExtremes(list);
    assert list[0] in list && list[1] in list && list[2] in list && list[3] in list;
    AmongFour(list, lo);
    AmongFour(list, hi);
  }

  lemma AmongFour(list: seq<real>, x: real)
    requires |list| == 4 && x in list
    ensures x == list[0] || x == list[1] || x == list[2] || x == list[3]
  {
    var i :| 0 <= i < 4 && list[i] == x;
    assert i == 0 || i == 1 || i == 2 || i == 3;
  }

  /** With `lo` and `hi` the least and greatest of four values, one pair
      supplies both exactly when its interval contains the other pair's. */
  lemma ExtremesMeanContainment(s1: real, e1: real, s2: real, e2: real, lo: real, hi: real)
    requires lo <= s1 && lo <= e1 && lo <= s2 && lo <= e2
    requires s1 <= hi && e1 <= hi && s2 <= hi && e2 <= hi
    requires lo == s1 || lo == e1 || lo == s2 || lo == e2
    requires hi == s1 || hi == e1 || hi == s2 || hi == e2
    ensures ((s1 == lo && e1 == hi) || (e1 == lo && s1 == hi) || (s2 == lo && e2 == hi) || (e2 == lo && s2 == hi))
            <==> IntervalContains(s1, e1, s2, e2) || IntervalContains(s2, e2, s1, e1)
  {
  }

  lemma CoordsInRangeSymmetric(s1: real, e1: real, s2: real, e2: real)
    ensures CoordsInRange(s1, e1, s2, e2) == CoordsInRange(s2, e2, s1, e1)
    ensures CoordsInRange(s1, e1, s1, e1)
  {
  }

  /** `IsXLineCoordsInRange`: one segment's X-interval contains the other's. */
  function IsXLineCoordsInRange(l1: Line2D, l2: Line2D): (r: bool)
    ensures r <==> (IntervalContains(StartPoint(l1).x, EndPoint(l1).x, StartPoint(l2).x, EndPoint(l2).x)
                    || IntervalContains(StartPoint(l2).x, EndPoint(l2).x, StartPoint(l1).x, EndPoint(l1).x))
  {
    CoordsInRange(StartPoint(l1).x, EndPoint(l1).x, StartPoint(l2).x, EndPoint(l2).x)
  }

  /** `IsYLineCoordsInRange`: one segment's Y-interval contains the other's. */
  function IsYLineCoordsInRange(l1: Line2D, l2: Line2D): (r: bool)
    ensures r <==> (IntervalContains(StartPoint(l1).y, EndPoint(l1).y, StartPoint(l2).y, EndPoint(l2).y)
                    || IntervalContains(StartPoint(l2).y, EndPoint(l2).y, StartPoint(l1).y, EndPoint(l1).y))
  {
    CoordsInRange(StartPoint(l1).y, EndPoint(l1).y, StartPoint(l2).y, EndPoint(l2).y)
  }

  lemma LineCoordsInRangeSymmetric(l1: Line2D, l2: Line2D)
    ensures IsXLineCoordsInRange(l1, l2) == IsXLineCoordsInRange(l2, l1)
    ensures IsYLineCoordsInRange(l1, l2) == IsYLineCoordsInRange(l2, l1)
    ensures IsXLineCoordsInRange(l1, l1) && IsYLineCoordsInRange(l1, l1)
  {
    CoordsInRangeSymmetric(StartPoint(l1).x, EndPoint(l1).x, StartPoint(l2).x, EndPoint(l2).x);
    CoordsInRangeSymmetric(StartPoint(l1).y, EndPoint(l1).y, StartPoint(l2).y, EndPoint(l2).y);
  }

  // ---------------------------------------------------------------------
  // Overlaps
  // ---------------------------------------------------------------------

  /** `IsPointOnLine`: the obsolete twin of LiesOnBoundedLine, with the
      same body and its arguments swapped. */
  predicate IsPointOnLine(l: Line2D, p: Point2D)
    requires IsLineHavingPoints(l)
  {
    LiesOnBoundedLine(p, l)
  }

  /** `IsTotallyOverLapping`: both horizontal at nearly the same Y with one
      X-interval inside the other, both vertical likewise in Y, or both
      inclined, collinear, and both endpoints of one on the other. */
  predicate IsTotallyOverLapping(l1: Line2D, l2: Line2D)
    requires IsLineHavingPoints(l1) && IsLineHavingPoints(l2)
  {
    if IsHorizontal(l1).value && IsHorizontal(l2).value then
      Abs(StartPoint(l1).y - StartPoint(l2).y) <= Fudge && IsXLineCoordsInRange(l1, l2)
    else if IsVertical(l1).value && IsVertical(l2).value then
      Abs(StartPoint(l1).x - StartPoint(l2).x) <= Fudge && IsYLineCoordsInRange(l1, l2)
    else if IsInclined(l1).value && IsInclined(l2).value then
      InclinedLinesCollinear(l1, l2).value
        && ((LiesOnBoundedLine(StartPoint(l2), l1) && LiesOnBoundedLine(EndPoint(l2), l1))
            || (LiesOnBoundedLine(StartPoint(l1), l2) && LiesOnBoundedLine(EndPoint(l1), l2)))
    else
      false
  }

  /** Some endpoint of one line is exactly an endpoint of the other. */
  predicate ShareEndpoint(l1: Line2D, l2: Line2D) {
    StartPoint(l1) == StartPoint(l2) || StartPoint(l1) == EndPoint(l2)
      || EndPoint(l1) == StartPoint(l2) || EndPoint(l1) == EndPoint(l2)
  }

  /** Some endpoint of either line is on the other. */
  predicate SomeEndOnOther(l1: Line2D, l2: Line2D)
    requires IsLineHavingPoints(l1) && IsLineHavingPoints(l2)
  {
    IsPointOnLine(l1, StartPoint(l2)) || IsPointOnLine(l1, EndPoint(l2))
      || IsPointOnLine(l2, StartPoint(l1)) || IsPointOnLine(l2, EndPoint(l1))
  }

  /** `IsPartiallyOverLapping`: never when the lines share an endpoint;
      otherwise the same orientation cases, asking only that some endpoint
      of one lies on the other. */
  predicate IsPartiallyOverLapping(l1: Line2D, l2: Line2D)
    requires IsLineHavingPoints(l1) && IsLineHavingPoints(l2)
  {
    if ShareEndpoint(l1, l2) then
      false
    else if IsHorizontal(l1).value && IsHorizontal(l2).value then
      Abs(StartPoint(l1).y - StartPoint(l2).y) <= Fudge && SomeEndOnOther(l1, l2)
    else if IsVertical(l1).value && IsVertical(l2).value then
      Abs(StartPoint(l1).x - StartPoint(l2).x) <= Fudge && SomeEndOnOther(l1, l2)
    else if IsInclined(l1).value && IsInclined(l2).value then
      InclinedLinesCollinear(l1, l2).value && SomeEndOnOther(l1, l2)
    else
      false
  }

  /** `IsGenerallyOverLapping`: partially or totally. */
  predicate IsGenerallyOverLapping(l1: Line2D, l2: Line2D)
    requires IsLineHavingPoints(l1) && IsLineHavingPoints(l2)
  {
    IsPartiallyOverLapping(l1, l2) || IsTotallyOverLapping(l1, l2)
  }

  /** Two horizontal segments overlap totally exactly when their Ys are within
      the tolerance and one X-interval contains the other. */
  lemma TotallyHorizontal(l1: Line2D, l2: Line2D)
    requires IsLineHavingPoints(l1) && IsLineHavingPoints(l2)
    requires Horizontal(l1) && Horizontal(l2)
    ensures IsTotallyOverLapping(l1, l2) <==>
              Near(StartPoint(l1).y, StartPoint(l2).y)
              && (IntervalContains(StartPoint(l1).x, EndPoint(l1).x, StartPoint(l2).x, EndPoint(l2).x)
                  || IntervalContains(StartPoint(l2).x, EndPoint(l2).x, StartPoint(l1).x, EndPoint(l1).x))
  {
  }

  lemma TotallySymmetric(l1: Line2D, l2: Line2D)
    requires IsLineHavingPoints(l1) && IsLineHavingPoints(l2)
    ensures IsTotallyOverLapping(l1, l2) == IsTotallyOverLapping(l2, l1)
  {
    LineCoordsInRangeSymmetric(l1, l2);
    CollinearSymmetric(l1, l2);
    NearSymmetric(StartPoint(l1).y, StartPoint(l2).y);
    NearSymmetric(StartPoint(l1).x, StartPoint(l2).x);
  }

  /** A segment overlaps itself totally. */
  lemma TotallyReflexive(l: Line2D)
    requires IsSegment(l)
    ensures IsTotallyOverLapping(l, l)
  {
    LineCoordsInRangeSymmetric(l, l);
    if IsInclined(l).value {
      CollinearReflexive(l);
    }
  }

  /** Segments that share an endpoint never overlap partially; in particular
      no segment overlaps itself partially. */
  lemma PartiallyNotOnSharedEndpoint(l1: Line2D, l2: Line2D)
    requires IsLineHavingPoints(l1) && IsLineHavingPoints(l2)
    ensures ShareEndpoint(l1, l2) ==> !IsPartiallyOverLapping(l1, l2)
    ensures !IsPartiallyOverLapping(l1, l1)
  {
  }

  lemma PartiallySymmetric(l1: Line2D, l2: Line2D)
    requires IsLineHavingPoints(l1) && IsLineHavingPoints(l2)
    ensures IsPartiallyOverLapping(l1, l2) == IsPartiallyOverLapping(l2, l1)
  {
    CollinearSymmetric(l1, l2);
    NearSymmetric(StartPoint(l1).y, StartPoint(l2).y);
    NearSymmetric(StartPoint(l1).x, StartPoint(l2).x);
  }

  /** The orientation a segment is classified by, horizontal taking precedence. */
  datatype Orientation = HorizontalLine | VerticalLine | InclinedLine

  function OrientationOf(l: Line2D): Orientation {
    if Horizontal(l) then HorizontalLine
    else if Vertical(l) then VerticalLine
    else InclinedLine
  }

  /** Segments of different orientation never overlap, unless one of them is
      within the tolerance both ways and so counts as horizontal and as
      vertical. */
  lemma DifferentOrientationsNeverOverlap(l1: Line2D, l2: Line2D)
    requires IsLineHavingPoints(l1) && IsLineHavingPoints(l2)
    requires !(Horizontal(l1) && Vertical(l1)) && !(Horizontal(l2) && Vertical(l2))
    requires OrientationOf(l1) != OrientationOf(l2)
    ensures !IsTotallyOverLapping(l1, l2)
    ensures !IsPartiallyOverLapping(l1, l2)
    ensures !IsGenerallyOverLapping(l1, l2)
  {
  }

  /** General overlap is symmetric, and every segment overlaps itself
      generally although never partially. */
  lemma GenerallyOverLapping(l1: Line2D, l2: Line2D)
    requires IsLineHavingPoints(l1) && IsLineHavingPoints(l2)
    ensures IsGenerallyOverLapping(l1, l2) == IsGenerallyOverLapping(l2, l1)
    ensures IsSegment(l1) ==> IsGenerallyOverLapping(l1, l1) && !IsPartiallyOverLapping(l1, l1)
  {
    TotallySymmetric(l1, l2);
    PartiallySymmetric(l1, l2);
    if IsSegment(l1) {
      TotallyReflexive(l1);
    }
  }

  // ---------------------------------------------------------------------
  // Midpoint
  // ---------------------------------------------------------------------

  /** `MidPoint`: the point halfway from the start to the end, so the two
      halves are the same vector; for a segment it lies on the segment. */
  function MidPoint(l: Line2D): (r: Point2D)
    ensures r == PointAlong(StartPoint(l), EndPoint(l), 0.5)
    ensures r.x - StartPoint(l).x == EndPoint(l).x - r.x && r.y - StartPoint(l).y == EndPoint(l).y - r.y
    ensures SquaredDistance(StartPoint(l), r) == SquaredDistance(r, EndPoint(l))
  {
    MidPointEquidistant(StartPoint(l), EndPoint(l));
    GetMidPoint(StartPoint(l), EndPoint(l))
  }

  lemma MidPointOfSegment(l: Line2D)
    requires IsSegment(l)
    ensures LiesOnBoundedLine(MidPoint(l), l)
  {
    MidPointOnSegment(l);
  }
}
