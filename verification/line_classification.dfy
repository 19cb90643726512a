/** The orientation tests of Math2DPrimitives/Utilities/LineUtilities.cs:
    horizontal, vertical and inclined lines, and collinearity of inclined
    lines. Each of them throws when a line has no endpoints; the exceptions
    are `Failure` values here. */
module LineClassification {
  import opened Wrappers
  import opened General
  import opened Primitives
  import opened Lines

  datatype LineError =
    | NoDefinedPoints   // "This line has no defined points"
    | NotInclined       // "Lines are not inclined"

  /** `IsLineHavingPoints`: only CreateByPoints stores endpoints. */
  predicate IsLineHavingPoints(l: Line2D) {
    l.ends.Some?
  }

  /** The endpoints' X values are within the tolerance. */
  predicate Vertical(l: Line2D) {
    Near(StartPoint(l).x, EndPoint(l).x)
  }

  /** The endpoints' Y values are within the tolerance. */
  predicate Horizontal(l: Line2D) {
    Near(StartPoint(l).y, EndPoint(l).y)
  }

  /** `IsVertical`. */
  function IsVertical(l: Line2D): (r: Result<bool, LineError>)
    ensures r.Failure? <==> !IsLineHavingPoints(l)
    ensures r.Failure? ==> r.error == NoDefinedPoints
    ensures r.Success? ==> (r.value <==> -Fudge <= StartPoint(l).x - EndPoint(l).x <= Fudge)
  {
    if !IsLineHavingPoints(l) then Failure(NoDefinedPoints) else Success(Vertical(l))
  }

  /** `IsHorizontal`. */
  function IsHorizontal(l: Line2D): (r: Result<bool, LineError>)
    ensures r.Failure? <==> !IsLineHavingPoints(l)
    ensures r.Failure? ==> r.error == NoDefinedPoints
    ensures r.Success? ==> (r.value <==> -Fudge <= StartPoint(l).y - EndPoint(l).y <= Fudge)
  {
    if !IsLineHavingPoints(l) then Failure(NoDefinedPoints) else Success(Horizontal(l))
  }

  /** `IsInclined`: neither horizontal nor vertical; the horizontal test runs
      first, so a line without endpoints fails there. */
  function IsInclined(l: Line2D): (r: Result<bool, LineError>)
    ensures r.Failure? <==> !IsLineHavingPoints(l)
  {
    match IsHorizontal(l)
    case Failure(e) => Failure(e)
    case Success(h) =>
      if h then Success(false)
      else
        match IsVertical(l)
        case Failure(e) => Failure(e)
        case Success(v) => Success(!v)
  }

  /** Inclined means neither horizontal nor vertical, for every line with
      endpoints. */
  lemma InclinedIffNeither(l: Line2D)
    requires IsLineHavingPoints(l)
    ensures IsInclined(l) == Success(!Horizontal(l) && !Vertical(l))
    ensures IsInclined(l).value <==> !IsHorizontal(l).value && !IsVertical(l).value
  {
  }

  /** A segment whose endpoints share X exactly has no slope form, and it is
      vertical; a segment that is not vertical always has a slope form. */
  lemma VerticalAndSlopeForm(l: Line2D)
    requires IsSegment(l)
    ensures l.slopeForm.None? ==> IsVertical(l) == Success(true)
    ensures IsVertical(l) == Success(false) ==> l.slopeForm.Some?
    ensures IsInclined(l) == Success(true) ==> l.slopeForm.Some? && l.generalForm.Some?
  {
  }

  /** Two slope forms within the tolerance of each other in slope and in
      intercept; undefined forms compare false, as NaN does. */
  predicate NearSlopeForms(a: Option<SlopeForm>, b: Option<SlopeForm>) {
    a.Some? && b.Some? && Near(a.value.slope, b.value.slope) && Near(a.value.yIntercept, b.value.yIntercept)
  }

  /** `InclinedLinesCollinear`: fails unless both lines are inclined, testing
      the first line before the second; otherwise compares the slope forms
      within the tolerance. */
  function InclinedLinesCollinear(l1: Line2D, l2: Line2D): (r: Result<bool, LineError>)
    ensures r.Success? <==> IsInclined(l1) == Success(true) && IsInclined(l2) == Success(true)
    ensures !IsLineHavingPoints(l1) ==> r == Failure(NoDefinedPoints)
    ensures r.Success? ==> (r.value <==> NearSlopeForms(l1.slopeForm, l2.slopeForm))
  {
    match IsInclined(l1)
    case Failure(e) => Failure(e)
    case Success(i1) =>
      if !i1 then Failure(NotInclined)
      else
        match IsInclined(l2)
        case Failure(e) => Failure(e)
        case Success(i2) =>
          if !i2 then Failure(NotInclined)
          else Success(NearSlopeForms(l1.slopeForm, l2.slopeForm))
  }

  /** Where it is defined, collinearity does not depend on the order of the
      lines. */
  lemma CollinearSymmetric(l1: Line2D, l2: Line2D)
    ensures InclinedLinesCollinear(l1, l2).Success? <==> InclinedLinesCollinear(l2, l1).Success?
    ensures InclinedLinesCollinear(l1, l2).Success? ==> InclinedLinesCollinear(l1, l2) == InclinedLinesCollinear(l2, l1)
  {
  }

  /** An inclined segment is collinear with itself. */
  lemma CollinearReflexive(l: Line2D)
    requires IsSegment(l) && IsInclined(l) == Success(true)
    ensures InclinedLinesCollinear(l, l) == Success(true)
  {
  }
}
