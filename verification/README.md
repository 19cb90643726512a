# Math2DPrimitives in Dafny

A model of the 2D geometry kernel of Math2DPrimitives. It covers:

- points and vectors;
- lines kept in slope form, in general form and, when built from two points, with their endpoints;
- the tolerance-based line predicates: orientation, collinearity, point on a bounded or unbounded line, and total, partial or general overlap;
- midpoint and mirror image;
- the ray-casting point-in-polygon test and the polygon queries built on it;
- circle–circle, circle–line and circle–point relations, the two intersection counts, circles through two points, and the arc offset of a point;
- the obsolete `PrimitiveUtils` class, which duplicates most of this.

All coordinates are Dafny `real`s. The tolerance is `General.Fudge = 0.001`, which is the source's `fudge`.

## Modelling decisions

- **Non-finite values.** The C# code divides freely, and a division by zero gives an infinity or NaN.
  - A slope or general form that would hold such a value is `None`. This happens for the slope form of a vertical pair, for the general form when `1 / (-slope)` is undefined, and for the intersection of parallel slope forms. A predicate that compares such a form answers `false`, as a comparison with NaN does.
  - The distance from a point to a line is a `Lines.Distance`: `Finite`, `PositiveInfinity` or `NotANumber`. A line from `CreateByStandardForm(0, 0, k)` with k not zero (`Line.cs:99`) has divisor zero and a non-zero numerator (`Line.cs:179-184`). Its distance is +Infinity. +Infinity is greater than every radius, so `IsDistant` answers true and `Intersect(line)` finds no point. A zero numerator over a zero divisor, or an undefined general form, gives NaN, and every comparison with NaN is false.
- **Square root.** Square roots are a parameter `sqrt: real -> real`. Lemmas that need a real square root require `General.IsSqrt(sqrt)`. Distances between points and the centre distance of two circles are `sqrt` of an exact radicand.
- **Which `Point2D`.** The model follows the value type `Point2D` of `Point2D.cs`. The text of the kernel needs the class `Point2D` under `Geometric Objects/Coordinates` to compile:
  - it assigns `null` to points (`Utilities/CircleUtilities.cs:209`, `:235`);
  - it compares points with `null` (`Utilities/LineUtilities.cs:288`, `Utilities/PrimitiveUtils.cs:522`);
  - it uses the point–point and point–vector operators that only the class defines (`Utilities/CircleUtilities.cs:186-191`).

  Under the value type, a line built without endpoints reads `(0, 0)` for both. The model does the same: `Lines.StartPoint` and `Lines.EndPoint` give `Origin` when `ends` is `None`. Under the class it would read `null`; "## Left out" lists what that changes.
- **`IsLineHavingPoints`.** Its documentation says it tells whether the line has endpoints. The code tests the start point against `null` (`Utilities/LineUtilities.cs:286-293`), which only the class reading gives a meaning. The model follows the documented intent: `ends.Some?`. Only `CreateByPoints` stores endpoints.
- **Exceptions.** An operation that throws ("This line has no defined points", "Lines are not inclined") returns a `Result` with a `LineClassification.LineError`. C#'s short-circuit `&&`/`||` over throwing calls is `PrimitiveUtils.AndThen`/`OrElse`. The public predicates of `LineUtilities` and `CoordinateUtilities` require a line with endpoints, as their documentation says. The obsolete copies in `PrimitiveUtils` model the throwing path too.
- **Polygons.** A polygon is a non-empty sequence of vertices. Its sides are built as `ConstructSides` builds them. The cross-side flags that `IsPointInPolygon` sets and then clears become pure functions over `seq<bool>`. A method, `PolygonUtilities.PointInPolygon`, runs the same loop and shows that the flags are all cleared at the end.
- **Circles.** A circle is a radius and a centre. Equality is datatype equality, which is `Circle.Equals` over the value-type `Point2D`.
- **Obsolete class.** Each member of `PrimitiveUtils` is written out again from its own source text. A contract then proves that it agrees with the current member.

### Facts about the code the model keeps

- Point equality is exact: `Equals` compares both coordinates with `==` (`Point2D.cs:74-77`).
- Circle equality compares the radii with `==` and the centres with point `Equals` (`Geometric Objects/Regular Shapes/Circle.cs:249-252`), so it is exact under the value type.
- Internal tangency compares the centre distance with `r1 − r2`, with no absolute value (`Utilities/CircleUtilities.cs:36-37`). So `IsTouchingInternally` is not symmetric; see `CircleUtilities.TouchingInternallyNotSymmetric`.
- No operation checks for degenerate inputs such as parallel lines or a vertical slope. The non-finite values they produce flow on, as described above.

## Model

| member | source | states |
|---|---|---|
| General.NearSymmetric | Math2DPrimitives/Utilities/GeneralUtilities.cs:14 | The tolerance comparison (absolute difference at most `fudge`) does not depend on the order of its arguments |
| General.SqrtUnique | Math2DPrimitives/Point2D.cs:35-40 | Any square root satisfying `IsSqrt` gives the one non-negative root, so distances do not depend on which one is supplied |
| General.Sort | Math2DPrimitives/Utilities/GeneralUtilities.cs:25-27 | The list sort: the result is ascending and a permutation of the input |
| General.SortedExtremes | Math2DPrimitives/Utilities/GeneralUtilities.cs:26-28 | The first and last entries of the sorted list are the least and greatest input values, and both occur in the input |
| General.AreNumbersInRange | Math2DPrimitives/Utilities/GeneralUtilities.cs:23-34 | Sorting the extremes together with the numbers and asking that the extremes come out first and last is true exactly when every number lies between the two extremes, in either order |
| General.InRangeSymmetric | Math2DPrimitives/Utilities/GeneralUtilities.cs:29-30 | Swapping the two extremes does not change the answer |
| General.InRangeEmpty | Math2DPrimitives/Utilities/GeneralUtilities.cs:23-34 | With no numbers the answer is true |
| General.InRangeOwnExtremes | Math2DPrimitives/Utilities/GeneralUtilities.cs:23-34 | Each extreme is in its own range |
| General.InRangeSingle | Math2DPrimitives/Utilities/GeneralUtilities.cs:23-34 | A single number is in range exactly when it lies between the extremes |
| General.InRangeOrderIndependent | Math2DPrimitives/Utilities/GeneralUtilities.cs:23-34 | Only the multiset of numbers matters |
| Primitives.PointEqualsIsIdentity | Math2DPrimitives/Point2D.cs:74-77 | `Equals` compares both coordinates exactly, so it is value identity, with no tolerance |
| Primitives.PointEqualsIsEquivalence | Math2DPrimitives/Point2D.cs:74-77 | `Equals` is reflexive, symmetric and transitive |
| Primitives.SquaredDistance | Math2DPrimitives/Point2D.cs:37-39 | The radicand of the distance is never negative, and it is zero from a point to itself |
| Primitives.DistanceSymmetric | Math2DPrimitives/Point2D.cs:35-49 | The distance from p to q equals the distance from q to p |
| Primitives.DistanceNonNegative | Math2DPrimitives/Point2D.cs:35-40 | With a genuine square root the distance is non-negative, and zero from a point to itself |
| Primitives.DistanceAlongAxis | Math2DPrimitives/Point2D.cs:35-40 | Points at the same Y are the absolute X difference apart |
| Primitives.PointToVector | Math2DPrimitives/Point2D.cs:56-59 | `ToVector` keeps both components |
| Primitives.VectorToPoint | Math2DPrimitives/Vector2D.cs:101-105 | `ToPoint` keeps both components |
| Primitives.PointVectorRoundTrip | Math2DPrimitives/Utilities/CoordinateUtilities.cs:204-217 | Point to vector to point, and vector to point to vector, are identities |
| Primitives.VectorBetween | Math2DPrimitives/Vector2D.cs:29-34 | The vector from start to end carries start onto end |
| Primitives.VectorBetweenIsDifference | Math2DPrimitives/Vector2D.cs:29-34 | The vector between two points is the difference of their position vectors |
| Primitives.UniformVector | Math2DPrimitives/Vector2D.cs:35-39 | The one-value constructor gives both components that value |
| Primitives.DotCommutative | Math2DPrimitives/Vector2D.cs:47 | The dot product is commutative, and the vector `*` operator is the dot product |
| Primitives.CrossAntisymmetric | Math2DPrimitives/Vector2D.cs:54 | The cross product changes sign when its arguments swap, and is zero for a vector with itself |
| Primitives.AddThenSubtract | Math2DPrimitives/Vector2D.cs:137-139 | Vector subtraction undoes vector addition |
| Primitives.ScaleCommutes | Math2DPrimitives/Vector2D.cs:143-144 | Scaling on the left equals scaling on the right |
| Primitives.ScalarMinusVectorIsVectorMinusScalar | Math2DPrimitives/Vector2D.cs:140-141 | The operator `value - v` gives the same result as `v - value`; it equals the componentwise `(value, value) - v` only when v is `(value, value)` |
| Lines.GetSlopeFromPoints | Math2DPrimitives/Line.cs:238-241 | The slope is defined exactly when the X values differ, and it is rise over run |
| Lines.GetYInterceptFromPoints | Math2DPrimitives/Line.cs:250-253 | The intercept is defined exactly when the X values differ, and it puts both points on the line of that slope |
| Lines.SlopeFormThroughTwoPoints | Math2DPrimitives/Line.cs:238-253 | The computed slope and intercept are the only ones through two points with different X |
| Lines.GeneralFormOfSlope | Math2DPrimitives/Line.cs:82 | The general form `(1, 1/(-m), -b/(-m))` stored by `CreateByPoints` describes the same points as `y = m·x + b` |
| Lines.CreateByPoints | Math2DPrimitives/Line.cs:82 | The line keeps its endpoints. Its slope form exists exactly for different X and passes through both points. Its general form exists exactly when X and Y both differ, and also passes through both |
| Lines.CreateBySlope | Math2DPrimitives/Line.cs:90 | No endpoints; the slope form is as given, and the general form `(-m, 1, -b)` has the same points as the slope form |
| Lines.CreateByStandardForm | Math2DPrimitives/Line.cs:99 | No endpoints; keeps `(A, B, C)`; the slope form is defined exactly when B is non-zero, and then has the same points |
| Lines.StandardFormAgrees | Math2DPrimitives/Line.cs:99 | `(-A/B, -C/B)` and `A·x + B·y + C = 0` describe the same points |
| Lines.CreateByPointAndSlope | Math2DPrimitives/Line.cs:108 | The line has the given slope and passes through the point, in both forms |
| Lines.PointAndSlopeUnique | Math2DPrimitives/Line.cs:108 | Any slope form through a point is the one `CreateByPointAndSlope` builds from its slope |
| Lines.SegmentContainsEnds | Math2DPrimitives/Line.cs:82 | Both endpoints of a line built from two points lie on it |
| Lines.Intersect | Math2DPrimitives/Line.cs:119-130 | If the receiver's endpoints share X and the other's share Y, the answer is (start X, other's start Y). Otherwise it is defined exactly for crossing slopes, and then lies on both slope forms |
| Lines.SolveSlopeForms | Math2DPrimitives/Line.cs:126-128 | The computed point lies on both slope forms |
| Lines.SlopeFormsMeetOnce | Math2DPrimitives/Line.cs:126-128 | It is the only point on both |
| Lines.IntersectStatic | Math2DPrimitives/Line.cs:139-144 | The static form is defined exactly for crossing slopes |
| Lines.IntersectFormsAgree | Math2DPrimitives/Line.cs:119-144 | Away from the shortcut, the instance and static intersections give the same point, which lies on both lines |
| Lines.StaticSolves | Math2DPrimitives/Line.cs:141-142 | The static formula's point lies on both slope forms |
| Lines.IntersectWithSlope | Math2DPrimitives/Line.cs:153-157 | A result lies on the line of the given slope and intercept |
| Lines.IntersectWithStandardForm | Math2DPrimitives/Line.cs:167-171 | A result satisfies the given general form |
| Lines.IntersectOfSegment | Math2DPrimitives/Line.cs:119-130 | For a receiver with endpoints and crossing slopes, the result exists and lies on both lines |
| Lines.IntersectWithoutEndsIsOrigin | Math2DPrimitives/Line.cs:121-124 | Two lines without endpoints always "intersect" at (0, 0) |
| Lines.IntersectWithoutEndsMissesLine | Math2DPrimitives/Line.cs:121-124 | `y = x` against `y = 2x + 5` answers (0, 0), which is not on the second line; the true crossing is (-5, -5) |
| Lines.IntersectCorrected | Math2DPrimitives/Line.cs:119-130 | With the shortcut limited to genuine vertical segments, a result lies on the other line whenever that line has a slope form |
| Lines.IntersectCorrectedOnBothLines | Math2DPrimitives/Line.cs:119-130 | For well-formed lines, the corrected result exists for crossing slopes or for a vertical segment against a sloped line, and then lies on both lines |
| Lines.IntersectCorrectedSameX | Math2DPrimitives/Line.cs:119-130 | For a receiver with endpoints, the corrected result has the same X as the original, and equals it when the receiver is not vertical |
| Lines.GetDistance | Math2DPrimitives/Line.cs:179-184 | A distance other than NaN needs a general form |
| Lines.DistanceCases | Math2DPrimitives/Line.cs:179-184 | With a genuine square root the distance is finite exactly when A and B are not both zero. It is +Infinity exactly when A = B = 0 and C ≠ 0, and NaN exactly when there is no general form or A = B = C = 0 |
| Lines.NoCoefficientsInfinitelyFar | Math2DPrimitives/Line.cs:99 | Every point is +Infinity away from `CreateByStandardForm(0, 0, k)` for k ≠ 0 |
| Lines.DistanceZeroIffOnLine | Math2DPrimitives/Line.cs:179-184 | For (A, B) not both zero, the distance is defined and non-negative, and it is zero exactly on the line |
| Lines.DistanceToOwnEnds | Math2DPrimitives/Line.cs:179-184 | The endpoints of a segment with a general form are at distance zero from it |
| LineClassification.IsVertical | Math2DPrimitives/Utilities/LineUtilities.cs:17-25 | Fails with "no defined points" exactly for a line without endpoints; otherwise true exactly when the X values of the endpoints are within the tolerance |
| LineClassification.IsHorizontal | Math2DPrimitives/Utilities/LineUtilities.cs:33-41 | The same on Y |
| LineClassification.IsInclined | Math2DPrimitives/Utilities/LineUtilities.cs:49-52 | Fails exactly for a line without endpoints |
| LineClassification.InclinedIffNeither | Math2DPrimitives/Utilities/LineUtilities.cs:49-52 | For a line with endpoints, inclined means neither horizontal nor vertical |
| LineClassification.VerticalAndSlopeForm | Math2DPrimitives/Line.cs:82 | A segment without a slope form is vertical; a non-vertical segment has one, and an inclined segment has both forms |
| LineClassification.InclinedLinesCollinear | Math2DPrimitives/Utilities/LineUtilities.cs:63-72 | Succeeds exactly when both lines are inclined (the first line is examined first); the answer is whether slope and intercept are each within the tolerance |
| LineClassification.CollinearSymmetric | Math2DPrimitives/Utilities/LineUtilities.cs:63-72 | Where it is defined, the answer does not depend on the order of the lines |
| LineClassification.CollinearReflexive | Math2DPrimitives/Utilities/LineUtilities.cs:63-72 | An inclined segment is collinear with itself |
| CoordinateUtilities.LiesOnBoundedLine | Math2DPrimitives/Utilities/CoordinateUtilities.cs:19-53 | An endpoint always lies on its line |
| CoordinateUtilities.BoundedOnHorizontal | Math2DPrimitives/Utilities/CoordinateUtilities.cs:24-31 | On a horizontal line, a non-endpoint lies on it exactly when its Y is within the tolerance and its X lies between the endpoints' X |
| CoordinateUtilities.BoundedOnVertical | Math2DPrimitives/Utilities/CoordinateUtilities.cs:33-39 | On a vertical, non-horizontal line: X within the tolerance and Y between the endpoints |
| CoordinateUtilities.BoundedOnInclined | Math2DPrimitives/Utilities/CoordinateUtilities.cs:41-48 | On an inclined line: within the tolerance of the slope form and inside the endpoints' bounding box |
| CoordinateUtilities.BoundedContainsSegment | Math2DPrimitives/Utilities/CoordinateUtilities.cs:19-53 | Every point of the exact segment between the endpoints passes the bounded test, whatever the orientation |
| CoordinateUtilities.LiesOnUnBoundedLine | Math2DPrimitives/Utilities/CoordinateUtilities.cs:62-94 | An endpoint always lies on its unbounded line |
| CoordinateUtilities.BoundedImpliesUnbounded | Math2DPrimitives/Utilities/CoordinateUtilities.cs:19-94 | A point on the bounded line is on the unbounded line |
| CoordinateUtilities.GetMidPoint | Math2DPrimitives/Utilities/CoordinateUtilities.cs:102-105 | The midpoint is the point halfway from start to end |
| CoordinateUtilities.MidPointSymmetric | Math2DPrimitives/Utilities/CoordinateUtilities.cs:102-105 | Swapping the points gives the same midpoint, and the midpoint of a point with itself is that point |
| CoordinateUtilities.MidPointEquidistant | Math2DPrimitives/Utilities/CoordinateUtilities.cs:102-105 | The midpoint is equally far from both points |
| CoordinateUtilities.MidPointOnSegment | Math2DPrimitives/Utilities/CoordinateUtilities.cs:102-105 | The midpoint of a segment's endpoints lies on the bounded segment |
| CoordinateUtilities.MirrorPoint | Math2DPrimitives/Utilities/CoordinateUtilities.cs:113-134 | Across a horizontal or vertical line the image always exists |
| CoordinateUtilities.MirrorHorizontal | Math2DPrimitives/Utilities/CoordinateUtilities.cs:115-119 | Across a horizontal line the image keeps X, reflects Y in the start's Y, and mirroring twice gives the point back |
| CoordinateUtilities.MirrorVertical | Math2DPrimitives/Utilities/CoordinateUtilities.cs:122-126 | Across a vertical line the image reflects X in the start's X, keeps Y, and mirroring twice gives the point back |
| CoordinateUtilities.MirrorIntersectAsWritten | Math2DPrimitives/Utilities/CoordinateUtilities.cs:129-131 | The perpendicular through the point has no endpoints, so `Intersect` against a line that is not horizontal takes no shortcut and equals the corrected intersection |
| CoordinateUtilities.MirrorInclinedFoot | Math2DPrimitives/Utilities/CoordinateUtilities.cs:127-133 | Across an inclined segment the image exists and is the reflection through the foot of the perpendicular |
| CoordinateUtilities.MirrorInclined | Math2DPrimitives/Utilities/CoordinateUtilities.cs:127-133 | Across an inclined segment: the midpoint of a point and its image is on the line; the displacement is orthogonal to the segment; points on the line are fixed; mirroring twice gives the point back |
| LineUtilities.CoordsInRange | Math2DPrimitives/Utilities/LineUtilities.cs:212-229 | The four-value sort test is true exactly when one interval contains the other |
| LineUtilities.CoordsInRangeSymmetric | Math2DPrimitives/Utilities/LineUtilities.cs:212-229 | The test is symmetric in the two intervals and true for an interval with itself |
| LineUtilities.IsXLineCoordsInRange | Math2DPrimitives/Utilities/LineUtilities.cs:212-229 | True exactly when one line's X interval contains the other's |
| LineUtilities.IsYLineCoordsInRange | Math2DPrimitives/Utilities/LineUtilities.cs:304-321 | The same on Y |
| LineUtilities.LineCoordsInRangeSymmetric | Math2DPrimitives/Utilities/LineUtilities.cs:212-321 | Both range tests are symmetric and reflexive |
| LineUtilities.TotallyHorizontal | Math2DPrimitives/Utilities/LineUtilities.cs:83-95 | Two horizontal lines overlap totally exactly when their Y values are within the tolerance and one X interval contains the other |
| LineUtilities.TotallySymmetric | Math2DPrimitives/Utilities/LineUtilities.cs:81-121 | Total overlap is symmetric |
| LineUtilities.TotallyReflexive | Math2DPrimitives/Utilities/LineUtilities.cs:81-121 | A segment overlaps itself totally |
| LineUtilities.PartiallyNotOnSharedEndpoint | Math2DPrimitives/Utilities/LineUtilities.cs:134-138 | Lines sharing an endpoint never overlap partially; no line overlaps itself partially |
| LineUtilities.PartiallySymmetric | Math2DPrimitives/Utilities/LineUtilities.cs:132-176 | Partial overlap is symmetric |
| LineUtilities.DifferentOrientationsNeverOverlap | Math2DPrimitives/Utilities/LineUtilities.cs:81-176 | Segments of different orientations overlap in no sense |
| LineUtilities.GenerallyOverLapping | Math2DPrimitives/Utilities/LineUtilities.cs:185-188 | General overlap is symmetric, and a segment overlaps itself generally but never partially |
| LineUtilities.MidPoint | Math2DPrimitives/Utilities/LineUtilities.cs:195-198 | The midpoint is the point halfway along from start to end, so both halves are the same vector and it is equally far from both endpoints |
| LineUtilities.MidPointOfSegment | Math2DPrimitives/Utilities/LineUtilities.cs:195-198 | A segment's midpoint lies on the bounded segment |
| PolygonUtilities.Sides | Math2DPrimitives/Utilities/PolygonUtilities.cs:24-26 | The sides the test walks, built as the polygon's constructor builds them (`ConstructSides`, lines 44-54 of `Polygon.cs` under `Geometric Objects/Polygon`): one side per vertex; side i starts at vertex i and ends where the next side starts, wrapping round to the first |
| PolygonUtilities.SidesAreSegments | Math2DPrimitives/Utilities/PolygonUtilities.cs:89-97 | Every side the edge test walks is a line built from two points |
| PolygonUtilities.Threshold | Math2DPrimitives/Utilities/PolygonUtilities.cs:21 | The scanline (`PointThreshold.CreateBySlope`, line 26 of `PointThreshold.cs` under `Geometric Objects/Lines`) has slope 0 and intercept t, no endpoints, and contains exactly the points at height t |
| PolygonUtilities.CrossSideHalfOpen | Math2DPrimitives/Utilities/PolygonUtilities.cs:200-203 | The four-way cross-side test is the half-open rule `min Y < t <= max Y`: at a vertex on the scanline only a side going down counts, and a flat side never does |
| PolygonUtilities.ModifyPolygonSides | Math2DPrimitives/Utilities/PolygonUtilities.cs:196-212 | Each side's flag is set exactly when the side straddles the scanline by the half-open rule |
| PolygonUtilities.ResetPolygonSides | Math2DPrimitives/Utilities/PolygonUtilities.cs:177-185 | Every flag is cleared |
| PolygonUtilities.CrossingOnSide | Math2DPrimitives/Utilities/PolygonUtilities.cs:28-34 | For a cross side the code's intersection exists, and the point of the side at height t has that intersection's X |
| PolygonUtilities.IsPointOnEdge | Math2DPrimitives/Utilities/PolygonUtilities.cs:89-97 | True exactly when some side contains the point by the bounded test |
| PolygonUtilities.VerticesOnEdge | Math2DPrimitives/Utilities/PolygonUtilities.cs:89-97 | Every vertex is on the edge |
| PolygonUtilities.IsPointInPolygon | Math2DPrimitives/Utilities/PolygonUtilities.cs:17-44 | A point on the edge is inside; otherwise the point is inside exactly when an odd number of cross sides meet the scanline to its right |
| PolygonUtilities.PointInPolygon | Math2DPrimitives/Utilities/PolygonUtilities.cs:17-44 | The loop over the sides gives the answer above and leaves every cross-side flag cleared |
| PolygonUtilities.ArePointsInPolygon | Math2DPrimitives/Utilities/PolygonUtilities.cs:52-62 | True exactly when every point is in the polygon |
| PolygonUtilities.IsAnyPointInPolygon | Math2DPrimitives/Utilities/PolygonUtilities.cs:71-81 | True exactly when some point is in the polygon |
| PolygonUtilities.AreAllPointsOnEdge | Math2DPrimitives/Utilities/PolygonUtilities.cs:105-114 | True exactly when every point is on the edge |
| PolygonUtilities.IsAnyPointOnEdge | Math2DPrimitives/Utilities/PolygonUtilities.cs:122-131 | As written, the answer is always true |
| PolygonUtilities.IsAnyPointOnEdgeCorrected | Math2DPrimitives/Utilities/PolygonUtilities.cs:122-131 | With the flag starting false: true exactly when some point is on the edge |
| PolygonUtilities.IsPolygonHavingHorizontalSides | Math2DPrimitives/Utilities/PolygonUtilities.cs:138-150 | True exactly when some pair of consecutive vertices has Y values within the tolerance |
| PolygonUtilities.IsPolygonHavingVerticalSides | Math2DPrimitives/Utilities/PolygonUtilities.cs:157-169 | The same on X |
| PolygonUtilities.SquareInteriorInside | Math2DPrimitives/Utilities/PolygonUtilities.cs:17-44 | A point strictly inside the square with corners (0,0) and (a,a) has one crossing to its right, and is inside |
| PolygonUtilities.SquareAbovePointOutside | Math2DPrimitives/Utilities/PolygonUtilities.cs:17-44 | A point more than the tolerance above that square is neither on the edge nor inside |
| PolygonUtilities.SquareRightSideInside | Math2DPrimitives/Utilities/PolygonUtilities.cs:38-39 | A point on the square's right side has no crossing to its right, yet counts as inside because it is on the edge |
| PolygonUtilities.IsAnyPointOnEdgeIgnoresPoints | Math2DPrimitives/Utilities/PolygonUtilities.cs:122-131 | For points all above the square, the method as written answers true while the corrected one answers false |
| CircleUtilities.IsTouchingExternally | Math2DPrimitives/Utilities/CircleUtilities.cs:18-24 | A circle never touches an equal circle |
| CircleUtilities.IsTouchingInternally | Math2DPrimitives/Utilities/CircleUtilities.cs:32-38 | A circle never touches an equal circle internally |
| CircleUtilities.IsDistant | Math2DPrimitives/Utilities/CircleUtilities.cs:46-52 | A circle is never distant from an equal circle |
| CircleUtilities.IsInscribedInEachOther | Math2DPrimitives/Utilities/CircleUtilities.cs:60-66 | Nor inscribed in it |
| CircleUtilities.IsIntersecting | Math2DPrimitives/Utilities/CircleUtilities.cs:74-79 | Nor intersecting it |
| CircleUtilities.CircleRelationsPartition | Math2DPrimitives/Utilities/CircleUtilities.cs:46-79 | For different circles with non-negative radii, exactly one holds: distant, inscribed, or intersecting |
| CircleUtilities.CircleRelationsSymmetric | Math2DPrimitives/Utilities/CircleUtilities.cs:18-79 | Distant, inscribed, externally touching and intersecting are all symmetric |
| CircleUtilities.InsideRightTangentDistance | Math2DPrimitives/Utilities/CircleUtilities.cs:36-37 | A small circle tangent from inside at the right of a bigger one is the difference of the radii away |
| CircleUtilities.TouchingInternallyNotSymmetric | Math2DPrimitives/Utilities/CircleUtilities.cs:32-38 | The big circle touches the small one internally, but not the other way round, because the code uses `r1 - r2` without absolute value |
| CircleUtilities.PointCount | Math2DPrimitives/Utilities/CircleUtilities.cs:231-287 | The reported count is 0 only for disjoint circles and 1 only for tangency |
| CircleUtilities.IntersectCircles | Math2DPrimitives/Utilities/CircleUtilities.cs:231-287 | As written: 0 exactly when distant; 1 exactly when not distant but touching externally; the internal-tangency branch is never taken |
| CircleUtilities.SameCircleCrosses | Math2DPrimitives/Utilities/CircleUtilities.cs:231-287 | A circle against itself falls through to the two-point branch |
| CircleUtilities.InternalTangencyMissed | Math2DPrimitives/Utilities/CircleUtilities.cs:246 | Internally tangent circles are reported as crossing in two points, in either order |
| CircleUtilities.IntersectCirclesCorrected | Math2DPrimitives/Utilities/CircleUtilities.cs:231-287 | With the guard testing the two circles against each other: 0 when distant, 1 for external tangency, 1 for internal tangency either way round |
| CircleUtilities.IntersectCirclesCorrectedSymmetric | Math2DPrimitives/Utilities/CircleUtilities.cs:231-287 | The corrected classification does not depend on the order of the circles |
| CircleUtilities.InternalTangencyFound | Math2DPrimitives/Utilities/CircleUtilities.cs:246-256 | The corrected classification reports internal tangency, with one point, in either order |
| CircleUtilities.IsDistantFromLine | Math2DPrimitives/Utilities/CircleUtilities.cs:87-91 | True exactly when the distance is +Infinity or a finite value greater than the radius |
| CircleUtilities.IsIntersectingLine | Math2DPrimitives/Utilities/CircleUtilities.cs:99-103 | Only a finite distance can be less than the radius |
| CircleUtilities.IsTangent | Math2DPrimitives/Utilities/CircleUtilities.cs:111-115 | Only a finite distance can be within the tolerance of the radius |
| CircleUtilities.LineRelations | Math2DPrimitives/Utilities/CircleUtilities.cs:87-115 | Distant and intersecting exclude each other. At exactly the radius the line is tangent and neither of the others. A finite distance gives one of the three. An infinite distance is distant only, and a NaN distance is none of them |
| CircleUtilities.IntersectLine | Math2DPrimitives/Utilities/CircleUtilities.cs:298-325 | At most 2. It is 0 exactly when distant, so 0 for an infinite distance. It is 1 exactly when tangent but not distant. It is 2 when the distance is NaN |
| CircleUtilities.NoCoefficientsLineMissesCircle | Math2DPrimitives/Utilities/CircleUtilities.cs:87-91 | The line `CreateByStandardForm(0, 0, k)`, k ≠ 0, is distant from every circle, neither intersecting nor tangent, and `Intersect(line)` counts 0 points |
| CircleUtilities.LineThroughCentre | Math2DPrimitives/Utilities/CircleUtilities.cs:298-325 | A line through the centre of a circle with radius above the tolerance intersects it in two points |
| CircleUtilities.PointRelations | Math2DPrimitives/Utilities/CircleUtilities.cs:123-153 | In and out exclude each other; at exactly the radius a point is on the circle and neither in nor out; every point is in, out, or exactly at the radius |
| CircleUtilities.RightmostPointOn | Math2DPrimitives/Utilities/CircleUtilities.cs:123-140 | The point one radius to the right of the centre is on the circle; the centre is inside exactly when the radius is positive |
| CircleUtilities.CreateCirclesFrom2Pts | Math2DPrimitives/Utilities/CircleUtilities.cs:165-195 | No circle exactly when the diameter is shorter than the distance. One circle exactly when it is not shorter but within the tolerance; that circle has the given radius and a centre equidistant from both points. Two circles exactly when the diameter exceeds the distance by more than the tolerance |
| CircleUtilities.CirclesThroughOnePoint | Math2DPrimitives/Utilities/CircleUtilities.cs:165-181 | For a point taken twice: a negative radius gives none; otherwise there is one circle, centred on the point, exactly when the diameter is within the tolerance |
| CircleUtilities.OffsetPoint | Math2DPrimitives/Utilities/CircleUtilities.cs:205-218 | A point not on the circle gives no result; a zero arc gives the point itself; otherwise there is a result unless the radius is zero, which makes the angle non-finite |
| CircleUtilities.OffsetPointStaysOnCircle | Math2DPrimitives/Utilities/CircleUtilities.cs:215-217 | With a length-preserving rotation, the offset point is as far from the centre as the original, so it is on the circle |
| PrimitiveUtils.AndThen | Math2DPrimitives/Utilities/PrimitiveUtils.cs:298 | Short-circuit `and` over a throwing call: true only when both are true, and the first failure propagates |
| PrimitiveUtils.OrElse | Math2DPrimitives/Utilities/PrimitiveUtils.cs:401 | Short-circuit `or` over a throwing call: false only when both are false, and the first failure propagates |
| PrimitiveUtils.IsLineVertical | Math2DPrimitives/Utilities/PrimitiveUtils.cs:232-240 | Agrees with `IsVertical`, failure included |
| PrimitiveUtils.IsLineHorizontal | Math2DPrimitives/Utilities/PrimitiveUtils.cs:248-256 | Agrees with `IsHorizontal` |
| PrimitiveUtils.IsLineInclined | Math2DPrimitives/Utilities/PrimitiveUtils.cs:264-267 | Agrees with `IsInclined` |
| PrimitiveUtils.InclinedLinesCollinear | Math2DPrimitives/Utilities/PrimitiveUtils.cs:278-287 | Agrees with the current `InclinedLinesCollinear` |
| PrimitiveUtils.IsPointOnLine | Math2DPrimitives/Utilities/PrimitiveUtils.cs:431-465 | For a line with endpoints it agrees with `LiesOnBoundedLine`. Without endpoints it answers true for the origin (equal to both default endpoints) and otherwise fails |
| PrimitiveUtils.IsLineTotallyOverLapping | Math2DPrimitives/Utilities/PrimitiveUtils.cs:296-336 | Fails exactly when a line lacks endpoints; otherwise agrees with `IsTotallyOverLapping` |
| PrimitiveUtils.SomeEndOnOtherObsolete | Math2DPrimitives/Utilities/PrimitiveUtils.cs:358-359 | The four short-circuited endpoint tests agree with the current ones |
| PrimitiveUtils.IsLinePartiallyOverLapping | Math2DPrimitives/Utilities/PrimitiveUtils.cs:347-390 | Shared endpoints give false before anything can fail; otherwise it fails exactly when a line lacks endpoints, and agrees with `IsPartiallyOverLapping` |
| PrimitiveUtils.IsLineGenerallyOverLapping | Math2DPrimitives/Utilities/PrimitiveUtils.cs:399-402 | Fails exactly when a line lacks endpoints; otherwise agrees with `IsGenerallyOverLapping` |
| PrimitiveUtils.GetMidPoint | Math2DPrimitives/Utilities/PrimitiveUtils.cs:474-477 | Agrees with the current `GetMidPoint` |
| PrimitiveUtils.GetLineMidPoint | Math2DPrimitives/Utilities/PrimitiveUtils.cs:409-412 | Agrees with `MidPoint` |
| PrimitiveUtils.MirrorPoint | Math2DPrimitives/Utilities/PrimitiveUtils.cs:485-506 | Agrees with the current `MirrorPoint` |
| PrimitiveUtils.OnAnySide | Math2DPrimitives/Utilities/PrimitiveUtils.cs:142-147 | The early-return loop agrees with the current side search |
| PrimitiveUtils.IsPointOnEdge | Math2DPrimitives/Utilities/PrimitiveUtils.cs:140-148 | Agrees with the current `IsPointOnEdge` |
| PrimitiveUtils.IsPointInPolygon | Math2DPrimitives/Utilities/PrimitiveUtils.cs:32-59 | Agrees with the current `IsPointInPolygon` |
| PrimitiveUtils.ArePointsInPolygon | Math2DPrimitives/Utilities/PrimitiveUtils.cs:67-77 | Agrees with the current version |
| PrimitiveUtils.IsAnyPointInPolygon | Math2DPrimitives/Utilities/PrimitiveUtils.cs:85-95 | Agrees with the current version |
| PrimitiveUtils.AreAllPointsOnEdge | Math2DPrimitives/Utilities/PrimitiveUtils.cs:156-165 | Agrees with the current version |
| PrimitiveUtils.IsAnyPointOnEdge | Math2DPrimitives/Utilities/PrimitiveUtils.cs:173-182 | Has the same always-true flag, and agrees with the current version |
| PrimitiveUtils.IsPolygonHavingHorizontalSides | Math2DPrimitives/Utilities/PrimitiveUtils.cs:189-206 | Agrees with the current version |
| PrimitiveUtils.IsPolygonHavingVerticalSides | Math2DPrimitives/Utilities/PrimitiveUtils.cs:208-225 | Agrees with the current version |

## Left out

- Rotations (`RotateDeg`, `RotateRad`), `ToDegree` and `ToRad`, `GetAngles`, `ComputeAngle`: trigonometry. `CircleUtilities.OffsetPoint` takes the rotation as a parameter.
- `Vector2D.Normalize` and the stored magnitude: square roots of sums. Only the direction-free facts are modelled.
- The coordinates of intersection points are not modelled:
  - two tangency or crossing points of two circles;
  - projection and chord points of a circle and a line;
  - the two centres of `CreateCirclesFrom2Pts` when two circles exist.

  These come from square roots and normalised vectors. The model keeps the branch and the count each call reports.
- `GetLineOffsetFromCenterLine` (both copies): it is built on normalised vectors and rotation.
- `float` narrowing in `Point2D`, and `double` rounding in general: coordinates are exact reals.
- Lines.GetDistance: the code takes `Math.Abs` of `A² + B²` before the square root. Over the reals this is a no-op, so it is not written out.
- `PolygonSide` and `PointThreshold` as classes: a side is a `Line2D` built from two points, and its `IsCrossSide` flag lives in the flags sequence. `TestProgram.cs` is a console demo.
- The circle constructors other than radius-and-centre (general equation, three points, circumference, point on circle), area and circumference: they rely on square roots and π.
- The class `Point2D` under `Geometric Objects/Coordinates` is not part of this model, although the kernel's text needs it to compile. The model follows the value type in `Point2D.cs`. Under the class, a line built without endpoints holds `null` endpoints, and that changes these members:
- Lines.Intersect: with the class, a receiver or argument without endpoints makes `Line.cs:121` throw `NullReferenceException`. The model reads `(0, 0)` instead.
- CoordinateUtilities.MirrorPoint: with the class, the inclined branch always throws (`Utilities/CoordinateUtilities.cs:129-131`). The perpendicular it intersects has no endpoints. The model computes the reflection.
- PolygonUtilities.IsPointInPolygon: with the class, an exactly vertical cross side makes `Intersect` read the scanline's `null` start point and throw (`Utilities/PolygonUtilities.cs:30`, `Line.cs:121`). The model counts that side with X from the side and Y 0.
- Primitives.PointEqualsIsIdentity: the class's `Equals` has a tolerance of 0.001 on X and, through the literal `0001d`, of 1 on Y (`Geometric Objects/Coordinates/Point2D.cs:87-90`). `Circle.Equals` goes through it. The model keeps the exact `Equals` of the value type.
- PrimitiveUtils.IsPointOnLine: with the class, every point throws on a line without endpoints. The model answers true for the origin, which equals both `(0, 0)` defaults, and fails for every other point.
- PrimitiveUtils.IsLinePartiallyOverLapping: with the class, the shared-endpoint test throws for a line without endpoints. The model compares the `(0, 0)` defaults and can answer false before it fails.
- The private helpers of `PrimitiveUtils`: `IsLineHavingPoints`, the range tests, `AreNumbersInRange`, `ResetPolygonSides` and `ModifyPolygonSides`. Their text matches the `GeometricUtilities` helpers, which the model uses for both classes.
- The mutation of `PolygonSide.IsCrossSide` is modelled as a returned flags sequence, not as shared mutable state. Concurrency between queries is not modelled.
- CircleUtilities.OffsetPoint: the code returns `null` for a point not on the circle. For radius zero it returns a point with NaN coordinates. The model writes both as `None`.
- CoordinateUtilities.MirrorPoint: the case where no inclined segment exists (the tolerance says neither horizontal nor vertical, but the slope form is undefined or zero) answers `None`. This stands for the code's non-finite result, whose NaN coordinates are not modelled.

## Findings

| source | as written | input that shows it | evidently intended | confidence | as-written member | corrected member |
|---|---|---|---|---|---|---|
| Math2DPrimitives/Line.cs:121-124 | The vertical/horizontal shortcut reads both lines' endpoints. Under the value-type `Point2D`, lines built without endpoints read (0, 0). Under the class it would throw instead | `CreateBySlope(1, 0)` against `CreateBySlope(2, 5)` answers (0, 0) instead of (-5, -5) | Take the shortcut only when the receiver really is a vertical segment | medium, not executed | Lines.IntersectWithoutEndsMissesLine | Lines.IntersectCorrected |
| Math2DPrimitives/Utilities/CircleUtilities.cs:246 | The internal-tangency branch tests `intersectedCircle` against itself, which `IsTouchingInternally` always rejects as equal | A circle of radius 2 and one of radius 1 inside it, tangent at the right, are classified as crossing in two points | Test the two circles against each other, either way round | high, not executed | CircleUtilities.InternalTangencyMissed | CircleUtilities.IntersectCirclesCorrected |
| Math2DPrimitives/Utilities/PolygonUtilities.cs:124 | The flag starts true, so the answer is true whatever the points | A square with side 1 and the point (0.5, 5), which is far above it | Start the flag false, so the answer is true only when some point is on the edge | high, not executed | PolygonUtilities.IsAnyPointOnEdgeIgnoresPoints | PolygonUtilities.IsAnyPointOnEdgeCorrected |
