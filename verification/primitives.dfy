/** The value types Point2D (Math2DPrimitives/Point2D.cs) and Vector2D
    (Math2DPrimitives/Vector2D.cs). They refer to each other, so they share a
    module. Coordinates are exact reals; the source's float/double narrowing
    and the cached vector magnitude are not modelled. */
module Primitives {
  import opened General

  datatype Point2D = Point2D(x: real, y: real)

  datatype Vector2D = Vector2D(x: real, y: real)

  /** `default(Point2D)`: what a line built without endpoints reports as its
      start and end point. */
  const Origin: Point2D := Point2D(0.0, 0.0)

  // ---------------------------------------------------------------------
  // Point2D
  // ---------------------------------------------------------------------

  /** `Point2D.Equals`: exact coordinate comparison, no tolerance. */
  predicate PointEquals(p: Point2D, q: Point2D) {
    p.x == q.x && p.y == q.y
  }

  lemma PointEqualsIsIdentity(p: Point2D, q: Point2D)
    ensures PointEquals(p, q) <==> p == q
  {
  }

  lemma PointEqualsIsEquivalence(p: Point2D, q: Point2D, r: Point2D)
    ensures PointEquals(p, p)
    ensures PointEquals(p, q) ==> PointEquals(q, p)
    ensures PointEquals(p, q) && PointEquals(q, r) ==> PointEquals(p, r)
  {
  }

  /** Sum of the squared coordinate differences, the radicand of GetDistance. */
  function SquaredDistance(p: Point2D, q: Point2D): (r: real)
    ensures 0.0 <= r
    ensures p == q ==> r == 0.0
  {
    Square(p.y - q.y) + Square(p.x - q.x)
  }

  /** `Point2D.GetDistance`, with the square root supplied by the caller. */
  function GetDistance(p: Point2D, q: Point2D, sqrt: real -> real): real {
    sqrt(SquaredDistance(p, q))
  }

  /** The distance is symmetric for any choice of square root, because the
      radicand already is. */
  lemma DistanceSymmetric(p: Point2D, q: Point2D, sqrt: real -> real)
    ensures GetDistance(p, q, sqrt) == GetDistance(q, p, sqrt)
  {
    SquareOfNegation(p.y - q.y);
    SquareOfNegation(p.x - q.x);
  }

  /** With a genuine square root the distance is never negative and a point
      is at distance zero from itself. */
  lemma DistanceNonNegative(p: Point2D, q: Point2D, sqrt: real -> real)
    requires IsSqrt(sqrt)
    ensures 0.0 <= GetDistance(p, q, sqrt)
    ensures GetDistance(p, p, sqrt) == 0.0
  {
    SqrtZero(sqrt);
  }

  /** The distance between points that differ on one axis only is the
      absolute difference on that axis. */
  lemma DistanceAlongAxis(p: Point2D, q: Point2D, sqrt: real -> real)
    requires IsSqrt(sqrt)
    requires p.y == q.y
    ensures GetDistance(p, q, sqrt) == Abs(p.x - q.x)
  {
    SquareOfNegation(p.x - q.x);
    assert SquaredDistance(p, q) == Abs(p.x - q.x) * Abs(p.x - q.x);
    SqrtUnique(sqrt, SquaredDistance(p, q), Abs(p.x - q.x));
  }

  /** `Point2D.ToVector`: same components. */
  function PointToVector(p: Point2D): (v: Vector2D)
    ensures v.x == p.x && v.y == p.y
  {
    Vector2D(p.x, p.y)
  }

  /** `Vector2D.ToPoint`: same components. */
  function VectorToPoint(v: Vector2D): (p: Point2D)
    ensures p.x == v.x && p.y == v.y
  {
    Point2D(v.x, v.y)
  }

  lemma PointVectorRoundTrip(p: Point2D, v: Vector2D)
    ensures VectorToPoint(PointToVector(p)) == p
    ensures PointToVector(VectorToPoint(v)) == v
  {
  }

  // ---------------------------------------------------------------------
  // Vector2D
  // ---------------------------------------------------------------------

  /** `new Vector2D(start, end)`: the displacement from start to end. */
  function VectorBetween(start: Point2D, end: Point2D): (v: Vector2D)
    ensures start.x + v.x == end.x && start.y + v.y == end.y
  {
    Vector2D(end.x - start.x, end.y - start.y)
  }

  /** `new Vector2D(value)`: both components equal to value. */
  function UniformVector(value: real): (v: Vector2D)
    ensures v.x == v.y == value
  {
    Vector2D(value, value)
  }

  function Dot(u: Vector2D, v: Vector2D): real {
    u.x * v.x + u.y * v.y
  }

  /** The 2D cross product, the determinant of the two vectors. */
  function Cross(u: Vector2D, v: Vector2D): real {
    u.x * v.y - u.y * v.x
  }

  function Add(u: Vector2D, v: Vector2D): Vector2D {
    Vector2D(u.x + v.x, u.y + v.y)
  }

  function Sub(u: Vector2D, v: Vector2D): Vector2D {
    Vector2D(u.x - v.x, u.y - v.y)
  }

  /** `v + value` and `value + v`: the scalar is added to both components. */
  function AddScalar(v: Vector2D, value: real): Vector2D {
    Vector2D(v.x + value, v.y + value)
  }

  /** `v - value`. */
  function SubScalar(v: Vector2D, value: real): Vector2D {
    Vector2D(v.x - value, v.y - value)
  }

  /** `value - v` as the source writes it: it subtracts the scalar from the
      vector, exactly like `v - value`. */
  function ScalarMinusVector(value: real, v: Vector2D): Vector2D {
    Vector2D(v.x - value, v.y - value)
  }

  /** `v * value`. */
  function Scale(v: Vector2D, value: real): Vector2D {
    Vector2D(v.x * value, v.y * value)
  }

  /** `value * v`. */
  function ScaleLeft(value: real, v: Vector2D): Vector2D {
    Vector2D(v.x * value, v.y * value)
  }

  /** `u * v` between two vectors. */
  function MulVectors(u: Vector2D, v: Vector2D): real {
    Dot(u, v)
  }

  lemma DotCommutative(u: Vector2D, v: Vector2D)
    ensures Dot(u, v) == Dot(v, u)
    ensures MulVectors(u, v) == Dot(u, v)
  {
  }

  lemma CrossAntisymmetric(u: Vector2D, v: Vector2D)
    ensures Cross(u, v) == -Cross(v, u)
    ensures Cross(u, u) == 0.0
  {
  }

  lemma AddThenSubtract(u: Vector2D, v: Vector2D)
    ensures Sub(Add(u, v), v) == u
  {
  }

  lemma ScaleCommutes(value: real, v: Vector2D)
    ensures ScaleLeft(value, v) == Scale(v, value)
  {
  }

  /** The operator `value - v` coincides with `v - value`, which is not the
      componentwise `value - v` unless `v` equals (value, value). */
  lemma ScalarMinusVectorIsVectorMinusScalar(value: real, v: Vector2D)
    ensures ScalarMinusVector(value, v) == SubScalar(v, value)
    ensures ScalarMinusVector(value, v) == Sub(UniformVector(value), v) <==> v == UniformVector(value)
  {
  }

  lemma VectorBetweenIsDifference(start: Point2D, end: Point2D)
    ensures VectorBetween(start, end) == Sub(PointToVector(end), PointToVector(start))
  {
  }
}
