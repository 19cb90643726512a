/** Numeric helpers shared by every utility: the tolerance, absolute value,
    the sort the range tests rely on, and the interval test itself
    (Math2DPrimitives/Utilities/GeneralUtilities.cs). */
module General {

  /** The tolerance under which two coordinates are treated as equal. */
  const Fudge: real := 0.001

  function Abs(x: real): real {
    if x < 0.0 then -x else x
  }

  function Min(a: real, b: real): real {
    if a <= b then a else b
  }

  function Max(a: real, b: real): real {
    if a <= b then b else a
  }

  /** Symmetric tolerance comparison `Math.Abs(a - b) <= fudge`. */
  predicate Near(a: real, b: real) {
    Abs(a - b) <= Fudge
  }

  lemma NearSymmetric(a: real, b: real)
    ensures Near(a, b) <==> Near(b, a)
  {
  }

  /** The square of a real, never negative. */
  function Square(a: real): (r: real)
    ensures 0.0 <= r
    ensures a == 0.0 ==> r == 0.0
  {
    a * a
  }

  lemma SquareOfNegation(a: real)
    ensures Square(-a) == Square(a)
    ensures Square(a) == a * a
  {
  }

  // ---------------------------------------------------------------------
  // Square roots are not computed: a caller passes a function and the
  // lemmas that need its meaning ask for `IsSqrt`.
  // ---------------------------------------------------------------------

  /** `sqrt` behaves as the non-negative square root on non-negative reals,
      which is positive exactly on positive reals. */
  ghost predicate IsSqrt(sqrt: real -> real) {
    forall x: real :: 0.0 <= x ==> 0.0 <= sqrt(x) && sqrt(x) * sqrt(x) == x && (0.0 < x ==> 0.0 < sqrt(x))
  }

  /** A non-negative square root is unique. */
  lemma SqrtUnique(sqrt: real -> real, x: real, y: real)
    requires IsSqrt(sqrt)
    requires 0.0 <= y && y * y == x
    ensures sqrt(x) == y
  {
    var s := sqrt(x);
    assert 0.0 <= s && s * s == x;
    assert (s - y) * (s + y) == s * s - y * y;
    if s + y == 0.0 {
      assert s == 0.0 && y == 0.0;
    } else {
      assert s - y == (s * s - y * y) / (s + y);
    }
  }

  lemma SqrtZero(sqrt: real -> real)
    requires IsSqrt(sqrt)
    ensures sqrt(0.0) == 0.0
  {
    SqrtUnique(sqrt, 0.0, 0.0);
  }

  // ---------------------------------------------------------------------
  // Sorting, as `List<double>.Sort()` leaves the list.
  // ---------------------------------------------------------------------

  predicate Sorted(s: seq<real>) {
    forall i, j :: 0 <= i < j < |s| ==> s[i] <= s[j]
  }

  function Insert(x: real, s: seq<real>): (r: seq<real>)
    requires Sorted(s)
    ensures Sorted(r)
    ensures multiset(r) == multiset(s) + multiset{x}
    ensures |r| == |s| + 1
    ensures r[0] == x || (|s| > 0 && r[0] == s[0])
  {
    if |s| == 0 then [x]
    else if x <= s[0] then [x] + s
    else
      var rest := Insert(x, s[1..]);
      assert s == [s[0]] + s[1..];
      assert s[0] <= rest[0];
      [s[0]] + rest
  }

  /** Insertion sort: an ascending permutation of its input. */
  function Sort(s: seq<real>): (r: seq<real>)
    ensures Sorted(r)
    ensures multiset(r) == multiset(s)
    ensures |r| == |s|
  {
    if |s| == 0 then []
    else
      assert s == [s[0]] + s[1..];
      Insert(s[0], Sort(s[1..]))
  }

  /** In a sorted sequence every element lies between the first and the last. */
  lemma SortedBounds(a: seq<real>)
    requires Sorted(a) && |a| > 0
    ensures forall x :: x in a ==> a[0] <= x <= a[|a| - 1]
  {
  }

  /** The first and last entries of a sorted permutation are the least and
      the greatest of the input. */
  lemma SortedExtremes(s: seq<real>)
    requires |s| > 0
    ensures var a := Sort(s);
      && a[0] in s && a[|a| - 1] in s
      && forall x :: x in s ==> a[0] <= x <= a[|a| - 1]
  {
    var a := Sort(s);
    SortedBounds(a);
    assert a[0] in multiset(a);
    assert a[|a| - 1] in multiset(a);
    assert forall x :: x in s <==> x in multiset(s);
    assert forall x :: x in a <==> x in multiset(a);
  }

  /** Whether every number lies between the two extremes, in either order.
      As in the source, the extremes and the numbers are sorted together and
      the extremes must come out first and last. */
  function AreNumbersInRange(extreme1: real, extreme2: real, numbers: seq<real>): (r: bool)
    ensures r <==> forall n :: n in numbers ==> Min(extreme1, extreme2) <= n <= Max(extreme1, extreme2)
  {
    var list := [extreme1, extreme2] + numbers;
    var a := Sort(list);
    SortedExtremes(list);
    ListMembers(extreme1, extreme2, numbers);
    assert extreme1 in list && extreme2 in list;
    assert a[0] <= extreme1 && a[0] <= extreme2;
    assert extreme1 <= a[|a| - 1] && extreme2 <= a[|a| - 1];
    assert forall n :: n in numbers ==> a[0] <= n <= a[|a| - 1];
    RangeByExtremes(extreme1, extreme2, numbers, a[0], a[|a| - 1]);
    (a[0] == extreme1 && a[|a| - 1] == extreme2) || (a[0] == extreme2 && a[|a| - 1] == extreme1)
  }

  /** The members of the list `AreNumbersInRange` sorts. */
  lemma ListMembers(extreme1: real, extreme2: real, numbers: seq<real>)
    ensures forall x :: x in [extreme1, extreme2] + numbers <==> x == extreme1 || x == extreme2 || x in numbers
  {
  }

  /** The least and the greatest of the extremes and the numbers are the two
      extremes exactly when every number lies between them. */
  lemma RangeByExtremes(extreme1: real, extreme2: real, numbers: seq<real>, lo: real, hi: real)
    requires lo == extreme1 || lo == extreme2 || lo in numbers
    requires hi == extreme1 || hi == extreme2 || hi in numbers
    requires lo <= extreme1 && lo <= extreme2 && extreme1 <= hi && extreme2 <= hi
    requires forall n :: n in numbers ==> lo <= n <= hi
    ensures ((lo == extreme1 && hi == extreme2) || (lo == extreme2 && hi == extreme1))
        <==> forall n :: n in numbers ==> Min(extreme1, extreme2) <= n <= Max(extreme1, extreme2)
  {
  }

  lemma InRangeSymmetric(extreme1: real, extreme2: real, numbers: seq<real>)
    ensures AreNumbersInRange(extreme1, extreme2, numbers) == AreNumbersInRange(extreme2, extreme1, numbers)
  {
  }

  lemma InRangeEmpty(extreme1: real, extreme2: real)
    ensures AreNumbersInRange(extreme1, extreme2, [])
  {
  }

  lemma InRangeOwnExtremes(extreme1: real, extreme2: real)
    ensures AreNumbersInRange(extreme1, extreme2, [extreme1])
    ensures AreNumbersInRange(extreme1, extreme2, [extreme2])
  {
    InRangeWhenAllBetween(extreme1, extreme2, [extreme1]);
    InRangeWhenAllBetween(extreme1, extreme2, [extreme2]);
  }

  lemma InRangeWhenAllBetween(extreme1: real, extreme2: real, numbers: seq<real>)
    requires forall n :: n in numbers ==> Min(extreme1, extreme2) <= n <= Max(extreme1, extreme2)
    ensures AreNumbersInRange(extreme1, extreme2, numbers)
  {
  }

  /** A single number is in range exactly when it lies between the
      extremes. */
  lemma InRangeSingle(extreme1: real, extreme2: real, n: real)
    ensures AreNumbersInRange(extreme1, extreme2, [n]) <==> Min(extreme1, extreme2) <= n <= Max(extreme1, extreme2)
  {
    assert n in [n];
  }

  /** Only the multiset of numbers matters, not their order. */
  lemma InRangeOrderIndependent(extreme1: real, extreme2: real, ns: seq<real>, ms: seq<real>)
    requires multiset(ns) == multiset(ms)
    ensures AreNumbersInRange(extreme1, extreme2, ns) == AreNumbersInRange(extreme1, extreme2, ms)
  {
    assert forall n :: n in ns <==> n in multiset(ns);
    assert forall n :: n in ms <==> n in multiset(ms);
  }
}
