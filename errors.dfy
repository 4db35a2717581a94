/**
 * Errors.cpp: the list of error vectors of a linear factor graph, one vector
 * per factor, with tolerance equality, blockwise difference, the inner
 * product summed over the blocks, and axpy that updates every block in place.
 * The size checks compiled only without NDEBUG are preconditions; the vector
 * operations the file calls (subtraction, dot, axpy on one vector) expect
 * vectors of the same length, which is a precondition as well.
 */
module Errors {
  import opened Vectors

  /** Errors: one vector per factor, in order. */
  type Errors = seq<Vector>

  /** Every block of a has the length of the block of b at its position. */
  predicate SameShape(a: Errors, b: Errors)
  {
    |a| == |b| && forall i :: 0 <= i < |a| ==> |a[i]| == |b[i]|
  }

  // ---------------------------------------------------------------------
  // equals

  /** equals(expected, tol): the same number of blocks, each within tol of the expected one. */
  predicate ErrorsEqual(actual: Errors, expected: Errors, tol: real)
  {
    |actual| == |expected| && forall i :: 0 <= i < |actual| ==> EqualWithAbsTol(actual[i], expected[i], tol)
  }

  /** equals: the size test, then std::equal over the blocks with equal_with_abs_tol. */
  method Equals(actual: Errors, expected: Errors, tol: real) returns (r: bool)
    ensures r <==> ErrorsEqual(actual, expected, tol)
  {
    if |actual| != |expected| {
      return false;
    }
    for i := 0 to |actual|
      invariant forall k :: 0 <= k < i ==> EqualWithAbsTol(actual[k], expected[k], tol)
    {
      var same := EqualWithAbsTolCheck(actual[i], expected[i], tol);
      if !same {
        return false;
      }
    }
    return true;
  }

  /** With a zero tolerance equals is equality of the lists. */
  lemma ErrorsEqualZeroTol(actual: Errors, expected: Errors)
    ensures ErrorsEqual(actual, expected, 0.0) <==> actual == expected
  {
    if |actual| == |expected| {
      forall i | 0 <= i < |actual|
        ensures EqualWithAbsTol(actual[i], expected[i], 0.0) <==> actual[i] == expected[i]
      {
        EqualWithZeroTol(actual[i], expected[i]);
      }
    }
  }

  /** equals does not depend on which list is the expected one. */
  lemma ErrorsEqualSymmetric(a: Errors, b: Errors, tol: real)
    ensures ErrorsEqual(a, b, tol) <==> ErrorsEqual(b, a, tol)
  {
    forall i, k | 0 <= i < |a| && i < |b| && 0 <= k < |a[i]| && k < |b[i]|
      ensures Abs(a[i][k] - b[i][k]) == Abs(b[i][k] - a[i][k])
    {
    }
  }

  // ---------------------------------------------------------------------
  // operator-

  /** ai - bi for two vectors of one length. */
  function VectorDifference(u: Vector, w: Vector): (d: Vector)
    requires |u| == |w|
    ensures |d| == |u|
  {
    seq(|u|, k requires 0 <= k < |u| => u[k] - w[k])
  }

  /** The blockwise difference. */
  function Difference(a: Errors, b: Errors): (d: Errors)
    requires SameShape(a, b)
    ensures SameShape(d, a)
  {
    seq(|a|, i requires 0 <= i < |a| => VectorDifference(a[i], b[i]))
  }

  /** operator-(b): one difference pushed to the back for every block of this list. */
  method Minus(a: Errors, b: Errors) returns (result: Errors)
    requires SameShape(a, b)
    ensures result == Difference(a, b)
  {
    result := [];
    for i := 0 to |a|
      invariant result == Difference(a, b)[..i]
    {
      assert Difference(a, b)[..i + 1] == Difference(a, b)[..i] + [VectorDifference(a[i], b[i])];
      result := result + [VectorDifference(a[i], b[i])];
    }
    assert Difference(a, b)[..|a|] == Difference(a, b);
  }

  /** A list minus itself is all zeros, block by block. */
  lemma DifferenceSelf(a: Errors)
    ensures forall i :: 0 <= i < |a| ==> Difference(a, a)[i] == Zero(|a[i]|)
  {
  }

  // ---------------------------------------------------------------------
  // dot

  /** The dot product of two vectors of one length: the sum of the products. */
  function VectorDot(u: Vector, w: Vector): real
    requires |u| == |w|
  {
    Projection(u, w, |u|)
  }

  /** The dot products of the blocks, one per block. */
  function BlockDots(a: Errors, b: Errors): (d: seq<real>)
    requires SameShape(a, b)
    ensures |d| == |a|
  {
    seq(|a|, i requires 0 <= i < |a| => VectorDot(a[i], b[i]))
  }

  /** The sum of the first n numbers, first to last. */
  function Total(s: seq<real>, n: nat): real
    requires n <= |s|
    decreases n
  {
    if n == 0 then 0.0 else Total(s, n - 1) + s[n - 1]
  }

  /** dot(a, b): the sum over all the blocks of the dot products of the blocks. */
  function ErrorsDot(a: Errors, b: Errors): real
    requires SameShape(a, b)
  {
    Total(BlockDots(a, b), |a|)
  }

  /** dot(a, b): a running sum over the blocks, in order. */
  method Dot(a: Errors, b: Errors) returns (result: real)
    requires SameShape(a, b)
    ensures result == ErrorsDot(a, b)
  {
    result := 0.0;
    for i := 0 to |a|
      invariant result == Total(BlockDots(a, b), i)
    {
      result := result + VectorDot(a[i], b[i]);
    }
  }

  /** Projection is symmetric in its two vectors. */
  lemma {:induction false} ProjectionSymmetric(u: Vector, w: Vector, n: nat)
    requires n <= |u| && n <= |w|
    ensures Projection(u, w, n) == Projection(w, u, n)
    decreases n
  {
    if n > 0 {
      ProjectionSymmetric(u, w, n - 1);
      assert u[n - 1] * w[n - 1] == w[n - 1] * u[n - 1];
    }
  }

  /** A sum of squares is never negative. */
  lemma {:induction false} ProjectionSquares(u: Vector, n: nat)
    requires n <= |u|
    ensures Projection(u, u, n) >= 0.0
    decreases n
  {
    if n > 0 {
      ProjectionSquares(u, n - 1);
      assert u[n - 1] * u[n - 1] >= 0.0;
    }
  }

  /** Summing keeps an entrywise order. */
  lemma {:induction false} TotalMonotone(s: seq<real>, t: seq<real>, n: nat)
    requires n <= |s| && n <= |t|
    requires forall i :: 0 <= i < n ==> s[i] <= t[i]
    ensures Total(s, n) <= Total(t, n)
    decreases n
  {
    if n > 0 {
      TotalMonotone(s, t, n - 1);
    }
  }

  /** dot is symmetric, and dot(a, a) is never negative. */
  lemma ErrorsDotSymmetric(a: Errors, b: Errors)
    requires SameShape(a, b)
    ensures ErrorsDot(a, b) == ErrorsDot(b, a)
    ensures ErrorsDot(a, a) >= 0.0
  {
    var ab, ba, aa := BlockDots(a, b), BlockDots(b, a), BlockDots(a, a);
    forall i | 0 <= i < |a|
      ensures ab[i] == ba[i] && aa[i] >= 0.0
    {
      ProjectionSymmetric(a[i], b[i], |a[i]|);
      ProjectionSquares(a[i], |a[i]|);
    }
    assert ab == ba;
    TotalMonotone(Repeat(|a|, 0.0), aa, |a|);
    TotalRepeatZero(|a|);
  }

  lemma {:induction false} TotalRepeatZero(n: nat)
    ensures Total(Repeat(n, 0.0), n) == 0.0
  {
    if n > 0 {
      assert forall i :: 0 <= i < n - 1 ==> Repeat(n, 0.0)[i] == Repeat(n - 1, 0.0)[i];
      TotalPrefix(Repeat(n, 0.0), Repeat(n - 1, 0.0), n - 1);
      TotalRepeatZero(n - 1);
    }
  }

  /** The sum of the first n numbers depends only on those numbers. */
  lemma {:induction false} TotalPrefix(s: seq<real>, t: seq<real>, n: nat)
    requires n <= |s| && n <= |t|
    requires forall i :: 0 <= i < n ==> s[i] == t[i]
    ensures Total(s, n) == Total(t, n)
    decreases n
  {
    if n > 0 {
      TotalPrefix(s, t, n - 1);
    }
  }

  // ---------------------------------------------------------------------
  // axpy

  /** axpy on one vector: y + alpha x. */
  function VectorAxpy(alpha: real, x: Vector, y: Vector): (r: Vector)
    requires |x| == |y|
    ensures |r| == |y|
  {
    seq(|y|, k requires 0 <= k < |y| => y[k] + alpha * x[k])
  }

  /** The blockwise axpy: y + alpha x on every block of y. */
  function ErrorsAxpy(alpha: real, x: Errors, y: Errors): (r: Errors)
    requires SameShape(x, y)
    ensures SameShape(r, y)
  {
    seq(|y|, i requires 0 <= i < |y| => VectorAxpy(alpha, x[i], y[i]))
  }

  /** axpy(alpha, x, y): every block of y updated in place, the blocks of x read along. */
  method Axpy(alpha: real, x: Errors, y: array<Vector>)
    requires SameShape(x, y[..])
    modifies y
    ensures y[..] == ErrorsAxpy(alpha, x, old(y[..]))
  {
    for i := 0 to y.Length
      invariant forall k :: 0 <= k < i ==> y[k] == VectorAxpy(alpha, x[k], old(y[k]))
      invariant forall k :: i <= k < y.Length ==> y[k] == old(y[k])
    {
      y[i] := VectorAxpy(alpha, x[i], y[i]);
    }
  }

  /** axpy with alpha zero leaves y as it was. */
  lemma AxpyZero(x: Errors, y: Errors)
    requires SameShape(x, y)
    ensures ErrorsAxpy(0.0, x, y) == y
  {
    forall i | 0 <= i < |y|
      ensures ErrorsAxpy(0.0, x, y)[i] == y[i]
    {
      assert VectorAxpy(0.0, x[i], y[i]) == y[i];
    }
  }

  /** operator- undone: axpy with alpha one adds b back to a - b. */
  lemma AxpyUndoesMinus(a: Errors, b: Errors)
    requires SameShape(a, b)
    ensures ErrorsAxpy(1.0, b, Difference(a, b)) == a
  {
    forall i | 0 <= i < |a|
      ensures ErrorsAxpy(1.0, b, Difference(a, b))[i] == a[i]
    {
      assert VectorAxpy(1.0, b[i], VectorDifference(a[i], b[i])) == a[i];
    }
  }

  /** Projection is linear in its first vector. */
  lemma {:induction false} ProjectionAxpy(alpha: real, x: Vector, y: Vector, z: Vector, n: nat)
    requires |x| == |y| && n <= |y| && n <= |z|
    ensures Projection(VectorAxpy(alpha, x, y), z, n) == Projection(y, z, n) + alpha * Projection(x, z, n)
    decreases n
  {
    if n > 0 {
      ProjectionAxpy(alpha, x, y, z, n - 1);
      var k := n - 1;
      assert VectorAxpy(alpha, x, y)[k] * z[k] == y[k] * z[k] + alpha * (x[k] * z[k]);
    }
  }

  /** The inner product after axpy: dot(y + alpha x, z) == dot(y, z) + alpha dot(x, z), as conjugate gradients relies on. */
  lemma ErrorsDotAxpy(alpha: real, x: Errors, y: Errors, z: Errors)
    requires SameShape(x, y) && SameShape(y, z)
    ensures ErrorsDot(ErrorsAxpy(alpha, x, y), z) == ErrorsDot(y, z) + alpha * ErrorsDot(x, z)
  {
    var r := ErrorsAxpy(alpha, x, y);
    var rd, yd, xd := BlockDots(r, z), BlockDots(y, z), BlockDots(x, z);
    forall i | 0 <= i < |y|
      ensures rd[i] == yd[i] + alpha * xd[i]
    {
      ProjectionAxpy(alpha, x[i], y[i], z[i], |y[i]|);
    }
    TotalLinear(alpha, xd, yd, rd, |y|);
  }

  /** Summing is linear: if every r_i is y_i + alpha x_i, so is the sum of the first n. */
  lemma {:induction false} TotalLinear(alpha: real, x: seq<real>, y: seq<real>, r: seq<real>, n: nat)
    requires n <= |x| && n <= |y| && n <= |r|
    requires forall i :: 0 <= i < n ==> r[i] == y[i] + alpha * x[i]
    ensures Total(r, n) == Total(y, n) + alpha * Total(x, n)
    decreases n
  {
    if n > 0 {
      var k := n - 1;
      TotalLinear(alpha, x, y, r, k);
      DotAxpyAlgebra(alpha, Total(y, k), Total(x, k), y[k], x[k], Total(r, k), r[k], Total(y, n), Total(x, n), Total(r, n));
    }
  }

  lemma DotAxpyAlgebra(alpha: real, ys: real, xs: real, yl: real, xl: real, rs: real, rl: real, y: real, x: real, r: real)
    requires rs == ys + alpha * xs && rl == yl + alpha * xl
    requires y == ys + yl && x == xs + xl && r == rs + rl
    ensures r == y + alpha * x
  {
  }
}
