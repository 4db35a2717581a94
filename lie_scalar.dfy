/**
 * LieScalar: a `double` wrapped as a Lie group under addition, with the
 * manifold interface of a one-dimensional chart.
 */
module LieScalars {
  import opened Vectors
  import Manifolds

  /** A wrapped double; the default constructor wraps 0. */
  datatype LieScalar = LieScalar(value: real)

  /** LieScalar(). */
  const Default := LieScalar(0.0)

  /** The default equality tolerance, 1e-5. */
  const DefaultTol: real := 0.00001

  /** equals(expected, tol): |expected - this| <= tol. */
  predicate Equals(p: LieScalar, expected: LieScalar, tol: real) {
    Abs(expected.value - p.value) <= tol
  }

  /** equals is symmetric, and every scalar equals itself for a non-negative tolerance. */
  lemma EqualsSymmetric(p: LieScalar, q: LieScalar, tol: real)
    ensures Equals(p, q, tol) <==> Equals(q, p, tol)
    ensures tol >= 0.0 ==> Equals(p, p, tol)
  {
  }

  /** dim() and Dim(). */
  const Dim: nat := 1

  /** retract(v) = value + v(0); entries of v past the first are ignored. */
  function Retract(p: LieScalar, v: Vector): (q: LieScalar)
    requires |v| >= 1
    ensures q.value - p.value == v[0]
  {
    LieScalar(p.value + v[0])
  }

  /** localCoordinates(t2) = [t2 - value]. */
  function LocalCoordinates(p: LieScalar, t2: LieScalar): (d: Vector)
    ensures |d| == Dim
    ensures Retract(p, d) == t2
  {
    [t2.value - p.value]
  }

  /** localCoordinates(retract(v)) = v for a one-entry v. */
  lemma LocalRetract(p: LieScalar, v: Vector)
    requires |v| == Dim
    ensures LocalCoordinates(p, Retract(p, v)) == v
  {
    assert LocalCoordinates(p, Retract(p, v))[0] == v[0];
  }

  /** The local coordinates are those of the default chart of double. */
  lemma LocalIsScalarChart(p: LieScalar, t2: LieScalar)
    ensures LocalCoordinates(p, t2) == Manifolds.ScalarLocal(p.value, t2.value)
    ensures Retract(p, LocalCoordinates(p, t2)).value == Manifolds.ScalarRetract(p.value, LocalCoordinates(p, t2))
  {
  }

  /** identity() = LieScalar(). */
  function Identity(): (e: LieScalar)
    ensures e == Default
  {
    LieScalar(0.0)
  }

  /** compose(p) adds the wrapped values. */
  function Compose(a: LieScalar, b: LieScalar): (c: LieScalar)
    ensures c.value - b.value == a.value
  {
    LieScalar(a.value + b.value)
  }

  /** between(l2) = l2 - this. */
  function Between(a: LieScalar, l2: LieScalar): (c: LieScalar)
    ensures Compose(a, c) == l2
  {
    LieScalar(l2.value - a.value)
  }

  /** inverse() = -1 * value. */
  function Inverse(a: LieScalar): (c: LieScalar)
    ensures Compose(a, c) == Identity() && Compose(c, a) == Identity()
  {
    LieScalar(-1.0 * a.value)
  }

  /** The group laws: identity is neutral on both sides, compose is associative. */
  lemma GroupLaws(a: LieScalar, b: LieScalar, c: LieScalar)
    ensures Compose(Identity(), a) == a && Compose(a, Identity()) == a
    ensures Compose(Compose(a, b), c) == Compose(a, Compose(b, c))
    ensures Between(a, b) == Compose(Inverse(a), b)
  {
  }

  /** Expmap(v) = LieScalar(v(0)). */
  function Expmap(v: Vector): (p: LieScalar)
    requires |v| >= 1
    ensures p.value == v[0]
  {
    LieScalar(v[0])
  }

  /** Logmap(p) = [p.value]. */
  function Logmap(p: LieScalar): (v: Vector)
    ensures |v| == Dim
    ensures Expmap(v) == p
  {
    [p.value]
  }

  /** Logmap(Expmap(v)) = v for a one-entry v. */
  lemma LogmapExpmap(v: Vector)
    requires |v| == Dim
    ensures Logmap(Expmap(v)) == v
  {
    assert Logmap(Expmap(v))[0] == v[0];
  }
}
