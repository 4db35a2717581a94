/**
 * LieVector: a dynamically sized vector as a Lie group under addition.
 * The size is only known at run time, so identity() refuses to answer.
 */
module LieVectors {
  import opened Wrappers
  import opened Vectors
  import Manifolds

  /** A vector with the Lie group interface. */
  datatype LieVector = LieVector(vector: Vector)

  /** The default equality tolerance, 1e-5. */
  const DefaultTol: real := 0.00001

  /** equals(expected, tol): the underlying vectors are equal within tol. */
  predicate Equals(p: LieVector, expected: LieVector, tol: real) {
    EqualWithAbsTol(p.vector, expected.vector, tol)
  }

  /** dim() is the length of the vector. */
  function Dim(p: LieVector): (n: nat)
    ensures n == |p.vector|
  {
    |p.vector|
  }

  /** retract(v) = vector + v. */
  function Retract(p: LieVector, v: Vector): (q: LieVector)
    requires |v| == Dim(p)
    ensures Dim(q) == Dim(p)
    ensures forall i :: 0 <= i < Dim(q) ==> q.vector[i] - p.vector[i] == v[i]
  {
    LieVector(Manifolds.Plus(p.vector, v))
  }

  /** localCoordinates(t2) = t2 - vector. */
  function LocalCoordinates(p: LieVector, t2: LieVector): (d: Vector)
    requires Dim(t2) == Dim(p)
    ensures |d| == Dim(p)
    ensures Retract(p, d) == t2
  {
    Manifolds.Minus(t2.vector, p.vector)
  }

  /** localCoordinates(retract(v)) = v. */
  lemma LocalRetract(p: LieVector, v: Vector)
    requires |v| == Dim(p)
    ensures LocalCoordinates(p, Retract(p, v)) == v
  {
  }

  /** retract and localCoordinates are those of the default chart of Vector. */
  lemma RetractIsVectorChart(p: LieVector, t2: LieVector)
    requires Dim(t2) == Dim(p)
    ensures LocalCoordinates(p, t2) == Manifolds.VectorLocal(p.vector, t2.vector)
    ensures Retract(p, LocalCoordinates(p, t2)).vector == Manifolds.VectorRetract(p.vector, LocalCoordinates(p, t2))
  {
  }

  /** The message identity() throws. */
  const IdentityMessage := "LieVector::identity(): Don't use this function"

  /** identity() throws: there is no size to give the zero vector. */
  function Identity(): (r: Result<LieVector>)
    ensures r.Err? && r.error.RuntimeError?
  {
    Err(RuntimeError(IdentityMessage))
  }

  /** compose(p) = vector + p. */
  function Compose(a: LieVector, b: LieVector): (c: LieVector)
    requires Dim(a) == Dim(b)
    ensures Dim(c) == Dim(a) && forall i :: 0 <= i < Dim(c) ==> c.vector[i] == a.vector[i] + b.vector[i]
  {
    LieVector(Manifolds.Plus(a.vector, b.vector))
  }

  /** between(l2) = l2 - vector. */
  function Between(a: LieVector, l2: LieVector): (c: LieVector)
    requires Dim(a) == Dim(l2)
    ensures Dim(c) == Dim(a)
    ensures Compose(a, c) == l2
  {
    LieVector(Manifolds.Minus(l2.vector, a.vector))
  }

  /** inverse() = -1 * vector. */
  function Inverse(a: LieVector): (c: LieVector)
    ensures Dim(c) == Dim(a)
    ensures Compose(a, c) == LieVector(Zero(Dim(a)))
  {
    LieVector(seq(|a.vector|, i requires 0 <= i < |a.vector| => -1.0 * a.vector[i]))
  }

  /** The zero vector of the right size is neutral, compose is associative, and between is inverse-then-compose. */
  lemma GroupLaws(a: LieVector, b: LieVector, c: LieVector)
    requires Dim(a) == Dim(b) == Dim(c)
    ensures Compose(LieVector(Zero(Dim(a))), a) == a && Compose(a, LieVector(Zero(Dim(a)))) == a
    ensures Compose(Compose(a, b), c) == Compose(a, Compose(b, c))
    ensures Between(a, b) == Compose(Inverse(a), b)
  {
  }

  /** Expmap(v) = LieVector(v). */
  function Expmap(v: Vector): (p: LieVector)
    ensures Dim(p) == |v|
  {
    LieVector(v)
  }

  /** Logmap(p) = p. */
  function Logmap(p: LieVector): (v: Vector)
    ensures Expmap(v) == p
  {
    p.vector
  }

  /** Logmap(Expmap(v)) = v. */
  lemma LogmapExpmap(v: Vector)
    ensures Logmap(Expmap(v)) == v
  {
  }
}
