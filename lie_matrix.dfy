/**
 * LieMatrix: a dynamically sized matrix as a Lie group under addition.
 * Its tangent vectors list the entries in row-major order, unlike the
 * column-major default chart of a fixed-size matrix.
 */
module LieMatrices {
  import opened Wrappers
  import opened Vectors
  import opened Matrices
  import opened Manifolds

  /** A matrix with the Lie group interface. */
  datatype LieMatrix = LieMatrix(matrix: Matrix)
  {
    predicate Valid() {
      matrix.Valid()
    }
  }

  /** The default equality tolerance, 1e-5. */
  const DefaultTol: real := 0.00001

  /** equals(expected, tol) = equal_with_abs_tol(matrix(), expected.matrix(), tol). */
  predicate Equals(p: LieMatrix, expected: LieMatrix, tol: real)
    requires p.Valid() && expected.Valid()
  {
    Matrices.EqualWithAbsTol(p.matrix, expected.matrix, tol)
  }

  /** dim() is the number of entries. */
  function Dim(p: LieMatrix): (n: nat)
    ensures n == p.matrix.rows * p.matrix.cols
  {
    p.matrix.rows * p.matrix.cols
  }

  /** The message retract throws on a wrongly sized update. */
  const RetractMessage := "LieMatrix::retract called with Vector of incorrect size"

  /** retract(v): throws unless v has dim() entries; else adds v read row-major. */
  function Retract(p: LieMatrix, v: Vector): (r: Result<LieMatrix>)
    requires p.Valid()
    ensures r.Err? <==> |v| != Dim(p)
    ensures r.Err? ==> r.error == InvalidArgument(RetractMessage)
    ensures r.Ok? ==> r.value.Valid() && SameShape(r.value.matrix, p.matrix)
    ensures r.Ok? ==> forall i, j :: 0 <= i < p.matrix.rows && 0 <= j < p.matrix.cols ==>
      RowMajorIndex(p.matrix.cols, i, j) < |v| && r.value.matrix.entries[i][j] == p.matrix.entries[i][j] + v[RowMajorIndex(p.matrix.cols, i, j)]
  {
    if |v| != p.matrix.rows * p.matrix.cols then Err(InvalidArgument(RetractMessage))
    else
      var q := MatrixPlus(p.matrix, Reshaped(p.matrix.rows, p.matrix.cols, v, RowMajor));
      RetractEntries(p, v, q);
      Ok(LieMatrix(q))
  }

  /** Entry (i, j) of a row-major retraction. */
  lemma RetractEntries(p: LieMatrix, v: Vector, q: Matrix)
    requires p.Valid() && |v| == p.matrix.rows * p.matrix.cols
    requires q == MatrixPlus(p.matrix, Reshaped(p.matrix.rows, p.matrix.cols, v, RowMajor))
    ensures forall i, j :: 0 <= i < p.matrix.rows && 0 <= j < p.matrix.cols ==>
      RowMajorIndex(p.matrix.cols, i, j) < |v| && q.entries[i][j] == p.matrix.entries[i][j] + v[RowMajorIndex(p.matrix.cols, i, j)]
  {
    forall i, j | 0 <= i < p.matrix.rows && 0 <= j < p.matrix.cols
      ensures RowMajorIndex(p.matrix.cols, i, j) < |v| && q.entries[i][j] == p.matrix.entries[i][j] + v[RowMajorIndex(p.matrix.cols, i, j)]
    {
      RowMajorEntry(p.matrix.rows, p.matrix.cols, v, i, j);
    }
  }

  /** localCoordinates(t2): t2 - this, written row-major into a dim()-vector. */
  function LocalCoordinates(p: LieMatrix, t2: LieMatrix): (d: Vector)
    requires SameShape(p.matrix, t2.matrix)
    ensures |d| == Dim(p)
    ensures Retract(p, d) == Ok(t2)
  {
    var diff := MatrixMinus(t2.matrix, p.matrix);
    ReshapedFlattened(diff, RowMajor);
    Flattened(diff, RowMajor)
  }

  /** localCoordinates(retract(v)) = v when retract succeeds. */
  lemma LocalRetract(p: LieMatrix, v: Vector)
    requires p.Valid() && |v| == Dim(p)
    ensures Retract(p, v).Ok? && LocalCoordinates(p, Retract(p, v).value) == v
  {
    MatrixLocalRetract(p.matrix, v, RowMajor);
  }

  /** The manifold operations are the matrix chart's, in row-major order. */
  lemma RowMajorChart(p: LieMatrix, t2: LieMatrix, v: Vector)
    requires SameShape(p.matrix, t2.matrix) && |v| == Dim(p)
    ensures LocalCoordinates(p, t2) == MatrixLocal(p.matrix, t2.matrix, RowMajor)
    ensures Retract(p, v) == Ok(LieMatrix(MatrixRetract(p.matrix, v, RowMajor)))
  {
  }

  /** The message identity() throws. */
  const IdentityMessage := "LieMatrix::identity(): Don't use this function"

  /** identity() throws: there is no size to give the zero matrix. */
  function Identity(): (r: Result<LieMatrix>)
    ensures r.Err? && r.error.RuntimeError?
  {
    Err(RuntimeError(IdentityMessage))
  }

  /** compose(p) = this + p. */
  function Compose(a: LieMatrix, b: LieMatrix): (c: LieMatrix)
    requires SameShape(a.matrix, b.matrix)
    ensures SameShape(c.matrix, a.matrix)
    ensures forall i, j :: 0 <= i < a.matrix.rows && 0 <= j < a.matrix.cols ==>
      c.matrix.entries[i][j] == a.matrix.entries[i][j] + b.matrix.entries[i][j]
  {
    LieMatrix(MatrixPlus(a.matrix, b.matrix))
  }

  /** between(l2) = l2 - this. */
  function Between(a: LieMatrix, l2: LieMatrix): (c: LieMatrix)
    requires SameShape(a.matrix, l2.matrix)
    ensures SameShape(c.matrix, a.matrix)
    ensures Compose(a, c) == l2
  {
    LieMatrix(MatrixMinus(l2.matrix, a.matrix))
  }

  /** inverse() = -this. */
  function Inverse(a: LieMatrix): (c: LieMatrix)
    requires a.Valid()
    ensures SameShape(c.matrix, a.matrix)
    ensures Compose(a, c) == LieMatrix(Zeros(a.matrix.rows, a.matrix.cols))
  {
    LieMatrix(MatrixNegated(a.matrix))
  }

  /** The zero matrix of the right shape is neutral, compose is associative, and between is inverse-then-compose. */
  lemma GroupLaws(a: LieMatrix, b: LieMatrix, c: LieMatrix)
    requires SameShape(a.matrix, b.matrix) && SameShape(b.matrix, c.matrix)
    ensures Compose(LieMatrix(Zeros(a.matrix.rows, a.matrix.cols)), a) == a
    ensures Compose(Compose(a, b), c) == Compose(a, Compose(b, c))
    ensures Between(a, b) == Compose(Inverse(a), b)
  {
    Extensionality(Compose(LieMatrix(Zeros(a.matrix.rows, a.matrix.cols)), a).matrix, a.matrix);
    Extensionality(Compose(Compose(a, b), c).matrix, Compose(a, Compose(b, c)).matrix);
    Extensionality(Between(a, b).matrix, Compose(Inverse(a), b).matrix);
  }

  /** The message Expmap throws. */
  const ExpmapMessage := "LieMatrix::Expmap(): Don't use this function"

  /** Expmap(v) throws. */
  function Expmap(v: Vector): (r: Result<LieMatrix>)
    ensures r.Err? && r.error.RuntimeError?
  {
    Err(RuntimeError(ExpmapMessage))
  }

  /** Logmap(p): the entries of p in row-major order. */
  function Logmap(p: LieMatrix): (v: Vector)
    requires p.Valid()
    ensures |v| == Dim(p)
    ensures forall i, j :: 0 <= i < p.matrix.rows && 0 <= j < p.matrix.cols ==>
      RowMajorIndex(p.matrix.cols, i, j) < |v| && v[RowMajorIndex(p.matrix.cols, i, j)] == p.matrix.entries[i][j]
  {
    var v := Flattened(p.matrix, RowMajor);
    LogmapEntries(p, v);
    v
  }

  /** Entry i*cols + j of the row-major flattening is p(i, j). */
  lemma LogmapEntries(p: LieMatrix, v: Vector)
    requires p.Valid() && v == Flattened(p.matrix, RowMajor)
    ensures forall i, j :: 0 <= i < p.matrix.rows && 0 <= j < p.matrix.cols ==>
      RowMajorIndex(p.matrix.cols, i, j) < |v| && v[RowMajorIndex(p.matrix.cols, i, j)] == p.matrix.entries[i][j]
  {
    var A, m, n := p.matrix, p.matrix.rows, p.matrix.cols;
    ReshapedFlattened(A, RowMajor);
    assert Reshaped(m, n, v, RowMajor) == A;
    forall i, j | 0 <= i < m && 0 <= j < n
      ensures RowMajorIndex(n, i, j) < |v| && v[RowMajorIndex(n, i, j)] == A.entries[i][j]
    {
      RowMajorEntry(m, n, v, i, j);
    }
  }

  /** Logmap is the local coordinate map around the zero matrix. */
  lemma LogmapIsLocalAtZero(p: LieMatrix)
    requires p.Valid()
    ensures Logmap(p) == LocalCoordinates(LieMatrix(Zeros(p.matrix.rows, p.matrix.cols)), p)
  {
    Extensionality(MatrixMinus(p.matrix, Zeros(p.matrix.rows, p.matrix.cols)), p.matrix);
  }
}
