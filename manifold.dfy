/**
 * The charts of Manifold.h: local coordinates and retraction for `double`,
 * for the dynamically sized `Vector` and for fixed-size matrices, the
 * `zero` and `dimension` traits, and the canonical chart around zero.
 * A fixed-size matrix is flattened in its storage order, which is Eigen's
 * column-major order unless the matrix type asks for row-major storage.
 */
module Manifolds {
  import opened Vectors
  import opened Matrices

  // ---------------------------------------------------------------------
  // Elementwise arithmetic shared by the vector and matrix charts

  /** a + b. */
  function Plus(a: Vector, b: Vector): (c: Vector)
    requires |a| == |b|
    ensures |c| == |a| && forall i :: 0 <= i < |c| ==> c[i] == a[i] + b[i]
  {
    seq(|a|, i requires 0 <= i < |a| => a[i] + b[i])
  }

  /** a - b. */
  function Minus(a: Vector, b: Vector): (c: Vector)
    requires |a| == |b|
    ensures |c| == |a| && forall i :: 0 <= i < |c| ==> c[i] == a[i] - b[i]
    ensures Plus(b, c) == a
  {
    seq(|a|, i requires 0 <= i < |a| => a[i] - b[i])
  }

  /** -a. */
  function Negated(a: Vector): (c: Vector)
    ensures |c| == |a| && forall i :: 0 <= i < |c| ==> c[i] == -a[i]
    ensures Plus(a, c) == Zero(|a|)
  {
    seq(|a|, i requires 0 <= i < |a| => -a[i])
  }

  /** Two matrices of the same shape. */
  predicate SameShape(A: Matrix, B: Matrix) {
    A.Valid() && B.Valid() && A.rows == B.rows && A.cols == B.cols
  }

  /** A + B. */
  function MatrixPlus(A: Matrix, B: Matrix): (C: Matrix)
    requires SameShape(A, B)
    ensures SameShape(C, A)
    ensures forall i, j :: 0 <= i < C.rows && 0 <= j < C.cols ==> C.entries[i][j] == A.entries[i][j] + B.entries[i][j]
  {
    Matrix(A.rows, A.cols, seq(A.rows, i requires 0 <= i < A.rows => Plus(A.entries[i], B.entries[i])))
  }

  /** A - B. */
  function MatrixMinus(A: Matrix, B: Matrix): (C: Matrix)
    requires SameShape(A, B)
    ensures SameShape(C, A)
    ensures forall i, j :: 0 <= i < C.rows && 0 <= j < C.cols ==> C.entries[i][j] == A.entries[i][j] - B.entries[i][j]
    ensures MatrixPlus(B, C) == A
  {
    var C := Matrix(A.rows, A.cols, seq(A.rows, i requires 0 <= i < A.rows => Minus(A.entries[i], B.entries[i])));
    Extensionality(MatrixPlus(B, C), A);
    C
  }

  /** -A. */
  function MatrixNegated(A: Matrix): (C: Matrix)
    requires A.Valid()
    ensures SameShape(C, A)
    ensures forall i, j :: 0 <= i < C.rows && 0 <= j < C.cols ==> C.entries[i][j] == -A.entries[i][j]
    ensures MatrixPlus(A, C) == Zeros(A.rows, A.cols)
  {
    var C := Matrix(A.rows, A.cols, seq(A.rows, i requires 0 <= i < A.rows => Negated(A.entries[i])));
    Extensionality(MatrixPlus(A, C), Zeros(A.rows, A.cols));
    C
  }

  // ---------------------------------------------------------------------
  // Storage order of a matrix

  /** Eigen's two storage orders; ColMajor is the default. */
  datatype StorageOrder = ColMajor | RowMajor

  /** The entries of A in storage order, as an Eigen::Map over A.data() sees them. */
  function Flattened(A: Matrix, order: StorageOrder): (v: Vector)
    requires A.Valid()
    ensures |v| == A.rows * A.cols
  {
    if order == ColMajor then
      FlattenLength(A);
      Flatten(A)
    else
      FlattenLength(Transpose(A));
      Flatten(Transpose(A))
  }

  /** The m-by-n matrix whose storage, in the given order, is v. */
  function Reshaped(m: nat, n: nat, v: Vector, order: StorageOrder): (A: Matrix)
    requires |v| == m * n
    ensures A.Valid() && A.rows == m && A.cols == n
  {
    if order == ColMajor then ColumnMajor(m, n, v) else Transpose(ColumnMajor(n, m, v))
  }

  /** Reshaping the storage of A gives A back. */
  lemma ReshapedFlattened(A: Matrix, order: StorageOrder)
    requires A.Valid()
    ensures Reshaped(A.rows, A.cols, Flattened(A, order), order) == A
  {
    if order == ColMajor {
      FlattenColumnMajor(A);
    } else {
      FlattenColumnMajor(Transpose(A));
      TransposeTwice(A);
    }
  }

  /** The storage of a reshaped vector is that vector. */
  lemma FlattenedReshaped(m: nat, n: nat, v: Vector, order: StorageOrder)
    requires |v| == m * n
    ensures Flattened(Reshaped(m, n, v, order), order) == v
  {
    if order == ColMajor {
      ColumnMajorFlatten(m, n, v);
    } else {
      TransposeTwice(ColumnMajor(n, m, v));
      ColumnMajorFlatten(n, m, v);
    }
  }

  /** The position of entry (i, j) in the row-major storage of a matrix with n columns. */
  function RowMajorIndex(n: nat, i: nat, j: nat): nat {
    i * n + j
  }

  /** In row-major storage, entry (i, j) sits at i*n + j. */
  lemma RowMajorEntry(m: nat, n: nat, v: Vector, i: nat, j: nat)
    requires |v| == m * n && i < m && j < n
    ensures RowMajorIndex(n, i, j) < |v| && Reshaped(m, n, v, RowMajor).entries[i][j] == v[RowMajorIndex(n, i, j)]
  {
    ColumnMajorEntry(n, m, v, j, i);
  }

  // ---------------------------------------------------------------------
  // Traits

  /** traits::zero<double>. */
  const ScalarZero: real := 0.0

  /** traits::dimension<double>. */
  const ScalarDimension: nat := 1

  /** traits::zero of a fixed M-by-N matrix: Matrix::Zero(). */
  function MatrixZero(m: nat, n: nat): (Z: Matrix)
    ensures Z.Valid() && Z.rows == m && Z.cols == n
    ensures forall i, j :: 0 <= i < m && 0 <= j < n ==> Z.entries[i][j] == 0.0
  {
    Zeros(m, n)
  }

  /** traits::dimension of a fixed M-by-N matrix. */
  function MatrixDimension(m: nat, n: nat): nat {
    m * n
  }

  // ---------------------------------------------------------------------
  // DefaultChart<double>

  /** local(origin, other): the 1-vector [other - origin]. */
  function ScalarLocal(origin: real, other: real): (d: Vector)
    ensures |d| == ScalarDimension
    ensures ScalarRetract(origin, d) == other
  {
    [other - origin]
  }

  /** retract(origin, d) = origin + d[0]. */
  function ScalarRetract(origin: real, d: Vector): real
    requires |d| == ScalarDimension
  {
    origin + d[0]
  }

  /** local(origin, retract(origin, d)) = d. */
  lemma ScalarLocalRetract(origin: real, d: Vector)
    requires |d| == ScalarDimension
    ensures ScalarLocal(origin, ScalarRetract(origin, d)) == d
  {
    assert ScalarLocal(origin, ScalarRetract(origin, d))[0] == d[0];
  }

  // ---------------------------------------------------------------------
  // DefaultChart<Vector>

  /** local(origin, other) = other - origin. */
  function VectorLocal(origin: Vector, other: Vector): (d: Vector)
    requires |origin| == |other|
    ensures |d| == VectorDimension(origin)
    ensures VectorRetract(origin, d) == other
  {
    Minus(other, origin)
  }

  /** retract(origin, d) = origin + d. */
  function VectorRetract(origin: Vector, d: Vector): Vector
    requires |origin| == |d|
  {
    Plus(origin, d)
  }

  /** getDimension(origin) = origin.size(). */
  function VectorDimension(origin: Vector): nat {
    |origin|
  }

  /** local(origin, retract(origin, d)) = d. */
  lemma VectorLocalRetract(origin: Vector, d: Vector)
    requires |origin| == |d|
    ensures VectorLocal(origin, VectorRetract(origin, d)) == d
  {
  }

  // ---------------------------------------------------------------------
  // DefaultChart of a fixed-size matrix

  /** local(origin, other): other - origin, read through a map over its storage. */
  function MatrixLocal(origin: Matrix, other: Matrix, order: StorageOrder): (d: Vector)
    requires SameShape(origin, other)
    ensures |d| == MatrixChartDimension(origin)
    ensures MatrixRetract(origin, d, order) == other
  {
    var diff := MatrixMinus(other, origin);
    ReshapedFlattened(diff, order);
    Flattened(diff, order)
  }

  /** retract(origin, d): origin plus d mapped back onto the matrix storage. */
  function MatrixRetract(origin: Matrix, d: Vector, order: StorageOrder): (A: Matrix)
    requires origin.Valid() && |d| == origin.rows * origin.cols
    ensures SameShape(A, origin)
  {
    MatrixPlus(origin, Reshaped(origin.rows, origin.cols, d, order))
  }

  /** getDimension(origin) = rows * cols, the dimension trait. */
  function MatrixChartDimension(origin: Matrix): (n: nat)
    ensures n == MatrixDimension(origin.rows, origin.cols)
  {
    origin.rows * origin.cols
  }

  /** local(origin, retract(origin, d)) = d. */
  lemma MatrixLocalRetract(origin: Matrix, d: Vector, order: StorageOrder)
    requires origin.Valid() && |d| == origin.rows * origin.cols
    ensures MatrixLocal(origin, MatrixRetract(origin, d, order), order) == d
  {
    var D := Reshaped(origin.rows, origin.cols, d, order);
    var A := MatrixRetract(origin, d, order);
    Extensionality(MatrixMinus(A, origin), D);
    FlattenedReshaped(origin.rows, origin.cols, d, order);
  }

  // ---------------------------------------------------------------------
  // CanonicalChart: a chart around traits::zero

  /** Canonical<double>::local(t) = local(0, t). */
  function CanonicalScalarLocal(t: real): (v: Vector)
    ensures |v| == 1 && v[0] == t
  {
    ScalarLocal(ScalarZero, t)
  }

  /** Canonical<double>::retract(v) = retract(0, v). */
  function CanonicalScalarRetract(v: Vector): (t: real)
    requires |v| == ScalarDimension
    ensures CanonicalScalarLocal(t) == v
  {
    ScalarLocalRetract(ScalarZero, v);
    ScalarRetract(ScalarZero, v)
  }

  /** Canonical local of a fixed-size matrix: its storage, since zero is the origin. */
  function CanonicalMatrixLocal(m: nat, n: nat, t: Matrix, order: StorageOrder): (v: Vector)
    requires t.Valid() && t.rows == m && t.cols == n
    ensures v == Flattened(t, order)
  {
    var v := MatrixLocal(MatrixZero(m, n), t, order);
    Extensionality(MatrixMinus(t, MatrixZero(m, n)), t);
    v
  }

  /** Canonical retract of a fixed-size matrix: the reshaped coordinates. */
  function CanonicalMatrixRetract(m: nat, n: nat, v: Vector, order: StorageOrder): (t: Matrix)
    requires |v| == m * n
    ensures t == Reshaped(m, n, v, order)
  {
    var t := MatrixRetract(MatrixZero(m, n), v, order);
    Extensionality(t, Reshaped(m, n, v, order));
    t
  }
}
