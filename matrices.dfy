/**
 * The dense matrix kernel of Matrix.cpp, with `double` modelled as `real`.
 * A matrix value records its dimensions and its rows; the index loops that
 * fill a freshly allocated matrix fill an `array2` buffer whose final
 * contents are returned as a value, and the routines that update `A` and
 * `b` in place take an `array2` and an `array`.
 */
module Matrices {
  import opened Wrappers
  import opened Vectors

  /** An m-by-n matrix: `entries[i][j]` is A(i,j). */
  datatype Matrix = Matrix(rows: nat, cols: nat, entries: seq<seq<real>>)
  {
    predicate Valid() {
      |entries| == rows && forall i :: 0 <= i < rows ==> |entries[i]| == cols
    }
  }

  /** The contents of a buffer, as a matrix value. */
  function Snapshot(buffer: array2<real>): (M: Matrix)
    reads buffer
    ensures M.Valid() && M.rows == buffer.Length0 && M.cols == buffer.Length1
    ensures forall i, j :: 0 <= i < M.rows && 0 <= j < M.cols ==> M.entries[i][j] == buffer[i, j]
  {
    Matrix(buffer.Length0, buffer.Length1,
      seq(buffer.Length0, i requires 0 <= i < buffer.Length0 reads buffer =>
        seq(buffer.Length1, j requires 0 <= j < buffer.Length1 reads buffer => buffer[i, j])))
  }

  /** Two matrices with the same dimensions and entries are equal. */
  lemma Extensionality(A: Matrix, B: Matrix)
    requires A.Valid() && B.Valid() && A.rows == B.rows && A.cols == B.cols
    requires forall i, j :: 0 <= i < A.rows && 0 <= j < A.cols ==> A.entries[i][j] == B.entries[i][j]
    ensures A == B
  {
    forall i | 0 <= i < A.rows ensures A.entries[i] == B.entries[i] {
    }
  }

  /** Two matrices with the same dimensions and rows are equal. */
  lemma RowExtensionality(A: Matrix, B: Matrix)
    requires A.Valid() && B.Valid() && A.rows == B.rows && A.cols == B.cols
    requires forall i :: 0 <= i < A.rows ==> A.entries[i] == B.entries[i]
    ensures A == B
  {
  }

  /** zeros(m, n). */
  function Zeros(m: nat, n: nat): (Z: Matrix)
    ensures Z.Valid() && Z.rows == m && Z.cols == n
    ensures forall i, j :: 0 <= i < m && 0 <= j < n ==> Z.entries[i][j] == 0.0
  {
    Matrix(m, n, seq(m, _ => Zero(n)))
  }

  // ---------------------------------------------------------------------
  // Column-major conversion

  /** Column j of a matrix. */
  function Column(A: Matrix, j: nat): (c: Vector)
    requires A.Valid() && j < A.cols
    ensures |c| == A.rows && forall i :: 0 <= i < A.rows ==> c[i] == A.entries[i][j]
  {
    seq(A.rows, i requires 0 <= i < A.rows => A.entries[i][j])
  }

  /** The columns of a matrix, left to right. */
  function ColumnsOf(A: Matrix): (cs: seq<Vector>)
    requires A.Valid()
    ensures |cs| == A.cols && forall j :: 0 <= j < A.cols ==> cs[j] == Column(A, j)
  {
    seq(A.cols, j requires 0 <= j < A.cols => Column(A, j))
  }

  /** Every vector of the list has length m. */
  predicate Uniform(cs: seq<Vector>, m: nat) {
    forall j :: 0 <= j < |cs| ==> |cs[j]| == m
  }

  /** The m-row matrix whose columns are cs. */
  function FromColumns(m: nat, cs: seq<Vector>): (A: Matrix)
    requires Uniform(cs, m)
    ensures A.Valid() && A.rows == m && A.cols == |cs|
    ensures forall i, j :: 0 <= i < m && 0 <= j < |cs| ==> A.entries[i][j] == cs[j][i]
  {
    Matrix(m, |cs|, seq(m, i requires 0 <= i < m => seq(|cs|, j requires 0 <= j < |cs| => cs[j][i])))
  }

  lemma MulStep(m: nat, n: nat)
    requires n > 0
    ensures m <= m * n && m * n - m == m * (n - 1)
  {
  }

  /** v cut into n consecutive pieces of length m. */
  function Split(v: Vector, m: nat, n: nat): (cs: seq<Vector>)
    requires |v| == m * n
    ensures |cs| == n && Uniform(cs, m)
    decreases n
  {
    if n == 0 then []
    else
      MulStep(m, n);
      Split(v[..|v| - m], m, n - 1) + [v[|v| - m..]]
  }

  /** Cutting v into pieces and concatenating them gives v back. */
  lemma {:induction false} ConcatSplit(v: Vector, m: nat, n: nat)
    requires |v| == m * n
    ensures Concat(Split(v, m, n)) == v
    decreases n
  {
    if n > 0 {
      MulStep(m, n);
      var cs := Split(v, m, n);
      assert cs[..n - 1] == Split(v[..|v| - m], m, n - 1);
      ConcatSplit(v[..|v| - m], m, n - 1);
    }
  }

  /** Pieces of equal length m concatenate to m*n entries that split back into them. */
  lemma {:induction false} SplitConcat(cs: seq<Vector>, m: nat)
    requires Uniform(cs, m)
    ensures |Concat(cs)| == m * |cs|
    ensures Split(Concat(cs), m, |cs|) == cs
    decreases |cs|
  {
    var n := |cs|;
    if n > 0 {
      var front := cs[..n - 1];
      SplitConcat(front, m);
      ConcatStep(cs);
      SplitOfAppend(Concat(front), cs[n - 1], m, n, front);
      assert cs == front + [cs[n - 1]];
    }
  }

  /** Concat takes the last vector off the end. */
  lemma ConcatStep(cs: seq<Vector>)
    requires cs != []
    ensures Concat(cs) == Concat(cs[..|cs| - 1]) + cs[|cs| - 1]
  {
  }

  /** Appending an m-entry piece to the concatenation of n-1 pieces appends it to the split. */
  lemma SplitOfAppend(a: Vector, last: Vector, m: nat, n: nat, front: seq<Vector>)
    requires n > 0 && |a| == m * (n - 1) && |last| == m && Split(a, m, n - 1) == front
    ensures |a + last| == m * n
    ensures Split(a + last, m, n) == front + [last]
  {
    assert m * n == m * (n - 1) + m;
    SplitStep(a + last, m, n);
    AppendParts(a, last);
  }

  /** One step of Split: the last piece comes off the end. */
  lemma SplitStep(v: Vector, m: nat, n: nat)
    requires |v| == m * n && n > 0
    ensures m <= |v| && Split(v, m, n) == Split(v[..|v| - m], m, n - 1) + [v[|v| - m..]]
  {
    MulStep(m, n);
  }

  /** The two parts of a concatenation are its prefix and suffix. */
  lemma AppendParts<T>(a: seq<T>, b: seq<T>)
    ensures (a + b)[..|a|] == a && (a + b)[|a|..] == b
  {
  }

  /**
   * Matrix_(m, n, v): the matrix whose columns are the consecutive m-entry
   * pieces of v's first m*n entries; any further entries are not read.
   */
  function ColumnMajor(m: nat, n: nat, v: Vector): (A: Matrix)
    requires |v| >= m * n
    ensures A.Valid() && A.rows == m && A.cols == n
  {
    FromColumns(m, Split(v[..m * n], m, n))
  }

  /** The column-major flattening of a matrix. */
  function Flatten(A: Matrix): (v: Vector)
    requires A.Valid()
  {
    Concat(ColumnsOf(A))
  }

  /** The flattening has rows*cols entries. */
  lemma FlattenLength(A: Matrix)
    requires A.Valid()
    ensures |Flatten(A)| == A.rows * A.cols
  {
    SplitConcat(ColumnsOf(A), A.rows);
  }

  /** The columns of the matrix built from cs are cs. */
  lemma ColumnsOfFromColumns(m: nat, cs: seq<Vector>)
    requires Uniform(cs, m)
    ensures ColumnsOf(FromColumns(m, cs)) == cs
  {
    var A := FromColumns(m, cs);
    forall j | 0 <= j < |cs| ensures Column(A, j) == cs[j] {
    }
  }

  /** A matrix is built back from its columns. */
  lemma FromColumnsOf(A: Matrix)
    requires A.Valid()
    ensures FromColumns(A.rows, ColumnsOf(A)) == A
  {
    Extensionality(FromColumns(A.rows, ColumnsOf(A)), A);
  }

  /** Vector_(Matrix_(m, n, v)) = v. */
  lemma ColumnMajorFlatten(m: nat, n: nat, v: Vector)
    requires |v| == m * n
    ensures Flatten(ColumnMajor(m, n, v)) == v
  {
    assert v[..m * n] == v;
    ColumnsOfFromColumns(m, Split(v, m, n));
    ConcatSplit(v, m, n);
  }

  /** Matrix_(m, n, Vector_(A)) = A. */
  lemma FlattenColumnMajor(A: Matrix)
    requires A.Valid()
    ensures |Flatten(A)| == A.rows * A.cols
    ensures ColumnMajor(A.rows, A.cols, Flatten(A)) == A
  {
    SplitConcat(ColumnsOf(A), A.rows);
    FromColumnsOf(A);
    var v := Flatten(A);
    assert v[..A.rows * A.cols] == v;
  }

  /** The lengths of the first j pieces add up to j*m. */
  lemma {:induction false} UniformPrefixLength(cs: seq<Vector>, m: nat, j: nat)
    requires Uniform(cs, m) && j <= |cs|
    ensures TotalLength(cs[..j]) == j * m
    decreases j
  {
    if j > 0 {
      assert cs[..j][..j - 1] == cs[..j - 1];
      UniformPrefixLength(cs, m, j - 1);
    }
  }

  /** Entry (i, j) of Matrix_(m, n, v) is v(j*m + i): the copy is column-wise. */
  lemma ColumnMajorEntry(m: nat, n: nat, v: Vector, i: nat, j: nat)
    requires |v| >= m * n && i < m && j < n
    ensures j * m + i < m * n && ColumnMajor(m, n, v).entries[i][j] == v[j * m + i]
  {
    var w := v[..m * n];
    var cs := Split(w, m, n);
    ConcatSplit(w, m, n);
    ConcatBlocks(cs, j, i);
    UniformPrefixLength(cs, m, j);
  }

  /** Matrix_(m, n, v): fills the columns of a fresh m-by-n buffer from v. */
  method MatrixFromColumns(m: nat, n: nat, v: Vector) returns (A: Matrix)
    requires |v| >= m * n
    ensures A == ColumnMajor(m, n, v)
  {
    ghost var w := v[..m * n];
    ghost var cs := Split(w, m, n);
    ConcatSplit(w, m, n);
    var buffer := new real[m, n];
    var k := 0;
    for j := 0 to n
      invariant k == TotalLength(cs[..j])
      invariant forall i', j' :: 0 <= i' < m && 0 <= j' < j ==> buffer[i', j'] == cs[j'][i']
    {
      assert cs[..j + 1][..j] == cs[..j];
      assert |cs[j]| == m;
      ConcatPrefixLength(cs, j + 1);
      assert k + m == TotalLength(cs[..j + 1]) <= |Concat(cs)|;
      ReadColumn(buffer, j, v, k);
      forall i' | 0 <= i' < m ensures buffer[i', j] == cs[j][i'] {
        ConcatBlocks(cs, j, i');
      }
      k := k + m;
    }
    A := Snapshot(buffer);
    Extensionality(A, ColumnMajor(m, n, v));
  }

  /** The inner loop of Matrix_: column j of the buffer read from v, from position k on. */
  method ReadColumn(buffer: array2<real>, j: nat, v: Vector, k: nat)
    requires j < buffer.Length1 && k + buffer.Length0 <= |v|
    modifies buffer
    ensures forall i, c :: 0 <= i < buffer.Length0 && 0 <= c < buffer.Length1 ==>
      buffer[i, c] == if c == j then v[k + i] else old(buffer[i, c])
  {
    for i := 0 to buffer.Length0
      invariant forall i', c :: 0 <= i' < buffer.Length0 && 0 <= c < buffer.Length1 ==>
        buffer[i', c] == if c == j && i' < i then v[k + i'] else old(buffer[i', c])
    {
      buffer[i, j] := v[k + i];
    }
  }

  /** Vector_(A): the columns of A, one after the other, into a buffer of rows*cols entries. */
  method VectorFromMatrix(A: Matrix) returns (v: Vector)
    requires A.Valid()
    ensures v == Flatten(A)
  {
    var m, n := A.rows, A.cols;
    ghost var cs := ColumnsOf(A);
    FlattenLength(A);
    var buffer := new real[m * n];
    var k := 0;
    for j := 0 to n
      invariant k == TotalLength(cs[..j]) <= buffer.Length
      invariant buffer[..k] == Concat(cs[..j])
    {
      ConcatPrefixLength(cs, j + 1);
      ConcatStep(cs[..j + 1]);
      assert cs[..j + 1][..j] == cs[..j];
      WriteColumn(A, j, buffer, k);
      k := k + m;
    }
    assert cs[..n] == cs;
    assert buffer[..] == buffer[..k];
    v := buffer[..];
  }

  /** The inner loop of Vector_: column j of A written into the buffer from position k on. */
  method WriteColumn(A: Matrix, j: nat, buffer: array<real>, k: nat)
    requires A.Valid() && j < A.cols && k + A.rows <= buffer.Length
    modifies buffer
    ensures buffer[..k + A.rows] == old(buffer[..k]) + Column(A, j)
  {
    for i := 0 to A.rows
      invariant buffer[..k + i] == old(buffer[..k]) + Column(A, j)[..i]
    {
      buffer[k + i] := A.entries[i][j];
      assert Column(A, j)[..i + 1] == Column(A, j)[..i] + [A.entries[i][j]];
    }
    assert Column(A, j)[..A.rows] == Column(A, j);
  }

  // ---------------------------------------------------------------------
  // Identity, diagonal, comparison

  /** eye(m, n): 1 on the first min(m, n) diagonal positions, 0 elsewhere. */
  method Eye(m: nat, n: nat) returns (I: Matrix)
    ensures I.Valid() && I.rows == m && I.cols == n
    ensures forall i, j :: 0 <= i < m && 0 <= j < n ==>
      I.entries[i][j] == if i == j then 1.0 else 0.0
  {
    var buffer := new real[m, n]((_, _) => 0.0);
    var k := if m < n then m else n;
    for i := 0 to k
      invariant forall i', j' :: 0 <= i' < m && 0 <= j' < n ==>
        buffer[i', j'] == if i' == j' && i' < i then 1.0 else 0.0
    {
      buffer[i, i] := 1.0;
    }
    I := Snapshot(buffer);
  }

  /** diag(v): the square matrix with v on its diagonal. */
  method Diag(v: Vector) returns (D: Matrix)
    ensures D.Valid() && D.rows == |v| && D.cols == |v|
    ensures forall i, j :: 0 <= i < |v| && 0 <= j < |v| ==>
      D.entries[i][j] == if i == j then v[i] else 0.0
  {
    var m := |v|;
    var buffer := new real[m, m]((_, _) => 0.0);
    for i := 0 to m
      invariant forall i', j' :: 0 <= i' < m && 0 <= j' < m ==>
        buffer[i', j'] == if i' == j' && i' < i then v[i'] else 0.0
    {
      buffer[i, i] := v[i];
    }
    D := Snapshot(buffer);
  }

  /** Same dimensions and every pair of entries within tol. */
  predicate EqualWithAbsTol(A: Matrix, B: Matrix, tol: real)
    requires A.Valid() && B.Valid()
  {
    A.rows == B.rows && A.cols == B.cols &&
    forall i, j :: 0 <= i < A.rows && 0 <= j < A.cols ==> Abs(A.entries[i][j] - B.entries[i][j]) <= tol
  }

  /** equal_with_abs_tol(A, B, tol): false on a size mismatch, then row by row. */
  method EqualWithAbsTolCheck(A: Matrix, B: Matrix, tol: real) returns (r: bool)
    requires A.Valid() && B.Valid()
    ensures r <==> EqualWithAbsTol(A, B, tol)
  {
    if A.rows != B.rows || A.cols != B.cols {
      return false;
    }
    for i := 0 to A.rows
      invariant forall i', j' :: 0 <= i' < i && 0 <= j' < A.cols ==> Abs(A.entries[i'][j'] - B.entries[i'][j']) <= tol
    {
      for j := 0 to A.cols
        invariant forall j' :: 0 <= j' < j ==> Abs(A.entries[i][j'] - B.entries[i][j']) <= tol
      {
        if Abs(A.entries[i][j] - B.entries[i][j]) > tol {
          return false;
        }
      }
    }
    return true;
  }

  /** With tolerance 0, equal_with_abs_tol is equality of matrices. */
  lemma EqualWithZeroTol(A: Matrix, B: Matrix)
    requires A.Valid() && B.Valid()
    ensures EqualWithAbsTol(A, B, 0.0) <==> A == B
  {
    if EqualWithAbsTol(A, B, 0.0) {
      forall i, j | 0 <= i < A.rows && 0 <= j < A.cols ensures A.entries[i][j] == B.entries[i][j] {
        assert Abs(A.entries[i][j] - B.entries[i][j]) <= 0.0;
      }
      Extensionality(A, B);
    }
  }

  // ---------------------------------------------------------------------
  // Rows and blocks

  const RowOutOfBoundsMessage := "Row index out of bounds!"

  /** row_(A, i): row i, or invalid_argument when i is not a row index. */
  function Row(A: Matrix, i: nat): (r: Result<Vector>)
    requires A.Valid()
    ensures r.Ok? <==> i < A.rows
    ensures r.Err? ==> r.error == InvalidArgument(RowOutOfBoundsMessage)
    ensures r.Ok? ==> |r.value| == A.cols && forall j :: 0 <= j < A.cols ==> r.value[j] == A.entries[i][j]
  {
    if i >= A.rows then Err(InvalidArgument(RowOutOfBoundsMessage)) else Ok(A.entries[i])
  }

  /** The block of rows [i1, i2) and columns [j1, j2). */
  function Block(A: Matrix, i1: nat, i2: nat, j1: nat, j2: nat): (B: Matrix)
    requires A.Valid() && i1 <= i2 <= A.rows && j1 <= j2 <= A.cols
    ensures B.Valid() && B.rows == i2 - i1 && B.cols == j2 - j1
    ensures forall k, l :: 0 <= k < B.rows && 0 <= l < B.cols ==> B.entries[k][l] == A.entries[i1 + k][j1 + l]
  {
    Matrix(i2 - i1, j2 - j1, seq(i2 - i1, k requires 0 <= k < i2 - i1 => A.entries[i1 + k][j1..j2]))
  }

  /** The block of all rows and columns is the matrix. */
  lemma BlockWhole(A: Matrix)
    requires A.Valid()
    ensures Block(A, 0, A.rows, 0, A.cols) == A
  {
    Extensionality(Block(A, 0, A.rows, 0, A.cols), A);
  }

  /** A block of a block is a block of the matrix. */
  lemma BlockOfBlock(A: Matrix, i1: nat, i2: nat, j1: nat, j2: nat, k1: nat, k2: nat, l1: nat, l2: nat)
    requires A.Valid() && i1 <= i2 <= A.rows && j1 <= j2 <= A.cols
    requires k1 <= k2 <= i2 - i1 && l1 <= l2 <= j2 - j1
    ensures Block(Block(A, i1, i2, j1, j2), k1, k2, l1, l2) == Block(A, i1 + k1, i1 + k2, j1 + l1, j1 + l2)
  {
    Extensionality(Block(Block(A, i1, i2, j1, j2), k1, k2, l1, l2), Block(A, i1 + k1, i1 + k2, j1 + l1, j1 + l2));
  }

  /** A one-row block of all columns is that row. */
  lemma BlockRow(A: Matrix, i: nat)
    requires A.Valid() && i < A.rows
    ensures Block(A, i, i + 1, 0, A.cols).entries == [Row(A, i).value]
  {
    assert A.entries[i][0..A.cols] == A.entries[i];
  }

  /** sub(A, i1, i2, j1, j2): copies each row's slice into a fresh buffer. */
  method Sub(A: Matrix, i1: nat, i2: nat, j1: nat, j2: nat) returns (B: Matrix)
    requires A.Valid() && i1 <= i2 <= A.rows && j1 <= j2 <= A.cols
    ensures B == Block(A, i1, i2, j1, j2)
  {
    var m, n := i2 - i1, j2 - j1;
    var buffer := new real[m, n];
    for k := 0 to m
      invariant forall k', l :: 0 <= k' < k && 0 <= l < n ==> buffer[k', l] == A.entries[i1 + k'][j1 + l]
    {
      for l := 0 to n
        invariant forall k', l' :: 0 <= k' < k && 0 <= l' < n ==> buffer[k', l'] == A.entries[i1 + k'][j1 + l']
        invariant forall l' :: 0 <= l' < l ==> buffer[k, l'] == A.entries[i1 + k][j1 + l']
      {
        buffer[k, l] := A.entries[i1 + k][j1 + l];
      }
    }
    B := Snapshot(buffer);
    Extensionality(B, Block(A, i1, i2, j1, j2));
  }

  // ---------------------------------------------------------------------
  // Transpose and products

  /** The transpose. */
  function Transpose(M: Matrix): (T: Matrix)
    requires M.Valid()
    ensures T.Valid() && T.rows == M.cols && T.cols == M.rows
    ensures forall i, j :: 0 <= i < T.rows && 0 <= j < T.cols ==> T.entries[i][j] == M.entries[j][i]
  {
    Matrix(M.cols, M.rows, seq(M.cols, i requires 0 <= i < M.cols => Column(M, i)))
  }

  /** Transposing twice gives the matrix back. */
  lemma TransposeTwice(M: Matrix)
    requires M.Valid()
    ensures Transpose(Transpose(M)) == M
  {
    Extensionality(Transpose(Transpose(M)), M);
  }

  /** The sum of M(i, j) * x(j) for j in [lo, hi). */
  function RowSum(M: Matrix, i: nat, x: Vector, lo: nat, hi: nat): real
    requires M.Valid() && i < M.rows && lo <= hi <= M.cols && hi <= |x|
    decreases hi - lo
  {
    if lo == hi then 0.0 else RowSum(M, i, x, lo, hi - 1) + M.entries[i][hi - 1] * x[hi - 1]
  }

  /** A row sum reads only the entries of x in its range. */
  lemma {:induction false} RowSumFrame(M: Matrix, i: nat, x: Vector, y: Vector, lo: nat, hi: nat)
    requires M.Valid() && i < M.rows && lo <= hi <= M.cols && hi <= |x| && hi <= |y|
    requires forall k :: lo <= k < hi ==> x[k] == y[k]
    ensures RowSum(M, i, x, lo, hi) == RowSum(M, i, y, lo, hi)
    decreases hi - lo
  {
    if lo < hi {
      RowSumFrame(M, i, x, y, lo, hi - 1);
    }
  }

  /** A row sum splits at any point of its range. */
  lemma {:induction false} RowSumSplit(M: Matrix, i: nat, x: Vector, lo: nat, mid: nat, hi: nat)
    requires M.Valid() && i < M.rows && lo <= mid <= hi <= M.cols && hi <= |x|
    ensures RowSum(M, i, x, lo, hi) == RowSum(M, i, x, lo, mid) + RowSum(M, i, x, mid, hi)
    decreases hi - mid
  {
    if mid < hi {
      RowSumSplit(M, i, x, lo, mid, hi - 1);
    }
  }

  /** A row sum over zero entries is zero. */
  lemma {:induction false} RowSumZero(M: Matrix, i: nat, x: Vector, lo: nat, hi: nat)
    requires M.Valid() && i < M.rows && lo <= hi <= M.cols && hi <= |x|
    requires forall k :: lo <= k < hi ==> M.entries[i][k] == 0.0
    ensures RowSum(M, i, x, lo, hi) == 0.0
    decreases hi - lo
  {
    if lo < hi {
      RowSumZero(M, i, x, lo, hi - 1);
    }
  }

  /** The matrix-vector product Mx. */
  function Apply(M: Matrix, x: Vector): (y: Vector)
    requires M.Valid() && |x| == M.cols
    ensures |y| == M.rows && forall i :: 0 <= i < M.rows ==> y[i] == RowSum(M, i, x, 0, M.cols)
  {
    seq(M.rows, i requires 0 <= i < M.rows => RowSum(M, i, x, 0, M.cols))
  }

  // ---------------------------------------------------------------------
  // Triangular solves

  /** The diagonal factor of row i: 1 when the diagonal is taken as unit. */
  function Pivot(M: Matrix, i: nat, unit: bool): real
    requires M.Valid() && i < M.rows && i < M.cols
  {
    if unit then 1.0 else M.entries[i][i]
  }

  /** Every diagonal entry the solve divides by is non-zero. */
  predicate Invertible(M: Matrix, unit: bool)
    requires M.Valid()
  {
    !unit ==> forall i :: 0 <= i < M.rows && i < M.cols ==> M.entries[i][i] != 0.0
  }

  /** x solves the upper part of U: pivot * x(i) + sum over j > i of U(i, j) x(j) = b(i). */
  predicate SolvesUpper(U: Matrix, b: Vector, x: Vector, unit: bool)
    requires U.Valid() && U.rows == U.cols == |x| <= |b|
  {
    forall i :: 0 <= i < |x| ==> UpperRowSolved(U, b, x, i, unit)
  }

  /** x solves the lower part of L: sum over j < i of L(i, j) x(j) + pivot * x(i) = b(i). */
  predicate SolvesLower(L: Matrix, b: Vector, x: Vector, unit: bool)
    requires L.Valid() && L.rows == L.cols == |x| <= |b|
  {
    forall i :: 0 <= i < |x| ==> LowerRowSolved(L, b, x, i, unit)
  }

  predicate UpperTriangular(M: Matrix)
    requires M.Valid()
  {
    forall i, j :: 0 <= j < i < M.rows && j < M.cols ==> M.entries[i][j] == 0.0
  }

  predicate LowerTriangular(M: Matrix)
    requires M.Valid()
  {
    forall i, j :: 0 <= i < j < M.cols && i < M.rows ==> M.entries[i][j] == 0.0
  }

  /** For an upper-triangular U, solving its upper part solves Ux = b. */
  lemma SolvesUpperTriangular(U: Matrix, b: Vector, x: Vector)
    requires U.Valid() && U.rows == U.cols == |x| <= |b|
    requires UpperTriangular(U) && SolvesUpper(U, b, x, false)
    ensures Apply(U, x) == b[..|x|]
  {
    var n := |x|;
    forall i | 0 <= i < n ensures RowSum(U, i, x, 0, n) == b[i] {
      assert UpperRowSolved(U, b, x, i, false);
      RowSumSplit(U, i, x, 0, i, n);
      RowSumSplit(U, i, x, i, i + 1, n);
      RowSumZero(U, i, x, 0, i);
    }
  }

  /** For a lower-triangular L, solving its lower part solves Lx = b. */
  lemma SolvesLowerTriangular(L: Matrix, b: Vector, x: Vector)
    requires L.Valid() && L.rows == L.cols == |x| <= |b|
    requires LowerTriangular(L) && SolvesLower(L, b, x, false)
    ensures Apply(L, x) == b[..|x|]
  {
    var n := |x|;
    forall i | 0 <= i < n ensures RowSum(L, i, x, 0, n) == b[i] {
      assert LowerRowSolved(L, b, x, i, false);
      RowSumSplit(L, i, x, 0, i, n);
      RowSumSplit(L, i, x, i, i + 1, n);
      RowSumZero(L, i, x, i + 1, n);
    }
  }

  const UpperNotSquareMessage := "backSubstituteUpper: U must be square"
  const LowerNotSquareMessage := "backSubstituteLower: L must be square"

  /** Row k of the upper part is solved by x. */
  predicate UpperRowSolved(U: Matrix, b: Vector, x: Vector, k: nat, unit: bool)
    requires U.Valid() && U.rows == U.cols == |x| <= |b| && k < |x|
  {
    Pivot(U, k, unit) * x[k] + RowSum(U, k, x, k + 1, |x|) == b[k]
  }

  /** Row k of the lower part is solved by x. */
  predicate LowerRowSolved(L: Matrix, b: Vector, x: Vector, k: nat, unit: bool)
    requires L.Valid() && L.rows == L.cols == |x| <= |b| && k < |x|
  {
    RowSum(L, k, x, 0, k) + Pivot(L, k, unit) * x[k] == b[k]
  }

  /** Rows i to n-1 of the upper part are solved by x. */
  predicate SolvedFrom(U: Matrix, b: Vector, x: Vector, i: nat, unit: bool)
    requires U.Valid() && U.rows == U.cols == |x| <= |b|
  {
    forall k :: i <= k < |x| ==> UpperRowSolved(U, b, x, k, unit)
  }

  /** Rows 0 to i-1 of the lower part are solved by x. */
  predicate SolvedBelow(L: Matrix, b: Vector, x: Vector, i: nat, unit: bool)
    requires L.Valid() && L.rows == L.cols == |x| <= |b|
  {
    forall k :: 0 <= k < i && k < |x| ==> LowerRowSolved(L, b, x, k, unit)
  }

  /** A solved row stays solved when entries it does not read change. */
  lemma UpperRowFrame(U: Matrix, b: Vector, before: Vector, after: Vector, k: nat, unit: bool)
    requires U.Valid() && U.rows == U.cols == |before| == |after| <= |b| && k < |before|
    requires forall j :: k <= j < |before| ==> after[j] == before[j]
    requires UpperRowSolved(U, b, before, k, unit)
    ensures UpperRowSolved(U, b, after, k, unit)
  {
    assert after[k] == before[k];
    RowSumFrame(U, k, before, after, k + 1, |before|);
  }

  /** A solved row stays solved when entries it does not read change. */
  lemma LowerRowFrame(L: Matrix, b: Vector, before: Vector, after: Vector, k: nat, unit: bool)
    requires L.Valid() && L.rows == L.cols == |before| == |after| <= |b| && k < |before|
    requires forall j :: 0 <= j <= k ==> after[j] == before[j]
    requires LowerRowSolved(L, b, before, k, unit)
    ensures LowerRowSolved(L, b, after, k, unit)
  {
    assert after[k] == before[k];
    RowSumFrame(L, k, before, after, 0, k);
  }

  /** Setting entry r to solve row r keeps the later rows solved. */
  lemma UpperStep(U: Matrix, b: Vector, before: Vector, after: Vector, r: nat, unit: bool)
    requires U.Valid() && U.rows == U.cols == |before| == |after| <= |b| && r < |before|
    requires forall k :: 0 <= k < |before| && k != r ==> after[k] == before[k]
    requires SolvedFrom(U, b, before, r + 1, unit)
    requires Pivot(U, r, unit) * after[r] + RowSum(U, r, before, r + 1, |before|) == b[r]
    ensures SolvedFrom(U, b, after, r, unit)
  {
    var n := |before|;
    RowSumFrame(U, r, before, after, r + 1, n);
    assert UpperRowSolved(U, b, after, r, unit);
    forall k | r < k < n ensures UpperRowSolved(U, b, after, k, unit) {
      UpperRowFrame(U, b, before, after, k, unit);
    }
  }

  /** Setting entry r to solve row r keeps the earlier rows solved. */
  lemma LowerStep(L: Matrix, b: Vector, before: Vector, after: Vector, r: nat, unit: bool)
    requires L.Valid() && L.rows == L.cols == |before| == |after| <= |b| && r < |before|
    requires forall k :: 0 <= k < |before| && k != r ==> after[k] == before[k]
    requires SolvedBelow(L, b, before, r, unit)
    requires RowSum(L, r, before, 0, r) + Pivot(L, r, unit) * after[r] == b[r]
    ensures SolvedBelow(L, b, after, r + 1, unit)
  {
    RowSumFrame(L, r, before, after, 0, r);
    assert LowerRowSolved(L, b, after, r, unit);
    forall k | 0 <= k < r ensures LowerRowSolved(L, b, after, k, unit) {
      LowerRowFrame(L, b, before, after, k, unit);
    }
  }

  /** The value of row i once the other entries of x are known. */
  lemma SolveStep(z: real, p: real, unit: bool, x: real)
    requires !unit ==> p != 0.0
    requires x == if unit then z else z / p
    ensures (if unit then 1.0 else p) * x == z
  {
  }

  /** The inner loop of the upper solve: b(r) minus the known part of row r. */
  method UpperResidual(U: Matrix, br: real, x: array<real>, r: nat) returns (z: real)
    requires U.Valid() && r < U.rows && r < U.cols == x.Length
    ensures z == br - RowSum(U, r, x[..], r + 1, x.Length)
  {
    z := br;
    for j := r + 1 to x.Length
      invariant z == br - RowSum(U, r, x[..], r + 1, j)
    {
      z := z - U.entries[r][j] * x[j];
    }
  }

  /** The inner loop of the lower solve: b(r) minus the known part of row r. */
  method LowerResidual(L: Matrix, br: real, x: array<real>, r: nat) returns (z: real)
    requires L.Valid() && r < L.rows && r <= L.cols == x.Length
    ensures z == br - RowSum(L, r, x[..], 0, r)
  {
    z := br;
    for j := 0 to r
      invariant z == br - RowSum(L, r, x[..], 0, j)
    {
      z := z - L.entries[r][j] * x[j];
    }
  }

  /** The inner loop of the transposed solve: b(r) minus the known part of column r. */
  method ColumnResidual(U: Matrix, br: real, x: array<real>, r: nat) returns (z: real)
    requires U.Valid() && r < U.cols && r <= U.rows == x.Length
    ensures z == br - RowSum(Transpose(U), r, x[..], 0, r)
  {
    z := br;
    for j := 0 to r
      invariant z == br - RowSum(Transpose(U), r, x[..], 0, j)
    {
      z := z - U.entries[j][r] * x[j];
    }
  }

  /**
   * backSubstituteUpper(U, b, unit): solves from the last row up; throws
   * invalid_argument when U is not square.
   */
  method BackSubstituteUpper(U: Matrix, b: Vector, unit: bool) returns (r: Result<Vector>)
    requires U.Valid() && |b| >= U.cols && Invertible(U, unit)
    ensures r.Err? <==> U.rows != U.cols
    ensures r.Err? ==> r.error == InvalidArgument(UpperNotSquareMessage)
    ensures r.Ok? ==> |r.value| == U.cols && SolvesUpper(U, b, r.value, unit)
  {
    if U.rows != U.cols {
      return Err(InvalidArgument(UpperNotSquareMessage));
    }
    var n := U.cols;
    var result := new real[n];
    var i := n;
    while i > 0
      invariant 0 <= i <= n
      invariant SolvedFrom(U, b, result[..], i, unit)
    {
      var zi := UpperResidual(U, b[i - 1], result, i - 1);
      ghost var z := zi;
      if !unit {
        zi := zi / U.entries[i - 1][i - 1];
      }
      SolveStep(z, U.entries[i - 1][i - 1], unit, zi);
      ghost var before := result[..];
      result[i - 1] := zi;
      UpperStep(U, b, before, result[..], i - 1, unit);
      i := i - 1;
    }
    return Ok(result[..]);
  }

  /**
   * backSubstituteUpper(b, U, unit): solves the transpose of U from the
   * first row down, reading U by columns.
   */
  method BackSubstituteUpperTransposed(b: Vector, U: Matrix, unit: bool) returns (r: Result<Vector>)
    requires U.Valid() && |b| >= U.cols && Invertible(U, unit)
    ensures r.Err? <==> U.rows != U.cols
    ensures r.Err? ==> r.error == InvalidArgument(UpperNotSquareMessage)
    ensures r.Ok? ==> |r.value| == U.cols && SolvesLower(Transpose(U), b, r.value, unit)
  {
    if U.rows != U.cols {
      return Err(InvalidArgument(UpperNotSquareMessage));
    }
    var n := U.cols;
    ghost var T := Transpose(U);
    var result := new real[n];
    for i := 1 to n + 1
      invariant SolvedBelow(T, b, result[..], i - 1, unit)
    {
      var zi := ColumnResidual(U, b[i - 1], result, i - 1);
      ghost var z := zi;
      if !unit {
        zi := zi / U.entries[i - 1][i - 1];
      }
      SolveStep(z, U.entries[i - 1][i - 1], unit, zi);
      ghost var before := result[..];
      result[i - 1] := zi;
      LowerStep(T, b, before, result[..], i - 1, unit);
    }
    return Ok(result[..]);
  }

  /** backSubstituteLower(L, b, unit): solves from the first row down. */
  method BackSubstituteLower(L: Matrix, b: Vector, unit: bool) returns (r: Result<Vector>)
    requires L.Valid() && |b| >= L.cols && Invertible(L, unit)
    ensures r.Err? <==> L.rows != L.cols
    ensures r.Err? ==> r.error == InvalidArgument(LowerNotSquareMessage)
    ensures r.Ok? ==> |r.value| == L.cols && SolvesLower(L, b, r.value, unit)
  {
    if L.rows != L.cols {
      return Err(InvalidArgument(LowerNotSquareMessage));
    }
    var n := L.cols;
    var result := new real[n];
    for i := 1 to n + 1
      invariant SolvedBelow(L, b, result[..], i - 1, unit)
    {
      var zi := LowerResidual(L, b[i - 1], result, i - 1);
      ghost var z := zi;
      if !unit {
        zi := zi / L.entries[i - 1][i - 1];
      }
      SolveStep(z, L.entries[i - 1][i - 1], unit, zi);
      ghost var before := result[..];
      result[i - 1] := zi;
      LowerStep(L, b, before, result[..], i - 1, unit);
    }
    return Ok(result[..]);
  }

  // ---------------------------------------------------------------------
  // Copying blocks: stack and collect

  /** Copies M into the buffer with its top-left corner at (r0, c0); the rest of the buffer is kept. */
  method CopyInto(buffer: array2<real>, M: Matrix, r0: nat, c0: nat)
    requires M.Valid() && r0 + M.rows <= buffer.Length0 && c0 + M.cols <= buffer.Length1
    modifies buffer
    ensures forall r, c :: 0 <= r < buffer.Length0 && 0 <= c < buffer.Length1 ==>
      buffer[r, c] == if r0 <= r < r0 + M.rows && c0 <= c < c0 + M.cols
        then M.entries[r - r0][c - c0] else old(buffer[r, c])
  {
    for d1 := 0 to M.rows
      invariant forall r, c :: 0 <= r < buffer.Length0 && 0 <= c < buffer.Length1 ==>
        buffer[r, c] == if r0 <= r < r0 + d1 && c0 <= c < c0 + M.cols
          then M.entries[r - r0][c - c0] else old(buffer[r, c])
    {
      for d2 := 0 to M.cols
        invariant forall r, c :: 0 <= r < buffer.Length0 && 0 <= c < buffer.Length1 ==>
          buffer[r, c] == if (r0 <= r < r0 + d1 && c0 <= c < c0 + M.cols) || (r == r0 + d1 && c0 <= c < c0 + d2)
            then M.entries[r - r0][c - c0] else old(buffer[r, c])
      {
        buffer[r0 + d1, c0 + d2] := M.entries[d1][d2];
      }
    }
  }

  /** Every matrix of the list is valid with n columns. */
  predicate SameColumns(ms: seq<Matrix>, n: nat) {
    forall k :: 0 <= k < |ms| ==> ms[k].Valid() && ms[k].cols == n
  }

  /** The total number of rows. */
  function RowCount(ms: seq<Matrix>): nat
    decreases |ms|
  {
    if ms == [] then 0 else RowCount(ms[..|ms| - 1]) + ms[|ms| - 1].rows
  }

  /** The column count stack takes: that of the last matrix. */
  function LastColumns(ms: seq<Matrix>): nat {
    if ms == [] then 0 else ms[|ms| - 1].cols
  }

  /** The rows of the matrices, one matrix after the other. */
  function StackedRows(ms: seq<Matrix>, n: nat): (rs: seq<seq<real>>)
    requires SameColumns(ms, n)
    ensures |rs| == RowCount(ms) && forall i :: 0 <= i < |rs| ==> |rs[i]| == n
    decreases |ms|
  {
    if ms == [] then [] else StackedRows(ms[..|ms| - 1], n) + ms[|ms| - 1].entries
  }

  /** stack(ms...): the matrices on top of each other. */
  function Stack(ms: seq<Matrix>): (S: Matrix)
    requires SameColumns(ms, LastColumns(ms))
    ensures S.Valid() && S.rows == RowCount(ms) && S.cols == LastColumns(ms)
  {
    Matrix(RowCount(ms), LastColumns(ms), StackedRows(ms, LastColumns(ms)))
  }

  /** Matrix k of the list sits in the stacked rows from the row count before it. */
  lemma {:induction false} StackedRowsBlock(ms: seq<Matrix>, n: nat, k: nat, i: nat)
    requires SameColumns(ms, n) && k < |ms| && i < ms[k].rows
    ensures RowCount(ms[..k]) + i < RowCount(ms)
    ensures StackedRows(ms, n)[RowCount(ms[..k]) + i] == ms[k].entries[i]
    decreases |ms|
  {
    var last := |ms| - 1;
    assert ms[..last][..k] == ms[..k];
    if k < last {
      StackedRowsBlock(ms[..last], n, k, i);
    }
  }

  /** Each matrix of the list is a block of rows of the stack, from the row count before it. */
  lemma StackBlock(ms: seq<Matrix>, k: nat, r0: nat)
    requires SameColumns(ms, LastColumns(ms)) && k < |ms| && r0 == RowCount(ms[..k])
    ensures r0 + ms[k].rows <= RowCount(ms)
    ensures Block(Stack(ms), r0, r0 + ms[k].rows, 0, LastColumns(ms)) == ms[k]
  {
    StackedBlock(ms, LastColumns(ms), Stack(ms), k, r0);
  }

  /** In a matrix whose rows are the stacked rows, matrix k is the block of rows from the row count before it. */
  lemma StackedBlock(ms: seq<Matrix>, n: nat, S: Matrix, k: nat, r0: nat)
    requires SameColumns(ms, n) && S.Valid() && S.cols == n && S.entries == StackedRows(ms, n)
    requires k < |ms| && r0 == RowCount(ms[..k])
    ensures r0 + ms[k].rows <= S.rows
    ensures Block(S, r0, r0 + ms[k].rows, 0, n) == ms[k]
  {
    RowCountPrefix(ms, k + 1);
    assert ms[..k + 1][..k] == ms[..k];
    var B := Block(S, r0, r0 + ms[k].rows, 0, n);
    forall i | 0 <= i < ms[k].rows
      ensures B.entries[i] == ms[k].entries[i]
    {
      assert B.entries[i] == S.entries[r0 + i][0..n];
      StackedRowsBlock(ms, n, k, i);
      assert S.entries[r0 + i][0..n] == S.entries[r0 + i];
    }
    RowExtensionality(B, ms[k]);
  }

  lemma {:induction false} RowCountPrefix(ms: seq<Matrix>, k: nat)
    requires k <= |ms|
    ensures RowCount(ms[..k]) <= RowCount(ms)
    decreases |ms|
  {
    if k < |ms| {
      var last := |ms| - 1;
      assert ms[..last][..k] == ms[..k];
      RowCountPrefix(ms[..last], k);
    } else {
      assert ms[..k] == ms;
    }
  }

  /** stack(n, ...): the sizes first, then each matrix copied at its running row offset. */
  method StackMatrices(ms: seq<Matrix>) returns (S: Matrix)
    requires SameColumns(ms, LastColumns(ms))
    ensures S == Stack(ms)
  {
    var dimA1, dimA2 := StackDimensions(ms);
    var buffer := new real[dimA1, dimA2];
    CopyRows(ms, buffer);
    S := Snapshot(buffer);
    Extensionality(S, Stack(ms));
  }

  /** The first pass of stack: the row total and the column count of the last matrix. */
  method StackDimensions(ms: seq<Matrix>) returns (dimA1: nat, dimA2: nat)
    ensures dimA1 == RowCount(ms) && dimA2 == LastColumns(ms)
  {
    dimA1, dimA2 := 0, 0;
    for i := 0 to |ms|
      invariant dimA1 == RowCount(ms[..i])
      invariant dimA2 == LastColumns(ms[..i])
    {
      assert ms[..i + 1][..i] == ms[..i];
      dimA1 := dimA1 + ms[i].rows;
      dimA2 := ms[i].cols;
    }
    assert ms[..|ms|] == ms;
  }

  /** The second pass of stack: each matrix copied at its running row offset. */
  method CopyRows(ms: seq<Matrix>, buffer: array2<real>)
    requires SameColumns(ms, buffer.Length1) && buffer.Length0 == RowCount(ms)
    modifies buffer
    ensures forall r, c :: 0 <= r < buffer.Length0 && 0 <= c < buffer.Length1 ==> buffer[r, c] == StackedRows(ms, buffer.Length1)[r][c]
  {
    var vindex := 0;
    for i := 0 to |ms|
      invariant vindex == RowCount(ms[..i]) <= buffer.Length0
      invariant forall r, c :: 0 <= r < vindex && 0 <= c < buffer.Length1 ==> buffer[r, c] == StackedRows(ms[..i], buffer.Length1)[r][c]
    {
      assert ms[..i + 1][..i] == ms[..i];
      RowCountPrefix(ms, i + 1);
      CopyInto(buffer, ms[i], vindex, 0);
      vindex := vindex + ms[i].rows;
    }
    assert ms[..|ms|] == ms;
  }

  /** The total number of columns. */
  function ColumnCount(ms: seq<Matrix>): nat
    decreases |ms|
  {
    if ms == [] then 0 else ColumnCount(ms[..|ms| - 1]) + ms[|ms| - 1].cols
  }

  /** Every matrix of the list is valid with m rows. */
  predicate SameRows(ms: seq<Matrix>, m: nat) {
    forall k :: 0 <= k < |ms| ==> ms[k].Valid() && ms[k].rows == m
  }

  /** Row i of each matrix, one matrix after the other. */
  function CollectedRow(ms: seq<Matrix>, m: nat, i: nat): (row: seq<real>)
    requires SameRows(ms, m) && i < m
    ensures |row| == ColumnCount(ms)
    decreases |ms|
  {
    if ms == [] then [] else CollectedRow(ms[..|ms| - 1], m, i) + ms[|ms| - 1].entries[i]
  }

  /** The row count collect allocates: the given one, or that of the last matrix. */
  function CollectRows(ms: seq<Matrix>, m: nat, n: nat): nat {
    if m == 0 && n == 0 then (if ms == [] then 0 else ms[|ms| - 1].rows) else m
  }

  /** The column count collect allocates: the column total, or n per matrix. */
  function CollectColumns(ms: seq<Matrix>, m: nat, n: nat): nat {
    if m == 0 && n == 0 then ColumnCount(ms) else n * |ms|
  }

  /** What collect needs: every matrix has the allocated row count, and n columns when n is given. */
  predicate Collectable(ms: seq<Matrix>, m: nat, n: nat) {
    SameRows(ms, CollectRows(ms, m, n)) && ((m != 0 || n != 0) ==> SameColumns(ms, n))
  }

  /** collect(ms, m, n): the matrices side by side. */
  function Collect(ms: seq<Matrix>, m: nat, n: nat): (C: Matrix)
    requires Collectable(ms, m, n)
    ensures C.Valid() && C.rows == CollectRows(ms, m, n) && C.cols == ColumnCount(ms)
  {
    var rows := CollectRows(ms, m, n);
    Matrix(rows, ColumnCount(ms), seq(rows, i requires 0 <= i < rows => CollectedRow(ms, rows, i)))
  }

  /** With every matrix n columns wide, the column total is n times their number. */
  lemma {:induction false} ColumnCountUniform(ms: seq<Matrix>, n: nat)
    requires SameColumns(ms, n)
    ensures ColumnCount(ms) == n * |ms|
    decreases |ms|
  {
    if ms != [] {
      ColumnCountUniform(ms[..|ms| - 1], n);
      assert n * |ms| == n * (|ms| - 1) + n;
    }
  }

  /** The allocated width is the column total. */
  lemma CollectWidth(ms: seq<Matrix>, m: nat, n: nat)
    requires Collectable(ms, m, n)
    ensures CollectColumns(ms, m, n) == ColumnCount(ms)
  {
    if m != 0 || n != 0 {
      ColumnCountUniform(ms, n);
    }
  }

  /** Matrix k of the list sits in each collected row from the column count before it. */
  lemma {:induction false} CollectedRowSlice(ms: seq<Matrix>, m: nat, i: nat, k: nat)
    requires SameRows(ms, m) && i < m && k < |ms|
    ensures ColumnCount(ms[..k]) + ms[k].cols <= ColumnCount(ms)
    ensures CollectedRow(ms, m, i)[ColumnCount(ms[..k])..ColumnCount(ms[..k]) + ms[k].cols] == ms[k].entries[i]
    decreases |ms|
  {
    var last := |ms| - 1;
    var front := CollectedRow(ms[..last], m, i);
    assert CollectedRow(ms, m, i) == front + ms[last].entries[i];
    if k < last {
      assert ms[..last][..k] == ms[..k];
      CollectedRowSlice(ms[..last], m, i, k);
      SliceOfFront(front, ms[last].entries[i], ColumnCount(ms[..k]), ColumnCount(ms[..k]) + ms[k].cols);
    } else {
      SliceOfBack(front, ms[last].entries[i]);
    }
  }

  lemma SliceOfFront<T>(a: seq<T>, b: seq<T>, lo: nat, hi: nat)
    requires lo <= hi <= |a|
    ensures (a + b)[lo..hi] == a[lo..hi]
  {
  }

  lemma SliceOfBack<T>(a: seq<T>, b: seq<T>)
    ensures (a + b)[|a|..|a| + |b|] == b
  {
  }

  lemma {:induction false} ColumnCountPrefix(ms: seq<Matrix>, k: nat)
    requires k <= |ms|
    ensures ColumnCount(ms[..k]) <= ColumnCount(ms)
    decreases |ms|
  {
    if k < |ms| {
      var last := |ms| - 1;
      assert ms[..last][..k] == ms[..k];
      ColumnCountPrefix(ms[..last], k);
    } else {
      assert ms[..k] == ms;
    }
  }

  /** Each matrix of the list is a block of columns of the result. */
  lemma CollectBlock(ms: seq<Matrix>, m: nat, n: nat, k: nat, c0: nat)
    requires Collectable(ms, m, n) && k < |ms| && c0 == ColumnCount(ms[..k])
    ensures c0 + ms[k].cols <= ColumnCount(ms)
    ensures ms[k].rows == CollectRows(ms, m, n)
    ensures Block(Collect(ms, m, n), 0, CollectRows(ms, m, n), c0, c0 + ms[k].cols) == ms[k]
  {
    CollectRowsOf(ms, m, n);
    RowsBlock(ms, Collect(ms, m, n), k, c0);
  }

  /** The rows of collect are the collected rows. */
  lemma CollectRowsOf(ms: seq<Matrix>, m: nat, n: nat)
    requires Collectable(ms, m, n)
    ensures SameRows(ms, Collect(ms, m, n).rows)
    ensures forall i :: 0 <= i < Collect(ms, m, n).rows ==>
      Collect(ms, m, n).entries[i] == CollectedRow(ms, Collect(ms, m, n).rows, i)
  {
  }

  /** In a matrix whose rows are the collected rows, matrix k is the block of columns from the column count before it. */
  lemma RowsBlock(ms: seq<Matrix>, C: Matrix, k: nat, c0: nat)
    requires SameRows(ms, C.rows) && k < |ms| && C.Valid() && C.cols == ColumnCount(ms)
    requires forall i :: 0 <= i < C.rows ==> C.entries[i] == CollectedRow(ms, C.rows, i)
    requires c0 == ColumnCount(ms[..k])
    ensures c0 + ms[k].cols <= C.cols
    ensures ms[k].rows == C.rows
    ensures Block(C, 0, C.rows, c0, c0 + ms[k].cols) == ms[k]
  {
    assert ms[k].Valid() && ms[k].rows == C.rows;
    ColumnCountNext(ms, k);
    var B := Block(C, 0, C.rows, c0, c0 + ms[k].cols);
    forall i | 0 <= i < C.rows
      ensures B.entries[i] == ms[k].entries[i]
    {
      assert B.entries[i] == C.entries[0 + i][c0..c0 + ms[k].cols];
      CollectedRowSlice(ms, C.rows, i, k);
    }
    RowExtensionality(B, ms[k]);
  }

  lemma ColumnCountNext(ms: seq<Matrix>, k: nat)
    requires k < |ms|
    ensures ColumnCount(ms[..k]) + ms[k].cols <= ColumnCount(ms)
  {
    ColumnCountPrefix(ms, k + 1);
    assert ms[..k + 1][..k] == ms[..k];
  }

  /**
   * collect(ms, m, n), and collect(n, ...) which calls it with m = n = 0:
   * the dimensions first, then each matrix's rows copied at its running
   * column offset.
   */
  method CollectMatrices(ms: seq<Matrix>, m: nat, n: nat) returns (C: Matrix)
    requires Collectable(ms, m, n)
    ensures C == Collect(ms, m, n)
  {
    var dimA1, dimA2 := CollectDimensions(ms, m, n);
    CollectWidth(ms, m, n);
    var buffer := new real[dimA1, dimA2];
    CopyColumns(ms, buffer);
    C := Snapshot(buffer);
    CollectRowsOf(ms, m, n);
    SameCollectedRows(ms, C, Collect(ms, m, n));
  }

  /** The first pass of collect: the row count and the width it allocates. */
  method CollectDimensions(ms: seq<Matrix>, m: nat, n: nat) returns (dimA1: nat, dimA2: nat)
    ensures dimA1 == CollectRows(ms, m, n) && dimA2 == CollectColumns(ms, m, n)
  {
    dimA1, dimA2 := m, n * |ms|;
    if m == 0 && n == 0 {
      for k := 0 to |ms|
        invariant dimA1 == (if k == 0 then m else ms[k - 1].rows)
        invariant dimA2 == ColumnCount(ms[..k])
      {
        assert ms[..k + 1][..k] == ms[..k];
        dimA1 := ms[k].rows;
        dimA2 := dimA2 + ms[k].cols;
      }
      assert ms[..|ms|] == ms;
    }
  }

  /** The second pass of collect: each matrix copied at its running column offset. */
  method CopyColumns(ms: seq<Matrix>, buffer: array2<real>)
    requires SameRows(ms, buffer.Length0) && buffer.Length1 == ColumnCount(ms)
    modifies buffer
    ensures forall i, c :: 0 <= i < buffer.Length0 && 0 <= c < buffer.Length1 ==> buffer[i, c] == CollectedRow(ms, buffer.Length0, i)[c]
  {
    var hindex := 0;
    for k := 0 to |ms|
      invariant hindex == ColumnCount(ms[..k]) <= buffer.Length1
      invariant forall i, c :: 0 <= i < buffer.Length0 && 0 <= c < hindex ==> buffer[i, c] == CollectedRow(ms[..k], buffer.Length0, i)[c]
    {
      assert ms[..k + 1][..k] == ms[..k];
      ColumnCountPrefix(ms, k + 1);
      CopyInto(buffer, ms[k], 0, hindex);
      hindex := hindex + ms[k].cols;
    }
    assert ms[..|ms|] == ms;
  }

  /** Two matrices of one size whose rows are both the collected rows are equal. */
  lemma SameCollectedRows(ms: seq<Matrix>, C: Matrix, D: Matrix)
    requires C.Valid() && D.Valid() && C.rows == D.rows && C.cols == D.cols && SameRows(ms, C.rows) && C.cols == ColumnCount(ms)
    requires forall i, c :: 0 <= i < C.rows && 0 <= c < C.cols ==> C.entries[i][c] == CollectedRow(ms, C.rows, i)[c]
    requires forall i :: 0 <= i < D.rows ==> D.entries[i] == CollectedRow(ms, C.rows, i)
    ensures C == D
  {
    Extensionality(C, D);
  }

  // ---------------------------------------------------------------------
  // Scaling and the cross-product matrix

  /** Row i of A multiplied by v(i). */
  function RowScaled(v: Vector, A: Matrix): (M: Matrix)
    requires A.Valid() && A.rows <= |v|
    ensures M.Valid() && M.rows == A.rows && M.cols == A.cols
    ensures forall i, j :: 0 <= i < A.rows && 0 <= j < A.cols ==> M.entries[i][j] == A.entries[i][j] * v[i]
  {
    Matrix(A.rows, A.cols, seq(A.rows, i requires 0 <= i < A.rows =>
      seq(A.cols, j requires 0 <= j < A.cols => A.entries[i][j] * v[i])))
  }

  /** Column j of A multiplied by v(j). */
  function ColumnScaled(A: Matrix, v: Vector): (M: Matrix)
    requires A.Valid() && A.cols <= |v|
    ensures M.Valid() && M.rows == A.rows && M.cols == A.cols
    ensures forall i, j :: 0 <= i < A.rows && 0 <= j < A.cols ==> M.entries[i][j] == A.entries[i][j] * v[j]
  {
    Matrix(A.rows, A.cols, seq(A.rows, i requires 0 <= i < A.rows =>
      seq(A.cols, j requires 0 <= j < A.cols => A.entries[i][j] * v[j])))
  }

  /** Scaling the columns is scaling the rows of the transpose. */
  lemma ColumnScaledTranspose(A: Matrix, v: Vector)
    requires A.Valid() && A.cols <= |v|
    ensures ColumnScaled(A, v) == Transpose(RowScaled(v, Transpose(A)))
  {
    Extensionality(ColumnScaled(A, v), Transpose(RowScaled(v, Transpose(A))));
  }

  /** Scaling by ones changes nothing. */
  lemma RowScaledOnes(A: Matrix)
    requires A.Valid()
    ensures RowScaled(Repeat(A.rows, 1.0), A) == A
  {
    Extensionality(RowScaled(Repeat(A.rows, 1.0), A), A);
  }

  /** Scaling the rows of A by v is multiplying by diag(v) on the left. */
  lemma RowScaledApply(v: Vector, A: Matrix, x: Vector, i: nat)
    requires A.Valid() && A.rows <= |v| && |x| == A.cols && i < A.rows
    ensures Apply(RowScaled(v, A), x)[i] == v[i] * Apply(A, x)[i]
  {
    RowSumScaled(v, A, x, i, A.cols);
  }

  lemma {:induction false} RowSumScaled(v: Vector, A: Matrix, x: Vector, i: nat, hi: nat)
    requires A.Valid() && A.rows <= |v| && |x| == A.cols && i < A.rows && hi <= A.cols
    ensures RowSum(RowScaled(v, A), i, x, 0, hi) == v[i] * RowSum(A, i, x, 0, hi)
    decreases hi
  {
    if hi > 0 {
      RowSumScaled(v, A, x, i, hi - 1);
      var a, b := A.entries[i][hi - 1], x[hi - 1];
      assert RowScaled(v, A).entries[i][hi - 1] * b == v[i] * (a * b);
    }
  }

  /** vector_scale(v, A): a copy of A whose row i is multiplied by v(i). */
  method VectorScaleRows(v: Vector, A: Matrix) returns (M: Matrix)
    requires A.Valid() && A.rows <= |v|
    ensures M == RowScaled(v, A)
  {
    var m, n := A.rows, A.cols;
    var buffer := new real[m, n]((i, j) requires 0 <= i < m && 0 <= j < n => A.entries[i][j]);
    for i := 0 to m
      invariant forall i', j' :: 0 <= i' < m && 0 <= j' < n ==>
        buffer[i', j'] == if i' < i then A.entries[i'][j'] * v[i'] else A.entries[i'][j']
    {
      var vi := v[i];
      for j := 0 to n
        invariant forall i', j' :: 0 <= i' < m && 0 <= j' < n ==>
          buffer[i', j'] == if i' < i || (i' == i && j' < j) then A.entries[i'][j'] * v[i'] else A.entries[i'][j']
      {
        buffer[i, j] := buffer[i, j] * vi;
      }
    }
    M := Snapshot(buffer);
    Extensionality(M, RowScaled(v, A));
  }

  /** vector_scale(A, v): a copy of A whose column j is multiplied by v(j). */
  method VectorScaleColumns(A: Matrix, v: Vector) returns (M: Matrix)
    requires A.Valid() && A.cols <= |v|
    ensures M == ColumnScaled(A, v)
  {
    var m, n := A.rows, A.cols;
    var buffer := new real[m, n]((i, j) requires 0 <= i < m && 0 <= j < n => A.entries[i][j]);
    for i := 0 to m
      invariant forall i', j' :: 0 <= i' < m && 0 <= j' < n ==>
        buffer[i', j'] == if i' < i then A.entries[i'][j'] * v[j'] else A.entries[i'][j']
    {
      for j := 0 to n
        invariant forall i', j' :: 0 <= i' < m && 0 <= j' < n ==>
          buffer[i', j'] == if i' < i || (i' == i && j' < j) then A.entries[i'][j'] * v[j'] else A.entries[i'][j']
      {
        buffer[i, j] := buffer[i, j] * v[j];
      }
    }
    M := Snapshot(buffer);
    Extensionality(M, ColumnScaled(A, v));
  }

  /** skewSymmetric(wx, wy, wz): the matrix of the cross product with w. */
  function SkewSymmetric(wx: real, wy: real, wz: real): (S: Matrix)
    ensures S.Valid() && S.rows == 3 && S.cols == 3
  {
    Matrix(3, 3, [[0.0, -wz, wy], [wz, 0.0, -wx], [-wy, wx, 0.0]])
  }

  /** The cross product of two 3-vectors. */
  function Cross(a: Vector, b: Vector): (c: Vector)
    requires |a| == 3 && |b| == 3
    ensures |c| == 3
  {
    [a[1] * b[2] - a[2] * b[1], a[2] * b[0] - a[0] * b[2], a[0] * b[1] - a[1] * b[0]]
  }

  /** The skew-symmetric matrix is minus its transpose. */
  lemma SkewSymmetricTranspose(wx: real, wy: real, wz: real)
    ensures var S, T := SkewSymmetric(wx, wy, wz), Transpose(SkewSymmetric(wx, wy, wz));
      forall i, j :: 0 <= i < 3 && 0 <= j < 3 ==> T.entries[i][j] == -S.entries[i][j]
  {
  }

  /** Multiplying by skewSymmetric(w) is the cross product with w. */
  lemma SkewSymmetricCross(wx: real, wy: real, wz: real, v: Vector)
    requires |v| == 3
    ensures Apply(SkewSymmetric(wx, wy, wz), v) == Cross([wx, wy, wz], v)
  {
    var S := SkewSymmetric(wx, wy, wz);
    assert RowSum(S, 0, v, 0, 3) == -wz * v[1] + wy * v[2];
    assert RowSum(S, 1, v, 0, 3) == wz * v[0] - wx * v[2];
    assert RowSum(S, 2, v, 0, 3) == -wy * v[0] + wx * v[1];
    var y, c := Apply(S, v), Cross([wx, wy, wz], v);
    assert y[0] == c[0] && y[1] == c[1] && y[2] == c[2];
    assert y == c;
  }

  /** w is in the kernel of skewSymmetric(w). */
  lemma SkewSymmetricAxis(wx: real, wy: real, wz: real)
    ensures Apply(SkewSymmetric(wx, wy, wz), [wx, wy, wz]) == [0.0, 0.0, 0.0]
  {
    SkewSymmetricCross(wx, wy, wz, [wx, wy, wz]);
  }
}
