/**
 * The in-place elimination kernels of Matrix.cpp: the Householder rank-one
 * update, the substitution update of `A` and `b`, and weighted Gaussian
 * elimination. `A` is an `array2` and `b` an `array` that the methods
 * update, as the source does; each method is proved against a function on
 * the snapshot of the old contents.
 */
module Elimination {
  import opened Vectors
  import opened Matrices

  // ---------------------------------------------------------------------
  // updateAb

  /** A with a(i) * r(c) subtracted from every entry right of column j. */
  function UpdatedA(A: Matrix, j: nat, a: Vector, r: Vector): (B: Matrix)
    requires A.Valid() && A.rows <= |a| && A.cols <= |r|
    ensures B.Valid() && B.rows == A.rows && B.cols == A.cols
    ensures forall i, c :: 0 <= i < A.rows && 0 <= c < A.cols ==>
      B.entries[i][c] == if c <= j then A.entries[i][c] else A.entries[i][c] - a[i] * r[c]
  {
    Matrix(A.rows, A.cols, seq(A.rows, i requires 0 <= i < A.rows =>
      seq(A.cols, c requires 0 <= c < A.cols =>
        if c <= j then A.entries[i][c] else A.entries[i][c] - a[i] * r[c])))
  }

  /** b with a(i) * d subtracted from every entry. */
  function UpdatedB(b: Vector, a: Vector, d: real): (c: Vector)
    requires |b| <= |a|
    ensures |c| == |b| && forall i :: 0 <= i < |b| ==> c[i] == b[i] - a[i] * d
  {
    seq(|b|, i requires 0 <= i < |b| => b[i] - a[i] * d)
  }

  /** Sum of u(k) * x(k) for lo <= k < hi. */
  function PartialDot(u: Vector, x: Vector, lo: nat, hi: nat): real
    requires lo <= hi <= |u| && hi <= |x|
    decreases hi - lo
  {
    if lo == hi then 0.0 else PartialDot(u, x, lo, hi - 1) + u[hi - 1] * x[hi - 1]
  }

  /**
   * updateAb(A, b, j, a, r, d): for every row i, b(i) -= a(i) * d and
   * A(i, c) -= a(i) * r(c) for the columns c after j.
   */
  method UpdateAb(A: array2<real>, b: array<real>, j: nat, a: Vector, r: Vector, d: real)
    requires A.Length0 <= |a| && A.Length1 <= |r| && A.Length0 <= b.Length
    modifies A, b
    ensures Snapshot(A) == UpdatedA(old(Snapshot(A)), j, a, r)
    ensures b[..A.Length0] == UpdatedB(old(b[..A.Length0]), a, d)
    ensures b[A.Length0..] == old(b[A.Length0..])
  {
    var m, n := A.Length0, A.Length1;
    ghost var A0, b0 := Snapshot(A), b[..];
    for i := 0 to m
      invariant forall i', c :: 0 <= i' < m && 0 <= c < n ==>
        A[i', c] == if i' < i && c > j then A0.entries[i'][c] - a[i'] * r[c] else A0.entries[i'][c]
      invariant forall k :: 0 <= k < b.Length ==> b[k] == if k < i then b0[k] - a[k] * d else b0[k]
    {
      var ai := a[i];
      b[i] := b[i] - ai * d;
      SubtractScaledRow(A, i, j, ai, r);
    }
    Extensionality(Snapshot(A), UpdatedA(A0, j, a, r));
  }

  /** A(i, j+1:end) -= ai * r(j+1:end), the inner loop of updateAb. */
  method SubtractScaledRow(A: array2<real>, i: nat, j: nat, ai: real, r: Vector)
    requires i < A.Length0 && A.Length1 <= |r|
    modifies A
    ensures forall i', c :: 0 <= i' < A.Length0 && 0 <= c < A.Length1 ==>
      A[i', c] == if i' == i && c > j then old(A[i', c]) - ai * r[c] else old(A[i', c])
  {
    var c := j + 1;
    while c < A.Length1
      invariant forall i', c' :: 0 <= i' < A.Length0 && 0 <= c' < A.Length1 ==>
        A[i', c'] == if i' == i && j < c' < c then old(A[i', c']) - ai * r[c'] else old(A[i', c'])
    {
      A[i, c] := A[i, c] - ai * r[c];
      c := c + 1;
    }
  }

  /** Subtracting a(i) * r from the row subtracts a(i) times the sum of r against x. */
  lemma {:induction false} UpdatedRowSum(A: Matrix, j: nat, a: Vector, r: Vector, x: Vector, i: nat, hi: nat)
    requires A.Valid() && A.rows <= |a| && A.cols <= |r| && i < A.rows
    requires j + 1 <= hi <= A.cols && hi <= |x|
    ensures RowSum(UpdatedA(A, j, a, r), i, x, j + 1, hi) == RowSum(A, i, x, j + 1, hi) - a[i] * PartialDot(r, x, j + 1, hi)
    decreases hi
  {
    if hi > j + 1 {
      UpdatedRowSum(A, j, a, r, x, i, hi - 1);
      var k := hi - 1;
      assert UpdatedA(A, j, a, r).entries[i][k] * x[k] == A.entries[i][k] * x[k] - a[i] * (r[k] * x[k]);
    }
  }

  /**
   * What updateAb is for: if the variable of column j, whose coefficients
   * are a, takes the value xj = d - sum of r(c) x(c) over the columns c
   * after j, every row's residual a(i) xj + A(i, j+1:) x - b(i) equals the
   * residual of the updated row, A'(i, j+1:) x - b'(i).
   */
  lemma UpdateAbSubstitution(A: Matrix, b: Vector, j: nat, a: Vector, r: Vector, d: real, x: Vector, xj: real, i: nat)
    requires A.Valid() && A.rows <= |a| && A.cols <= |r| && |b| == A.rows && |x| == A.cols
    requires j < A.cols && i < A.rows
    requires xj == d - PartialDot(r, x, j + 1, A.cols)
    ensures a[i] * xj + RowSum(A, i, x, j + 1, A.cols) - b[i] ==
      RowSum(UpdatedA(A, j, a, r), i, x, j + 1, A.cols) - UpdatedB(b, a, d)[i]
  {
    UpdatedResidual(A, b, j, a, r, d, x, i);
  }

  /** The residual of the updated row is the old residual plus a(i) times (d - the sum of r against x). */
  lemma UpdatedResidual(A: Matrix, b: Vector, j: nat, a: Vector, r: Vector, d: real, x: Vector, i: nat)
    requires A.Valid() && A.rows <= |a| && A.cols <= |r| && |b| == A.rows && |x| == A.cols
    requires j < A.cols && i < A.rows
    ensures RowSum(UpdatedA(A, j, a, r), i, x, j + 1, A.cols) - UpdatedB(b, a, d)[i] ==
      a[i] * (d - PartialDot(r, x, j + 1, A.cols)) + RowSum(A, i, x, j + 1, A.cols) - b[i]
  {
    UpdatedRowSum(A, j, a, r, x, i, A.cols);
    ResidualAlgebra(a[i], d, PartialDot(r, x, j + 1, A.cols), RowSum(A, i, x, j + 1, A.cols), b[i],
      RowSum(UpdatedA(A, j, a, r), i, x, j + 1, A.cols), UpdatedB(b, a, d)[i]);
  }

  lemma ResidualAlgebra(ai: real, d: real, t: real, s: real, bi: real, updated: real, bnew: real)
    requires updated == s - ai * t && bnew == bi - ai * d
    ensures updated - bnew == ai * (d - t) + s - bi
  {
  }

  /** A row sum from column j is the term of column j plus the sum after it. */
  lemma FirstTerm(A: Matrix, i: nat, x: Vector, j: nat)
    requires A.Valid() && i < A.rows && j < A.cols && A.cols <= |x|
    ensures RowSum(A, i, x, j, A.cols) == A.entries[i][j] * x[j] + RowSum(A, i, x, j + 1, A.cols)
  {
    RowSumSplit(A, i, x, j, j + 1, A.cols);
  }

  // ---------------------------------------------------------------------
  // householder_update

  /** Column c of A from row j down: A(j:m, c). */
  function ColumnFrom(A: Matrix, j: nat, c: nat): (col: Vector)
    requires A.Valid() && j <= A.rows && c < A.cols
    ensures |col| == A.rows - j && forall s :: 0 <= s < A.rows - j ==> col[s] == A.entries[j + s][c]
  {
    seq(A.rows - j, s requires 0 <= s < A.rows - j => A.entries[j + s][c])
  }

  /** The number of rows from row j down. */
  function Height(A: Matrix, j: nat): nat
    requires j <= A.rows
  {
    A.rows - j
  }

  /** w = beta * A(j:m, :)' * v. */
  function HouseholderW(A: Matrix, j: nat, beta: real, v: Vector): (w: Vector)
    requires A.Valid() && j <= A.rows && A.rows - j <= |v|
    ensures |w| == A.cols
    ensures forall c :: 0 <= c < A.cols ==> w[c] == beta * Projection(ColumnFrom(A, j, c), v, Height(A, j))
  {
    seq(A.cols, c requires 0 <= c < A.cols => beta * Projection(ColumnFrom(A, j, c), v, Height(A, j)))
  }

  /** A(j:m, :) -= v * w', the rows above j left alone. */
  function RankOneUpdate(A: Matrix, j: nat, v: Vector, w: Vector): (B: Matrix)
    requires A.Valid() && A.rows <= j + |v| && |w| == A.cols
    ensures B.Valid() && B.rows == A.rows && B.cols == A.cols
  {
    Matrix(A.rows, A.cols, seq(A.rows, r requires 0 <= r < A.rows =>
      seq(A.cols, c requires 0 <= c < A.cols =>
        if r < j then A.entries[r][c] else A.entries[r][c] - v[r - j] * w[c])))
  }

  /** The entries of the rank-one update. */
  lemma RankOneEntry(A: Matrix, j: nat, v: Vector, w: Vector, r: nat, c: nat)
    requires A.Valid() && A.rows <= j + |v| && |w| == A.cols && r < A.rows && c < A.cols
    ensures RankOneUpdate(A, j, v, w).entries[r][c] ==
      if r < j then A.entries[r][c] else A.entries[r][c] - v[r - j] * w[c]
  {
  }

  /** What householder_update leaves in A; nothing changes when j >= m. */
  function Reflected(A: Matrix, j: nat, beta: real, v: Vector): (B: Matrix)
    requires A.Valid() && A.rows <= j + |v|
    ensures B.Valid() && B.rows == A.rows && B.cols == A.cols
  {
    if A.rows <= j then A else RankOneUpdate(A, j, v, HouseholderW(A, j, beta, v))
  }

  /**
   * householder_update(A, j, beta, vjm): w(c) = beta * sum of A(r, c) * v(r - j)
   * over the rows from j, then A(r, c) -= v(r - j) * w(c) on those rows.
   */
  method HouseholderUpdate(A: array2<real>, j: nat, beta: real, vjm: Vector)
    requires A.Length0 <= j + |vjm|
    modifies A
    ensures Snapshot(A) == Reflected(old(Snapshot(A)), j, beta, vjm)
  {
    var m, n := A.Length0, A.Length1;
    if m <= j {
      return;
    }
    ghost var A0 := Snapshot(A);
    var w := ColumnProducts(A, j, beta, vjm);
    for c := 0 to n
      invariant forall r', c' :: 0 <= r' < m && 0 <= c' < n ==>
        A[r', c'] == if c' < c && r' >= j then A0.entries[r'][c'] - vjm[r' - j] * w[c'] else A0.entries[r'][c']
    {
      SubtractFromColumn(A, j, c, vjm, w[c]);
    }
    forall r, c | 0 <= r < m && 0 <= c < n
      ensures Snapshot(A).entries[r][c] == RankOneUpdate(A0, j, vjm, w).entries[r][c]
    {
      RankOneEntry(A0, j, vjm, w, r, c);
    }
    Extensionality(Snapshot(A), RankOneUpdate(A0, j, vjm, w));
  }

  /** The first loop of householder_update: w = beta * A(j:m, :)' * v. */
  method ColumnProducts(A: array2<real>, j: nat, beta: real, v: Vector) returns (w: Vector)
    requires j < A.Length0 && A.Length0 - j <= |v|
    ensures w == HouseholderW(Snapshot(A), j, beta, v)
  {
    ghost var expected := HouseholderW(Snapshot(A), j, beta, v);
    w := [];
    for c := 0 to A.Length1
      invariant w == expected[..c]
    {
      var wc := ColumnProduct(A, j, c, beta, v);
      assert expected[..c + 1] == expected[..c] + [wc];
      w := w + [wc];
    }
    assert expected[..A.Length1] == expected;
  }

  /** One column of the first loop of householder_update: beta times the sum of A(r, c) * v(r - j) over r >= j. */
  method ColumnProduct(A: array2<real>, j: nat, c: nat, beta: real, v: Vector) returns (wc: real)
    requires j < A.Length0 && A.Length0 - j <= |v| && c < A.Length1
    ensures wc == HouseholderW(Snapshot(A), j, beta, v)[c]
  {
    ghost var A0 := Snapshot(A);
    wc := 0.0;
    var r := j;
    while r < A.Length0
      invariant j <= r <= A.Length0 && wc == Projection(ColumnFrom(A0, j, c), v, r - j)
    {
      wc := wc + A[r, c] * v[r - j];
      r := r + 1;
    }
    wc := wc * beta;
  }

  /** The second loop of householder_update on column c: A(r, c) -= v(r - j) * wc for r >= j. */
  method SubtractFromColumn(A: array2<real>, j: nat, c: nat, v: Vector, wc: real)
    requires j < A.Length0 && A.Length0 - j <= |v| && c < A.Length1
    modifies A
    ensures forall r', c' :: 0 <= r' < A.Length0 && 0 <= c' < A.Length1 ==>
      A[r', c'] == if c' == c && r' >= j then old(A[r', c']) - v[r' - j] * wc else old(A[r', c'])
  {
    var r := j;
    while r < A.Length0
      invariant j <= r <= A.Length0
      invariant forall r', c' :: 0 <= r' < A.Length0 && 0 <= c' < A.Length1 ==>
        A[r', c'] == if c' == c && j <= r' < r then old(A[r', c']) - v[r' - j] * wc else old(A[r', c'])
    {
      A[r, c] := A[r, c] - v[r - j] * wc;
      r := r + 1;
    }
  }

  /** If u = a - v w entrywise, the sum of u against v is that of a minus w times the squared norm of v. */
  lemma {:induction false} ProjectionRankOne(u: Vector, a: Vector, v: Vector, w: real, n: nat)
    requires n <= |u| && n <= |a| && n <= |v|
    requires forall k :: 0 <= k < n ==> u[k] == a[k] - v[k] * w
    ensures Projection(u, v, n) == Projection(a, v, n) - w * Projection(v, v, n)
    decreases n
  {
    if n > 0 {
      ProjectionRankOne(u, a, v, w, n - 1);
      var k := n - 1;
      assert u[k] * v[k] == a[k] * v[k] - w * (v[k] * v[k]);
    }
  }

  /** Column c of the update, from row j down, entry by entry. */
  lemma RankOneColumn(A: Matrix, j: nat, v: Vector, w: Vector, c: nat, n: nat)
    requires A.Valid() && j <= A.rows && n == A.rows - j && n <= |v| && |w| == A.cols && c < A.cols
    ensures forall s :: 0 <= s < n ==>
      ColumnFrom(RankOneUpdate(A, j, v, w), j, c)[s] == ColumnFrom(A, j, c)[s] - v[s] * w[c]
  {
    var u := ColumnFrom(RankOneUpdate(A, j, v, w), j, c);
    forall s | 0 <= s < n
      ensures u[s] == ColumnFrom(A, j, c)[s] - v[s] * w[c]
    {
      assert u[s] == RankOneUpdate(A, j, v, w).entries[j + s][c];
      RankOneEntry(A, j, v, w, j + s, c);
    }
  }

  lemma ReflectAlgebra(beta: real, p: real, w: real, q: real, p2: real)
    requires w == beta * p && beta * q == 2.0 && p2 == p - w * q
    ensures beta * p2 == -w
  {
    assert beta * p2 == beta * p - w * (beta * q);
  }

  /**
   * A column a reflected by a - v * beta (v' a): when beta * |v|^2 = 2, the
   * reflected column u has beta (v' u) = -beta (v' a).
   */
  lemma ReflectColumn(u: Vector, a: Vector, v: Vector, beta: real, wa: real, n: nat, pa: real, q: real)
    requires n <= |u| && n <= |a| && n <= |v|
    requires pa == Projection(a, v, n) && q == Projection(v, v, n)
    requires wa == beta * pa && beta * q == 2.0
    requires forall s :: 0 <= s < n ==> u[s] == a[s] - v[s] * wa
    ensures beta * Projection(u, v, n) == -wa
  {
    ProjectionRankOne(u, a, v, wa, n);
    ReflectAlgebra(beta, pa, wa, q, Projection(u, v, n));
  }

  /** A matrix B whose column c is that of A reflected from row j down. */
  lemma ReflectedColumnOf(A: Matrix, B: Matrix, j: nat, beta: real, v: Vector, c: nat, n: nat, wa: real)
    requires A.Valid() && B.Valid() && B.rows == A.rows && B.cols == A.cols
    requires j <= A.rows && n == Height(A, j) && n <= |v| && c < A.cols
    requires wa == beta * Projection(ColumnFrom(A, j, c), v, n) && beta * Projection(v, v, n) == 2.0
    requires forall s :: 0 <= s < n ==> B.entries[j + s][c] == A.entries[j + s][c] - v[s] * wa
    ensures beta * Projection(ColumnFrom(B, j, c), v, n) == -wa
  {
    var u, a := ColumnFrom(B, j, c), ColumnFrom(A, j, c);
    forall s | 0 <= s < n
      ensures u[s] == a[s] - v[s] * wa
    {
    }
    ReflectColumn(u, a, v, beta, wa, n, Projection(a, v, n), Projection(v, v, n));
  }

  /** The entries of column c of the reflected matrix from row j down. */
  lemma ReflectedEntries(A: Matrix, j: nat, beta: real, v: Vector, c: nat, n: nat)
    requires A.Valid() && j < A.rows && n == Height(A, j) && n <= |v| && c < A.cols
    ensures forall s :: 0 <= s < n ==>
      Reflected(A, j, beta, v).entries[j + s][c] == A.entries[j + s][c] - v[s] * HouseholderW(A, j, beta, v)[c]
  {
    var w := HouseholderW(A, j, beta, v);
    forall s | 0 <= s < n
      ensures RankOneUpdate(A, j, v, w).entries[j + s][c] == A.entries[j + s][c] - v[s] * w[c]
    {
      RankOneEntry(A, j, v, w, j + s, c);
    }
  }

  /** With beta * |v|^2 = 2 the vector w of the updated matrix is -w. */
  lemma ReflectedW(A: Matrix, j: nat, beta: real, v: Vector, c: nat, n: nat)
    requires A.Valid() && j < A.rows && n == Height(A, j) && n <= |v| && c < A.cols
    requires beta * Projection(v, v, n) == 2.0
    ensures HouseholderW(Reflected(A, j, beta, v), j, beta, v)[c] == -HouseholderW(A, j, beta, v)[c]
  {
    var B := Reflected(A, j, beta, v);
    ReflectedEntries(A, j, beta, v, c, n);
    ReflectedColumnOf(A, B, j, beta, v, c, n, HouseholderW(A, j, beta, v)[c]);
  }

  /**
   * When beta * |v|^2 = 2 the update is the Householder reflection
   * I - beta v v' applied to rows j on, and applying it twice gives back A.
   */
  lemma HouseholderInvolution(A: Matrix, j: nat, beta: real, v: Vector)
    requires A.Valid() && A.rows <= j + |v|
    requires j < A.rows ==> beta * Projection(v, v, A.rows - j) == 2.0
    ensures Reflected(Reflected(A, j, beta, v), j, beta, v) == A
  {
    if j < A.rows {
      var n := Height(A, j);
      var B := Reflected(A, j, beta, v);
      forall r, c | 0 <= r < A.rows && 0 <= c < A.cols
        ensures Reflected(B, j, beta, v).entries[r][c] == A.entries[r][c]
      {
        ReflectedW(A, j, beta, v, c, n);
        RankOneEntry(A, j, v, HouseholderW(A, j, beta, v), r, c);
        RankOneEntry(B, j, v, HouseholderW(B, j, beta, v), r, c);
      }
      Extensionality(Reflected(B, j, beta, v), A);
    }
  }

  // ---------------------------------------------------------------------
  // weighted_eliminate

  /** One eliminated variable: x = d - r' S with standard deviation sigma. */
  datatype EliminatedRow = EliminatedRow(r: Vector, d: real, sigma: real)

  /** Columns with a precision below 1e-8 carry no information. */
  const MinPrecision: real := 0.00000001

  /** The weighted pseudo-inverse returns a vector as long as its second argument. */
  ghost predicate PseudoinverseSized(pseudoinverse: (Vector, Vector) -> (Vector, Precision))
  {
    forall a, w :: |pseudoinverse(a, w).0| == |w|
  }

  /** The square root is positive on every precision that is not skipped. */
  ghost predicate SqrtPositive(sqrt: real -> real)
  {
    forall p :: p >= MinPrecision ==> sqrt(p) > 0.0
  }

  /** reciprocal(emul(sigmas, sigmas)). */
  function Weights(sigmas: Vector, reciprocal: real -> real): (w: Vector)
    ensures |w| == |sigmas|
  {
    seq(|sigmas|, i requires 0 <= i < |sigmas| => reciprocal(sigmas[i] * sigmas[i]))
  }

  /** Column j is skipped when its precision is finite and below 1e-8. */
  predicate Skipped(precision: Precision)
  {
    precision.Finite? && precision.value < MinPrecision
  }

  /** 1/sqrt(precision), which is 0 for an infinite precision. */
  function Sigma(precision: Precision, sqrt: real -> real): real
    requires SqrtPositive(sqrt) && !Skipped(precision)
  {
    match precision
    case Infinite => 0.0
    case Finite(p) => 1.0 / sqrt(p)
  }

  /** basis(n, j) with r(c) = pseudo' A(:, c) for every column c after j. */
  function SolutionRow(A: Matrix, pseudo: Vector, j: nat): (r: Vector)
    requires A.Valid() && |pseudo| == A.rows && j < A.cols
    ensures |r| == A.cols
  {
    seq(A.cols, c requires 0 <= c < A.cols =>
      if c < j then 0.0 else if c == j then 1.0 else Projection(pseudo, Column(A, c), A.rows))
  }

  /**
   * The loop of weighted_eliminate from column j on, given the rows found so
   * far: the rows it returns and the final A and b.
   */
  function EliminateFrom(A: Matrix, b: Vector, weights: Vector, pseudoinverse: (Vector, Vector) -> (Vector, Precision),
                         sqrt: real -> real, j: nat, results: seq<EliminatedRow>): (out: (seq<EliminatedRow>, Matrix, Vector))
    requires A.Valid() && |b| == A.rows && |weights| == A.rows && j <= A.cols
    requires PseudoinverseSized(pseudoinverse) && SqrtPositive(sqrt)
    ensures out.1.Valid() && out.1.rows == A.rows && out.1.cols == A.cols && |out.2| == A.rows
    decreases A.cols - j
  {
    if j == A.cols then (results, A, b)
    else
      var a := Column(A, j);
      var (pseudo, precision) := pseudoinverse(a, weights);
      if Skipped(precision) then EliminateFrom(A, b, weights, pseudoinverse, sqrt, j + 1, results)
      else
        var r := SolutionRow(A, pseudo, j);
        var d := Projection(pseudo, b, A.rows);
        var found := results + [EliminatedRow(r, d, Sigma(precision, sqrt))];
        if |found| >= Min(A.rows, A.cols) then (found, A, b)
        else EliminateFrom(UpdatedA(A, j, a, r), UpdatedB(b, a, d), weights, pseudoinverse, sqrt, j + 1, found)
  }

  function Min(x: nat, y: nat): nat { if x < y then x else y }

  /** A skipped column leaves the rows, A and b as they are. */
  lemma EliminateSkip(A: Matrix, b: Vector, weights: Vector, pseudoinverse: (Vector, Vector) -> (Vector, Precision),
                      sqrt: real -> real, j: nat, results: seq<EliminatedRow>)
    requires A.Valid() && |b| == A.rows && |weights| == A.rows && j < A.cols
    requires PseudoinverseSized(pseudoinverse) && SqrtPositive(sqrt)
    requires Skipped(pseudoinverse(Column(A, j), weights).1)
    ensures EliminateFrom(A, b, weights, pseudoinverse, sqrt, j, results) ==
      EliminateFrom(A, b, weights, pseudoinverse, sqrt, j + 1, results)
  {
  }

  /** A column that is not skipped contributes the row (r, d, sigma); the loop stops once the rank is exhausted. */
  lemma EliminateStop(A: Matrix, b: Vector, weights: Vector, pseudoinverse: (Vector, Vector) -> (Vector, Precision),
                      sqrt: real -> real, j: nat, results: seq<EliminatedRow>, row: EliminatedRow)
    requires A.Valid() && |b| == A.rows && |weights| == A.rows && j < A.cols
    requires PseudoinverseSized(pseudoinverse) && SqrtPositive(sqrt)
    requires !Skipped(pseudoinverse(Column(A, j), weights).1)
    requires row == EliminatedRow(SolutionRow(A, pseudoinverse(Column(A, j), weights).0, j),
      Projection(pseudoinverse(Column(A, j), weights).0, b, A.rows), Sigma(pseudoinverse(Column(A, j), weights).1, sqrt))
    requires |results + [row]| >= Min(A.rows, A.cols)
    ensures EliminateFrom(A, b, weights, pseudoinverse, sqrt, j, results) == (results + [row], A, b)
  {
  }

  /** Otherwise A and b are updated and the loop goes on with the next column. */
  lemma EliminateStep(A: Matrix, b: Vector, weights: Vector, pseudoinverse: (Vector, Vector) -> (Vector, Precision),
                      sqrt: real -> real, j: nat, results: seq<EliminatedRow>, row: EliminatedRow)
    requires A.Valid() && |b| == A.rows && |weights| == A.rows && j < A.cols
    requires PseudoinverseSized(pseudoinverse) && SqrtPositive(sqrt)
    requires !Skipped(pseudoinverse(Column(A, j), weights).1)
    requires row == EliminatedRow(SolutionRow(A, pseudoinverse(Column(A, j), weights).0, j),
      Projection(pseudoinverse(Column(A, j), weights).0, b, A.rows), Sigma(pseudoinverse(Column(A, j), weights).1, sqrt))
    requires |results + [row]| < Min(A.rows, A.cols)
    ensures EliminateFrom(A, b, weights, pseudoinverse, sqrt, j, results) ==
      EliminateFrom(UpdatedA(A, j, Column(A, j), row.r), UpdatedB(b, Column(A, j), row.d), weights, pseudoinverse, sqrt,
        j + 1, results + [row])
  {
  }

  /** The index of the first non-zero entry of r, |r| when there is none. */
  function Lead(r: Vector): (k: nat)
    ensures k <= |r|
  {
    if |r| == 0 then 0 else if r[0] != 0.0 then 0 else 1 + Lead(r[1..])
  }

  /** A vector that is zero before k and non-zero at k leads at k. */
  lemma {:induction false} LeadAt(r: Vector, k: nat)
    requires k < |r| && r[k] != 0.0 && forall c :: 0 <= c < k ==> r[c] == 0.0
    ensures Lead(r) == k
    decreases k
  {
    if k > 0 {
      assert r[0] == 0.0;
      LeadAt(r[1..], k - 1);
    }
  }

  /** The row of column j leads at j, with a 1 there. */
  lemma SolutionRowLead(A: Matrix, pseudo: Vector, j: nat)
    requires A.Valid() && |pseudo| == A.rows && j < A.cols
    ensures Lead(SolutionRow(A, pseudo, j)) == j && SolutionRow(A, pseudo, j)[j] == 1.0
  {
    LeadAt(SolutionRow(A, pseudo, j), j);
  }

  /**
   * The rows are in echelon form over n columns: each row has n entries and
   * leads with a 1, and the leading columns strictly increase.
   */
  ghost predicate Echelon(rows: seq<EliminatedRow>, n: nat)
  {
    (forall k :: 0 <= k < |rows| ==> |rows[k].r| == n && Lead(rows[k].r) < n && rows[k].r[Lead(rows[k].r)] == 1.0) &&
    (forall k, k' :: 0 <= k < k' < |rows| ==> Lead(rows[k].r) < Lead(rows[k'].r))
  }

  /** Every row leads before column j. */
  ghost predicate LeadsBefore(rows: seq<EliminatedRow>, j: nat)
  {
    forall k :: 0 <= k < |rows| ==> Lead(rows[k].r) < j
  }

  /** Appending the row of column j keeps the echelon form. */
  lemma EchelonSnoc(results: seq<EliminatedRow>, row: EliminatedRow, n: nat, j: nat)
    requires Echelon(results, n) && LeadsBefore(results, j)
    requires j < n && |row.r| == n && Lead(row.r) == j && row.r[j] == 1.0
    ensures Echelon(results + [row], n) && LeadsBefore(results + [row], j + 1)
  {
  }

  /** The rows weighted_eliminate returns are in echelon form. */
  lemma {:induction false} EliminateEchelon(A: Matrix, b: Vector, weights: Vector,
                                            pseudoinverse: (Vector, Vector) -> (Vector, Precision),
                                            sqrt: real -> real, j: nat, results: seq<EliminatedRow>)
    requires A.Valid() && |b| == A.rows && |weights| == A.rows && j <= A.cols
    requires PseudoinverseSized(pseudoinverse) && SqrtPositive(sqrt)
    requires Echelon(results, A.cols) && LeadsBefore(results, j)
    ensures Echelon(EliminateFrom(A, b, weights, pseudoinverse, sqrt, j, results).0, A.cols)
    decreases A.cols - j
  {
    if j < A.cols {
      var a := Column(A, j);
      var (pseudo, precision) := pseudoinverse(a, weights);
      if Skipped(precision) {
        assert LeadsBefore(results, j + 1);
        EliminateEchelon(A, b, weights, pseudoinverse, sqrt, j + 1, results);
      } else {
        var r := SolutionRow(A, pseudo, j);
        var d := Projection(pseudo, b, A.rows);
        var row := EliminatedRow(r, d, Sigma(precision, sqrt));
        SolutionRowLead(A, pseudo, j);
        EchelonSnoc(results, row, A.cols, j);
        if |results + [row]| < Min(A.rows, A.cols) {
          EliminateEchelon(UpdatedA(A, j, a, r), UpdatedB(b, a, d), weights, pseudoinverse, sqrt, j + 1, results + [row]);
        }
      }
    }
  }

  /**
   * Each column yields at most one row, and while fewer than min(m, n) rows
   * have been found the loop never returns more than min(m, n).
   */
  lemma {:induction false} EliminateRankBound(A: Matrix, b: Vector, weights: Vector,
                                              pseudoinverse: (Vector, Vector) -> (Vector, Precision),
                                              sqrt: real -> real, j: nat, results: seq<EliminatedRow>)
    requires A.Valid() && |b| == A.rows && |weights| == A.rows && j <= A.cols
    requires PseudoinverseSized(pseudoinverse) && SqrtPositive(sqrt)
    requires |results| < Min(A.rows, A.cols)
    ensures |EliminateFrom(A, b, weights, pseudoinverse, sqrt, j, results).0| <= Min(A.rows, A.cols)
    ensures |EliminateFrom(A, b, weights, pseudoinverse, sqrt, j, results).0| <= |results| + (A.cols - j)
    decreases A.cols - j
  {
    if j < A.cols {
      var a := Column(A, j);
      var (pseudo, precision) := pseudoinverse(a, weights);
      if Skipped(precision) {
        EliminateRankBound(A, b, weights, pseudoinverse, sqrt, j + 1, results);
      } else {
        var r := SolutionRow(A, pseudo, j);
        var d := Projection(pseudo, b, A.rows);
        var found := results + [EliminatedRow(r, d, Sigma(precision, sqrt))];
        if |found| < Min(A.rows, A.cols) {
          EliminateRankBound(UpdatedA(A, j, a, r), UpdatedB(b, a, d), weights, pseudoinverse, sqrt, j + 1, found);
        }
      }
    }
  }

  /** The row for column j, computed with a loop over the columns after j. */
  method SolutionRowOf(A: array2<real>, pseudo: Vector, j: nat) returns (r: Vector)
    requires |pseudo| == A.Length0 && j < A.Length1
    ensures r == SolutionRow(Snapshot(A), pseudo, j)
  {
    var n := A.Length1;
    r := Delta(n, j, 1.0);
    var j2 := j + 1;
    while j2 < n
      invariant j < j2 <= n && |r| == n
      invariant forall c :: 0 <= c < n ==> r[c] == if c < j2 then SolutionRow(Snapshot(A), pseudo, j)[c] else Delta(n, j, 1.0)[c]
    {
      r := r[j2 := Projection(pseudo, Column(Snapshot(A), j2), A.Length0)];
      j2 := j2 + 1;
    }
  }

  /**
   * weighted_eliminate(A, b, sigmas): Gaussian elimination of the columns of
   * A from left to right under the weights 1/sigma^2, updating A and b in
   * place. The weighted pseudo-inverse, the reciprocal and the square root
   * are parameters.
   */
  method WeightedEliminate(A: array2<real>, b: array<real>, sigmas: Vector, reciprocal: real -> real,
                           pseudoinverse: (Vector, Vector) -> (Vector, Precision), sqrt: real -> real)
    returns (results: seq<EliminatedRow>)
    requires b.Length == A.Length0 && |sigmas| == A.Length0
    requires PseudoinverseSized(pseudoinverse) && SqrtPositive(sqrt)
    modifies A, b
    ensures (results, Snapshot(A), b[..]) ==
      EliminateFrom(old(Snapshot(A)), old(b[..]), Weights(sigmas, reciprocal), pseudoinverse, sqrt, 0, [])
  {
    var weights := Weights(sigmas, reciprocal);
    ghost var goal := EliminateFrom(Snapshot(A), b[..], weights, pseudoinverse, sqrt, 0, []);
    results := [];
    var j := 0;
    while j < A.Length1
      invariant j <= A.Length1
      invariant EliminateFrom(Snapshot(A), b[..], weights, pseudoinverse, sqrt, j, results) == goal
    {
      var done;
      results, done := EliminateColumn(A, b, weights, pseudoinverse, sqrt, j, results);
      if done {
        return;
      }
      j := j + 1;
    }
  }

  /**
   * One pass of the loop of weighted_eliminate on column j: it skips the
   * column, or appends its row and either stops (done) or updates A and b.
   */
  method EliminateColumn(A: array2<real>, b: array<real>, weights: Vector,
                         pseudoinverse: (Vector, Vector) -> (Vector, Precision), sqrt: real -> real,
                         j: nat, results: seq<EliminatedRow>)
    returns (found: seq<EliminatedRow>, done: bool)
    requires b.Length == A.Length0 && |weights| == A.Length0 && j < A.Length1
    requires PseudoinverseSized(pseudoinverse) && SqrtPositive(sqrt)
    modifies A, b
    ensures EliminateFrom(old(Snapshot(A)), old(b[..]), weights, pseudoinverse, sqrt, j, results) ==
      if done then (found, Snapshot(A), b[..])
      else EliminateFrom(Snapshot(A), b[..], weights, pseudoinverse, sqrt, j + 1, found)
  {
    var m := A.Length0;
    var a := Column(Snapshot(A), j);
    var pseudo, precision := pseudoinverse(a, weights).0, pseudoinverse(a, weights).1;
    if precision.Finite? && precision.value < MinPrecision {
      EliminateSkip(Snapshot(A), b[..], weights, pseudoinverse, sqrt, j, results);
      return results, false;
    }
    var r := SolutionRowOf(A, pseudo, j);
    var d := Projection(pseudo, b[..], m);
    var sigma := if precision.Infinite? then 0.0 else 1.0 / sqrt(precision.value);
    var row := EliminatedRow(r, d, sigma);
    found := results + [row];
    if |found| >= Min(A.Length0, A.Length1) {
      EliminateStop(Snapshot(A), b[..], weights, pseudoinverse, sqrt, j, results, row);
      return found, true;
    }
    ghost var A0, b0 := Snapshot(A), b[..];
    EliminateStep(A0, b0, weights, pseudoinverse, sqrt, j, results, row);
    assert b0 == b[..m];
    UpdateAb(A, b, j, a, r, d);
    assert b[..] == b[..m];
    done := false;
  }
}
