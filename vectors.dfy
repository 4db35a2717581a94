/**
 * The dense vector kernel of Vector.cpp, with `double` modelled as `real`
 * (exact arithmetic, no NaN and no infinity).  Functions that fill a fresh
 * vector or accumulate a sum with a loop are methods proved against a
 * specification function; the pure ones are functions.
 */
module Vectors {
  import opened Wrappers

  type Vector = seq<real>

  function Abs(x: real): real { if x < 0.0 then -x else x }

  /** The 1e-9 threshold of weightedPseudoinverse. */
  const Tiny: real := 0.000000001

  // ---------------------------------------------------------------------
  // Construction

  /** repeat(n, value): a vector of n copies of value. */
  function Repeat(n: nat, value: real): (v: Vector)
    ensures |v| == n && forall i :: 0 <= i < n ==> v[i] == value
  {
    seq(n, _ => value)
  }

  /** zero(n): the zero vector of length n. */
  function Zero(n: nat): (v: Vector)
    ensures |v| == n && forall i :: 0 <= i < n ==> v[i] == 0.0
  {
    Repeat(n, 0.0)
  }

  /** delta(n, i, value): zero except for value at position i. */
  function Delta(n: nat, i: nat, value: real): (v: Vector)
    requires i < n
    ensures |v| == n && v[i] == value
    ensures forall j :: 0 <= j < n && j != i ==> v[j] == 0.0
  {
    Zero(n)[i := value]
  }

  /** Vector_(m, data) and Vector_(m, ...): the first m values, in order. */
  method VectorFromValues(m: nat, values: seq<real>) returns (v: Vector)
    requires m <= |values|
    ensures |v| == m && forall i :: 0 <= i < m ==> v[i] == values[i]
  {
    var buffer := new real[m];
    for i := 0 to m
      invariant forall k :: 0 <= k < i ==> buffer[k] == values[k]
    {
      buffer[i] := values[i];
    }
    v := buffer[..];
  }

  // ---------------------------------------------------------------------
  // Tests

  /** zero(v): true exactly when every entry is 0. */
  method IsZero(v: Vector) returns (result: bool)
    ensures result <==> forall j :: 0 <= j < |v| ==> v[j] == 0.0
  {
    result := true;
    for j := 0 to |v|
      invariant result <==> forall k :: 0 <= k < j ==> v[k] == 0.0
    {
      result := result && v[j] == 0.0;
    }
  }

  /** greaterThanOrEqual(vec1, vec2): pointwise >= over the length of vec1. */
  method GreaterThanOrEqual(vec1: Vector, vec2: Vector) returns (r: bool)
    requires |vec1| <= |vec2|
    ensures r <==> forall i :: 0 <= i < |vec1| ==> vec1[i] >= vec2[i]
  {
    for i := 0 to |vec1|
      invariant forall k :: 0 <= k < i ==> vec1[k] >= vec2[k]
    {
      if !(vec1[i] >= vec2[i]) {
        return false;
      }
    }
    return true;
  }

  /**
   * operator==(vec1, vec2) as written: compares the first |vec1| entries
   * and never the lengths, so it reads past a shorter vec2.
   */
  method EqualsAsWritten(vec1: Vector, vec2: Vector) returns (r: bool)
    requires |vec1| <= |vec2|
    ensures r <==> forall i :: 0 <= i < |vec1| ==> vec1[i] == vec2[i]
  {
    for i := 0 to |vec1|
      invariant forall k :: 0 <= k < i ==> vec1[k] == vec2[k]
    {
      if vec1[i] != vec2[i] {
        return false;
      }
    }
    return true;
  }

  /** A vector equals, as written, any longer vector it is a prefix of. */
  lemma EqualsAsWrittenPrefix()
    ensures var vec1, vec2 := [1.0], [1.0, 2.0];
      vec1 != vec2 && forall i :: 0 <= i < |vec1| ==> vec1[i] == vec2[i]
  {
  }

  /** operator== with the length check it evidently intends: exactly sequence equality. */
  method Equals(vec1: Vector, vec2: Vector) returns (r: bool)
    ensures r <==> vec1 == vec2
  {
    if |vec1| != |vec2| {
      return false;
    }
    r := EqualsAsWritten(vec1, vec2);
  }

  /** The entries differ by at most tol, position by position, in vectors of equal length. */
  predicate EqualWithAbsTol(vec1: Vector, vec2: Vector, tol: real) {
    |vec1| == |vec2| && forall i :: 0 <= i < |vec1| ==> Abs(vec1[i] - vec2[i]) <= tol
  }

  /** equal_with_abs_tol(vec1, vec2, tol): false on a length mismatch, else entrywise within tol. */
  method EqualWithAbsTolCheck(vec1: Vector, vec2: Vector, tol: real) returns (r: bool)
    ensures r <==> |vec1| == |vec2| && forall i :: 0 <= i < |vec1| ==> Abs(vec1[i] - vec2[i]) <= tol
  {
    if |vec1| != |vec2| {
      return false;
    }
    for i := 0 to |vec1|
      invariant forall k :: 0 <= k < i ==> Abs(vec1[k] - vec2[k]) <= tol
    {
      if Abs(vec1[i] - vec2[i]) > tol {
        return false;
      }
    }
    return true;
  }

  /** With a zero tolerance, equal_with_abs_tol is equality. */
  lemma EqualWithZeroTol(vec1: Vector, vec2: Vector)
    ensures EqualWithAbsTol(vec1, vec2, 0.0) <==> vec1 == vec2
  {
    if EqualWithAbsTol(vec1, vec2, 0.0) {
      forall i | 0 <= i < |vec1| ensures vec1[i] == vec2[i] {
        assert Abs(vec1[i] - vec2[i]) <= 0.0;
      }
    }
  }

  // ---------------------------------------------------------------------
  // Slicing and entrywise operations

  /** sub(v, i1, i2): the half-open slice [i1, i2). */
  method Sub(v: Vector, i1: nat, i2: nat) returns (r: Vector)
    requires i1 <= i2 <= |v|
    ensures |r| == i2 - i1 && forall i :: 0 <= i < |r| ==> r[i] == v[i1 + i]
  {
    var n := i2 - i1;
    var buffer := new real[n];
    for i := 0 to n
      invariant forall k :: 0 <= k < i ==> buffer[k] == v[i1 + k]
    {
      buffer[i] := v[i1 + i];
    }
    r := buffer[..];
  }

  /** sub is the slice of the sequence. */
  lemma SubIsSlice(v: Vector, i1: nat, i2: nat, r: Vector)
    requires i1 <= i2 <= |v|
    requires |r| == i2 - i1 && forall i :: 0 <= i < |r| ==> r[i] == v[i1 + i]
    ensures r == v[i1..i2]
  {
  }

  /** emul(a, b): the entrywise product. */
  method Emul(a: Vector, b: Vector) returns (c: Vector)
    requires |b| == |a|
    ensures |c| == |a| && forall i :: 0 <= i < |a| ==> c[i] == a[i] * b[i]
  {
    var buffer := new real[|a|];
    for i := 0 to |a|
      invariant forall k :: 0 <= k < i ==> buffer[k] == a[k] * b[k]
    {
      buffer[i] := a[i] * b[i];
    }
    c := buffer[..];
  }

  /** ediv(a, b): the entrywise quotient. */
  method Ediv(a: Vector, b: Vector) returns (c: Vector)
    requires |b| == |a| && forall i :: 0 <= i < |b| ==> b[i] != 0.0
    ensures |c| == |a| && forall i :: 0 <= i < |a| ==> c[i] * b[i] == a[i]
  {
    var buffer := new real[|a|];
    for i := 0 to |a|
      invariant forall k :: 0 <= k < i ==> buffer[k] * b[k] == a[k]
    {
      buffer[i] := a[i] / b[i];
    }
    c := buffer[..];
  }

  /** ediv_(a, b): the entrywise quotient, with 0/0 taken as 0. */
  method EdivSafe(a: Vector, b: Vector) returns (c: Vector)
    requires |b| == |a| && forall i :: 0 <= i < |b| && b[i] == 0.0 ==> a[i] == 0.0
    ensures |c| == |a|
    ensures forall i :: 0 <= i < |a| ==> if b[i] == 0.0 then c[i] == 0.0 else c[i] * b[i] == a[i]
  {
    var buffer := new real[|a|];
    for i := 0 to |a|
      invariant forall k :: 0 <= k < i ==> if b[k] == 0.0 then buffer[k] == 0.0 else buffer[k] * b[k] == a[k]
    {
      var ai, bi := a[i], b[i];
      buffer[i] := if bi == 0.0 && ai == 0.0 then 0.0 else ai / bi;
    }
    c := buffer[..];
  }

  // ---------------------------------------------------------------------
  // Sums

  /** The sum of the entries, first to last. */
  function SumOf(a: Vector): real
    decreases |a|
  {
    if a == [] then 0.0 else SumOf(a[..|a| - 1]) + a[|a| - 1]
  }

  /** The sum of a concatenation is the sum of the sums. */
  lemma {:induction false} SumOfAppend(a: Vector, b: Vector)
    ensures SumOf(a + b) == SumOf(a) + SumOf(b)
    decreases |b|
  {
    if b == [] {
      assert a + b == a;
    } else {
      var n := |b| - 1;
      assert (a + b)[..|a + b| - 1] == a + b[..n];
      SumOfAppend(a, b[..n]);
    }
  }

  /** sum(a): the loop adds the entries in order. */
  method Sum(a: Vector) returns (result: real)
    ensures result == SumOf(a)
  {
    result := 0.0;
    for i := 0 to |a|
      invariant result == SumOf(a[..i])
    {
      assert a[..i + 1][..i] == a[..i];
      result := result + a[i];
    }
    assert a[..|a|] == a;
  }

  /** The sum of a constant vector is its length times the constant. */
  lemma {:induction false} SumOfRepeat(n: nat, x: real)
    ensures SumOf(Repeat(n, x)) == n as real * x
  {
    if n > 0 {
      assert Repeat(n, x)[..n - 1] == Repeat(n - 1, x);
      SumOfRepeat(n - 1, x);
    }
  }

  // ---------------------------------------------------------------------
  // Weighted pseudo-inverse

  /** The precision weightedPseudoinverse returns: infinite for a hard constraint. */
  datatype Precision = Infinite | Finite(value: real)

  /** Row i is a hard constraint under the written guard: no noise and a coefficient above 1e-9. */
  predicate Constraint(a: Vector, sigmas: Vector, i: nat)
    requires i < |sigmas| <= |a|
  {
    sigmas[i] < Tiny && Abs(a[i]) > Tiny
  }

  /** The first hard constraint row at or after i, if any, under the written guard. */
  function FirstConstraint(a: Vector, sigmas: Vector, i: nat): (r: Option<nat>)
    requires |sigmas| <= |a| && i <= |sigmas|
    ensures r.Some? ==> (i <= r.value < |sigmas| && Constraint(a, sigmas, r.value) &&
      forall k :: i <= k < r.value ==> !Constraint(a, sigmas, k))
    ensures r.None? ==> forall k :: i <= k < |sigmas| ==> !Constraint(a, sigmas, k)
    decreases |sigmas| - i
  {
    if i == |sigmas| then None
    else if Constraint(a, sigmas, i) then Some(i)
    else FirstConstraint(a, sigmas, i + 1)
  }

  /**
   * No row has a coefficient of exactly 1e-9 with a zero sigma: such a row
   * passes both written guards and divides by zero (see the findings).
   */
  predicate DivisionSafe(a: Vector, sigmas: Vector)
    requires |sigmas| <= |a|
  {
    forall i :: 0 <= i < |sigmas| && Abs(a[i]) == Tiny ==> sigmas[i] != 0.0
  }

  /** Every row whose coefficient is not negligible has a non-zero sigma. */
  predicate Weighable(a: Vector, sigmas: Vector)
    requires |sigmas| <= |a|
  {
    forall i :: 0 <= i < |sigmas| && Abs(a[i]) >= Tiny ==> sigmas[i] != 0.0
  }

  /** The precision of row i: 1/sigma^2, or 0 for a negligible coefficient. */
  function RowPrecision(a: Vector, sigmas: Vector, i: nat): (p: real)
    requires i < |sigmas| <= |a| && Weighable(a, sigmas)
    ensures p >= 0.0
  {
    if Abs(a[i]) < Tiny then 0.0 else 1.0 / (sigmas[i] * sigmas[i])
  }

  /** a' inv(Sigma) a over the first n rows. */
  function WeightedSquares(a: Vector, sigmas: Vector, n: nat): (s: real)
    requires n <= |sigmas| <= |a| && Weighable(a, sigmas)
    ensures s >= 0.0
    decreases n
  {
    if n == 0 then 0.0
    else WeightedSquares(a, sigmas, n - 1) + a[n - 1] * a[n - 1] * RowPrecision(a, sigmas, n - 1)
  }

  /** The column inv(Sigma) a scaled by f. */
  function WeightedColumn(a: Vector, sigmas: Vector, f: real): (r: Vector)
    requires |sigmas| <= |a| && Weighable(a, sigmas)
    ensures |r| == |sigmas|
    ensures forall i :: 0 <= i < |sigmas| ==> r[i] == f * RowPrecision(a, sigmas, i) * a[i]
  {
    seq(|sigmas|, i requires 0 <= i < |sigmas| => f * RowPrecision(a, sigmas, i) * a[i])
  }

  /** What the first guard may select: a row with a non-zero coefficient. */
  predicate Selectable(a: Vector, sigmas: Vector, first: Option<nat>)
    requires |sigmas| <= |a|
  {
    match first
    case Some(i) => i < |sigmas| && a[i] != 0.0
    case None => Weighable(a, sigmas)
  }

  /**
   * The pseudo-inverse and precision of a column a under noise sigmas, given
   * the first hard constraint row: that row gives delta(m, i, 1/a_i) and
   * infinite precision; without one the precision is a' inv(Sigma) a and
   * the pseudo-inverse is inv(Sigma) a / precision, or zero when the
   * precision is below 1e-9.
   */
  function PseudoinverseGiven(a: Vector, sigmas: Vector, first: Option<nat>): (r: (Vector, Precision))
    requires |sigmas| <= |a| && Selectable(a, sigmas, first)
    ensures |r.0| == |sigmas|
  {
    var m := |sigmas|;
    match first
    case Some(i) => (Delta(m, i, 1.0 / a[i]), Infinite)
    case None =>
      var precision := WeightedSquares(a, sigmas, m);
      if precision < Tiny then (Zero(m), Finite(precision))
      else (WeightedColumn(a, sigmas, 1.0 / precision), Finite(precision))
  }

  /** Under DivisionSafe the written guards select a row or leave every row weighable. */
  lemma WrittenSelectable(a: Vector, sigmas: Vector)
    requires |sigmas| <= |a| && DivisionSafe(a, sigmas)
    ensures Selectable(a, sigmas, FirstConstraint(a, sigmas, 0))
  {
    if FirstConstraint(a, sigmas, 0).None? {
      forall i | 0 <= i < |sigmas| && Abs(a[i]) >= Tiny ensures sigmas[i] != 0.0 {
        assert !Constraint(a, sigmas, i);
      }
    }
  }

  /** The result of weightedPseudoinverse as written. */
  function Pseudoinverse(a: Vector, sigmas: Vector): (r: (Vector, Precision))
    requires |sigmas| <= |a| && DivisionSafe(a, sigmas)
    ensures |r.0| == |sigmas|
  {
    WrittenSelectable(a, sigmas);
    PseudoinverseGiven(a, sigmas, FirstConstraint(a, sigmas, 0))
  }

  /** The first loop of weightedPseudoinverse: the first hard constraint row. */
  method FindConstraint(a: Vector, sigmas: Vector) returns (first: Option<nat>)
    requires |sigmas| <= |a|
    ensures first == FirstConstraint(a, sigmas, 0)
  {
    for i := 0 to |sigmas|
      invariant FirstConstraint(a, sigmas, 0) == FirstConstraint(a, sigmas, i)
    {
      if sigmas[i] < Tiny && Abs(a[i]) > Tiny {
        return Some(i);
      }
    }
    return None;
  }

  /** The second loop: each row's precision into the buffer, and their weighted sum. */
  method FillPrecisions(a: Vector, sigmas: Vector, pseudo: array<real>) returns (sum: real)
    requires |sigmas| <= |a| && pseudo.Length == |sigmas| && Weighable(a, sigmas)
    modifies pseudo
    ensures sum == WeightedSquares(a, sigmas, |sigmas|)
    ensures forall k :: 0 <= k < |sigmas| ==> pseudo[k] == RowPrecision(a, sigmas, k)
  {
    sum := 0.0;
    for i := 0 to |sigmas|
      invariant sum == WeightedSquares(a, sigmas, i)
      invariant forall k :: 0 <= k < i ==> pseudo[k] == RowPrecision(a, sigmas, k)
    {
      sum := WeighRow(a, sigmas, pseudo, i, sum);
    }
  }

  /** The body of the second loop: row i's precision into the buffer, its weighted square added to the sum. */
  method WeighRow(a: Vector, sigmas: Vector, pseudo: array<real>, i: nat, sum0: real) returns (sum: real)
    requires i < |sigmas| <= |a| && pseudo.Length == |sigmas| && Weighable(a, sigmas)
    requires sum0 == WeightedSquares(a, sigmas, i)
    modifies pseudo
    ensures sum == WeightedSquares(a, sigmas, i + 1)
    ensures pseudo[i] == RowPrecision(a, sigmas, i)
    ensures forall k :: 0 <= k < pseudo.Length && k != i ==> pseudo[k] == old(pseudo[k])
  {
    WeightedSquaresStep(a, sigmas, i);
    sum := sum0;
    var ai := a[i];
    if Abs(ai) < Tiny {
      pseudo[i] := 0.0;
    } else {
      var si := sigmas[i];
      SquarePositive(si);
      var pi := 1.0 / (si * si);
      sum := sum + ai * ai * pi;
      pseudo[i] := pi;
    }
  }

  lemma SquarePositive(x: real)
    requires x != 0.0
    ensures x * x > 0.0
  {
  }

  /** One more row adds its weighted square, which is zero for a negligible coefficient. */
  lemma WeightedSquaresStep(a: Vector, sigmas: Vector, i: nat)
    requires i < |sigmas| <= |a| && Weighable(a, sigmas)
    ensures Abs(a[i]) < Tiny ==> RowPrecision(a, sigmas, i) == 0.0
    ensures Abs(a[i]) < Tiny ==> WeightedSquares(a, sigmas, i + 1) == WeightedSquares(a, sigmas, i)
    ensures Abs(a[i]) >= Tiny ==> RowPrecision(a, sigmas, i) == 1.0 / (sigmas[i] * sigmas[i])
    ensures Abs(a[i]) >= Tiny ==>
      WeightedSquares(a, sigmas, i + 1) == WeightedSquares(a, sigmas, i) + a[i] * a[i] * (1.0 / (sigmas[i] * sigmas[i]))
  {
  }

  /** The last loop: either zero the buffer or scale each precision by f * a_i. */
  method ScalePrecisions(a: Vector, sigmas: Vector, pseudo: array<real>, sum: real)
    requires |sigmas| <= |a| && pseudo.Length == |sigmas| && Weighable(a, sigmas)
    requires forall k :: 0 <= k < |sigmas| ==> pseudo[k] == RowPrecision(a, sigmas, k)
    modifies pseudo
    ensures sum < Tiny ==> pseudo[..] == Zero(|sigmas|)
    ensures sum >= Tiny ==> pseudo[..] == WeightedColumn(a, sigmas, 1.0 / sum)
  {
    var m := |sigmas|;
    if sum < Tiny {
      for i := 0 to m
        invariant forall k :: 0 <= k < i ==> pseudo[k] == 0.0
      {
        pseudo[i] := 0.0;
      }
    } else {
      var f := 1.0 / sum;
      ghost var column := WeightedColumn(a, sigmas, f);
      for i := 0 to m
        invariant forall k :: 0 <= k < i ==> pseudo[k] == column[k]
        invariant forall k :: i <= k < m ==> pseudo[k] == RowPrecision(a, sigmas, k)
      {
        pseudo[i] := f * pseudo[i] * a[i];
        assert pseudo[i] == column[i];
      }
      assert pseudo[..] == column;
    }
  }

  /**
   * weightedPseudoinverse(a, sigmas, pseudo), the fast version, as written:
   * it fills the caller's buffer of length m and returns the precision.
   */
  method WeightedPseudoinverseInto(a: Vector, sigmas: Vector, pseudo: array<real>) returns (precision: Precision)
    requires |sigmas| <= |a| && pseudo.Length == |sigmas| && DivisionSafe(a, sigmas)
    modifies pseudo
    ensures (pseudo[..], precision) == Pseudoinverse(a, sigmas)
  {
    var m := |sigmas|;
    WrittenSelectable(a, sigmas);
    var first := FindConstraint(a, sigmas);
    if first.Some? {
      var d := Delta(m, first.value, 1.0 / a[first.value]);
      forall k | 0 <= k < m {
        pseudo[k] := d[k];
      }
      assert pseudo[..] == d;
      return Infinite;
    }
    var sum := FillPrecisions(a, sigmas, pseudo);
    ScalePrecisions(a, sigmas, pseudo, sum);
    precision := Finite(sum);
  }

  /** The gap in the guards: a row with |a_i| = 1e-9 and sigma_i = 0 is neither a constraint nor skipped. */
  lemma PseudoinverseGuardGap()
    ensures var a, sigmas := [Tiny], [0.0];
      !Constraint(a, sigmas, 0) && !(Abs(a[0]) < Tiny) && sigmas[0] * sigmas[0] == 0.0 &&
      !DivisionSafe(a, sigmas)
  {
  }

  /** Row i is a hard constraint under the corrected guard `>= 1e-9`. */
  predicate ConstraintFixed(a: Vector, sigmas: Vector, i: nat)
    requires i < |sigmas| <= |a|
  {
    sigmas[i] < Tiny && Abs(a[i]) >= Tiny
  }

  /** The first constraint row under the corrected guard. */
  function FirstConstraintFixed(a: Vector, sigmas: Vector, i: nat): (r: Option<nat>)
    requires |sigmas| <= |a| && i <= |sigmas|
    ensures r.Some? ==> (i <= r.value < |sigmas| && ConstraintFixed(a, sigmas, r.value) &&
      forall k :: i <= k < r.value ==> !ConstraintFixed(a, sigmas, k))
    ensures r.None? ==> forall k :: i <= k < |sigmas| ==> !ConstraintFixed(a, sigmas, k)
    decreases |sigmas| - i
  {
    if i == |sigmas| then None
    else if ConstraintFixed(a, sigmas, i) then Some(i)
    else FirstConstraintFixed(a, sigmas, i + 1)
  }

  /** With the corrected guard every input whose lengths fit is selectable. */
  lemma FixedSelectable(a: Vector, sigmas: Vector)
    requires |sigmas| <= |a|
    ensures Selectable(a, sigmas, FirstConstraintFixed(a, sigmas, 0))
  {
    if FirstConstraintFixed(a, sigmas, 0).None? {
      forall i | 0 <= i < |sigmas| && Abs(a[i]) >= Tiny ensures sigmas[i] != 0.0 {
        assert !ConstraintFixed(a, sigmas, i);
      }
    }
  }

  /** The pseudo-inverse with the corrected guard: defined whenever the lengths fit. */
  function PseudoinverseFixed(a: Vector, sigmas: Vector): (r: (Vector, Precision))
    requires |sigmas| <= |a|
    ensures |r.0| == |sigmas|
  {
    FixedSelectable(a, sigmas);
    PseudoinverseGiven(a, sigmas, FirstConstraintFixed(a, sigmas, 0))
  }

  /** No row sits on the boundary the two guards treat differently. */
  predicate OffBoundary(a: Vector, sigmas: Vector)
    requires |sigmas| <= |a|
  {
    forall i :: 0 <= i < |sigmas| && Abs(a[i]) == Tiny ==> sigmas[i] >= Tiny
  }

  /**
   * Off the boundary the written guards are safe and the corrected ones
   * give the same result.
   */
  lemma PseudoinverseFixedAgrees(a: Vector, sigmas: Vector)
    requires |sigmas| <= |a| && OffBoundary(a, sigmas)
    ensures DivisionSafe(a, sigmas)
    ensures PseudoinverseFixed(a, sigmas) == Pseudoinverse(a, sigmas)
  {
    FirstConstraintsAgree(a, sigmas, 0);
  }

  lemma {:induction false} FirstConstraintsAgree(a: Vector, sigmas: Vector, i: nat)
    requires |sigmas| <= |a| && i <= |sigmas|
    requires forall k :: 0 <= k < |sigmas| ==> Constraint(a, sigmas, k) == ConstraintFixed(a, sigmas, k)
    ensures FirstConstraint(a, sigmas, i) == FirstConstraintFixed(a, sigmas, i)
    decreases |sigmas| - i
  {
    if i < |sigmas| {
      FirstConstraintsAgree(a, sigmas, i + 1);
    }
  }

  /** The pseudo-inverse of a hard constraint picks out that row. */
  lemma PseudoinverseConstraint(a: Vector, sigmas: Vector, i: nat)
    requires |sigmas| <= |a| && FirstConstraintFixed(a, sigmas, 0) == Some(i)
    ensures PseudoinverseFixed(a, sigmas).1 == Infinite
    ensures PseudoinverseFixed(a, sigmas).0[i] * a[i] == 1.0
    ensures forall k :: 0 <= k < |sigmas| && k != i ==> PseudoinverseFixed(a, sigmas).0[k] == 0.0
  {
    var d := Delta(|sigmas|, i, 1.0 / a[i]);
    assert PseudoinverseFixed(a, sigmas) == (d, Infinite);
    ReciprocalTimes(a[i]);
  }

  lemma ReciprocalTimes(x: real)
    requires x != 0.0
    ensures (1.0 / x) * x == 1.0
  {
  }

  /** Sum of pseudo_i * a_i over the first n rows. */
  function Projection(pseudo: Vector, a: Vector, n: nat): real
    requires n <= |pseudo| && n <= |a|
    decreases n
  {
    if n == 0 then 0.0 else Projection(pseudo, a, n - 1) + pseudo[n - 1] * a[n - 1]
  }

  /** Scaling the first vector scales the sum of products. */
  lemma {:induction false} ProjectionLinear(u: Vector, w: Vector, a: Vector, f: real, n: nat)
    requires n <= |u| == |w| && n <= |a|
    requires forall k :: 0 <= k < |u| ==> u[k] == f * w[k]
    ensures Projection(u, a, n) == f * Projection(w, a, n)
    decreases n
  {
    if n > 0 {
      ProjectionLinear(u, w, a, f, n - 1);
      var k := n - 1;
      assert u[k] * a[k] == f * (w[k] * a[k]);
    }
  }

  /** The same, with the sum for w given as s. */
  lemma ProjectionLinearTo(u: Vector, w: Vector, a: Vector, f: real, n: nat, s: real)
    requires n <= |u| == |w| && n <= |a|
    requires forall k :: 0 <= k < |u| ==> u[k] == f * w[k]
    requires Projection(w, a, n) == s
    ensures Projection(u, a, n) == f * s
  {
    ProjectionLinear(u, w, a, f, n);
  }

  /** The unscaled weighted column, summed against a, is a' inv(Sigma) a. */
  lemma {:induction false} ProjectionWeighted(a: Vector, sigmas: Vector, n: nat)
    requires n <= |sigmas| <= |a| && Weighable(a, sigmas)
    ensures Projection(WeightedColumn(a, sigmas, 1.0), a, n) == WeightedSquares(a, sigmas, n)
    decreases n
  {
    if n > 0 {
      ProjectionWeighted(a, sigmas, n - 1);
      var k := n - 1;
      var p, x := RowPrecision(a, sigmas, k), a[k];
      assert WeightedColumn(a, sigmas, 1.0)[k] * x == x * x * p;
    }
  }

  /** Each entry of a scaled column is the scale times the unscaled entry. */
  lemma ColumnScales(a: Vector, sigmas: Vector, f: real)
    requires |sigmas| <= |a| && Weighable(a, sigmas)
    ensures forall k :: 0 <= k < |sigmas| ==>
      WeightedColumn(a, sigmas, f)[k] == f * WeightedColumn(a, sigmas, 1.0)[k]
  {
  }

  /** The scaled weighted column summed against a is the scale times a' inv(Sigma) a. */
  lemma ProjectionScaledColumn(a: Vector, sigmas: Vector, f: real, n: nat)
    requires n <= |sigmas| <= |a| && Weighable(a, sigmas)
    ensures Projection(WeightedColumn(a, sigmas, f), a, n) == f * WeightedSquares(a, sigmas, n)
  {
    ColumnScales(a, sigmas, f);
    ProjectionWeighted(a, sigmas, n);
    ProjectionLinearTo(WeightedColumn(a, sigmas, f), WeightedColumn(a, sigmas, 1.0), a, f, n, WeightedSquares(a, sigmas, n));
  }

  /** A value that is 1/w times w is 1. */
  lemma InverseTimes(p: real, w: real)
    requires w > 0.0 && p == (1.0 / w) * w
    ensures p == 1.0
  {
  }

  /**
   * With a precision of at least 1e-9 the pseudo-inverse is a left inverse
   * of the column: the sum of pseudo_i * a_i is 1.
   */
  lemma PseudoinverseUnit(a: Vector, sigmas: Vector)
    requires |sigmas| <= |a| && FirstConstraintFixed(a, sigmas, 0).None?
    requires Weighable(a, sigmas) && WeightedSquares(a, sigmas, |sigmas|) >= Tiny
    ensures Projection(PseudoinverseFixed(a, sigmas).0, a, |sigmas|) == 1.0
  {
    var m := |sigmas|;
    var precision := WeightedSquares(a, sigmas, m);
    assert PseudoinverseFixed(a, sigmas).0 == WeightedColumn(a, sigmas, 1.0 / precision);
    ProjectionScaledColumn(a, sigmas, 1.0 / precision, m);
    InverseTimes(Projection(WeightedColumn(a, sigmas, 1.0 / precision), a, m), precision);
  }

  const SizeMismatchMessage := "V and precisions have different sizes!"

  /**
   * weightedPseudoinverse(a, sigmas), the checked version: refuses vectors
   * of different lengths, and otherwise runs the fast version on a fresh
   * buffer. On the guard gap, where the fast version divides by zero, the
   * corrected guard's result stands in for the IEEE infinities.
   */
  method WeightedPseudoinverse(a: Vector, sigmas: Vector) returns (r: Result<(Vector, Precision)>)
    ensures |a| != |sigmas| ==> r == Err(InvalidArgument(SizeMismatchMessage))
    ensures |a| == |sigmas| && DivisionSafe(a, sigmas) ==> r == Ok(Pseudoinverse(a, sigmas))
    ensures |a| == |sigmas| && !DivisionSafe(a, sigmas) ==> r == Ok(PseudoinverseFixed(a, sigmas))
  {
    if |a| != |sigmas| {
      return Err(InvalidArgument(SizeMismatchMessage));
    }
    if !DivisionSafe(a, sigmas) {
      return Ok(PseudoinverseFixed(a, sigmas));
    }
    var pseudo := new real[|sigmas|];
    var precision := WeightedPseudoinverseInto(a, sigmas, pseudo);
    return Ok((pseudo[..], precision));
  }

  /**
   * The input a = [1e-9], sigmas = [1e-10] shows the two guards part ways
   * on a row that is safe for both: as written the row is weighed, with
   * precision 1e-18 / 1e-20 = 100, while the corrected guard makes it a
   * hard constraint of infinite precision.
   */
  lemma WeighedUnderWrittenGuard()
    ensures var a, sigmas := [Tiny], [Tiny / 10.0];
      DivisionSafe(a, sigmas) &&
      Pseudoinverse(a, sigmas) == ([1.0 / Tiny], Finite(100.0)) &&
      PseudoinverseFixed(a, sigmas).1 == Infinite
  {
    var a, sigmas := [Tiny], [Tiny / 10.0];
    assert FirstConstraint(a, sigmas, 0) == None by {
      assert !Constraint(a, sigmas, 0);
    }
    assert FirstConstraintFixed(a, sigmas, 0) == Some(0);
    WeightedSquaresStep(a, sigmas, 0);
    assert RowPrecision(a, sigmas, 0) == 100000000000000000000.0;
    assert WeightedSquares(a, sigmas, 1) == 100.0;
    var column := WeightedColumn(a, sigmas, 1.0 / 100.0);
    assert column[0] == 1.0 / Tiny;
    assert column == [1.0 / Tiny];
  }

  // ---------------------------------------------------------------------
  // Concatenation

  /** The vectors one after the other. */
  function Concat(vs: seq<Vector>): (r: Vector)
    ensures |r| == TotalLength(vs)
    decreases |vs|
  {
    if vs == [] then [] else Concat(vs[..|vs| - 1]) + vs[|vs| - 1]
  }

  /** The sum of the lengths. */
  function TotalLength(vs: seq<Vector>): nat
    decreases |vs|
  {
    if vs == [] then 0 else TotalLength(vs[..|vs| - 1]) + |vs[|vs| - 1]|
  }

  /** Vector k of the list starts at the sum of the lengths before it. */
  lemma {:induction false} ConcatBlocks(vs: seq<Vector>, k: nat, d: nat)
    requires k < |vs| && d < |vs[k]|
    ensures TotalLength(vs[..k]) + d < |Concat(vs)|
    ensures Concat(vs)[TotalLength(vs[..k]) + d] == vs[k][d]
    decreases |vs|
  {
    var n := |vs| - 1;
    if k == n {
      assert vs[..k] == vs[..n];
    } else {
      assert vs[..n][..k] == vs[..k];
      ConcatBlocks(vs[..n], k, d);
    }
  }

  /** concatVectors(vs): the total length first, then each vector copied at its running offset. */
  method ConcatVectors(vs: seq<Vector>) returns (r: Vector)
    ensures r == Concat(vs)
  {
    var dim := 0;
    for i := 0 to |vs|
      invariant dim == TotalLength(vs[..i])
    {
      assert vs[..i + 1][..i] == vs[..i];
      dim := dim + |vs[i]|;
    }
    assert vs[..|vs|] == vs;
    var buffer := new real[dim];
    var index := 0;
    for i := 0 to |vs|
      invariant index == TotalLength(vs[..i]) <= dim
      invariant buffer[..index] == Concat(vs[..i])
    {
      assert vs[..i + 1][..i] == vs[..i];
      ConcatPrefixLength(vs, i + 1);
      var v := vs[i];
      for d := 0 to |v|
        invariant buffer[..index] == Concat(vs[..i])
        invariant forall e :: 0 <= e < d ==> buffer[index + e] == v[e]
      {
        buffer[index + d] := v[d];
      }
      assert buffer[..index + |v|] == buffer[..index] + v;
      index := index + |v|;
    }
    r := buffer[..];
  }

  /** The running offsets never pass the total length. */
  lemma {:induction false} ConcatPrefixLength(vs: seq<Vector>, k: nat)
    requires k <= |vs|
    ensures TotalLength(vs[..k]) <= TotalLength(vs)
    decreases |vs|
  {
    if k < |vs| {
      var n := |vs| - 1;
      assert vs[..n][..k] == vs[..k];
      ConcatPrefixLength(vs[..n], k);
    } else {
      assert vs[..k] == vs;
    }
  }
}
