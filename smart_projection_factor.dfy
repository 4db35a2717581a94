/**
 * SmartProjectionFactor: one landmark seen from several camera poses. The
 * factor keeps its measurements and pose keys side by side and shares a
 * mutable state with copies of itself: the poses it last triangulated and
 * linearized at, the triangulated point, degeneracy flags and a cached
 * Hessian. The triangulation, the Schur complement and the reprojection
 * errors are code outside this model and enter as parameters.
 */
module SmartProjection {
  import opened Wrappers
  import opened Vectors
  import opened Matrices
  import opened Points

  /** The default relinearization threshold: negative, so linearize always relinearizes. */
  const DefaultLinThreshold: real := -1.0
  /** The default retriangulation threshold, 1e-7. */
  const DefaultTriangThreshold: real := 0.0000001
  /** The default rank tolerance of triangulation. */
  const DefaultRankTolerance: real := 1.0

  /** A pose key. */
  type Key = nat

  /** Pose3::equals(other, tol), for whatever pose type the factor is used with. */
  type PoseEquals<!P> = (P, P, real) -> bool

  // ---------------------------------------------------------------------
  // Deciding whether to retriangulate and relinearize

  /** Retriangulate when there is no old pose list, its size differs, or some pose moved beyond the threshold. */
  predicate ShouldTriangulate<P>(cameraPoses: seq<P>, oldPoses: seq<P>, threshold: real, equals: PoseEquals<P>) {
    |oldPoses| == 0 || |cameraPoses| != |oldPoses| ||
    exists i :: 0 <= i < |cameraPoses| && !equals(cameraPoses[i], oldPoses[i], threshold)
  }

  /** Relinearize on the same guards, but comparing only the poses after the first. */
  predicate ShouldLinearize<P>(cameraPoses: seq<P>, oldPoses: seq<P>, threshold: real, equals: PoseEquals<P>) {
    |oldPoses| == 0 || |cameraPoses| != |oldPoses| ||
    exists i :: 1 <= i < |cameraPoses| && !equals(cameraPoses[i], oldPoses[i], threshold)
  }

  /** decideIfTriangulate: the guards, then a scan that returns at the first pose that moved. */
  method DecideIfTriangulate<P>(cameraPoses: seq<P>, oldPoses: seq<P>, threshold: real, equals: PoseEquals<P>)
    returns (retriangulate: bool)
    ensures retriangulate == ShouldTriangulate(cameraPoses, oldPoses, threshold, equals)
  {
    if |oldPoses| == 0 || |cameraPoses| != |oldPoses| {
      return true;
    }
    var i := 0;
    while i < |cameraPoses|
      invariant 0 <= i <= |cameraPoses|
      invariant forall k :: 0 <= k < i ==> equals(cameraPoses[k], oldPoses[k], threshold)
    {
      if !equals(cameraPoses[i], oldPoses[i], threshold) {
        return true;
      }
      i := i + 1;
    }
    return false;
  }

  /**
   * decideIfLinearize: the same guards and scan, except that index 0 only
   * records the first poses and is never compared. The relative poses it
   * computes are unused: the comparison is on the poses themselves.
   */
  method DecideIfLinearize<P>(cameraPoses: seq<P>, oldPoses: seq<P>, threshold: real, equals: PoseEquals<P>)
    returns (relinearize: bool)
    ensures relinearize == ShouldLinearize(cameraPoses, oldPoses, threshold, equals)
  {
    if |oldPoses| == 0 || |cameraPoses| != |oldPoses| {
      return true;
    }
    var i := 0;
    while i < |cameraPoses|
      invariant 0 <= i <= |cameraPoses|
      invariant forall k :: 1 <= k < i ==> equals(cameraPoses[k], oldPoses[k], threshold)
    {
      if i != 0 && !equals(cameraPoses[i], oldPoses[i], threshold) {
        return true;
      }
      i := i + 1;
    }
    return false;
  }

  /** Whenever linearize would relinearize, it would also retriangulate. */
  lemma LinearizeImpliesTriangulate<P>(cameraPoses: seq<P>, oldPoses: seq<P>, threshold: real, equals: PoseEquals<P>)
    requires ShouldLinearize(cameraPoses, oldPoses, threshold, equals)
    ensures ShouldTriangulate(cameraPoses, oldPoses, threshold, equals)
  {
  }

  /**
   * A change in the first pose alone is seen by the retriangulation test
   * but not by the relinearization test.
   */
  lemma FirstPoseIgnored<P>(cameraPoses: seq<P>, oldPoses: seq<P>, threshold: real, equals: PoseEquals<P>)
    requires |cameraPoses| == |oldPoses| > 0
    requires !equals(cameraPoses[0], oldPoses[0], threshold)
    requires forall i :: 1 <= i < |cameraPoses| ==> equals(cameraPoses[i], oldPoses[i], threshold)
    ensures ShouldTriangulate(cameraPoses, oldPoses, threshold, equals)
    ensures !ShouldLinearize(cameraPoses, oldPoses, threshold, equals)
  {
  }

  // ---------------------------------------------------------------------
  // The upper-triangular block order of the Hessian

  /** Row i1 of the upper triangle: (i1, i1), (i1, i1 + 1), ..., (i1, n - 1). */
  function RowPairs(i1: nat, n: nat): (ps: seq<(nat, nat)>)
    requires i1 <= n
    ensures |ps| == n - i1
  {
    seq(n - i1, k requires 0 <= k < n - i1 => (i1, i1 + k))
  }

  /** The first i rows of the upper triangle, row by row. */
  function UpperTo(i: nat, n: nat): seq<(nat, nat)>
    requires i <= n
    decreases i
  {
    if i == 0 then [] else UpperTo(i - 1, n) + RowPairs(i - 1, n)
  }

  /** The pairs (i1, i2) with i1 <= i2 < n, in the order linearize fills Gs. */
  function UpperPairs(n: nat): seq<(nat, nat)> {
    UpperTo(n, n)
  }

  /** Twice the length of the first i rows is i * (2n - i + 1). */
  lemma {:induction false} UpperToLength(i: nat, n: nat)
    requires i <= n
    ensures 2 * |UpperTo(i, n)| == i * (2 * n - i + 1)
    decreases i
  {
    if i > 0 {
      UpperToLength(i - 1, n);
      assert 2 * |UpperTo(i, n)| == (i - 1) * (2 * n - i + 2) + 2 * (n - i + 1);
    }
  }

  /** There are n(n+1)/2 blocks, numKeys*(numKeys+1)/2 in linearize. */
  lemma UpperPairsLength(n: nat)
    ensures |UpperPairs(n)| == n * (n + 1) / 2
  {
    UpperToLength(n, n);
  }

  /** Fewer rows are a prefix of more rows. */
  lemma {:induction false} UpperToPrefix(i: nat, j: nat, n: nat)
    requires i <= j <= n
    ensures |UpperTo(i, n)| <= |UpperTo(j, n)| && UpperTo(i, n) == UpperTo(j, n)[..|UpperTo(i, n)|]
    decreases j - i
  {
    if i < j {
      UpperToPrefix(i, j - 1, n);
      assert UpperTo(j, n) == UpperTo(j - 1, n) + RowPairs(j - 1, n);
    }
  }

  /** Block (i1, i2) with i1 <= i2 < n sits at |UpperTo(i1, n)| + (i2 - i1). */
  lemma PairAt(i1: nat, i2: nat, n: nat)
    requires i1 <= i2 < n
    ensures |UpperTo(i1, n)| + (i2 - i1) < |UpperPairs(n)|
    ensures UpperPairs(n)[|UpperTo(i1, n)| + (i2 - i1)] == (i1, i2)
  {
    UpperToPrefix(i1 + 1, n, n);
    assert UpperTo(i1 + 1, n) == UpperTo(i1, n) + RowPairs(i1, n);
    assert UpperTo(i1 + 1, n)[|UpperTo(i1, n)| + (i2 - i1)] == (i1, i2);
  }

  /** Every block of the order is upper-triangular and inside the n-by-n grid. */
  lemma {:induction false} UpperToBounds(i: nat, n: nat)
    requires i <= n
    ensures forall k :: 0 <= k < |UpperTo(i, n)| ==> UpperTo(i, n)[k].0 <= UpperTo(i, n)[k].1 < n
    ensures forall k :: 0 <= k < |UpperTo(i, n)| ==> UpperTo(i, n)[k].0 < i
    decreases i
  {
    if i > 0 {
      UpperToBounds(i - 1, n);
    }
  }

  /**
   * The order holds the upper-triangular blocks and nothing else: every
   * position holds a pair (i1, i2) with i1 <= i2 < n, and every such pair
   * occurs (at position |UpperTo(i1, n)| + (i2 - i1), by PairAt).
   */
  lemma UpperPairsComplete(n: nat)
    ensures forall k :: 0 <= k < |UpperPairs(n)| ==> UpperPairs(n)[k].0 <= UpperPairs(n)[k].1 < n
    ensures forall i1, i2 :: 0 <= i1 <= i2 < n ==> (i1, i2) in UpperPairs(n)
  {
    UpperToBounds(n, n);
    forall i1, i2 | 0 <= i1 <= i2 < n ensures (i1, i2) in UpperPairs(n) {
      PairAt(i1, i2, n);
    }
  }

  /**
   * The Gs/gs loop of linearize: gs[i1] is the i1-th 6-entry slice of the
   * gradient, and Gs is written upper-triangular, row-major through a
   * running counter into a vector preallocated with n(n+1)/2 blocks.
   */
  method FillBlocks(n: nat, H: (nat, nat) -> Matrix, slice: nat -> Vector, Gs0: seq<Matrix>, gs0: seq<Vector>)
    returns (Gs: seq<Matrix>, gs: seq<Vector>)
    requires |Gs0| == n * (n + 1) / 2 && |gs0| == n
    ensures |Gs| == |UpperPairs(n)| && |gs| == n
    ensures forall k :: 0 <= k < |Gs| ==> Gs[k] == H(UpperPairs(n)[k].0, UpperPairs(n)[k].1)
    ensures forall i :: 0 <= i < n ==> gs[i] == slice(i)
  {
    UpperPairsLength(n);
    Gs, gs := Gs0, gs0;
    var count := 0;
    var i1 := 0;
    while i1 < n
      invariant 0 <= i1 <= n && |Gs| == |UpperPairs(n)| && |gs| == n
      invariant count == |UpperTo(i1, n)| <= |UpperPairs(n)|
      invariant forall k :: 0 <= k < count ==> Gs[k] == H(UpperPairs(n)[k].0, UpperPairs(n)[k].1)
      invariant forall i :: 0 <= i < i1 ==> gs[i] == slice(i)
    {
      gs := gs[i1 := slice(i1)];
      var i2 := 0;
      while i2 < n
        invariant 0 <= i2 <= n && |Gs| == |UpperPairs(n)|
        invariant count == |UpperTo(i1, n)| + (if i2 > i1 then i2 - i1 else 0) <= |UpperPairs(n)|
        invariant forall k :: 0 <= k < count ==> Gs[k] == H(UpperPairs(n)[k].0, UpperPairs(n)[k].1)
      {
        if i2 >= i1 {
          PairAt(i1, i2, n);
          Gs := Gs[count := H(i1, i2)];
          count := count + 1;
        }
        i2 := i2 + 1;
      }
      assert UpperTo(i1 + 1, n) == UpperTo(i1, n) + RowPairs(i1, n);
      UpperToPrefix(i1 + 1, n, n);
      i1 := i1 + 1;
    }
  }

  // ---------------------------------------------------------------------
  // The shared state

  /** SmartProjectionFactorState::lastID, the static counter every new state draws its ID from. */
  class IdCounter {
    var lastID: int
    /** The IDs handed out so far. */
    ghost var issued: set<int>

    /** Every ID handed out is below the counter. */
    ghost predicate Valid()
      reads this
    {
      forall id :: id in issued ==> id < lastID
    }

    /** The static initialiser: lastID = 0. */
    constructor()
      ensures Valid() && lastID == 0 && issued == {}
    {
      lastID, issued := 0, {};
    }
  }

  /** What triangulatePoint3 does with the current poses and measurements. */
  datatype Triangulation =
    | Triangulated(point: Point3)
    /** TriangulationUnderconstrainedException: rank-deficient, e.g. rotation only. */
    | Underconstrained
    /** TriangulationCheiralityException: the point is behind a camera. */
    | BehindCamera

  /** The part of the state triangulation reads and writes. */
  datatype TriangulationState<P> = TriangulationState(
    cameraPosesTriangulation: seq<P>, point: Point3, degenerate: bool, cheiralityException: bool)

  /**
   * The triangulation block shared by linearize and error: retriangulate
   * when ShouldTriangulate holds, recording the poses; a successful
   * triangulation clears both flags, an underconstrained one sets
   * degenerate, a cheirality failure sets cheiralityException; with
   * degeneracy managed, a cheirality failure then also marks the state
   * degenerate.
   */
  function AfterTriangulation<P>(s: TriangulationState<P>, cameraPoses: seq<P>, threshold: real,
    equals: PoseEquals<P>, triangulate: seq<P> -> Triangulation): (t: TriangulationState<P>)
    ensures !ShouldTriangulate(cameraPoses, s.cameraPosesTriangulation, threshold, equals) ==>
      t == s.(degenerate := s.degenerate || s.cheiralityException)
    ensures ShouldTriangulate(cameraPoses, s.cameraPosesTriangulation, threshold, equals) ==> (
      t.cameraPosesTriangulation == cameraPoses &&
      (t.cheiralityException <==> triangulate(cameraPoses).BehindCamera?) &&
      (t.degenerate <==> !triangulate(cameraPoses).Triangulated?) &&
      (triangulate(cameraPoses).Triangulated? ==> t.point == triangulate(cameraPoses).point))
    ensures t.cheiralityException ==> t.degenerate
  {
    var s' :=
      if !ShouldTriangulate(cameraPoses, s.cameraPosesTriangulation, threshold, equals) then s
      else
        match triangulate(cameraPoses)
        case Triangulated(p) => TriangulationState(cameraPoses, p, false, false)
        case Underconstrained => TriangulationState(cameraPoses, s.point, true, false)
        case BehindCamera => TriangulationState(cameraPoses, s.point, s.degenerate, true);
    s'.(degenerate := s'.degenerate || s'.cheiralityException)
  }

  /**
   * Evaluating twice at the same poses triangulates once: the second call
   * finds the recorded poses equal and leaves the state as it is, provided
   * pose equality is reflexive at the threshold.
   */
  lemma TriangulationIdempotent<P>(s: TriangulationState<P>, cameraPoses: seq<P>, threshold: real,
    equals: PoseEquals<P>, triangulate: seq<P> -> Triangulation)
    requires |cameraPoses| > 0
    requires forall i :: 0 <= i < |cameraPoses| ==> equals(cameraPoses[i], cameraPoses[i], threshold)
    ensures var t := AfterTriangulation(s, cameraPoses, threshold, equals, triangulate);
      AfterTriangulation(t, cameraPoses, threshold, equals, triangulate) == t
  {
    var t := AfterTriangulation(s, cameraPoses, threshold, equals, triangulate);
    if ShouldTriangulate(cameraPoses, s.cameraPosesTriangulation, threshold, equals) {
      assert !ShouldTriangulate(cameraPoses, t.cameraPosesTriangulation, threshold, equals);
    }
  }

  /** SmartProjectionFactorState: the memory shared by a factor and its copies. */
  class SmartProjectionFactorState<P> {
    const id: int
    var cameraPosesLinearization: seq<P>
    var cameraPosesTriangulation: seq<P>
    var point: Point3
    var degenerate: bool
    var cheiralityException: bool
    var calculatedHessian: bool
    var Gs: seq<Matrix>
    var gs: seq<Vector>
    var f: real

    /** The triangulation part of the state, as a value. */
    function Triangulation(): TriangulationState<P>
      reads this
    {
      TriangulationState(cameraPosesTriangulation, point, degenerate, cheiralityException)
    }

    /**
     * SmartProjectionFactorState(): takes the next ID and clears
     * calculatedHessian. The flags the source leaves uninitialised start
     * false here.
     */
    constructor(counter: IdCounter)
      requires counter.Valid()
      modifies counter
      ensures counter.Valid()
      ensures id == old(counter.lastID) && counter.lastID == old(counter.lastID) + 1
      ensures id !in old(counter.issued) && counter.issued == old(counter.issued) + {id}
      ensures !calculatedHessian && cameraPosesLinearization == [] && cameraPosesTriangulation == []
      ensures Gs == [] && gs == []
    {
      id := counter.lastID;
      counter.lastID := counter.lastID + 1;
      counter.issued := counter.issued + {counter.lastID - 1};
      cameraPosesLinearization, cameraPosesTriangulation := [], [];
      point := Point3(0.0, 0.0, 0.0);
      degenerate, cheiralityException, calculatedHessian := false, false, false;
      Gs, gs, f := [], [], 0.0;
    }

    /** The triangulation block of linearize and error, applied to this state. */
    method Triangulate(cameraPoses: seq<P>, threshold: real, equals: PoseEquals<P>, triangulate: seq<P> -> Triangulation)
      modifies this
      ensures Triangulation() == AfterTriangulation(old(Triangulation()), cameraPoses, threshold, equals, triangulate)
      ensures cameraPosesLinearization == old(cameraPosesLinearization) && calculatedHessian == old(calculatedHessian)
      ensures Gs == old(Gs) && gs == old(gs) && f == old(f)
    {
      var retriangulate := DecideIfTriangulate(cameraPoses, cameraPosesTriangulation, threshold, equals);
      if retriangulate {
        cameraPosesTriangulation := cameraPoses;
      }
      if retriangulate {
        match triangulate(cameraPoses)
        case Triangulated(p) =>
          point, degenerate, cheiralityException := p, false, false;
        case Underconstrained =>
          degenerate, cheiralityException := true, false;
        case BehindCamera =>
          cheiralityException := true;
      }
      if cheiralityException || degenerate {
        degenerate := true;
      }
    }
  }

  /** The HessianFactor linearize returns: keys, the upper-triangular blocks, the gradient blocks and the constant. */
  datatype HessianFactor = HessianFactor(keys: seq<Key>, Gs: seq<Matrix>, gs: seq<Vector>, f: real)

  /** count copies of the 6x6 zero block. */
  function ZeroBlocks(count: nat): (bs: seq<Matrix>)
    ensures |bs| == count && forall k :: 0 <= k < count ==> bs[k] == Zeros(6, 6)
  {
    seq(count, _ => Zeros(6, 6))
  }

  /** count copies of the 6-entry zero vector. */
  function ZeroSlices(count: nat): (vs: seq<Vector>)
    ensures |vs| == count && forall k :: 0 <= k < count ==> vs[k] == Zero(6)
  {
    seq(count, _ => Zero(6))
  }

  /** Half the sum of the given squared distances, accumulated from the first. */
  function HalfSum(ds: seq<real>): real {
    if |ds| == 0 then 0.0 else HalfSum(ds[..|ds| - 1]) + 0.5 * ds[|ds| - 1]
  }

  /** Squared distances are non-negative, so the error is. */
  lemma {:induction false} HalfSumNonNegative(ds: seq<real>)
    requires forall i :: 0 <= i < |ds| ==> ds[i] >= 0.0
    ensures HalfSum(ds) >= 0.0
  {
    if |ds| > 0 {
      HalfSumNonNegative(ds[..|ds| - 1]);
    }
  }

  /** With non-negative distances the error is zero exactly when every reprojection is exact. */
  lemma {:induction false} HalfSumZero(ds: seq<real>)
    requires forall i :: 0 <= i < |ds| ==> ds[i] >= 0.0
    ensures HalfSum(ds) == 0.0 <==> forall i :: 0 <= i < |ds| ==> ds[i] == 0.0
  {
    if |ds| > 0 {
      var init := ds[..|ds| - 1];
      HalfSumZero(init);
      HalfSumNonNegative(init);
      assert forall i :: 0 <= i < |init| ==> init[i] == ds[i];
    }
  }

  /** The distance of each measurement from the reprojection of point in its camera. */
  function Distances<P>(cameraPoses: seq<P>, point: Point3, measured: seq<Point2>, distance: (P, Point3, Point2) -> real): (ds: seq<real>)
    requires |measured| <= |cameraPoses|
    ensures |ds| == |measured|
    ensures forall i :: 0 <= i < |measured| ==> ds[i] == distance(cameraPoses[i], point, measured[i])
  {
    seq(|measured|, i requires 0 <= i < |measured| => distance(cameraPoses[i], point, measured[i]))
  }

  /** Extending the measurements by one extends the distances by one. */
  lemma DistancesSnoc<P>(cameraPoses: seq<P>, point: Point3, measured: seq<Point2>, i: nat, distance: (P, Point3, Point2) -> real)
    requires i < |measured| && i < |cameraPoses|
    ensures HalfSum(Distances(cameraPoses, point, measured[..i + 1], distance)) ==
      HalfSum(Distances(cameraPoses, point, measured[..i], distance)) + 0.5 * distance(cameraPoses[i], point, measured[i])
  {
    var ds := Distances(cameraPoses, point, measured[..i + 1], distance);
    assert ds[..i] == Distances(cameraPoses, point, measured[..i], distance);
  }

  /** The 0x0 matrix a default-constructed Matrix holds. */
  const EmptyMatrix := Matrix(0, 0, [])

  /** SmartProjectionFactor: measurements and pose keys of one landmark, and the shared state. */
  class SmartProjectionFactor<P> {
    var measured: seq<Point2>
    var keys: seq<Key>
    const retriangulationThreshold: real
    const rankTolerance: real
    const linearizationThreshold: real
    const throwCheirality: bool
    const verboseCheirality: bool
    const state: SmartProjectionFactorState<P>
    const poseEquals: PoseEquals<P>
    /** triangulatePoint3 on the given poses with this factor's measurements, calibration and rank tolerance. */
    const triangulate: seq<P> -> Triangulation

    /** The constructor from keys and measurements, with the default thresholds. */
    constructor(poseKeys: seq<Key>, measured: seq<Point2>, state: SmartProjectionFactorState<P>,
      poseEquals: PoseEquals<P>, triangulate: seq<P> -> Triangulation)
      ensures this.measured == measured && keys == poseKeys && this.state == state
      ensures retriangulationThreshold == DefaultTriangThreshold && rankTolerance == DefaultRankTolerance
      ensures linearizationThreshold == DefaultLinThreshold && !throwCheirality && !verboseCheirality
      ensures this.poseEquals == poseEquals && this.triangulate == triangulate
    {
      this.measured, keys, this.state := measured, poseKeys, state;
      retriangulationThreshold, rankTolerance, linearizationThreshold := DefaultTriangThreshold, DefaultRankTolerance, DefaultLinThreshold;
      throwCheirality, verboseCheirality := false, false;
      this.poseEquals, this.triangulate := poseEquals, triangulate;
    }

    /** The constructor with a rank tolerance and a linearization threshold. */
    constructor WithTolerances(poseKeys: seq<Key>, measured: seq<Point2>, rankTol: real, linThreshold: real,
      state: SmartProjectionFactorState<P>, poseEquals: PoseEquals<P>, triangulate: seq<P> -> Triangulation)
      ensures this.measured == measured && keys == poseKeys && this.state == state
      ensures retriangulationThreshold == DefaultTriangThreshold && rankTolerance == rankTol
      ensures linearizationThreshold == linThreshold && !throwCheirality && !verboseCheirality
      ensures this.poseEquals == poseEquals && this.triangulate == triangulate
    {
      this.measured, keys, this.state := measured, poseKeys, state;
      retriangulationThreshold, rankTolerance, linearizationThreshold := DefaultTriangThreshold, rankTol, linThreshold;
      throwCheirality, verboseCheirality := false, false;
      this.poseEquals, this.triangulate := poseEquals, triangulate;
    }

    /**
     * The constructor with exception-handling flags, as written: it never
     * copies poseKeys, so the factor starts with no keys.
     */
    constructor WithFlagsAsWritten(poseKeys: seq<Key>, measured: seq<Point2>, throwCheirality: bool, verboseCheirality: bool,
      state: SmartProjectionFactorState<P>, poseEquals: PoseEquals<P>, triangulate: seq<P> -> Triangulation)
      ensures this.measured == measured && keys == [] && this.state == state
      ensures this.throwCheirality == throwCheirality && this.verboseCheirality == verboseCheirality
      ensures linearizationThreshold == DefaultLinThreshold
      ensures this.poseEquals == poseEquals && this.triangulate == triangulate
    {
      this.measured, keys, this.state := measured, [], state;
      retriangulationThreshold, rankTolerance, linearizationThreshold := DefaultTriangThreshold, DefaultRankTolerance, DefaultLinThreshold;
      this.throwCheirality, this.verboseCheirality := throwCheirality, verboseCheirality;
      this.poseEquals, this.triangulate := poseEquals, triangulate;
    }

    /** The constructor with exception-handling flags, copying the keys as the other constructors do. */
    constructor WithFlags(poseKeys: seq<Key>, measured: seq<Point2>, throwCheirality: bool, verboseCheirality: bool,
      state: SmartProjectionFactorState<P>, poseEquals: PoseEquals<P>, triangulate: seq<P> -> Triangulation)
      ensures this.measured == measured && keys == poseKeys && this.state == state
      ensures this.throwCheirality == throwCheirality && this.verboseCheirality == verboseCheirality
      ensures linearizationThreshold == DefaultLinThreshold
      ensures this.poseEquals == poseEquals && this.triangulate == triangulate
    {
      this.measured, keys, this.state := measured, poseKeys, state;
      retriangulationThreshold, rankTolerance, linearizationThreshold := DefaultTriangThreshold, DefaultRankTolerance, DefaultLinThreshold;
      this.throwCheirality, this.verboseCheirality := throwCheirality, verboseCheirality;
      this.poseEquals, this.triangulate := poseEquals, triangulate;
    }

    /** The constructor from a noise model and calibration only: no measurements and no keys. */
    constructor Empty(state: SmartProjectionFactorState<P>, poseEquals: PoseEquals<P>, triangulate: seq<P> -> Triangulation)
      ensures measured == [] && keys == [] && this.state == state
      ensures retriangulationThreshold == DefaultTriangThreshold && rankTolerance == DefaultRankTolerance
      ensures linearizationThreshold == DefaultLinThreshold
      ensures this.poseEquals == poseEquals && this.triangulate == triangulate
    {
      measured, keys, this.state := [], [], state;
      retriangulationThreshold, rankTolerance, linearizationThreshold := DefaultTriangThreshold, DefaultRankTolerance, DefaultLinThreshold;
      throwCheirality, verboseCheirality := false, false;
      this.poseEquals, this.triangulate := poseEquals, triangulate;
    }

    /** Measurements and keys pair up one to one. */
    predicate InLockstep()
      reads this
    {
      |measured| == |keys|
    }

    /** add(measured, poseKey): appends to both lists, so lockstep is kept. */
    method Add(m: Point2, poseKey: Key)
      modifies this
      ensures measured == old(measured) + [m] && keys == old(keys) + [poseKey]
      ensures |measured| - |keys| == old(|measured| - |keys|)
      ensures old(InLockstep()) ==> InLockstep()
    {
      measured := measured + [m];
      keys := keys + [poseKey];
    }

    /** dim(): six rows per pose key. */
    function Dim(): (d: nat)
      reads this
      ensures d == 6 * |keys|
    {
      6 * |keys|
    }

    /**
     * linearize(values), given the camera poses of the keys. With fewer than
     * two poses the state is marked degenerate and all blocks are zero.
     * Otherwise the state is triangulated, and the cached Hessian is
     * returned when the threshold is non-negative and the poses after the
     * first have not moved. Else the point is reprojected into every camera:
     * a degenerate state first places it at infinity along the first
     * measurement; a regular one ends the process (reported here as a
     * cheirality error) when the point is behind a camera. The Schur
     * complement (H, its gradient slices and f, computed outside this model)
     * is then cut into blocks, and cached when the threshold is
     * non-negative. A measurement with no pose throws out_of_range.
     */
    method Linearize(cameraPoses: seq<P>, behind: (P, Point3) -> bool, backproject: (P, Point2) -> Point3,
      H: (nat, nat) -> Matrix, slice: nat -> Vector, fValue: real)
      returns (r: Result<HessianFactor>)
      requires |cameraPoses| == |keys|
      modifies state
      ensures var n := |keys|;
        |cameraPoses| < 2 ==> (r == Ok(HessianFactor(keys, ZeroBlocks(n * (n + 1) / 2), ZeroSlices(n), 0.0)) &&
          state.degenerate && state.cameraPosesTriangulation == old(state.cameraPosesTriangulation) &&
          state.point == old(state.point) && state.cheiralityException == old(state.cheiralityException) &&
          state.cameraPosesLinearization == old(state.cameraPosesLinearization) &&
          state.calculatedHessian == old(state.calculatedHessian) &&
          state.Gs == old(state.Gs) && state.gs == old(state.gs) && state.f == old(state.f))
      ensures var t := AfterTriangulation(old(state.Triangulation()), cameraPoses, retriangulationThreshold, poseEquals, triangulate);
        var doLinearize := linearizationThreshold < 0.0 ||
          ShouldLinearize(cameraPoses, old(state.cameraPosesLinearization), linearizationThreshold, poseEquals);
        |cameraPoses| >= 2 ==> (
          state.cameraPosesTriangulation == t.cameraPosesTriangulation &&
          state.degenerate == t.degenerate && state.cheiralityException == t.cheiralityException &&
          state.point == (if doLinearize && t.degenerate && |measured| > 0 then backproject(cameraPoses[0], measured[0])
                          else t.point))
      ensures var doLinearize := linearizationThreshold < 0.0 ||
          ShouldLinearize(cameraPoses, old(state.cameraPosesLinearization), linearizationThreshold, poseEquals);
        |cameraPoses| >= 2 && !doLinearize ==>
          r == Ok(HessianFactor(keys, old(state.Gs), old(state.gs), old(state.f))) &&
          state.cameraPosesLinearization == old(state.cameraPosesLinearization) &&
          state.calculatedHessian == old(state.calculatedHessian)
      ensures var doLinearize := linearizationThreshold < 0.0 ||
          ShouldLinearize(cameraPoses, old(state.cameraPosesLinearization), linearizationThreshold, poseEquals);
        var failure := if !state.degenerate && exists j :: 0 <= j < |measured| && j < |cameraPoses| && behind(cameraPoses[j], state.point)
          then Some(CheiralityException)
          else if |measured| > |cameraPoses| then Some(OutOfRange)
          else None;
        |cameraPoses| >= 2 && doLinearize ==> (
          state.cameraPosesLinearization == cameraPoses &&
          (failure.Some? ==> (r == Err(failure.value) && state.calculatedHessian == old(state.calculatedHessian) &&
            state.Gs == old(state.Gs) && state.gs == old(state.gs) && state.f == old(state.f))) &&
          (failure.None? ==> (r.Ok? && r.value.keys == keys && r.value.f == fValue &&
            |r.value.Gs| == |UpperPairs(|keys|)| && |r.value.gs| == |keys| &&
            (forall k :: 0 <= k < |r.value.Gs| ==> r.value.Gs[k] == H(UpperPairs(|keys|)[k].0, UpperPairs(|keys|)[k].1)) &&
            (forall i :: 0 <= i < |keys| ==> r.value.gs[i] == slice(i)) &&
            (linearizationThreshold >= 0.0 ==> (state.calculatedHessian &&
              state.Gs == r.value.Gs && state.gs == r.value.gs && state.f == fValue)) &&
            (linearizationThreshold < 0.0 ==> (state.calculatedHessian == old(state.calculatedHessian) &&
              state.Gs == old(state.Gs) && state.gs == old(state.gs) && state.f == old(state.f))))))
    {
      var n := |keys|;
      if |cameraPoses| < 2 {
        state.degenerate := true;
        return Ok(HessianFactor(keys, ZeroBlocks(n * (n + 1) / 2), ZeroSlices(n), 0.0));
      }
      state.Triangulate(cameraPoses, retriangulationThreshold, poseEquals, triangulate);
      var doLinearize := true;
      if linearizationThreshold >= 0.0 {
        doLinearize := DecideIfLinearize(cameraPoses, state.cameraPosesLinearization, linearizationThreshold, poseEquals);
      }
      if doLinearize {
        state.cameraPosesLinearization := cameraPoses;
      }
      if !doLinearize {
        return Ok(HessianFactor(keys, state.Gs, state.gs, state.f));
      }
      r := Relinearize(cameraPoses, behind, backproject, H, slice, fValue);
    }

    /**
     * The relinearizing tail of linearize: reproject the point into every
     * camera, then cut the Schur complement into blocks and cache them when
     * the threshold is non-negative.
     */
    method Relinearize(cameraPoses: seq<P>, behind: (P, Point3) -> bool, backproject: (P, Point2) -> Point3,
      H: (nat, nat) -> Matrix, slice: nat -> Vector, fValue: real)
      returns (r: Result<HessianFactor>)
      requires |cameraPoses| == |keys| >= 2
      modifies state
      ensures state.cameraPosesTriangulation == old(state.cameraPosesTriangulation) &&
        state.degenerate == old(state.degenerate) && state.cheiralityException == old(state.cheiralityException) &&
        state.cameraPosesLinearization == old(state.cameraPosesLinearization)
      ensures state.point == if old(state.degenerate) && |measured| > 0 then backproject(cameraPoses[0], measured[0])
        else old(state.point)
      ensures var failure := if !state.degenerate && exists j :: 0 <= j < |measured| && j < |cameraPoses| && behind(cameraPoses[j], state.point)
          then Some(CheiralityException)
          else if |measured| > |cameraPoses| then Some(OutOfRange)
          else None;
        (failure.Some? ==> (r == Err(failure.value) && state.calculatedHessian == old(state.calculatedHessian) &&
          state.Gs == old(state.Gs) && state.gs == old(state.gs) && state.f == old(state.f))) &&
        (failure.None? ==> (r.Ok? && r.value.keys == keys && r.value.f == fValue &&
          |r.value.Gs| == |UpperPairs(|keys|)| && |r.value.gs| == |keys| &&
          (forall k :: 0 <= k < |r.value.Gs| ==> r.value.Gs[k] == H(UpperPairs(|keys|)[k].0, UpperPairs(|keys|)[k].1)) &&
          (forall i :: 0 <= i < |keys| ==> r.value.gs[i] == slice(i)) &&
          (linearizationThreshold >= 0.0 ==> (state.calculatedHessian &&
            state.Gs == r.value.Gs && state.gs == r.value.gs && state.f == fValue)) &&
          (linearizationThreshold < 0.0 ==> (state.calculatedHessian == old(state.calculatedHessian) &&
            state.Gs == old(state.Gs) && state.gs == old(state.gs) && state.f == old(state.f)))))
    {
      if state.degenerate {
        if |measured| > 0 {
          state.point := backproject(cameraPoses[0], measured[0]);
        }
        if |measured| > |cameraPoses| {
          return Err(OutOfRange);
        }
      } else {
        var projected := ProjectAll(cameraPoses, state.point, behind);
        if projected.Err? {
          return Err(projected.error);
        }
      }
      var n := |keys|;
      var Gs := seq(n * (n + 1) / 2, _ => EmptyMatrix);
      var gs: seq<Vector> := seq(n, _ => []);
      Gs, gs := FillBlocks(n, H, slice, Gs, gs);
      if linearizationThreshold >= 0.0 {
        state.calculatedHessian := true;
        state.Gs, state.gs, state.f := Gs, gs, fValue;
      }
      return Ok(HessianFactor(keys, Gs, gs, fValue));
    }

    /**
     * The projection loop of linearize on a regular state: each measurement
     * needs a camera (out_of_range otherwise), and a point behind that
     * camera ends the process there.
     */
    method ProjectAll(cameraPoses: seq<P>, point: Point3, behind: (P, Point3) -> bool) returns (r: Result<()>)
      ensures r == if exists j :: 0 <= j < |measured| && j < |cameraPoses| && behind(cameraPoses[j], point) then Err(CheiralityException)
        else if |measured| > |cameraPoses| then Err(OutOfRange)
        else Ok(())
    {
      for i := 0 to |measured|
        invariant i <= |cameraPoses|
        invariant forall j :: 0 <= j < i ==> !behind(cameraPoses[j], point)
      {
        if i >= |cameraPoses| {
          return Err(OutOfRange);
        }
        if behind(cameraPoses[i], point) {
          return Err(CheiralityException);
        }
      }
      return Ok(());
    }

    /**
     * error(values), given whether the factor is active and the camera
     * poses of its keys. Inactive or with fewer than two poses it is zero.
     * Otherwise the state is triangulated; a degenerate state places the
     * point at infinity along the first measurement and sums the distances
     * of the rotation-only reprojections; otherwise the distances of the
     * projections of the triangulated point are summed, and a point behind
     * a camera ends the evaluation. A measurement with no pose throws
     * out_of_range.
     */
    method Error(active: bool, cameraPoses: seq<P>, behind: (P, Point3) -> bool, distance: (P, Point3, Point2) -> real,
      backproject: (P, Point2) -> Point3, distanceAtInfinity: (P, Point3, Point2) -> real)
      returns (r: Result<real>)
      requires |cameraPoses| == |keys|
      modifies state
      ensures !active || |cameraPoses| < 2 ==> r == Ok(0.0) && unchanged(state)
      ensures active && |cameraPoses| >= 2 ==>
        var t := AfterTriangulation(old(state.Triangulation()), cameraPoses, retriangulationThreshold, poseEquals, triangulate);
        state.cameraPosesTriangulation == t.cameraPosesTriangulation &&
        state.degenerate == t.degenerate && state.cheiralityException == t.cheiralityException &&
        state.point == (if t.degenerate && |measured| > 0 then backproject(cameraPoses[0], measured[0]) else t.point) &&
        state.cameraPosesLinearization == old(state.cameraPosesLinearization) && state.Gs == old(state.Gs) &&
        state.gs == old(state.gs) && state.f == old(state.f) && state.calculatedHessian == old(state.calculatedHessian)
      ensures active && |cameraPoses| >= 2 && state.degenerate ==>
        r == if |measured| > |cameraPoses| then Err(OutOfRange)
             else Ok(HalfSum(Distances(cameraPoses, state.point, measured, distanceAtInfinity)))
      ensures active && |cameraPoses| >= 2 && !state.degenerate ==>
        r == if exists j :: 0 <= j < |measured| && j < |cameraPoses| && behind(cameraPoses[j], state.point) then Err(CheiralityException)
             else if |measured| > |cameraPoses| then Err(OutOfRange)
             else Ok(HalfSum(Distances(cameraPoses, state.point, measured, distance)))
    {
      if !active || |cameraPoses| < 2 {
        return Ok(0.0);
      }
      state.Triangulate(cameraPoses, retriangulationThreshold, poseEquals, triangulate);
      if state.degenerate {
        if |measured| > 0 {
          state.point := backproject(cameraPoses[0], measured[0]);
        }
        r := SumDistances(cameraPoses, state.point, (pose, point) => false, distanceAtInfinity);
      } else {
        r := SumDistances(cameraPoses, state.point, behind, distance);
      }
    }

    /**
     * The summing loop of error: half the distance of each measurement from
     * the reprojection of point, in order; a point behind the camera of a
     * measurement, or a measurement with no camera, ends the loop there.
     */
    method SumDistances(cameraPoses: seq<P>, point: Point3, behind: (P, Point3) -> bool, distance: (P, Point3, Point2) -> real)
      returns (r: Result<real>)
      ensures r == if exists j :: 0 <= j < |measured| && j < |cameraPoses| && behind(cameraPoses[j], point) then Err(CheiralityException)
        else if |measured| > |cameraPoses| then Err(OutOfRange)
        else Ok(HalfSum(Distances(cameraPoses, point, measured, distance)))
    {
      var overallError := 0.0;
      var i := 0;
      while i < |measured|
        invariant 0 <= i <= |measured| && i <= |cameraPoses|
        invariant forall j :: 0 <= j < i ==> !behind(cameraPoses[j], point)
        invariant overallError == HalfSum(Distances(cameraPoses, point, measured[..i], distance))
      {
        if i >= |cameraPoses| {
          return Err(OutOfRange);
        }
        if behind(cameraPoses[i], point) {
          return Err(CheiralityException);
        }
        DistancesSnoc(cameraPoses, point, measured, i, distance);
        overallError := overallError + 0.5 * distance(cameraPoses[i], point, measured[i]);
        i := i + 1;
      }
      assert measured[..i] == measured;
      return Ok(overallError);
    }
  }

  /**
   * The flags constructor as written: built on matching keys and
   * measurements, the factor has dimension 0 and its measurements no
   * longer pair up with keys, so it never contributes to the graph.
   */
  method FlagsConstructorAsWritten(poseKeys: seq<Key>, measured: seq<Point2>) returns (dim: nat, lockstep: bool)
    requires |poseKeys| == |measured| > 0
    ensures dim == 0 && !lockstep
  {
    var counter := new IdCounter();
    var state := new SmartProjectionFactorState<Key>(counter);
    var factor := new SmartProjectionFactor<Key>.WithFlagsAsWritten(poseKeys, measured, true, false, state,
      (a, b, t) => a == b, _ => Underconstrained);
    dim, lockstep := factor.Dim(), factor.InLockstep();
  }

  /** The corrected flags constructor keeps one key per measurement and six dimensions per key. */
  method FlagsConstructorCorrected(poseKeys: seq<Key>, measured: seq<Point2>) returns (dim: nat, lockstep: bool)
    requires |poseKeys| == |measured| > 0
    ensures dim == 6 * |poseKeys| && lockstep
  {
    var counter := new IdCounter();
    var state := new SmartProjectionFactorState<Key>(counter);
    var factor := new SmartProjectionFactor<Key>.WithFlags(poseKeys, measured, true, false, state,
      (a, b, t) => a == b, _ => Underconstrained);
    dim, lockstep := factor.Dim(), factor.InLockstep();
  }
}
