/**
 * Cal3_S2: the five-parameter pinhole calibration (focal lengths, skew and
 * principal point) that maps intrinsic coordinates to image coordinates.
 */
module Calibrations {
  import opened Vectors
  import opened Matrices
  import opened Points
  import Manifolds

  /** Focal lengths fx, fy, skew s and principal point (u0, v0). */
  datatype Cal3S2 = Cal3S2(fx: real, fy: real, s: real, u0: real, v0: real)

  /** Cal3_S2(): unit focal lengths, no skew, principal point at the origin. */
  const Default := Cal3S2(1.0, 1.0, 0.0, 0.0, 0.0)

  /** dim(): five degrees of freedom. */
  const Dim: nat := 5

  /** uncalibrate(p) = (fx x + s y + u0, fy y + v0). */
  function Uncalibrate(K: Cal3S2, p: Point2): (q: Point2)
    ensures q.x - K.u0 == K.fx * p.x + K.s * p.y && q.y - K.v0 == K.fy * p.y
  {
    Point2(K.fx * p.x + K.s * p.y + K.u0, K.fy * p.y + K.v0)
  }

  /** The default calibration leaves coordinates unchanged. */
  lemma DefaultUncalibrate(p: Point2)
    ensures Uncalibrate(Default, p) == p
  {
  }

  /** principalPoint() = (u0, v0). */
  function PrincipalPoint(K: Cal3S2): (c: Point2)
    ensures c == Uncalibrate(K, Point2(0.0, 0.0))
  {
    Point2(K.u0, K.v0)
  }

  /** vector(): fx, fy, s, u0, v0 in that order. */
  function ToVector(K: Cal3S2): (v: Vector)
    ensures |v| == Dim
    ensures v[0] == K.fx && v[1] == K.fy && v[2] == K.s && v[3] == K.u0 && v[4] == K.v0
  {
    [K.fx, K.fy, K.s, K.u0, K.v0]
  }

  /** Distinct calibrations have distinct vectors. */
  lemma ToVectorInjective(K1: Cal3S2, K2: Cal3S2)
    ensures ToVector(K1) == ToVector(K2) <==> K1 == K2
  {
    if ToVector(K1) == ToVector(K2) {
      assert ToVector(K1)[0] == ToVector(K2)[0] && ToVector(K1)[1] == ToVector(K2)[1];
      assert ToVector(K1)[2] == ToVector(K2)[2] && ToVector(K1)[3] == ToVector(K2)[3];
      assert ToVector(K1)[4] == ToVector(K2)[4];
    }
  }

  /** exmap(d): adds the first five entries of d to fx, fy, s, u0, v0. */
  function Exmap(K: Cal3S2, d: Vector): (K2: Cal3S2)
    requires |d| >= Dim
    ensures ToVector(K2) == Manifolds.Plus(ToVector(K), d[..Dim])
  {
    Cal3S2(K.fx + d[0], K.fy + d[1], K.s + d[2], K.u0 + d[3], K.v0 + d[4])
  }

  /** exmap(0) is the calibration itself. */
  lemma ExmapZero(K: Cal3S2)
    ensures Exmap(K, Zero(Dim)) == K
  {
    assert Zero(Dim)[..Dim] == Zero(Dim);
    ToVectorInjective(Exmap(K, Zero(Dim)), K);
  }

  /** matrix(): the upper-triangular K = [fx s u0; 0 fy v0; 0 0 1], filled row by row. */
  function CalibrationMatrix(K: Cal3S2): (M: Matrix)
    ensures M.Valid() && M.rows == 3 && M.cols == 3
    ensures UpperTriangular(M) && M.entries[2] == [0.0, 0.0, 1.0]
  {
    Matrix(3, 3, [[K.fx, K.s, K.u0], [0.0, K.fy, K.v0], [0.0, 0.0, 1.0]])
  }

  /** K applied to the homogeneous point (x, y, 1) is the uncalibrated point, still homogeneous. */
  lemma MatrixUncalibrates(K: Cal3S2, p: Point2)
    ensures var q := Uncalibrate(K, p);
      Apply(CalibrationMatrix(K), [p.x, p.y, 1.0]) == [q.x, q.y, 1.0]
  {
    var M, x := CalibrationMatrix(K), [p.x, p.y, 1.0];
    assert RowSum(M, 0, x, 0, 3) == K.fx * p.x + K.s * p.y + K.u0;
    assert RowSum(M, 1, x, 0, 3) == K.fy * p.y + K.v0;
    assert RowSum(M, 2, x, 0, 3) == 1.0;
    var y, q := Apply(M, x), Uncalibrate(K, p);
    assert y[0] == q.x && y[1] == q.y && y[2] == 1.0;
  }
}
