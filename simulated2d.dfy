/**
 * simulated2D: a planar robot with position-only poses and landmarks.
 * The Values container counts the poses and points inserted through it;
 * prior, odometry and measurement are the prediction functions, and each
 * factor's error is its prediction minus its measurement.
 */
module Simulated2D {
  import opened Wrappers
  import opened Points

  /** A Symbol key: a character and an index. */
  datatype Symbol = Symbol(chr: char, index: nat)

  /** PoseKey(j) = Symbol('x', j). */
  function PoseKey(j: nat): (k: Symbol)
    ensures k.chr == 'x' && k.index == j
  {
    Symbol('x', j)
  }

  /** PointKey(j) = Symbol('l', j). */
  function PointKey(j: nat): (k: Symbol)
    ensures k.chr == 'l' && k.index == j
  {
    Symbol('l', j)
  }

  /** Pose and point keys never collide, and each kind is injective in its index. */
  lemma KeysDistinct(i: nat, j: nat)
    ensures PoseKey(i) != PointKey(j)
    ensures PoseKey(i) == PoseKey(j) <==> i == j
    ensures PointKey(i) == PointKey(j) <==> i == j
  {
  }

  /**
   * simulated2D::Values: a key-to-point map with two counters that record
   * how many poses and points were inserted through this object.
   */
  class Values {
    var values: map<Symbol, Point2>
    var nrPoses: int
    var nrPoints: int
    /** The pose and point indices inserted through this object. */
    ghost var posesInserted: set<nat>
    ghost var pointsInserted: set<nat>

    /** Each counter is the number of distinct keys of its kind inserted here, all still present. */
    ghost predicate Valid()
      reads this
    {
      nrPoses == |posesInserted| && nrPoints == |pointsInserted| &&
      (forall j :: j in posesInserted ==> PoseKey(j) in values) &&
      (forall j :: j in pointsInserted ==> PointKey(j) in values)
    }

    /** Values(): empty, with both counts zero. */
    constructor()
      ensures Valid()
      ensures values == map[] && nrPoses == 0 && nrPoints == 0
    {
      values := map[];
      nrPoses, nrPoints := 0, 0;
      posesInserted, pointsInserted := {}, {};
    }

    /** Values(base): a copy of base whose counts start at zero whatever base holds. */
    constructor FromBase(base: map<Symbol, Point2>)
      ensures Valid()
      ensures values == base && nrPoses == 0 && nrPoints == 0
    {
      values := base;
      nrPoses, nrPoints := 0, 0;
      posesInserted, pointsInserted := {}, {};
    }

    /** insertPose(j, p): stores p under 'x'j and counts one more pose; insert throws when the key is present. */
    method InsertPose(j: nat, p: Point2) returns (r: Result<()>)
      requires Valid()
      modifies this
      ensures Valid()
      ensures old(PoseKey(j) in values) <==> r == Err(ValuesKeyAlreadyExists)
      ensures r.Err? ==> values == old(values) && nrPoses == old(nrPoses) && nrPoints == old(nrPoints)
      ensures r.Ok? ==> (values == old(values)[PoseKey(j) := p] &&
        nrPoses == old(nrPoses) + 1 && nrPoints == old(nrPoints) && Pose(j) == Some(p))
      ensures forall i :: i != j ==> Pose(i) == old(Pose(i))
      ensures forall k :: Point(k) == old(Point(k))
    {
      if PoseKey(j) in values {
        return Err(ValuesKeyAlreadyExists);
      }
      values := values[PoseKey(j) := p];
      posesInserted := posesInserted + {j};
      nrPoses := nrPoses + 1;
      return Ok(());
    }

    /** insertPoint(j, p): stores p under 'l'j and counts one more point; insert throws when the key is present. */
    method InsertPoint(j: nat, p: Point2) returns (r: Result<()>)
      requires Valid()
      modifies this
      ensures Valid()
      ensures old(PointKey(j) in values) <==> r == Err(ValuesKeyAlreadyExists)
      ensures r.Err? ==> values == old(values) && nrPoints == old(nrPoints) && nrPoses == old(nrPoses)
      ensures r.Ok? ==> (values == old(values)[PointKey(j) := p] &&
        nrPoints == old(nrPoints) + 1 && nrPoses == old(nrPoses) && Point(j) == Some(p))
      ensures forall i :: i != j ==> Point(i) == old(Point(i))
      ensures forall k :: Pose(k) == old(Pose(k))
    {
      if PointKey(j) in values {
        return Err(ValuesKeyAlreadyExists);
      }
      values := values[PointKey(j) := p];
      pointsInserted := pointsInserted + {j};
      nrPoints := nrPoints + 1;
      return Ok(());
    }

    /** pose(j): the point stored under 'x'j; at() throws (None here) when it is absent. */
    function Pose(j: nat): (r: Option<Point2>)
      reads this
      ensures r.Some? <==> PoseKey(j) in values
      ensures r.Some? ==> r.value == values[PoseKey(j)]
    {
      if PoseKey(j) in values then Some(values[PoseKey(j)]) else None
    }

    /** point(j): the point stored under 'l'j; None when it is absent. */
    function Point(j: nat): (r: Option<Point2>)
      reads this
      ensures r.Some? <==> PointKey(j) in values
      ensures r.Some? ==> r.value == values[PointKey(j)]
    {
      if PointKey(j) in values then Some(values[PointKey(j)]) else None
    }
  }

  // ---------------------------------------------------------------------
  // Prediction functions

  /** Point2 difference a - b. */
  function Sub(a: Point2, b: Point2): (c: Point2)
    ensures c.x + b.x == a.x && c.y + b.y == a.y
  {
    Point2(a.x - b.x, a.y - b.y)
  }

  /** prior(x) = x. */
  function Prior(x: Point2): Point2
  {
    x
  }

  /** odo(x1, x2) = x2 - x1. */
  function Odo(x1: Point2, x2: Point2): (z: Point2)
    ensures Point2(x1.x + z.x, x1.y + z.y) == x2
  {
    Sub(x2, x1)
  }

  /** mea(x, l) = l - x. */
  function Mea(x: Point2, l: Point2): (z: Point2)
    ensures Point2(x.x + z.x, x.y + z.y) == l
  {
    Sub(l, x)
  }

  /** Point2::vector(). */
  function AsVector(p: Point2): seq<real> {
    [p.x, p.y]
  }

  /** A vector that is zero in both entries. */
  predicate IsZero2(v: seq<real>) {
    |v| == 2 && v[0] == 0.0 && v[1] == 0.0
  }

  /** GenericPrior::evaluateError(x) = (prior(x) - measured).vector(). */
  function PriorError(measured: Point2, x: Point2): (e: seq<real>)
    ensures |e| == 2
    ensures IsZero2(e) <==> Prior(x) == measured
  {
    AsVector(Sub(Prior(x), measured))
  }

  /** GenericOdometry::evaluateError(x1, x2) = (odo(x1, x2) - measured).vector(). */
  function OdometryError(measured: Point2, x1: Point2, x2: Point2): (e: seq<real>)
    ensures |e| == 2
    ensures IsZero2(e) <==> Odo(x1, x2) == measured
  {
    AsVector(Sub(Odo(x1, x2), measured))
  }

  /** GenericMeasurement::evaluateError(x, l) = (mea(x, l) - measured).vector(). */
  function MeasurementError(measured: Point2, x: Point2, l: Point2): (e: seq<real>)
    ensures |e| == 2
    ensures IsZero2(e) <==> Mea(x, l) == measured
  {
    AsVector(Sub(Mea(x, l), measured))
  }

  /** Measurements simulated from a configuration give zero error at that configuration. */
  lemma ConsistentErrorsVanish(x1: Point2, x2: Point2, l: Point2)
    ensures IsZero2(PriorError(Prior(x1), x1))
    ensures IsZero2(OdometryError(Odo(x1, x2), x1, x2))
    ensures IsZero2(MeasurementError(Mea(x1, l), x1, l))
  {
  }
}
