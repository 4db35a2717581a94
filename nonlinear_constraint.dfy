/**
 * Nonlinear constraints for SQP: a constraint function g over a
 * configuration, the number p of Lagrange multipliers, and the key the
 * multipliers are stored under. The underlying factor's measurement is the
 * zero vector of length p with sigma 1. The gradient functions and the
 * two-configuration linearize are code outside this model.
 */
module NonlinearConstraints {
  import opened Wrappers
  import opened Vectors

  /** The fields NonlinearConstraint adds to its NonlinearFactor base. */
  datatype Base = Base(z: Vector, sigma: real, lagrangeKey: string, p: nat)

  /** NonlinearConstraint(lagrange_key, dim_lagrange): measurement zero(p), sigma 1. */
  function MakeBase(lagrangeKey: string, p: nat): (b: Base)
    ensures |b.z| == p && forall i :: 0 <= i < p ==> b.z[i] == 0.0
    ensures b.sigma == 1.0 && b.lagrangeKey == lagrangeKey
    ensures NrConstraints(b) == p
  {
    Base(Zero(p), 1.0, lagrangeKey, p)
  }

  /** nrConstraints(): the number of Lagrange multipliers. */
  function NrConstraints(b: Base): nat {
    b.p
  }

  /** The Lagrange-key prefix of the default keys. */
  const LagrangePrefix := "L_"

  /** A unary constraint g(config, key). */
  datatype Constraint1<!C> = Constraint1(base: Base, key: string, g: (C, string) -> Vector)

  /** A binary constraint g(config, key1, key2). */
  datatype Constraint2<!C> = Constraint2(base: Base, key1: string, key2: string, g: (C, string, string) -> Vector)

  /**
   * NonlinearConstraint1(key, gradG, g, p, lagrange_key = ""): an empty
   * Lagrange key is replaced by "L_" + key.
   */
  function MakeConstraint1<C>(key: string, g: (C, string) -> Vector, p: nat, lagrangeKey: string): (c: Constraint1<C>)
    ensures c.key == key && c.g == g && NrConstraints(c.base) == p
    ensures c.base.z == Zero(p) && c.base.sigma == 1.0
    ensures lagrangeKey != "" ==> c.base.lagrangeKey == lagrangeKey
    ensures lagrangeKey == "" ==> c.base.lagrangeKey == LagrangePrefix + key
    ensures c.base.lagrangeKey != ""
  {
    var base := MakeBase(lagrangeKey, p);
    var c := Constraint1(base, key, g);
    if lagrangeKey == "" then c.(base := base.(lagrangeKey := LagrangePrefix + key)) else c
  }

  /**
   * NonlinearConstraint2(key1, gradG1, key2, gradG2, g, p, lagrange_key = ""):
   * an empty Lagrange key is replaced by "L_" + key1 + key2.
   */
  function MakeConstraint2<C>(key1: string, key2: string, g: (C, string, string) -> Vector, p: nat, lagrangeKey: string): (c: Constraint2<C>)
    ensures c.key1 == key1 && c.key2 == key2 && c.g == g && NrConstraints(c.base) == p
    ensures c.base.z == Zero(p) && c.base.sigma == 1.0
    ensures lagrangeKey != "" ==> c.base.lagrangeKey == lagrangeKey
    ensures lagrangeKey == "" ==> c.base.lagrangeKey == LagrangePrefix + key1 + key2
    ensures c.base.lagrangeKey != ""
  {
    var base := MakeBase(lagrangeKey, p);
    var c := Constraint2(base, key1, key2, g);
    if lagrangeKey == "" then c.(base := base.(lagrangeKey := LagrangePrefix + key1 + key2)) else c
  }

  /** Distinct keys give unary constraints distinct default Lagrange keys. */
  lemma DefaultKeyInjective1<C>(k1: string, k2: string, g: (C, string) -> Vector, p: nat)
    requires k1 != k2
    ensures MakeConstraint1(k1, g, p, "").base.lagrangeKey != MakeConstraint1(k2, g, p, "").base.lagrangeKey
  {
    var a, b := MakeConstraint1(k1, g, p, "").base.lagrangeKey, MakeConstraint1(k2, g, p, "").base.lagrangeKey;
    assert a[|LagrangePrefix|..] == k1 && b[|LagrangePrefix|..] == k2;
  }

  /**
   * Binary default keys are not unique: the key pairs ("a", "bc") and
   * ("ab", "c") both get "L_abc", the clash the source's TODO anticipates.
   */
  lemma DefaultKeyClash2<C>(g: (C, string, string) -> Vector, p: nat)
    ensures MakeConstraint2("a", "bc", g, p, "").base.lagrangeKey == MakeConstraint2("ab", "c", g, p, "").base.lagrangeKey == "L_abc"
  {
  }

  /** error_vector(c) = g(c, key). */
  function ErrorVector1<C>(c: Constraint1<C>, config: C): Vector
  {
    c.g(config, c.key)
  }

  /** error_vector(c) = g(c, key1, key2). */
  function ErrorVector2<C>(c: Constraint2<C>, config: C): Vector
  {
    c.g(config, c.key1, c.key2)
  }

  /** The message of the single-configuration linearize. */
  const LinearizeMessage := "No current constraint linearization for a single Config!"

  /** linearize(config) with no Lagrange multipliers always throws invalid_argument. */
  function LinearizeSingle<C>(b: Base, config: C): (r: Result<()>)
    ensures r.Err? && r.error == InvalidArgument(LinearizeMessage)
  {
    Err(InvalidArgument(LinearizeMessage))
  }

  /** A vector configuration: named vectors. */
  type VectorConfig = map<string, Vector>

  /** g(x) = x^2 - 5 on the first entry of the named vector (empty if it is missing). */
  function SquareMinusFive(config: VectorConfig, key: string): Vector {
    if key in config && |config[key]| >= 1 then [config[key][0] * config[key][0] - 5.0] else []
  }

  /**
   * A unary constraint on "x" with p = 1 and Lagrange key "L_x1" has error
   * -4 at x = 1 and keeps the given key.
   */
  lemma UnaryScalarExample(config: VectorConfig)
    requires config == map["x" := [1.0]]
    ensures var c := MakeConstraint1("x", SquareMinusFive, 1, "L_x1");
      c.base.lagrangeKey == "L_x1" && NrConstraints(c.base) == 1 && ErrorVector1(c, config) == [-4.0]
  {
    var c := MakeConstraint1("x", SquareMinusFive, 1, "L_x1");
    assert c.key == "x" && "x" in config && config["x"] == [1.0];
  }
}
