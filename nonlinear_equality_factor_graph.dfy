/**
 * NonlinearEqualityFactorGraph: a factor graph of nonlinear equality
 * constraints, each with the key of its dual variable. The graph is a list
 * of shared factor pointers, any of which may be null; a constraint is
 * given by what the graph asks of it at a configuration (its linearization,
 * its unwhitened error vector and its scalar error).
 */
module NonlinearEqualityFactorGraphs {
  import opened Wrappers
  import opened Vectors

  /** A nonlinear equality constraint, evaluated at configurations V; J is its Jacobian factor. */
  datatype Constraint<!V, J> = Constraint(
    dualKey: nat, linearize: V -> J, unwhitenedError: V -> Vector, error: V -> real)

  /** LinearEquality: a Jacobian factor tagged with the key of its dual variable. */
  datatype LinearEquality<J> = LinearEquality(jacobian: J, dualKey: nat)

  type Graph<!V, J> = seq<Option<Constraint<V, J>>>

  /** No slot of the graph is null. */
  predicate NoNullSlots<V, J>(graph: Graph<V, J>) {
    forall i :: 0 <= i < |graph| ==> graph[i].Some?
  }

  // ---------------------------------------------------------------------
  // linearize

  /**
   * linearize(x): one linear equality per factor, in order, each holding
   * the factor's linearization at x and tagged with its dual key. The loop
   * dereferences every slot, so null slots are excluded.
   */
  method Linearize<V, J>(graph: Graph<V, J>, x: V) returns (linearGraph: seq<LinearEquality<J>>)
    requires NoNullSlots(graph)
    ensures |linearGraph| == |graph|
    ensures forall i :: 0 <= i < |graph| ==>
      linearGraph[i] == LinearEquality(graph[i].value.linearize(x), graph[i].value.dualKey)
  {
    linearGraph := [];
    for i := 0 to |graph|
      invariant |linearGraph| == i
      invariant forall k :: 0 <= k < i ==>
        linearGraph[k] == LinearEquality(graph[k].value.linearize(x), graph[k].value.dualKey)
    {
      var factor := graph[i].value;
      linearGraph := linearGraph + [LinearEquality(factor.linearize(x), factor.dualKey)];
    }
  }

  // ---------------------------------------------------------------------
  // checkFeasibility

  /** lpNorm<Infinity>(): the largest absolute entry, 0 for the empty vector. */
  function MaxAbs(v: Vector): (m: real)
    ensures m >= 0.0
    ensures forall i :: 0 <= i < |v| ==> Abs(v[i]) <= m
    ensures |v| == 0 ==> m == 0.0
    ensures |v| > 0 ==> exists i :: 0 <= i < |v| && m == Abs(v[i])
  {
    if |v| == 0 then 0.0
    else
      var rest := MaxAbs(v[..|v| - 1]);
      var last := Abs(v[|v| - 1]);
      if last > rest then last else rest
  }

  /** The largest absolute entry is within tol exactly when every entry is. */
  lemma MaxAbsWithin(v: Vector, tol: real)
    ensures MaxAbs(v) <= tol <==> (tol >= 0.0 && forall i :: 0 <= i < |v| ==> Abs(v[i]) <= tol)
  {
  }

  /** Every factor's unwhitened error at x has its largest absolute entry within tol. */
  predicate Feasible<V, J>(graph: Graph<V, J>, x: V, tol: real)
    requires NoNullSlots(graph)
  {
    forall i :: 0 <= i < |graph| ==> MaxAbs(graph[i].value.unwhitenedError(x)) <= tol
  }

  /** checkFeasibility(x, tol): returns false at the first factor whose error exceeds tol. */
  method CheckFeasibility<V, J>(graph: Graph<V, J>, x: V, tol: real) returns (feasible: bool)
    requires NoNullSlots(graph)
    ensures feasible <==> Feasible(graph, x, tol)
  {
    for i := 0 to |graph|
      invariant forall k :: 0 <= k < i ==> MaxAbs(graph[k].value.unwhitenedError(x)) <= tol
    {
      var error := graph[i].value.unwhitenedError(x);
      if MaxAbs(error) > tol {
        return false;
      }
    }
    return true;
  }

  /**
   * Feasibility entry by entry: every entry of every factor's error is
   * within tol, and a graph with no factors is feasible at any tolerance.
   */
  lemma FeasibleEntrywise<V, J>(graph: Graph<V, J>, x: V, tol: real)
    requires NoNullSlots(graph)
    ensures |graph| == 0 ==> Feasible(graph, x, tol)
    ensures |graph| > 0 ==> (Feasible(graph, x, tol) <==> (tol >= 0.0 &&
      forall i, k :: 0 <= i < |graph| && 0 <= k < |graph[i].value.unwhitenedError(x)| ==>
        Abs(graph[i].value.unwhitenedError(x)[k]) <= tol))
  {
    if |graph| > 0 {
      MaxAbsWithin(graph[0].value.unwhitenedError(x), tol);
      forall i | 0 <= i < |graph| {
        MaxAbsWithin(graph[i].value.unwhitenedError(x), tol);
      }
    }
  }

  /** A graph feasible at one tolerance is feasible at every larger one. */
  lemma FeasibleMonotone<V, J>(graph: Graph<V, J>, x: V, tol1: real, tol2: real)
    requires NoNullSlots(graph) && tol1 <= tol2
    ensures Feasible(graph, x, tol1) ==> Feasible(graph, x, tol2)
  {
  }

  // ---------------------------------------------------------------------
  // error and cost

  /** The sum of term over the non-null slots, first to last. */
  function SumOver<V, J>(graph: Graph<V, J>, term: Constraint<V, J> -> real): real
    decreases |graph|
  {
    if |graph| == 0 then 0.0
    else SumOver(graph[..|graph| - 1], term) + (if graph[|graph| - 1].Some? then term(graph[|graph| - 1].value) else 0.0)
  }

  /** The sum over two graphs side by side is the sum of their sums. */
  lemma {:induction false} SumOverAppend<V, J>(a: Graph<V, J>, b: Graph<V, J>, term: Constraint<V, J> -> real)
    ensures SumOver(a + b, term) == SumOver(a, term) + SumOver(b, term)
    decreases |b|
  {
    if |b| == 0 {
      assert a + b == a;
    } else {
      var n := |b| - 1;
      assert (a + b)[..|a + b| - 1] == a + b[..n];
      SumOverAppend(a, b[..n], term);
    }
  }

  /** Non-negative terms have a non-negative sum. */
  lemma {:induction false} SumOverNonNegative<V, J>(graph: Graph<V, J>, term: Constraint<V, J> -> real)
    requires forall i :: 0 <= i < |graph| && graph[i].Some? ==> term(graph[i].value) >= 0.0
    ensures SumOver(graph, term) >= 0.0
    decreases |graph|
  {
    if |graph| > 0 {
      var init := graph[..|graph| - 1];
      assert forall i :: 0 <= i < |init| ==> init[i] == graph[i];
      SumOverNonNegative(init, term);
    }
  }

  /** A graph of null slots only sums to zero. */
  lemma {:induction false} SumOverNulls<V, J>(graph: Graph<V, J>, term: Constraint<V, J> -> real)
    requires forall i :: 0 <= i < |graph| ==> graph[i].None?
    ensures SumOver(graph, term) == 0.0
    decreases |graph|
  {
    if |graph| > 0 {
      var init := graph[..|graph| - 1];
      assert forall i :: 0 <= i < |init| ==> init[i] == graph[i];
      SumOverNulls(init, term);
    }
  }

  /** The error term of one factor at x. */
  function ErrorAt<V, J>(x: V): Constraint<V, J> -> real {
    (c: Constraint<V, J>) => c.error(x)
  }

  /** The cost term of one factor at x: the sum of its unwhitened error's entries. */
  function CostAt<V, J>(x: V): Constraint<V, J> -> real {
    (c: Constraint<V, J>) => SumOf(c.unwhitenedError(x))
  }

  /** error(x): the factors' errors added up, skipping null slots. */
  method Error<V, J>(graph: Graph<V, J>, x: V) returns (totalError: real)
    ensures totalError == SumOver(graph, ErrorAt(x))
  {
    totalError := 0.0;
    for i := 0 to |graph|
      invariant totalError == SumOver(graph[..i], ErrorAt(x))
    {
      assert graph[..i + 1][..i] == graph[..i];
      if graph[i].Some? {
        totalError := totalError + graph[i].value.error(x);
      }
    }
    assert graph[..|graph|] == graph;
  }

  /** cost(x): the entries of the factors' unwhitened errors added up, skipping null slots. */
  method Cost<V, J>(graph: Graph<V, J>, x: V) returns (totalCost: real)
    ensures totalCost == SumOver(graph, CostAt(x))
  {
    totalCost := 0.0;
    for i := 0 to |graph|
      invariant totalCost == SumOver(graph[..i], CostAt(x))
    {
      assert graph[..i + 1][..i] == graph[..i];
      if graph[i].Some? {
        var e := Sum(graph[i].value.unwhitenedError(x));
        totalCost := totalCost + e;
      }
    }
    assert graph[..|graph|] == graph;
  }
}
