/**
 * The recursive optimizer of NonlinearOptimizer-inl.h: the convergence
 * test, Gauss-Newton iteration, and Levenberg-Marquardt with its
 * try_lambda retry. Each optimizer is an immutable value; the graph's
 * error, the linear solve and the exponential map are code outside this
 * model and enter as the functions of a Problem. try_lambda has no bound
 * on its retries, so it takes a fuel argument.
 */
module NonlinearOptimizers {
  import opened Wrappers

  /** What the optimizer asks of the graph, the solver and the configuration type. */
  datatype Problem<!C> = Problem(
    /** graph->error(config). */
    error: C -> real,
    /** expmap(config, solution of the linearized system): one Gauss-Newton update. */
    gaussNewtonStep: C -> C,
    /** expmap(config, solution of the linearization damped with priors of sigma 1/sqrt(lambda)). */
    dampedStep: (C, real) -> C,
    /** The lambda the constructor uses when it is not given one. */
    defaultLambda: real)

  /** A NonlinearOptimizer: its configuration, the error there, and lambda. */
  datatype Optimizer<C> = Optimizer(config: C, error: real, lambda: real)

  /** The constructor: the error is the graph's error at the configuration. */
  function Make<C>(P: Problem<C>, config: C, lambda: real): (o: Optimizer<C>)
    ensures o.config == config && o.error == P.error(config) && o.lambda == lambda
  {
    Optimizer(config, P.error(config), lambda)
  }

  /** An optimizer whose error is the graph's error at its configuration. */
  predicate Consistent<C>(P: Problem<C>, o: Optimizer<C>) {
    o.error == P.error(o.config)
  }

  // ---------------------------------------------------------------------
  // Convergence

  /**
   * check_convergence: converged when the relative decrease
   * (current - newError) / current is below relTol or the absolute decrease is
   * below absTol. For current = 0 the division follows IEEE arithmetic: a
   * negative decrease gives -infinity (below any threshold), a positive one
   * +infinity and zero over zero NaN (neither below any threshold).
   */
  function CheckConvergence(relTol: real, absTol: real, current: real, newError: real): (converged: bool)
    ensures current != 0.0 ==> (converged <==> (current - newError) / current < relTol || current - newError < absTol)
    ensures current == 0.0 ==> (converged <==> newError > 0.0 || current - newError < absTol)
  {
    var absoluteDecrease := current - newError;
    var relativeBelow := if current == 0.0 then absoluteDecrease < 0.0 else absoluteDecrease / current < relTol;
    relativeBelow || absoluteDecrease < absTol
  }

  /** Loosening either threshold keeps a converged pair converged. */
  lemma ConvergenceMonotone(relTol: real, absTol: real, relTol': real, absTol': real, current: real, newError: real)
    requires relTol <= relTol' && absTol <= absTol'
    requires CheckConvergence(relTol, absTol, current, newError)
    ensures CheckConvergence(relTol', absTol', current, newError)
  {
  }

  /** For a positive current error, the relative test is a test on the absolute decrease. */
  lemma RelativeTest(relTol: real, current: real, newError: real)
    requires current > 0.0
    ensures (current - newError) / current < relTol <==> current - newError < relTol * current
  {
    var d := current - newError;
    assert d / current * current == d;
    if d / current < relTol {
      assert d == d / current * current < relTol * current;
    } else {
      assert d == d / current * current >= relTol * current;
    }
  }

  /** A step that makes no progress is converged for any positive absolute threshold. */
  lemma NoProgressConverges(relTol: real, absTol: real, current: real)
    requires absTol > 0.0
    ensures CheckConvergence(relTol, absTol, current, current)
  {
  }

  // ---------------------------------------------------------------------
  // Gauss-Newton

  /** iterate(): one Gauss-Newton update, with the constructor's default lambda. */
  function Iterate<C>(P: Problem<C>, o: Optimizer<C>): (next: Optimizer<C>)
    ensures Consistent(P, next) && next.config == P.gaussNewtonStep(o.config) && next.lambda == P.defaultLambda
  {
    Make(P, P.gaussNewtonStep(o.config), P.defaultLambda)
  }

  /** The optimizer after k Gauss-Newton updates. */
  function Iterates<C>(P: Problem<C>, o: Optimizer<C>, k: nat): Optimizer<C>
    decreases k
  {
    if k == 0 then o else Iterates(P, Iterate(P, o), k - 1)
  }

  /** gaussNewton: iterate until the convergence test holds; None when the fuel runs out first. */
  function GaussNewton<C>(P: Problem<C>, o: Optimizer<C>, relTol: real, absTol: real, fuel: nat): (r: Option<Optimizer<C>>)
    ensures r.Some? ==> Consistent(P, r.value)
    decreases fuel
  {
    if fuel == 0 then None
    else
      var next := Iterate(P, o);
      if CheckConvergence(relTol, absTol, o.error, next.error) then Some(next)
      else GaussNewton(P, next, relTol, absTol, fuel - 1)
  }

  /** The k-th update passes the test and no earlier one does. */
  predicate FirstConvergedAt<C>(P: Problem<C>, o: Optimizer<C>, relTol: real, absTol: real, k: nat) {
    k >= 1 &&
    (forall i :: 1 <= i < k ==> !CheckConvergence(relTol, absTol, Iterates(P, o, i - 1).error, Iterates(P, o, i).error)) &&
    CheckConvergence(relTol, absTol, Iterates(P, o, k - 1).error, Iterates(P, o, k).error)
  }

  /** gaussNewton returns exactly the first iterate that passes the convergence test. */
  lemma {:induction false} GaussNewtonFirstConverged<C>(P: Problem<C>, o: Optimizer<C>, relTol: real, absTol: real, k: nat, fuel: nat)
    requires k <= fuel && FirstConvergedAt(P, o, relTol, absTol, k)
    ensures GaussNewton(P, o, relTol, absTol, fuel) == Some(Iterates(P, o, k))
    decreases k
  {
    var next := Iterate(P, o);
    assert Iterates(P, o, 1) == next;
    if k > 1 {
      assert !CheckConvergence(relTol, absTol, Iterates(P, o, 0).error, Iterates(P, o, 1).error);
      forall i | 1 <= i <= k ensures Iterates(P, next, i - 1) == Iterates(P, o, i) {
      }
      forall i | 1 <= i < k - 1
        ensures !CheckConvergence(relTol, absTol, Iterates(P, next, i - 1).error, Iterates(P, next, i).error)
      {
        assert !CheckConvergence(relTol, absTol, Iterates(P, o, i).error, Iterates(P, o, i + 1).error);
      }
      assert Iterates(P, next, k - 2) == Iterates(P, o, k - 1);
      GaussNewtonFirstConverged(P, next, relTol, absTol, k - 1, fuel - 1);
    }
  }

  // ---------------------------------------------------------------------
  // Levenberg-Marquardt

  /** lambda * factor: the damping after a rejected step. */
  function Increased(lambda: real, factor: real): real {
    lambda * factor
  }

  /** lambda / factor: the damping kept with an accepted step. */
  function Decreased(lambda: real, factor: real): real
    requires factor != 0.0
  {
    lambda / factor
  }

  /** The damping after k rejected steps. */
  function Escalated(lambda: real, factor: real, k: nat): real
    decreases k
  {
    if k == 0 then lambda else Escalated(Increased(lambda, factor), factor, k - 1)
  }

  /** x to the power k. */
  function Pow(x: real, k: nat): real
    decreases k
  {
    if k == 0 then 1.0 else x * Pow(x, k - 1)
  }

  /** After k rejections the damping is lambda * factor^k. */
  lemma {:induction false} EscalatedIsPower(lambda: real, factor: real, k: nat)
    ensures Escalated(lambda, factor, k) == lambda * Pow(factor, k)
    decreases k
  {
    if k > 0 {
      EscalatedIsPower(lambda * factor, factor, k - 1);
      assert (lambda * factor) * Pow(factor, k - 1) == lambda * (factor * Pow(factor, k - 1));
    }
  }

  /**
   * try_lambda: take the damped step; keep it, with lambda divided by the
   * factor, when the error does not increase; otherwise retry from the same
   * configuration with lambda multiplied by the factor. None when the fuel
   * runs out.
   */
  function TryLambda<C>(P: Problem<C>, o: Optimizer<C>, factor: real, fuel: nat): (r: Option<Optimizer<C>>)
    requires factor != 0.0
    ensures r.Some? ==> Consistent(P, r.value)
    decreases fuel
  {
    if fuel == 0 then None
    else
      var next := Make(P, P.dampedStep(o.config, o.lambda), Decreased(o.lambda, factor));
      if next.error <= o.error then Some(next)
      else TryLambda(P, Make(P, o.config, Increased(o.lambda, factor)), factor, fuel - 1)
  }

  /** The number of rejected steps before try_lambda accepts one. */
  function Retries<C>(P: Problem<C>, o: Optimizer<C>, factor: real, fuel: nat): nat
    requires factor != 0.0
    decreases fuel
  {
    if fuel == 0 || P.error(P.dampedStep(o.config, o.lambda)) <= o.error then 0
    else 1 + Retries(P, Make(P, o.config, Increased(o.lambda, factor)), factor, fuel - 1)
  }

  /**
   * A step try_lambda returns does not increase the error; it is the damped
   * step at the damping reached after k rejections (lambda * factor^k by
   * EscalatedIsPower), k smaller than the fuel, and the new lambda is that
   * damping divided by the factor.
   */
  lemma {:induction false} TryLambdaResult<C>(P: Problem<C>, o: Optimizer<C>, factor: real, fuel: nat)
    requires factor != 0.0 && Consistent(P, o)
    ensures var r, k := TryLambda(P, o, factor, fuel), Retries(P, o, factor, fuel);
      r.Some? ==> (r.value.error <= o.error && k < fuel &&
        r.value.config == P.dampedStep(o.config, Escalated(o.lambda, factor, k)) &&
        r.value.lambda == Decreased(Escalated(o.lambda, factor, k), factor))
    decreases fuel
  {
    if fuel > 0 && P.error(P.dampedStep(o.config, o.lambda)) > o.error {
      var cautious := Make(P, o.config, Increased(o.lambda, factor));
      TryLambdaResult(P, cautious, factor, fuel - 1);
    }
  }

  /** iterateLM: linearize once and try lambda steps until one descends. */
  function IterateLM<C>(P: Problem<C>, o: Optimizer<C>, lambdaFactor: real, tryFuel: nat): (r: Option<Optimizer<C>>)
    requires lambdaFactor != 0.0
  {
    TryLambda(P, o, lambdaFactor, tryFuel)
  }

  /** A double converted to int: truncation toward zero. */
  function Truncate(x: real): int {
    if x >= 0.0 then x.Floor else -((-x).Floor)
  }

  /**
   * levenbergMarquardt as written: its recursive call passes lambdaFactor
   * where maxIterations goes, and lambdaFactor itself falls back to the
   * declared default. None when the fuel runs out.
   */
  function LevenbergMarquardtAsWritten<C>(P: Problem<C>, o: Optimizer<C>, relTol: real, absTol: real,
    maxIterations: int, lambdaFactor: real, defaultLambdaFactor: real, tryFuel: nat, fuel: nat): (r: Option<Optimizer<C>>)
    requires lambdaFactor != 0.0 && defaultLambdaFactor != 0.0
    decreases fuel
  {
    if fuel == 0 then None
    else
      match IterateLM(P, o, lambdaFactor, tryFuel)
      case None => None
      case Some(next) =>
        if CheckConvergence(relTol, absTol, o.error, next.error) || maxIterations <= 1 then Some(next)
        else LevenbergMarquardtAsWritten(P, next, relTol, absTol, Truncate(lambdaFactor), defaultLambdaFactor,
          defaultLambdaFactor, tryFuel, fuel - 1)
  }

  /**
   * As written, any two iteration limits above 1 give the same run: the
   * limit is replaced by lambdaFactor after the first iteration.
   */
  lemma MaxIterationsIgnored<C>(P: Problem<C>, o: Optimizer<C>, relTol: real, absTol: real,
    m1: int, m2: int, lambdaFactor: real, defaultLambdaFactor: real, tryFuel: nat, fuel: nat)
    requires m1 > 1 && m2 > 1 && lambdaFactor != 0.0 && defaultLambdaFactor != 0.0
    ensures LevenbergMarquardtAsWritten(P, o, relTol, absTol, m1, lambdaFactor, defaultLambdaFactor, tryFuel, fuel)
      == LevenbergMarquardtAsWritten(P, o, relTol, absTol, m2, lambdaFactor, defaultLambdaFactor, tryFuel, fuel)
  {
  }

  /** levenbergMarquardt with the evidently intended recursion: one iteration fewer, same lambdaFactor. */
  function LevenbergMarquardt<C>(P: Problem<C>, o: Optimizer<C>, relTol: real, absTol: real,
    maxIterations: int, lambdaFactor: real, tryFuel: nat): (r: Option<Optimizer<C>>)
    requires lambdaFactor != 0.0
    decreases maxIterations
  {
    match IterateLM(P, o, lambdaFactor, tryFuel)
    case None => None
    case Some(next) =>
      if CheckConvergence(relTol, absTol, o.error, next.error) || maxIterations <= 1 then Some(next)
      else LevenbergMarquardt(P, next, relTol, absTol, maxIterations - 1, lambdaFactor, tryFuel)
  }

  /** The optimizer after k Levenberg-Marquardt iterations, None if some try_lambda runs out of fuel. */
  function LMIterates<C>(P: Problem<C>, o: Optimizer<C>, lambdaFactor: real, tryFuel: nat, k: nat): Option<Optimizer<C>>
    requires lambdaFactor != 0.0
    decreases k
  {
    if k == 0 then Some(o)
    else match IterateLM(P, o, lambdaFactor, tryFuel)
      case None => None
      case Some(next) => LMIterates(P, next, lambdaFactor, tryFuel, k - 1)
  }

  /** No iteration passes the convergence test within the first k iterations. */
  predicate NeverConverges<C>(P: Problem<C>, o: Optimizer<C>, relTol: real, absTol: real, lambdaFactor: real, tryFuel: nat, k: nat)
    requires lambdaFactor != 0.0
    decreases k
  {
    k == 0 ||
    match IterateLM(P, o, lambdaFactor, tryFuel)
    case None => true
    case Some(next) => (!CheckConvergence(relTol, absTol, o.error, next.error) &&
      NeverConverges(P, next, relTol, absTol, lambdaFactor, tryFuel, k - 1))
  }

  /** When nothing converges, the corrected recursion stops after exactly maxIterations iterations. */
  lemma {:induction false} LevenbergMarquardtStopsAtMax<C>(P: Problem<C>, o: Optimizer<C>, relTol: real, absTol: real,
    maxIterations: nat, lambdaFactor: real, tryFuel: nat)
    requires lambdaFactor != 0.0 && maxIterations >= 1
    requires NeverConverges(P, o, relTol, absTol, lambdaFactor, tryFuel, maxIterations)
    ensures LevenbergMarquardt(P, o, relTol, absTol, maxIterations, lambdaFactor, tryFuel)
      == LMIterates(P, o, lambdaFactor, tryFuel, maxIterations)
    decreases maxIterations
  {
    match IterateLM(P, o, lambdaFactor, tryFuel)
    case None =>
    case Some(next) =>
      if maxIterations > 1 {
        LevenbergMarquardtStopsAtMax(P, next, relTol, absTol, maxIterations - 1, lambdaFactor, tryFuel);
      }
  }
}
