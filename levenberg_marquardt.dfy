/**
 * LevenbergMarquardtOptimizer: the verbosity translators of its parameters
 * and one iterate(), which raises lambda until a damped step does not
 * increase the error or lambda reaches its upper bound. Linearizing,
 * damping, solving and retracting are code outside this model; together
 * they enter as a trial function from the current values and lambda to the
 * outcome of one damped solve.
 */
module LevenbergMarquardt {
  import opened NonlinearOptimizers

  // ---------------------------------------------------------------------
  // Verbosity

  /** LevenbergMarquardtParams::VerbosityLM. */
  datatype VerbosityLM = SILENT | LAMBDA | TRYLAMBDA | TRYCONFIG | TRYDELTA | DAMPED

  /** The enumerators' integer values, in declaration order. */
  function Code(v: VerbosityLM): (c: int)
    ensures 0 <= c <= 5
  {
    match v
    case SILENT => 0
    case LAMBDA => 1
    case TRYLAMBDA => 2
    case TRYCONFIG => 3
    case TRYDELTA => 4
    case DAMPED => 5
  }

  /** Distinct verbosities have distinct codes. */
  lemma CodeInjective(v: VerbosityLM, w: VerbosityLM)
    ensures Code(v) == Code(w) <==> v == w
  {
  }

  /** One character in upper case: 'a'..'z' map to 'A'..'Z', all else is kept. */
  function UpperChar(c: char): (u: char)
    ensures 'a' <= c <= 'z' ==> 'A' <= u <= 'Z' && u as int - 'A' as int == c as int - 'a' as int
    ensures !('a' <= c <= 'z') ==> u == c
  {
    if 'a' <= c <= 'z' then (c as int - 'a' as int + 'A' as int) as char else c
  }

  /** boost::algorithm::to_upper on a string. */
  function ToUpper(s: string): (u: string)
    ensures |u| == |s| && forall i :: 0 <= i < |s| ==> u[i] == UpperChar(s[i])
  {
    seq(|s|, i requires 0 <= i < |s| => UpperChar(s[i]))
  }

  /** Upper-casing twice changes nothing more. */
  lemma ToUpperIdempotent(s: string)
    ensures ToUpper(ToUpper(s)) == ToUpper(s)
  {
  }

  /** verbosityLMTranslator(string): the upper-cased name, SILENT for any unknown string. */
  function VerbosityFromString(src: string): (v: VerbosityLM) {
    var s := ToUpper(src);
    if s == "SILENT" then SILENT
    else if s == "LAMBDA" then LAMBDA
    else if s == "TRYLAMBDA" then TRYLAMBDA
    else if s == "TRYCONFIG" then TRYCONFIG
    else if s == "TRYDELTA" then TRYDELTA
    else if s == "DAMPED" then DAMPED
    else SILENT
  }

  /** The message for a value outside the enumeration. */
  const Undefined := "UNDEFINED"

  /** verbosityLMTranslator(VerbosityLM): the name of the value, "UNDEFINED" for any other integer. */
  function VerbosityToString(value: int): (s: string)
    ensures (value < 0 || value > 5) <==> s == Undefined
  {
    if value == 0 then "SILENT"
    else if value == 1 then "LAMBDA"
    else if value == 2 then "TRYLAMBDA"
    else if value == 3 then "TRYCONFIG"
    else if value == 4 then "TRYDELTA"
    else if value == 5 then "DAMPED"
    else Undefined
  }

  /** Parsing the printed name of a verbosity gives it back. */
  lemma ParsePrint(v: VerbosityLM)
    ensures VerbosityFromString(VerbosityToString(Code(v))) == v
  {
    var s := VerbosityToString(Code(v));
    assert ToUpper(s) == s by {
      forall i | 0 <= i < |s| ensures UpperChar(s[i]) == s[i] {
      }
    }
  }

  /** Parsing ignores case. */
  lemma ParseIgnoresCase(s: string)
    ensures VerbosityFromString(ToUpper(s)) == VerbosityFromString(s)
  {
    ToUpperIdempotent(s);
  }

  /** A string whose upper-cased form names no verbosity parses as SILENT. */
  lemma ParseUnknown(s: string)
    requires ToUpper(s) !in {"SILENT", "LAMBDA", "TRYLAMBDA", "TRYCONFIG", "TRYDELTA", "DAMPED"}
    ensures VerbosityFromString(s) == SILENT
  {
  }

  /** Lower-case names are accepted: "trylambda" parses as TRYLAMBDA. */
  lemma ParseLowerCase()
    ensures VerbosityFromString("trylambda") == TRYLAMBDA
  {
    assert ToUpper("trylambda") == "TRYLAMBDA";
  }

  // ---------------------------------------------------------------------
  // The lambda loop of iterate()

  /** The outcome of solving the damped system and retracting. */
  datatype Outcome<V> =
    | Indeterminant
    | Solved(newValues: V, newError: real)

  /** Where the lambda loop stops: the values, error and lambda it leaves, the trials it made, and whether a step was kept. */
  datatype LoopState<V> = LoopState(values: V, error: real, lambda: real, trials: nat, accepted: bool)

  /** A trial is kept when it solved and its error is not above the current error. */
  predicate Accepts<V>(o: Outcome<V>, error: real) {
    o.Solved? && o.newError <= error
  }

  /**
   * A bound on the trials still possible: each rejection adds at least
   * lambda0 * (factor - 1) to lambda, and none follows once lambda reaches
   * the upper bound.
   */
  function Steps(lambda: real, lambda0: real, factor: real, upper: real): nat
    requires 0.0 < lambda0 <= lambda && factor > 1.0
  {
    if lambda >= upper then 0
    else
      StepQuotientNonNegative(upper - lambda, lambda0 * (factor - 1.0));
      ((upper - lambda) / (lambda0 * (factor - 1.0))).Floor + 1
  }

  /** A positive amount over a positive step has a non-negative floor. */
  lemma StepQuotientNonNegative(gap: real, step: real)
    requires gap > 0.0 && step > 0.0
    ensures (gap / step).Floor >= 0
  {
  }

  /** Raising lambda by the factor strictly lowers the bound. */
  lemma StepsDecrease(lambda: real, lambda0: real, factor: real, upper: real)
    requires 0.0 < lambda0 <= lambda && factor > 1.0 && lambda < upper
    ensures lambda0 <= Increased(lambda, factor)
    ensures Steps(Increased(lambda, factor), lambda0, factor, upper) < Steps(lambda, lambda0, factor, upper)
  {
    var step := lambda0 * (factor - 1.0);
    var next := Increased(lambda, factor);
    assert next == lambda * factor;
    ScaleMonotone(lambda0, lambda, factor - 1.0);
    assert next - lambda >= step;
    if next < upper {
      QuotientStep(upper - next, upper - lambda, step);
    }
  }

  /** a <= b and c > 0 give a * c <= b * c. */
  lemma ScaleMonotone(a: real, b: real, c: real)
    requires a <= b && c > 0.0
    ensures a * c <= b * c
  {
  }

  /** Taking away at least one step lowers the floor of the quotient by at least one. */
  lemma QuotientStep(smaller: real, larger: real, step: real)
    requires step > 0.0 && smaller <= larger - step
    ensures (smaller / step).Floor < (larger / step).Floor
  {
    QuotientDifference(larger, smaller, step);
    QuotientAtLeastOne(larger - smaller, step);
  }

  /** a / s - b / s = (a - b) / s. */
  lemma QuotientDifference(a: real, b: real, s: real)
    requires s > 0.0
    ensures a / s - b / s == (a - b) / s
  {
  }

  /** A difference of at least s is at least one step of s. */
  lemma QuotientAtLeastOne(d: real, s: real)
    requires s > 0.0 && d >= s
    ensures d / s >= 1.0
  {
  }

  /**
   * The loop of iterate() as a function: try the damped step at lambda;
   * keep it and divide lambda by the factor when accepted; otherwise stop
   * at the upper bound or multiply lambda by the factor and try again.
   */
  function TrialLoop<V>(trial: (V, real) -> Outcome<V>, values: V, error: real, lambda: real,
    lambda0: real, factor: real, upper: real): (r: LoopState<V>)
    requires 0.0 < lambda0 <= lambda && factor > 1.0
    ensures r.trials >= 1
    decreases Steps(lambda, lambda0, factor, upper)
  {
    var o := trial(values, lambda);
    if Accepts(o, error) then LoopState(o.newValues, o.newError, Decreased(lambda, factor), 1, true)
    else if lambda >= upper then LoopState(values, error, lambda, 1, false)
    else
      StepsDecrease(lambda, lambda0, factor, upper);
      var r := TrialLoop(trial, values, error, Increased(lambda, factor), lambda0, factor, upper);
      r.(trials := r.trials + 1)
  }

  /**
   * What the loop leaves. With tried = lambda * factor^(trials - 1) the
   * last lambda tried: every earlier lambda was below the bound and
   * rejected; an accepted step is the trial at tried, no worse than the
   * current error, and lambda becomes tried / factor; otherwise values and
   * error are unchanged and lambda stays at tried, which reached the bound.
   */
  lemma {:induction false} TrialLoopResult<V>(trial: (V, real) -> Outcome<V>, values: V, error: real, lambda: real,
    lambda0: real, factor: real, upper: real)
    requires 0.0 < lambda0 <= lambda && factor > 1.0
    ensures var r := TrialLoop(trial, values, error, lambda, lambda0, factor, upper);
      var tried := Escalated(lambda, factor, r.trials - 1);
      (forall k: nat :: k < r.trials - 1 ==>
        Escalated(lambda, factor, k) < upper && !Accepts(trial(values, Escalated(lambda, factor, k)), error)) &&
      (r.accepted ==> (trial(values, tried) == Solved(r.values, r.error) && r.error <= error &&
        r.lambda == Decreased(tried, factor))) &&
      (!r.accepted ==> (r.values == values && r.error == error && r.lambda == tried && tried >= upper &&
        !Accepts(trial(values, tried), error)))
    decreases Steps(lambda, lambda0, factor, upper)
  {
    var o := trial(values, lambda);
    if !Accepts(o, error) && lambda < upper {
      StepsDecrease(lambda, lambda0, factor, upper);
      var next := Increased(lambda, factor);
      TrialLoopResult(trial, values, error, next, lambda0, factor, upper);
      var r := TrialLoop(trial, values, error, next, lambda0, factor, upper);
      forall k: nat | k < r.trials
        ensures Escalated(lambda, factor, k + 1) == Escalated(next, factor, k)
      {
      }
      forall k: nat | k < r.trials
        ensures Escalated(lambda, factor, k) < upper && !Accepts(trial(values, Escalated(lambda, factor, k)), error)
      {
        if k > 0 {
          assert Escalated(lambda, factor, k) == Escalated(next, factor, k - 1);
        }
      }
    }
  }

  /** The loop never increases the error, and lambda stays positive. */
  lemma TrialLoopDescends<V>(trial: (V, real) -> Outcome<V>, values: V, error: real, lambda: real,
    lambda0: real, factor: real, upper: real)
    requires 0.0 < lambda0 <= lambda && factor > 1.0
    ensures var r := TrialLoop(trial, values, error, lambda, lambda0, factor, upper);
      r.error <= error && r.lambda > 0.0
  {
    TrialLoopResult(trial, values, error, lambda, lambda0, factor, upper);
    var r := TrialLoop(trial, values, error, lambda, lambda0, factor, upper);
    EscalatedPositive(lambda, factor, r.trials - 1);
  }

  /** Raising a positive lambda by a factor above 1 keeps it at least as large. */
  lemma {:induction false} EscalatedPositive(lambda: real, factor: real, k: nat)
    requires lambda > 0.0 && factor > 1.0
    ensures Escalated(lambda, factor, k) >= lambda
    ensures Decreased(Escalated(lambda, factor, k), factor) > 0.0
    decreases k
  {
    if k > 0 {
      assert Increased(lambda, factor) > lambda;
      EscalatedPositive(Increased(lambda, factor), factor, k - 1);
    }
  }

  /** The optimizer state that iterate() updates, with the parameters it reads. */
  class LevenbergMarquardtOptimizer<V> {
    var values: V
    var error: real
    var lambda: real
    var iterations: nat
    var totalNumberInnerIterations: nat
    const lambdaFactor: real
    const lambdaUpperBound: real
    /** Solve the damped linearization at these values with this lambda, then retract and evaluate. */
    const trial: (V, real) -> Outcome<V>

    /** lambda is positive and the factor raises it. */
    predicate Valid()
      reads this
    {
      lambda > 0.0 && lambdaFactor > 1.0
    }

    constructor(values0: V, error0: real, lambdaInitial: real, lambdaFactor: real, lambdaUpperBound: real,
      trial: (V, real) -> Outcome<V>)
      requires lambdaInitial > 0.0 && lambdaFactor > 1.0
      ensures Valid()
      ensures values == values0 && error == error0 && lambda == lambdaInitial
      ensures iterations == 0 && totalNumberInnerIterations == 0
      ensures this.lambdaFactor == lambdaFactor && this.lambdaUpperBound == lambdaUpperBound && this.trial == trial
    {
      values, error, lambda := values0, error0, lambdaInitial;
      iterations, totalNumberInnerIterations := 0, 0;
      this.lambdaFactor, this.lambdaUpperBound, this.trial := lambdaFactor, lambdaUpperBound, trial;
    }

    /**
     * iterate(): the lambda loop, counting each trial, then one more
     * iteration. The state it leaves is TrialLoop's from the old state.
     */
    method Iterate()
      requires Valid()
      modifies this
      ensures Valid()
      ensures var r := TrialLoop(trial, old(values), old(error), old(lambda), old(lambda), lambdaFactor, lambdaUpperBound);
        values == r.values && error == r.error && lambda == r.lambda &&
        totalNumberInnerIterations == old(totalNumberInnerIterations) + r.trials
      ensures error <= old(error)
      ensures iterations == old(iterations) + 1
    {
      ghost var lambda0 := lambda;
      ghost var whole := TrialLoop(trial, values, error, lambda, lambda0, lambdaFactor, lambdaUpperBound);
      TrialLoopDescends(trial, values, error, lambda, lambda0, lambdaFactor, lambdaUpperBound);
      ghost var inner0 := totalNumberInnerIterations;
      while true
        invariant lambda0 <= lambda && values == old(values) && error == old(error) && iterations == old(iterations)
        invariant var r := TrialLoop(trial, values, error, lambda, lambda0, lambdaFactor, lambdaUpperBound);
          whole.values == r.values && whole.error == r.error && whole.lambda == r.lambda &&
          whole.trials == totalNumberInnerIterations - inner0 + r.trials
        decreases Steps(lambda, lambda0, lambdaFactor, lambdaUpperBound)
      {
        totalNumberInnerIterations := totalNumberInnerIterations + 1;
        var outcome := trial(values, lambda);
        if outcome.Solved? && outcome.newError <= error {
          assert TrialLoop(trial, values, error, lambda, lambda0, lambdaFactor, lambdaUpperBound)
            == LoopState(outcome.newValues, outcome.newError, Decreased(lambda, lambdaFactor), 1, true);
          values, error := outcome.newValues, outcome.newError;
          lambda := Decreased(lambda, lambdaFactor);
          break;
        } else if lambda >= lambdaUpperBound {
          assert TrialLoop(trial, values, error, lambda, lambda0, lambdaFactor, lambdaUpperBound)
            == LoopState(values, error, lambda, 1, false);
          break;
        } else {
          StepsDecrease(lambda, lambda0, lambdaFactor, lambdaUpperBound);
          lambda := Increased(lambda, lambdaFactor);
        }
      }
      iterations := iterations + 1;
    }
  }
}
