/**
 * The factor-graph container of FactorGraphUnordered-inl.h: a list of
 * shared factor pointers, any of which may be null, with slot-by-slot
 * equality, a count of the non-null slots and the union of their keys.
 * The factor type is a parameter; its equality (with the tolerance bound
 * in) and its key list are passed in as functions.
 */
module FactorGraphs {
  import opened Wrappers

  /** Two slots match when both are null, or both hold factors that are equal. */
  predicate SlotsMatch<F>(f1: Option<F>, f2: Option<F>, equals: (F, F) -> bool)
  {
    if f1.None? && f2.None? then true
    else if f1.None? || f2.None? then false
    else equals(f1.value, f2.value)
  }

  /** equals(fg): same number of slots, and every slot matches the one at its position. */
  predicate GraphsEqual<F>(a: seq<Option<F>>, b: seq<Option<F>>, equals: (F, F) -> bool)
  {
    |a| == |b| && forall i :: 0 <= i < |a| ==> SlotsMatch(a[i], b[i], equals)
  }

  /** The number of non-null slots. */
  function CountNonNull<F>(fs: seq<Option<F>>): nat
  {
    if |fs| == 0 then 0 else CountNonNull(fs[..|fs| - 1]) + (if fs[|fs| - 1].Some? then 1 else 0)
  }

  /** The count is at most the number of slots, and equal to it exactly when no slot is null. */
  lemma {:induction false} CountNonNullBound<F>(fs: seq<Option<F>>)
    ensures CountNonNull(fs) <= |fs|
    ensures CountNonNull(fs) == |fs| <==> forall i :: 0 <= i < |fs| ==> fs[i].Some?
  {
    if |fs| > 0 {
      var init := fs[..|fs| - 1];
      CountNonNullBound(init);
      assert forall i :: 0 <= i < |fs| - 1 ==> init[i] == fs[i];
    }
  }

  /** The union of the keys of the non-null factors. */
  function KeyUnion<F>(fs: seq<Option<F>>, keysOf: F -> seq<nat>): (ks: set<nat>)
    ensures forall k :: k in ks <==> exists i :: 0 <= i < |fs| && fs[i].Some? && k in keysOf(fs[i].value)
  {
    if |fs| == 0 then {}
    else
      var init := fs[..|fs| - 1];
      assert forall i :: 0 <= i < |fs| - 1 ==> init[i] == fs[i];
      var last := fs[|fs| - 1];
      KeyUnion(init, keysOf) + (if last.Some? then KeySet(keysOf(last.value)) else {})
  }

  /** The keys of one factor as a set. */
  function KeySet(keys: seq<nat>): (s: set<nat>)
    ensures forall k :: k in s <==> k in keys
  {
    set k | k in keys
  }

  /** With a reflexive factor equality, every graph equals itself. */
  lemma GraphsEqualReflexive<F>(a: seq<Option<F>>, equals: (F, F) -> bool)
    requires forall x: F :: equals(x, x)
    ensures GraphsEqual(a, a, equals)
  {
    assert forall i :: 0 <= i < |a| ==> SlotsMatch(a[i], a[i], equals);
  }

  /** With a symmetric factor equality, graph equality is symmetric. */
  lemma GraphsEqualSymmetric<F>(a: seq<Option<F>>, b: seq<Option<F>>, equals: (F, F) -> bool)
    requires forall x: F, y: F :: equals(x, y) == equals(y, x)
    ensures GraphsEqual(a, b, equals) == GraphsEqual(b, a, equals)
  {
    if |a| == |b| {
      assert forall i :: 0 <= i < |a| ==> SlotsMatch(a[i], b[i], equals) == SlotsMatch(b[i], a[i], equals);
    }
  }

  /** The class FactorGraphUnordered: the slots are a field. */
  class FactorGraph<F> {
    var factors: seq<Option<F>>

    constructor(factors: seq<Option<F>>)
      ensures this.factors == factors
    {
      this.factors := factors;
    }

    /** size(): the number of slots, null ones included. */
    function Size(): nat
      reads this
    {
      |factors|
    }

    /** equals(fg, tol): compare the sizes, then the slots in order, returning at the first mismatch. */
    method Equals(fg: FactorGraph<F>, equals: (F, F) -> bool) returns (same: bool)
      ensures same == GraphsEqual(factors, fg.factors, equals)
    {
      if |factors| != |fg.factors| {
        return false;
      }
      for i := 0 to |factors|
        invariant forall k :: 0 <= k < i ==> SlotsMatch(factors[k], fg.factors[k], equals)
      {
        var f1, f2 := factors[i], fg.factors[i];
        if f1.None? && f2.None? {
          continue;
        }
        if f1.None? || f2.None? {
          return false;
        }
        if !equals(f1.value, f2.value) {
          return false;
        }
      }
      return true;
    }

    /** nrFactors(): a counter raised for every non-null slot. */
    method NrFactors() returns (size: nat)
      ensures size == CountNonNull(factors) && size <= Size()
    {
      size := 0;
      for i := 0 to |factors|
        invariant size == CountNonNull(factors[..i])
      {
        assert factors[..i + 1][..i] == factors[..i];
        if factors[i].Some? {
          size := size + 1;
        }
      }
      assert factors[..|factors|] == factors;
      CountNonNullBound(factors);
    }

    /** keys(): the keys of every non-null factor inserted into one set. */
    method Keys(keysOf: F -> seq<nat>) returns (allKeys: set<nat>)
      ensures allKeys == KeyUnion(factors, keysOf)
    {
      allKeys := {};
      for i := 0 to |factors|
        invariant allKeys == KeyUnion(factors[..i], keysOf)
      {
        assert factors[..i + 1][..i] == factors[..i];
        if factors[i].Some? {
          allKeys := allKeys + KeySet(keysOf(factors[i].value));
        }
      }
      assert factors[..|factors|] == factors;
    }
  }
}
