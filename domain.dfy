/**
 * Domain: the unary constraint of a discrete CSP that restricts one
 * variable, with a key and a cardinality, to a set of allowed values. The
 * set is an ordered std::set, kept here as a strictly increasing sequence
 * so that "the first value" means the smallest. The solver's per-variable
 * domains are a vector indexed by key, here an array of Domain objects.
 */
module Domains {
  import opened Wrappers

  /** The values are strictly increasing: an ordered set. */
  predicate Increasing(vs: seq<nat>) {
    forall i, k :: 0 <= i < k < |vs| ==> vs[i] < vs[k]
  }

  const WrongDomain := "Domain check on wrong domain"
  const Unsatisfiable := "Unsatisfiable"
  const PartiallyApplyUnsatisfiable := "Domain::partiallyApply: unsatisfiable"

  class Domain {
    var key: nat
    var cardinality: nat
    var values: seq<nat>

    ghost predicate Valid()
      reads this
    {
      Increasing(values)
    }

    /** A domain on key with the given allowed values. */
    constructor(key: nat, cardinality: nat, values: seq<nat>)
      requires Increasing(values)
      ensures Valid() && this.key == key && this.cardinality == cardinality && this.values == values
    {
      this.key, this.cardinality, this.values := key, cardinality, values;
    }

    /** contains(value): the value is allowed. */
    predicate Contains(value: nat)
      reads this
    {
      value in values
    }

    /**
     * operator()(values): 1 when the assignment's value for the key is
     * allowed, 0 when it is not; values.at throws out_of_range when the key
     * is unassigned.
     */
    function Evaluate(assignment: map<nat, nat>): (r: Result<real>)
      reads this
      ensures key !in assignment <==> r == Err(OutOfRange)
      ensures key in assignment ==> r.Ok? && (r.value == 1.0 <==> Contains(assignment[key]))
      ensures r.Ok? ==> r.value == 0.0 || r.value == 1.0
    {
      if key !in assignment then Err(OutOfRange)
      else Ok(if Contains(assignment[key]) then 1.0 else 0.0)
    }

    /**
     * toDecisionTreeFactor(): a table over the key's cardinality whose
     * entry for each value is what operator() gives that value.
     */
    method ToDecisionTreeFactor() returns (keys: seq<(nat, nat)>, table: seq<real>)
      ensures keys == [(key, cardinality)]
      ensures |table| == cardinality
      ensures forall v: nat :: v < cardinality ==> Evaluate(Assign(key, v)) == Ok(table[v])
    {
      keys := [(key, cardinality)];
      table := [];
      for i1 := 0 to cardinality
        invariant |table| == i1
        invariant forall v: nat :: v < i1 ==> Evaluate(Assign(key, v)) == Ok(table[v])
      {
        table := table + [if Contains(i1) then 1.0 else 0.0];
      }
    }

    /**
     * ensureArcConsistency(j, domains): j must be this domain's key; every
     * value allowed here must be allowed by domains[j], which then becomes
     * a copy of this domain. A domain may only narrow.
     */
    method EnsureArcConsistency(j: nat, domains: array<Domain>) returns (r: Result<bool>)
      requires j == key ==> j < domains.Length
      modifies if j < domains.Length then {domains[j]} else {}
      ensures j != old(key) ==> r == Err(InvalidArgument(WrongDomain)) && unchanged(domains[..])
      ensures j == old(key) && (exists i :: 0 <= i < |old(values)| && old(values)[i] !in old(domains[j].values)) ==>
        r == Err(RuntimeError(Unsatisfiable)) && unchanged(domains[..])
      ensures j == old(key) && (forall i :: 0 <= i < |old(values)| ==> old(values)[i] in old(domains[j].values)) ==>
        r == Ok(true) && domains[j].key == old(key) && domains[j].cardinality == old(cardinality) &&
        domains[j].values == old(values) &&
        (forall v :: v in domains[j].values ==> v in old(domains[j].values))
      ensures forall k :: 0 <= k < domains.Length && (j < domains.Length ==> old(domains[k]) != old(domains[j])) ==>
        unchanged(domains[k])
    {
      if j != key {
        return Err(InvalidArgument(WrongDomain));
      }
      var d := domains[j];
      for i := 0 to |values|
        invariant forall i' :: 0 <= i' < i ==> values[i'] in d.values
      {
        if !d.Contains(values[i]) {
          return Err(RuntimeError(Unsatisfiable));
        }
      }
      d.key, d.cardinality, d.values := key, cardinality, values;
      return Ok(true);
    }

    /**
     * checkAllDiff(keys, domains): this domain becomes the singleton of the
     * first value no other listed key's domain allows, and the call returns
     * true; if every value is taken, nothing changes and it returns false.
     */
    method CheckAllDiff(keys: seq<nat>, domains: array<Domain>) returns (changed: bool)
      requires forall i :: 0 <= i < |keys| ==> keys[i] < domains.Length
      modifies this
      ensures key == old(key) && cardinality == old(cardinality)
      ensures old(Valid()) ==> Valid()
      ensures var first := FirstFree(old(values), old(Taken(keys, domains, key)));
        changed == first.Some? &&
        (changed ==> values == [old(values)[first.value]]) &&
        (!changed ==> values == old(values))
    {
      ghost var taken := Taken(keys, domains, key);
      var j := key;
      var vs := values;
      for i := 0 to |vs|
        invariant unchanged(this) && vs == values && j == key
        invariant FirstFree(vs[..i], taken) == None
      {
        var value := vs[i];
        var found := false;
        for n := 0 to |keys|
          invariant unchanged(this)
          invariant found <==> exists n' :: 0 <= n' < n && keys[n'] != j && value in domains[keys[n']].values
        {
          if keys[n] != j && domains[keys[n]].Contains(value) {
            found := true;
          }
        }
        FirstFreeSnoc(vs, i, taken);
        if !found {
          assert value !in taken;
          values := [value];
          return true;
        }
      }
      assert vs[..|vs|] == vs;
      return false;
    }

    /**
     * partiallyApply(values): unsatisfiable when the key is assigned a
     * value this domain does not allow; otherwise a copy of this domain.
     */
    method PartiallyApply(assignment: map<nat, nat>) returns (r: Result<Domain>)
      ensures key in assignment && !Contains(assignment[key]) <==> r == Err(RuntimeError(PartiallyApplyUnsatisfiable))
      ensures r.Ok? ==> (fresh(r.value) && r.value.key == key && r.value.cardinality == cardinality &&
        r.value.values == values)
    {
      if key in assignment && !Contains(assignment[key]) {
        return Err(RuntimeError(PartiallyApplyUnsatisfiable));
      }
      var copy := new Domain.Copy(this);
      return Ok(copy);
    }

    /**
     * partiallyApply(domains): unsatisfiable when domains[key] is a
     * singleton whose value this domain does not allow; otherwise a copy
     * of domains[key].
     */
    method PartiallyApplyDomains(domains: array<Domain>) returns (r: Result<Domain>)
      requires key < domains.Length
      ensures var dk := domains[key];
        |dk.values| == 1 && !Contains(dk.values[0]) <==> r == Err(RuntimeError(PartiallyApplyUnsatisfiable))
      ensures r.Ok? ==> (fresh(r.value) && r.value.key == domains[key].key &&
        r.value.cardinality == domains[key].cardinality && r.value.values == domains[key].values)
    {
      var dk := domains[key];
      if |dk.values| == 1 && !Contains(dk.values[0]) {
        return Err(RuntimeError(PartiallyApplyUnsatisfiable));
      }
      var copy := new Domain.Copy(dk);
      return Ok(copy);
    }

    /** The copy constructor. */
    constructor Copy(other: Domain)
      ensures key == other.key && cardinality == other.cardinality && values == other.values
    {
      key, cardinality, values := other.key, other.cardinality, other.values;
    }
  }

  /** The assignment of value v to key alone. */
  function Assign(key: nat, v: nat): map<nat, nat> {
    map[key := v]
  }

  /** The values the domains of the listed keys other than j allow. */
  function Taken(keys: seq<nat>, domains: array<Domain>, j: nat): (taken: set<nat>)
    requires forall i :: 0 <= i < |keys| ==> keys[i] < domains.Length
    reads domains, domains[..]
    ensures forall v :: v in taken <==>
      exists n :: 0 <= n < |keys| && keys[n] != j && v in domains[keys[n]].values
  {
    set n, v | 0 <= n < |keys| && keys[n] != j && v in domains[keys[n]].values :: v
  }

  /** The position of the first value not taken, if any. */
  function FirstFree(vs: seq<nat>, taken: set<nat>): (r: Option<nat>)
    ensures r.Some? ==> (r.value < |vs| && vs[r.value] !in taken &&
      forall i :: 0 <= i < r.value ==> vs[i] in taken)
    ensures r.None? <==> forall i :: 0 <= i < |vs| ==> vs[i] in taken
  {
    if |vs| == 0 then None
    else if vs[0] !in taken then Some(0)
    else
      var rest := FirstFree(vs[1..], taken);
      if rest.Some? then Some(rest.value + 1) else None
  }

  /** The first free position of a prefix extended by a taken value does not move. */
  lemma {:induction false} FirstFreeSnoc(vs: seq<nat>, i: nat, taken: set<nat>)
    requires i < |vs| && FirstFree(vs[..i], taken) == None
    ensures vs[i] in taken ==> FirstFree(vs[..i + 1], taken) == None
    ensures vs[i] !in taken ==> FirstFree(vs, taken) == Some(i)
  {
    assert forall k :: 0 <= k < i ==> vs[..i][k] == vs[k];
    assert forall k :: 0 <= k <= i ==> vs[..i + 1][k] == vs[k];
    var r := FirstFree(vs, taken);
    if vs[i] !in taken {
      assert r.Some? && r.value <= i;
    }
  }

  /**
   * A narrowed domain is a singleton of one of its old values, which no
   * other listed domain allows; an ordered set stays ordered.
   */
  lemma FirstFreeNarrows(vs: seq<nat>, taken: set<nat>)
    requires Increasing(vs)
    ensures var first := FirstFree(vs, taken);
      first.Some? ==> Increasing([vs[first.value]]) && vs[first.value] in vs && vs[first.value] !in taken
  {
  }
}
