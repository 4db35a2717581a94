/**
 * The symbolic factor graph of SymbolicFactorGraph.h: a list of factors,
 * each a list of keys, that push_factor and the converting constructor
 * append to, and that elimination consumes in place.
 *
 * SymbolicFactorGraph.cpp, which holds the bodies of eliminateOne and
 * eliminate, is not part of this model: the two are modelled on the
 * contract their declarations state (remove the factors on the key, add one
 * factor on the separator, return a conditional on the key given the
 * separator), with the separator listed in order of first appearance.
 */
module SymbolicFactorGraphs {
  import opened Conditionals

  /** A symbolic factor: the keys it involves. */
  datatype SymbolicFactor = SymbolicFactor(keys: seq<Symbol>)

  /** Does the factor involve the key? */
  predicate Involves(f: SymbolicFactor, key: Symbol)
  {
    key in f.keys
  }

  /** The union of the keys of the factors. */
  function KeysOf(fs: seq<SymbolicFactor>): (ks: set<Symbol>)
    ensures forall k :: k in ks <==> exists i :: 0 <= i < |fs| && k in fs[i].keys
  {
    if |fs| == 0 then {}
    else
      var last := fs[|fs| - 1].keys;
      var ks := KeysOf(fs[..|fs| - 1]) + set k | k in last;
      assert forall i :: 0 <= i < |fs| - 1 ==> fs[..|fs| - 1][i] == fs[i];
      ks
  }

  /** The factors that do not involve the key, in their order. */
  function Remaining(fs: seq<SymbolicFactor>, key: Symbol): (rest: seq<SymbolicFactor>)
    ensures forall i :: 0 <= i < |rest| ==> !Involves(rest[i], key)
    ensures forall f :: f in rest <==> f in fs && !Involves(f, key)
  {
    if |fs| == 0 then []
    else if Involves(fs[0], key) then Remaining(fs[1..], key)
    else [fs[0]] + Remaining(fs[1..], key)
  }

  /** The keys of the factors that involve the key, factor by factor. */
  function InvolvedKeys(fs: seq<SymbolicFactor>, key: Symbol): (ks: seq<Symbol>)
    ensures forall k :: k in ks <==> exists i :: 0 <= i < |fs| && Involves(fs[i], key) && k in fs[i].keys
  {
    if |fs| == 0 then []
    else
      var ks := InvolvedKeys(fs[1..], key);
      assert forall i :: 1 <= i < |fs| ==> fs[1..][i - 1] == fs[i];
      if Involves(fs[0], key) then fs[0].keys + ks else ks
  }

  /** The keys of s other than the key, each once, in order of first appearance. */
  function Separator(s: seq<Symbol>, key: Symbol): (sep: seq<Symbol>)
    ensures forall k :: k in sep <==> k in s && k != key
    ensures forall i, j :: 0 <= i < j < |sep| ==> sep[i] != sep[j]
  {
    if |s| == 0 then []
    else
      var sep := Separator(s[..|s| - 1], key);
      var k := s[|s| - 1];
      assert forall x :: x in s <==> x in s[..|s| - 1] || x == k;
      if k == key || k in sep then sep else sep + [k]
  }

  /** What eliminateOne(key) leaves and returns: the remaining factors plus one on the separator, and the conditional. */
  function EliminatedOne(fs: seq<SymbolicFactor>, key: Symbol): (out: (seq<SymbolicFactor>, Conditional))
  {
    var sep := Separator(InvolvedKeys(fs, key), key);
    (Remaining(fs, key) + [SymbolicFactor(sep)], Symbolic(key, sep))
  }

  /** Eliminating a key removes exactly that key from the graph. */
  lemma EliminatedOneKeys(fs: seq<SymbolicFactor>, key: Symbol)
    ensures KeysOf(EliminatedOne(fs, key).0) == KeysOf(fs) - {key}
    ensures forall f :: f in EliminatedOne(fs, key).0 ==> !Involves(f, key)
  {
    var out := EliminatedOne(fs, key).0;
    var rest := Remaining(fs, key);
    var sep := Separator(InvolvedKeys(fs, key), key);
    forall k | k in KeysOf(out)
      ensures k in KeysOf(fs) - {key}
    {
      var i :| 0 <= i < |out| && k in out[i].keys;
      if i < |rest| {
        assert rest[i] in rest;
      }
    }
    forall k | k in KeysOf(fs) - {key}
      ensures k in KeysOf(out)
    {
      var i :| 0 <= i < |fs| && k in fs[i].keys;
      if Involves(fs[i], key) {
        assert k in sep;
        assert out[|out| - 1] == SymbolicFactor(sep);
      } else {
        assert fs[i] in rest;
        var j :| 0 <= j < |rest| && rest[j] == fs[i];
        assert out[j] == fs[i];
      }
    }
  }

  /** The conditional is on the key, and its parents are exactly the other keys of the factors that involved it. */
  lemma EliminatedOneConditional(fs: seq<SymbolicFactor>, key: Symbol)
    ensures EliminatedOne(fs, key).1.key == key
    ensures forall k :: k in EliminatedOne(fs, key).1.parents <==>
      k != key && exists i :: 0 <= i < |fs| && Involves(fs[i], key) && k in fs[i].keys
  {
  }

  /** eliminate(ordering): eliminateOne for each key in turn. */
  function EliminatedAll(fs: seq<SymbolicFactor>, ordering: seq<Symbol>): (out: (seq<SymbolicFactor>, seq<Conditional>))
    ensures |out.1| == |ordering|
    ensures forall i :: 0 <= i < |ordering| ==> out.1[i].key == ordering[i]
    decreases |ordering|
  {
    if |ordering| == 0 then (fs, [])
    else
      var (fs', c) := EliminatedOne(fs, ordering[0]);
      var (rest, bn) := EliminatedAll(fs', ordering[1..]);
      (rest, [c] + bn)
  }

  /** One step of eliminate: the first key, then the rest of the ordering. */
  lemma EliminatedAllStep(fs: seq<SymbolicFactor>, ordering: seq<Symbol>)
    requires |ordering| > 0
    ensures EliminatedAll(fs, ordering) ==
      (EliminatedAll(EliminatedOne(fs, ordering[0]).0, ordering[1..]).0,
       [EliminatedOne(fs, ordering[0]).1] + EliminatedAll(EliminatedOne(fs, ordering[0]).0, ordering[1..]).1)
  {
  }

  /** The loop of eliminate after i keys: the rest of the ordering, applied to what is left, completes the goal. */
  ghost predicate Eliminating(fs: seq<SymbolicFactor>, ordering: seq<Symbol>, i: nat, bn: seq<Conditional>,
                              goal: (seq<SymbolicFactor>, seq<Conditional>))
  {
    i <= |ordering| && EliminatedAll(fs, ordering[i..]).0 == goal.0 && bn + EliminatedAll(fs, ordering[i..]).1 == goal.1
  }

  lemma EliminatingStep(fs: seq<SymbolicFactor>, ordering: seq<Symbol>, i: nat, bn: seq<Conditional>,
                        goal: (seq<SymbolicFactor>, seq<Conditional>))
    requires i < |ordering| && Eliminating(fs, ordering, i, bn, goal)
    ensures Eliminating(EliminatedOne(fs, ordering[i]).0, ordering, i + 1, bn + [EliminatedOne(fs, ordering[i]).1], goal)
  {
    var (fs', c) := EliminatedOne(fs, ordering[i]);
    var rest := EliminatedAll(fs', ordering[i + 1..]);
    assert ordering[i..][1..] == ordering[i + 1..];
    EliminatedAllStep(fs, ordering[i..]);
    assert bn + ([c] + rest.1) == (bn + [c]) + rest.1;
  }

  lemma EliminatingDone(fs: seq<SymbolicFactor>, ordering: seq<Symbol>, bn: seq<Conditional>,
                        goal: (seq<SymbolicFactor>, seq<Conditional>))
    requires Eliminating(fs, ordering, |ordering|, bn, goal)
    ensures (fs, bn) == goal
  {
    assert ordering[|ordering|..] == [];
    assert bn + [] == bn;
  }

  /** After eliminating an ordering none of its keys is left in the graph. */
  lemma {:induction false} EliminatedAllKeys(fs: seq<SymbolicFactor>, ordering: seq<Symbol>)
    ensures KeysOf(EliminatedAll(fs, ordering).0) == KeysOf(fs) - set k | k in ordering
    decreases |ordering|
  {
    if |ordering| > 0 {
      EliminatedOneKeys(fs, ordering[0]);
      EliminatedAllKeys(EliminatedOne(fs, ordering[0]).0, ordering[1..]);
      assert (set k | k in ordering) == {ordering[0]} + set k | k in ordering[1..];
    }
  }

  /** The class SymbolicFactorGraph. */
  class SymbolicFactorGraph {
    var factors: seq<SymbolicFactor>

    /** An empty graph. */
    constructor()
      ensures factors == []
    {
      factors := [];
    }

    /** The converting constructor: one symbolic factor per factor of fg, on that factor's keys. */
    constructor FromFactorGraph(fg: seq<seq<Symbol>>)
      ensures |factors| == |fg| && forall i :: 0 <= i < |fg| ==> factors[i].keys == fg[i]
    {
      factors := [];
      new;
      for i := 0 to |fg|
        invariant |factors| == i && forall k :: 0 <= k < i ==> factors[k].keys == fg[k]
      {
        factors := factors + [SymbolicFactor(fg[i])];
      }
    }

    /** push_factor(key). */
    method PushFactor1(key: Symbol)
      modifies this
      ensures factors == old(factors) + [SymbolicFactor([key])]
    {
      factors := factors + [SymbolicFactor([key])];
    }

    /** push_factor(key1, key2). */
    method PushFactor2(key1: Symbol, key2: Symbol)
      modifies this
      ensures factors == old(factors) + [SymbolicFactor([key1, key2])]
    {
      factors := factors + [SymbolicFactor([key1, key2])];
    }

    /** push_factor(key1, key2, key3). */
    method PushFactor3(key1: Symbol, key2: Symbol, key3: Symbol)
      modifies this
      ensures factors == old(factors) + [SymbolicFactor([key1, key2, key3])]
    {
      factors := factors + [SymbolicFactor([key1, key2, key3])];
    }

    /** push_factor(key1, key2, key3, key4). */
    method PushFactor4(key1: Symbol, key2: Symbol, key3: Symbol, key4: Symbol)
      modifies this
      ensures factors == old(factors) + [SymbolicFactor([key1, key2, key3, key4])]
    {
      factors := factors + [SymbolicFactor([key1, key2, key3, key4])];
    }

    /** eliminateOne(key): the factors on the key are replaced by one on the separator. */
    method EliminateOne(key: Symbol) returns (c: SymbolicConditional)
      modifies this
      ensures fresh(c) && (factors, c.AsConditional()) == EliminatedOne(old(factors), key)
    {
      var sep := Separator(InvolvedKeys(factors, key), key);
      factors := Remaining(factors, key) + [SymbolicFactor(sep)];
      c := new SymbolicConditional.WithParents(key, sep);
    }

    /** eliminate(ordering): the graph is consumed in place and the conditionals form the Bayes net, in order. */
    method Eliminate(ordering: seq<Symbol>) returns (bn: seq<Conditional>)
      modifies this
      ensures (factors, bn) == EliminatedAll(old(factors), ordering)
    {
      ghost var goal := EliminatedAll(factors, ordering);
      bn := [];
      assert ordering[0..] == ordering;
      for i := 0 to |ordering|
        invariant Eliminating(factors, ordering, i, bn, goal)
      {
        ghost var before := factors;
        var c := EliminateOne(ordering[i]);
        EliminatingStep(before, ordering, i, bn, goal);
        bn := bn + [c.AsConditional()];
      }
      EliminatingDone(factors, ordering, bn, goal);
    }
  }
}
