/**
 * The conditional base class of Conditional.h, the onKey predicate, and the
 * symbolic conditional of SymbolicConditional.h whose constructors push the
 * parents onto its list one at a time.
 */
module Conditionals {

  /** A variable name such as "x1" or "l2". */
  type Symbol = string

  /**
   * A conditional as seen through a reference to the base class: every
   * conditional has a key; a symbolic one also has its parent list, and any
   * other derived class (a Gaussian conditional, say) is only known by key.
   */
  datatype Conditional =
    | Symbolic(key: Symbol, parents: seq<Symbol>)
    | OtherKind(key: Symbol)

  /** Conditional::equals compares keys only, whatever the derived classes. */
  predicate KeyEquals(c: Conditional, d: Conditional)
  {
    c.key == d.key
  }

  /** Key equality is an equivalence relation. */
  lemma KeyEqualsEquivalence(c: Conditional, d: Conditional, e: Conditional)
    ensures KeyEquals(c, c)
    ensures KeyEquals(c, d) ==> KeyEquals(d, c)
    ensures KeyEquals(c, d) && KeyEquals(d, e) ==> KeyEquals(c, e)
  {
  }

  /** onKey(key)(conditional): does the conditional have the sought key? */
  predicate OnKey(key: Symbol, c: Conditional)
  {
    c.key == key
  }

  /** onKey(key) holds exactly for the conditionals equal, by key, to one that has the key. */
  lemma OnKeyRespectsEquals(key: Symbol, c: Conditional, d: Conditional)
    requires OnKey(key, c)
    ensures OnKey(key, d) <==> KeyEquals(c, d)
  {
  }

  /** The class SymbolicConditional: a key and a list of parents. */
  class SymbolicConditional {
    const key: Symbol
    var parents: seq<Symbol>

    /** The conditional as a value seen through the base class. */
    function AsConditional(): (c: Conditional)
      reads this
      ensures c.Symbolic? && c.key == key && c.parents == parents
    {
      Symbolic(key, parents)
    }

    /** No parents. */
    constructor Parentless(key: Symbol)
      ensures this.key == key && parents == []
    {
      this.key := key;
      parents := [];
    }

    /** A single parent. */
    constructor WithParent(key: Symbol, parent: Symbol)
      ensures this.key == key && parents == [parent]
    {
      this.key := key;
      parents := [];
      new;
      parents := parents + [parent];
    }

    /** Two parents, pushed in argument order. */
    constructor WithTwoParents(key: Symbol, parent1: Symbol, parent2: Symbol)
      ensures this.key == key && parents == [parent1, parent2]
    {
      this.key := key;
      parents := [];
      new;
      parents := parents + [parent1];
      parents := parents + [parent2];
    }

    /** Three parents, pushed in argument order. */
    constructor WithThreeParents(key: Symbol, parent1: Symbol, parent2: Symbol, parent3: Symbol)
      ensures this.key == key && parents == [parent1, parent2, parent3]
    {
      this.key := key;
      parents := [];
      new;
      parents := parents + [parent1];
      parents := parents + [parent2];
      parents := parents + [parent3];
    }

    /** A list of parents, copied as given. */
    constructor WithParents(key: Symbol, parents: seq<Symbol>)
      ensures this.key == key && this.parents == parents
    {
      this.key := key;
      this.parents := parents;
    }

    /** nrParents(): the length of the parent list. */
    function NrParents(): (n: nat)
      reads this
      ensures n == |AsConditional().parents|
    {
      |parents|
    }

    /**
     * equals(c): the base-class key test, then false unless c is symbolic,
     * then the parent lists compared in order.
     */
    predicate Equals(c: Conditional)
      reads this
    {
      if !KeyEquals(AsConditional(), c) then false
      else if !c.Symbolic? then false
      else parents == c.parents
    }

    /** equals holds exactly when c is this very conditional as a value: same key, same parents in the same order. */
    lemma EqualsIsValueEquality(c: Conditional)
      ensures Equals(c) <==> c == AsConditional()
      ensures Equals(c) ==> KeyEquals(AsConditional(), c)
    {
    }

    /** A conditional of another kind is never equal, whatever its key. */
    lemma EqualsOtherKind(key': Symbol)
      ensures !Equals(OtherKind(key'))
    {
    }
  }
}
