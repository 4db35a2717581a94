/**
 * The ASIA example of testBayesTree.cpp, with the variables numbered in
 * elimination order: X = 0, T = 1, S = 2, E = 3, L = 4, B = 5.
 */
module BayesTreeExamples {
  import opened Wrappers
  import opened BayesTreeModel

  function B(): Conditional { Conditional([5], 1) }
  function L(): Conditional { Conditional([4, 5], 1) }
  function E(): Conditional { Conditional([3, 4, 5], 1) }
  function S(): Conditional { Conditional([2, 4, 5], 1) }
  function T(): Conditional { Conditional([1, 3, 4], 1) }
  function X(): Conditional { Conditional([0, 3], 1) }

  /** The ASIA Bayes net in the order the test pushes it. */
  function Asia(): seq<Conditional> { [X(), T(), S(), E(), L(), B()] }

  // The trees after each insertion of the test, in the order B, L, E, S, T.

  predicate AfterB(t: Tree) {
    WellFormed(t) && |t.cliques| == 1 && t.root == Some(0) && |t.nodes| == 6 &&
    t.nodes[5] == Some(0) &&
    t.cliques[0] == Clique(B(), None, [])
  }

  predicate AfterL(t: Tree) {
    WellFormed(t) && |t.cliques| == 1 && t.root == Some(0) && |t.nodes| == 6 &&
    t.nodes[4] == Some(0) && t.nodes[5] == Some(0) &&
    t.cliques[0] == Clique(Conditional([4, 5], 2), None, [])
  }

  predicate AfterE(t: Tree) {
    WellFormed(t) && |t.cliques| == 1 && t.root == Some(0) && |t.nodes| == 6 &&
    t.nodes[3] == Some(0) && t.nodes[4] == Some(0) &&
    t.cliques[0] == Clique(Conditional([3, 4, 5], 3), None, [])
  }

  predicate AfterS(t: Tree) {
    WellFormed(t) && |t.cliques| == 2 && t.root == Some(0) && |t.nodes| == 6 &&
    t.nodes[3] == Some(0) &&
    t.cliques[0] == Clique(Conditional([3, 4, 5], 3), None, [1]) &&
    t.cliques[1] == Clique(S(), Some(0), [])
  }

  predicate AfterT(t: Tree) {
    WellFormed(t) && |t.cliques| == 3 && t.root == Some(0) && |t.nodes| == 6 &&
    t.nodes[3] == Some(0) &&
    t.cliques[0] == Clique(Conditional([3, 4, 5], 3), None, [1, 2]) &&
    t.cliques[1] == Clique(S(), Some(0), []) &&
    t.cliques[2] == Clique(T(), Some(0), [])
  }

  // One lemma per insertion, from one of the trees above to the next.

  lemma InsertB() returns (t: Tree)
    ensures CanInsert(Empty(), B()) && t == Insert(Empty(), B()) && AfterB(t)
  {
    t := Insert(Empty(), B());
  }

  lemma InsertL(t0: Tree) returns (t: Tree)
    requires AfterB(t0)
    ensures CanInsert(t0, L()) && t == Insert(t0, L()) && AfterL(t)
  {
    assert L().Parents() == [5] && MinKey([5]) == 5;
    t := Insert(t0, L());
  }

  lemma InsertE(t0: Tree) returns (t: Tree)
    requires AfterL(t0)
    ensures CanInsert(t0, E()) && t == Insert(t0, E()) && AfterE(t)
  {
    assert E().Parents() == [4, 5] && MinKey([4, 5]) == 4;
    t := Insert(t0, E());
  }

  lemma InsertS(t0: Tree) returns (t: Tree)
    requires AfterE(t0)
    ensures CanInsert(t0, S()) && t == Insert(t0, S()) && AfterS(t)
  {
    assert S().Parents() == [4, 5] && MinKey([4, 5]) == 4;
    t := Insert(t0, S());
  }

  lemma InsertT(t0: Tree) returns (t: Tree)
    requires AfterS(t0)
    ensures CanInsert(t0, T()) && t == Insert(t0, T()) && AfterT(t)
  {
    assert T().Parents() == [3, 4] && MinKey([3, 4]) == 3;
    t := Insert(t0, T());
  }

  lemma InsertX(t0: Tree) returns (t: Tree)
    requires AfterT(t0)
    ensures CanInsert(t0, X()) && t == Insert(t0, X()) && AsiaShape(t)
  {
    assert X().Parents() == [3] && MinKey([3]) == 3;
    t := Insert(t0, X());
  }

  /** Inserting the first k conditionals of bn, from the k-th down, yields the ASIA tree. */
  predicate Builds(t: Tree, bn: seq<Conditional>, k: nat)
    requires k <= |bn|
  {
    Buildable(t, bn[..k]) && AsiaShape(InsertReversed(t, bn[..k]))
  }

  /** Inserting the k-th conditional first, then the ones before it. */
  lemma BuildStep(t: Tree, bn: seq<Conditional>, k: nat)
    requires 0 < k <= |bn| && CanInsert(t, bn[k - 1]) && Builds(Insert(t, bn[k - 1]), bn, k - 1)
    ensures Builds(t, bn, k)
  {
    assert bn[..k][..k - 1] == bn[..k - 1];
  }

  /** The tree the test expects: E, L, B at the root, over S, T and X. */
  predicate AsiaShape(t: Tree) {
    WellFormed(t) && |t.cliques| == 4 && t.root == Some(0) &&
    t.cliques[0] == Clique(Conditional([3, 4, 5], 3), None, [1, 2, 3]) &&
    t.cliques[1] == Clique(S(), Some(0), []) &&
    t.cliques[2] == Clique(T(), Some(0), []) &&
    t.cliques[3] == Clique(X(), Some(0), [])
  }

  // The rest of the net, from each intermediate tree on.

  lemma BuildX(t5: Tree, bn: seq<Conditional>)
    requires AfterT(t5) && bn == Asia()
    ensures Builds(t5, bn, 1)
  {
    var t6 := InsertX(t5);
    assert bn[..0] == [];
    assert Buildable(t6, []) && InsertReversed(t6, []) == t6;
    BuildStep(t5, bn, 1);
  }

  lemma BuildTX(t4: Tree, bn: seq<Conditional>)
    requires AfterS(t4) && bn == Asia()
    ensures Builds(t4, bn, 2)
  {
    var t5 := InsertT(t4);
    BuildX(t5, bn);
    BuildStep(t4, bn, 2);
  }

  lemma BuildSTX(t3: Tree, bn: seq<Conditional>)
    requires AfterE(t3) && bn == Asia()
    ensures Builds(t3, bn, 3)
  {
    var t4 := InsertS(t3);
    BuildTX(t4, bn);
    BuildStep(t3, bn, 3);
  }

  lemma BuildESTX(t2: Tree, bn: seq<Conditional>)
    requires AfterL(t2) && bn == Asia()
    ensures Builds(t2, bn, 4)
  {
    var t3 := InsertE(t2);
    BuildSTX(t3, bn);
    BuildStep(t2, bn, 4);
  }

  lemma BuildLESTX(t1: Tree, bn: seq<Conditional>)
    requires AfterB(t1) && bn == Asia()
    ensures Builds(t1, bn, 5)
  {
    var t2 := InsertL(t1);
    BuildESTX(t2, bn);
    BuildStep(t1, bn, 5);
  }

  /** The constructor accepts the ASIA net and builds the expected tree. */
  lemma AsiaTree(bn: seq<Conditional>)
    requires bn == Asia()
    ensures Buildable(Empty(), bn) && AsiaShape(FromBayesNet(bn))
  {
    var t1 := InsertB();
    BuildLESTX(t1, bn);
    BuildStep(Empty(), bn, 6);
    assert bn[..6] == bn;
  }

  /** The conditionals in the opposite order. */
  function Reversed(cs: seq<Conditional>): (r: seq<Conditional>)
    ensures |r| == |cs| && forall i :: 0 <= i < |cs| ==> r[i] == cs[|cs| - 1 - i]
  {
    if cs == [] then [] else Reversed(cs[1..]) + [cs[0]]
  }

  /** Each conditional of cs can be inserted after the ones before it. */
  predicate InsertableInOrder(t: Tree, cs: seq<Conditional>)
    decreases |cs|
  {
    cs == [] || (CanInsert(t, cs[0]) && InsertableInOrder(Insert(t, cs[0]), cs[1..]))
  }

  /** insert(conditional) for each conditional of cs, the first one first, as the tests call it. */
  function InsertInOrder(t: Tree, cs: seq<Conditional>): (r: Tree)
    requires InsertableInOrder(t, cs)
    ensures WellFormed(t) ==> WellFormed(r)
    decreases |cs|
  {
    if cs == [] then t else InsertInOrder(Insert(t, cs[0]), cs[1..])
  }

  /**
   * Inserting conditionals one by one in list order is what the Bayes net
   * constructor does with the reversed list.
   */
  lemma {:induction false} InOrderIsReversed(t: Tree, cs: seq<Conditional>)
    ensures InsertableInOrder(t, cs) <==> Buildable(t, Reversed(cs))
    ensures InsertableInOrder(t, cs) ==> InsertInOrder(t, cs) == InsertReversed(t, Reversed(cs))
    decreases |cs|
  {
    if cs != [] {
      var bn := Reversed(cs);
      assert bn[|bn| - 1] == cs[0];
      assert bn[..|bn| - 1] == Reversed(cs[1..]);
      if CanInsert(t, cs[0]) {
        InOrderIsReversed(Insert(t, cs[0]), cs[1..]);
      }
    }
  }

  /**
   * The constructor test of testBayesTree.cpp: inserting B, L, E, S, T and
   * X in turn gives a tree equal to the one built from the ASIA net.
   */
  lemma AsiaTreesEqual(bn: seq<Conditional>, order: seq<Conditional>)
    requires bn == Asia() && order == [B(), L(), E(), S(), T(), X()]
    ensures InsertableInOrder(Empty(), order) && Buildable(Empty(), bn)
    ensures WellFormed(InsertInOrder(Empty(), order)) && WellFormed(FromBayesNet(bn))
    ensures |InsertInOrder(Empty(), order).nodes| <= |FromBayesNet(bn).nodes|
    ensures Equals(InsertInOrder(Empty(), order), FromBayesNet(bn))
  {
    AsiaTree(bn);
    assert Reversed(order) == bn;
    InOrderIsReversed(Empty(), order);
    EqualsReflexive(FromBayesNet(bn));
  }

  /** A clique without children is its own pre-order. */
  lemma PreOrderOfLeaf(cl: seq<Clique>, x: nat, fuel: nat)
    requires x < |cl| && ChildrenInRange(cl) && cl[x].children == [] && fuel > 0
    ensures PreOrder(cl, x, fuel) == [x]
  {
    PreOrderUnfold(cl, x, fuel);
    PreOrderAllUnfold(cl, [], fuel - 1);
  }

  /** A root with three childless children has a pre-order of four cliques. */
  lemma PreOrderOfStar(cl: seq<Clique>)
    requires |cl| == 4 && cl[0].children == [1, 2, 3]
    requires cl[1].children == [] && cl[2].children == [] && cl[3].children == []
    ensures ChildrenInRange(cl) && PreOrder(cl, 0, 4) == [0, 1, 2, 3]
  {
    assert ChildrenInRange(cl);
    PreOrderOfLeaf(cl, 1, 3);
    PreOrderOfLeaf(cl, 2, 3);
    PreOrderOfLeaf(cl, 3, 3);
    var cs := [1, 2, 3];
    assert cs[1..] == [2, 3] && cs[1..][1..] == [3] && cs[1..][1..][1..] == [];
    PreOrderAllUnfold(cl, cs[1..][1..][1..], 3);
    PreOrderAllUnfold(cl, cs[1..][1..], 3);
    PreOrderAllUnfold(cl, cs[1..], 3);
    PreOrderAllUnfold(cl, cs, 3);
    PreOrderUnfold(cl, 0, 4);
  }

  /**
   * The ASIA net gives four cliques: the root holds E, L and B as frontal
   * keys and has the cliques of S, T and X as children.
   */
  lemma AsiaExample(bn: seq<Conditional>)
    requires bn == Asia()
    ensures Buildable(Empty(), bn)
    ensures |FromBayesNet(bn).cliques| == 4 && Size(FromBayesNet(bn)) == 4
    ensures FromBayesNet(bn).root == Some(0)
    ensures FromBayesNet(bn).cliques[0] == Clique(Conditional([3, 4, 5], 3), None, [1, 2, 3])
  {
    AsiaTree(bn);
    PreOrderOfStar(FromBayesNet(bn).cliques);
  }
}
