/**
 * The clique tree (Bayes tree) of BayesTree-inl.h, as values.
 *
 * Cliques live in an arena: a clique is named by its position in
 * `cliques`, a shared pointer to it becomes that index, and a null pointer
 * becomes None.  `nodes` is the key -> clique index and `root` the root
 * pointer.  Every operation of the tree is a function from the old tree to
 * the new one; the class in bayes_tree.dfy performs them in place.
 */
module BayesTreeModel {
  import opened Wrappers

  type Index = nat

  /** An IndexConditional: the frontal keys followed by the parent keys. */
  datatype Conditional = Conditional(keys: seq<Index>, nrFrontals: nat)
  {
    /** The frontal count fits in the key list. */
    predicate Sized() { nrFrontals <= |keys| }

    /** At least one frontal key, so that lastFrontalKey exists. */
    predicate HasFrontal() { 0 < nrFrontals <= |keys| }

    function Frontals(): seq<Index> requires Sized() { keys[..nrFrontals] }

    function Parents(): seq<Index> requires Sized() { keys[nrFrontals..] }

    function LastFrontalKey(): Index requires HasFrontal() { keys[nrFrontals - 1] }

    /** No frontal key lies above the last one (frontals come in elimination order). */
    predicate FrontalsBelowLast()
      requires HasFrontal()
    {
      forall j :: 0 <= j < nrFrontals ==> keys[j] <= keys[nrFrontals - 1]
    }
  }

  /** A clique: its conditional, a back-reference to its parent and its children. */
  datatype Clique = Clique(conditional: Conditional, parent: Option<nat>, children: seq<nat>)

  /** The tree: the arena of cliques, the index `nodes_` and `root_`. */
  datatype Tree = Tree(cliques: seq<Clique>, nodes: seq<Option<nat>>, root: Option<nat>)

  /** An empty tree, as built by the default constructor. */
  function Empty(): Tree { Tree([], [], None) }

  // ---------------------------------------------------------------------
  // Invariants

  predicate CliqueInRange(q: Clique, n: nat) {
    q.conditional.Sized() &&
    (q.parent.Some? ==> q.parent.value < n) &&
    (forall j :: 0 <= j < |q.children| ==> q.children[j] < n)
  }

  /** Every pointer held by the tree names a clique of the arena. */
  predicate WellFormed(t: Tree) {
    (forall i :: 0 <= i < |t.cliques| ==> CliqueInRange(t.cliques[i], |t.cliques|)) &&
    (forall k :: 0 <= k < |t.nodes| && t.nodes[k].Some? ==> t.nodes[k].value < |t.cliques|) &&
    (t.root.Some? ==> t.root.value < |t.cliques|)
  }

  /** The index only points a key at a clique in which that key is frontal. */
  predicate IndexSound(t: Tree)
    requires WellFormed(t)
  {
    forall k :: 0 <= k < |t.nodes| && t.nodes[k].Some? ==>
      k in t.cliques[t.nodes[k].value].conditional.Frontals()
  }

  /** Parent and child links agree in both directions. */
  predicate LinksConsistent(t: Tree)
    requires WellFormed(t)
  {
    (forall c, j :: 0 <= c < |t.cliques| && 0 <= j < |t.cliques[c].children| ==>
      t.cliques[t.cliques[c].children[j]].parent == Some(c)) &&
    (forall c :: 0 <= c < |t.cliques| && t.cliques[c].parent.Some? ==>
      c in t.cliques[t.cliques[c].parent.value].children)
  }

  predicate Invariant(t: Tree) {
    WellFormed(t) && IndexSound(t) && LinksConsistent(t)
  }

  // ---------------------------------------------------------------------
  // Index and link helpers

  function Max(a: nat, b: nat): nat { if a < b then b else a }

  /** std::vector::resize: truncate, or pad with null pointers. */
  function Resize(nodes: seq<Option<nat>>, n: nat): (r: seq<Option<nat>>)
    ensures |r| == n
    ensures forall i :: 0 <= i < n ==> r[i] == if i < |nodes| then nodes[i] else None
  {
    if n <= |nodes| then nodes[..n] else nodes + seq(n - |nodes|, _ => None)
  }

  /** Sets the index entry of every key in `keys` to `v`; keys beyond the index are left alone. */
  function Assign(nodes: seq<Option<nat>>, keys: seq<Index>, v: Option<nat>): (r: seq<Option<nat>>)
    ensures |r| == |nodes|
    ensures forall i :: 0 <= i < |nodes| ==> r[i] == if i in keys then v else nodes[i]
    decreases |keys|
  {
    if keys == [] then nodes
    else
      var rest := Assign(nodes, keys[1..], v);
      if keys[0] < |nodes| then rest[keys[0] := v] else rest
  }

  /** Sets the parent link of every clique in `ids` to `p`. */
  function SetParents(cliques: seq<Clique>, ids: seq<nat>, p: Option<nat>): (r: seq<Clique>)
    ensures |r| == |cliques|
    ensures forall i :: 0 <= i < |cliques| ==>
      r[i] == if i in ids then cliques[i].(parent := p) else cliques[i]
    decreases |ids|
  {
    if ids == [] then cliques
    else
      var rest := SetParents(cliques, ids[1..], p);
      if ids[0] < |cliques| then rest[ids[0] := cliques[ids[0]].(parent := p)] else rest
  }

  /** std::list::remove: drops every occurrence of x, keeping the order of the rest. */
  function RemoveAll(s: seq<nat>, x: nat): (r: seq<nat>)
    ensures forall y :: y in r <==> y in s && y != x
    ensures |r| <= |s|
  {
    if s == [] then []
    else if s[0] == x then RemoveAll(s[1..], x)
    else [s[0]] + RemoveAll(s[1..], x)
  }

  /** findParentClique: the lowest-ordered parent key. */
  function MinKey(s: seq<Index>): (m: Index)
    requires |s| > 0
    ensures m in s
    ensures forall x :: x in s ==> m <= x
  {
    if |s| == 1 then s[0]
    else
      var m := MinKey(s[1..]);
      assert s == [s[0]] + s[1..];
      if s[0] <= m then s[0] else m
  }

  // ---------------------------------------------------------------------
  // addClique, addToCliqueFront, insert

  /** The conditional may be made into a clique and indexed. */
  predicate Indexable(cond: Conditional) {
    cond.HasFrontal() && cond.FrontalsBelowLast()
  }

  /** The index after making room for the conditional's frontal keys and pointing them at c. */
  function IndexFrontals(nodes: seq<Option<nat>>, cond: Conditional, c: nat): (r: seq<Option<nat>>)
    requires Indexable(cond)
    ensures |r| == Max(cond.LastFrontalKey() + 1, |nodes|)
    ensures forall k :: 0 <= k < |r| ==>
      r[k] == if k in cond.Frontals() then Some(c) else if k < |nodes| then nodes[k] else None
  {
    var grown := Resize(nodes, Max(cond.LastFrontalKey() + 1, |nodes|));
    assert forall k :: k in cond.Frontals() ==> k < |grown| by {
      forall k | k in cond.Frontals() ensures k < |grown| {
        var j :| 0 <= j < cond.nrFrontals && cond.keys[j] == k;
      }
    }
    Assign(grown, cond.Frontals(), Some(c))
  }

  /**
   * addClique(conditional, parent_clique): a new clique for the conditional,
   * indexed under its frontal keys, and either hung under the parent or made
   * the root.  The new clique is the last one of the arena.
   */
  function AddClique(t: Tree, cond: Conditional, parent: Option<nat>): (r: Tree)
    requires WellFormed(t) && Indexable(cond)
    requires parent.Some? ==> parent.value < |t.cliques|
    requires parent.None? ==> t.root.None?
    ensures WellFormed(r)
    ensures |r.cliques| == |t.cliques| + 1
    ensures r.cliques[|t.cliques|] == Clique(cond, parent, [])
    ensures |r.nodes| >= cond.LastFrontalKey() + 1 && |r.nodes| >= |t.nodes|
    ensures forall k :: 0 <= k < |r.nodes| ==>
      r.nodes[k] == if k in cond.Frontals() then Some(|t.cliques|)
                    else if k < |t.nodes| then t.nodes[k] else None
    ensures parent.Some? ==>
      r.root == t.root &&
      r.cliques[parent.value].children == t.cliques[parent.value].children + [|t.cliques|]
    ensures parent.None? ==> r.root == Some(|t.cliques|)
    ensures forall i :: 0 <= i < |t.cliques| && Some(i) != parent ==> r.cliques[i] == t.cliques[i]
  {
    var c := |t.cliques|;
    var nodes := IndexFrontals(t.nodes, cond, c);
    match parent
    case None => Tree(t.cliques + [Clique(cond, None, [])], nodes, Some(c))
    case Some(p) =>
      var withChild := t.cliques[p := t.cliques[p].(children := t.cliques[p].children + [c])];
      Tree(withChild + [Clique(cond, parent, [])], nodes, t.root)
  }

  /**
   * addClique(conditional, child_cliques): a new clique over existing
   * subtrees, which become its children; the root is left alone.
   */
  function AddCliqueOver(t: Tree, cond: Conditional, children: seq<nat>): (r: Tree)
    requires WellFormed(t) && Indexable(cond)
    requires forall j :: 0 <= j < |children| ==> children[j] < |t.cliques|
    ensures WellFormed(r)
    ensures |r.cliques| == |t.cliques| + 1
    ensures r.cliques[|t.cliques|] == Clique(cond, None, children)
    ensures r.root == t.root
    ensures forall k :: 0 <= k < |r.nodes| ==>
      r.nodes[k] == if k in cond.Frontals() then Some(|t.cliques|)
                    else if k < |t.nodes| then t.nodes[k] else None
    ensures forall i :: 0 <= i < |t.cliques| ==>
      r.cliques[i] == if i in children then t.cliques[i].(parent := Some(|t.cliques|)) else t.cliques[i]
  {
    var c := |t.cliques|;
    var nodes := IndexFrontals(t.nodes, cond, c);
    Tree(SetParents(t.cliques, children, Some(c)) + [Clique(cond, None, children)], nodes, t.root)
  }

  /**
   * The checks addToCliqueFront makes in debug builds: the conditional's
   * parents are ordered after its key and all belong to the clique.
   */
  predicate FrontCompatible(t: Tree, cond: Conditional, c: nat)
    requires c < |t.cliques| && cond.HasFrontal()
  {
    forall j :: cond.nrFrontals <= j < |cond.keys| ==>
      cond.keys[j] > cond.LastFrontalKey() && cond.keys[j] in t.cliques[c].conditional.keys
  }

  /**
   * addToCliqueFront: the conditional's key is prepended to the clique's
   * keys, becomes one more frontal key, and is indexed to the clique.
   */
  function AddToCliqueFront(t: Tree, cond: Conditional, c: nat): (r: Tree)
    requires WellFormed(t) && c < |t.cliques| && cond.HasFrontal()
    requires FrontCompatible(t, cond, c)
    ensures WellFormed(r) && r.root == t.root && |r.cliques| == |t.cliques|
    ensures r.cliques[c].conditional ==
      Conditional([cond.LastFrontalKey()] + t.cliques[c].conditional.keys, t.cliques[c].conditional.nrFrontals + 1)
    ensures r.cliques[c].parent == t.cliques[c].parent && r.cliques[c].children == t.cliques[c].children
    ensures forall i :: 0 <= i < |t.cliques| && i != c ==> r.cliques[i] == t.cliques[i]
    ensures |r.nodes| == Max(cond.LastFrontalKey() + 1, |t.nodes|)
    ensures forall k :: 0 <= k < |r.nodes| ==>
      r.nodes[k] == if k == cond.LastFrontalKey() then Some(c)
                    else if k < |t.nodes| then t.nodes[k] else None
  {
    var key := cond.LastFrontalKey();
    var nodes := Resize(t.nodes, Max(key + 1, |t.nodes|))[key := Some(c)];
    var old_ := t.cliques[c].conditional;
    var grown := Conditional([key] + old_.keys, old_.nrFrontals + 1);
    Tree(t.cliques[c := t.cliques[c].(conditional := grown)], nodes, t.root)
  }

  /** What insert(bayesTree, conditional) needs of the tree and the conditional. */
  predicate CanInsert(t: Tree, cond: Conditional)
  {
    WellFormed(t) && Indexable(cond) &&
    (cond.Parents() == [] ==> t.root.None?) &&
    (cond.Parents() != [] ==>
      var rep := MinKey(cond.Parents());
      rep < |t.nodes| && t.nodes[rep].Some? &&
      (|t.cliques[t.nodes[rep].value].conditional.keys| == |cond.Parents()| ==>
        FrontCompatible(t, cond, t.nodes[rep].value)))
  }

  /**
   * insert(bayesTree, conditional): a conditional without parents starts the
   * root clique; otherwise the clique holding the lowest-ordered parent
   * either absorbs the conditional (when its size equals the number of
   * parents) or receives a new child clique.
   */
  function Insert(t: Tree, cond: Conditional): (r: Tree)
    requires CanInsert(t, cond)
    ensures WellFormed(r)
    ensures cond.Parents() == [] ==>
      |r.cliques| == |t.cliques| + 1 && r.cliques[|t.cliques|] == Clique(cond, None, []) &&
      r.root == Some(|t.cliques|)
    ensures cond.Parents() != [] ==>
      var p := t.nodes[MinKey(cond.Parents())].value;
      var q := t.cliques[p].conditional;
      if |q.keys| == |cond.Parents()| then
        |r.cliques| == |t.cliques| && r.root == t.root &&
        r.cliques[p].conditional == Conditional([cond.LastFrontalKey()] + q.keys, q.nrFrontals + 1) &&
        cond.LastFrontalKey() < |r.nodes| && r.nodes[cond.LastFrontalKey()] == Some(p)
      else
        |r.cliques| == |t.cliques| + 1 && r.root == t.root &&
        r.cliques[|t.cliques|] == Clique(cond, Some(p), []) &&
        r.cliques[p].children == t.cliques[p].children + [|t.cliques|]
  {
    if cond.Parents() == [] then AddClique(t, cond, None)
    else
      var p := t.nodes[MinKey(cond.Parents())].value;
      if |t.cliques[p].conditional.keys| == |cond.Parents()| then AddToCliqueFront(t, cond, p)
      else AddClique(t, cond, Some(p))
  }

  // ---------------------------------------------------------------------
  // insert keeps the index sound and the links consistent

  lemma AddCliquePreserves(t: Tree, cond: Conditional, parent: Option<nat>)
    requires Invariant(t) && Indexable(cond)
    requires parent.Some? ==> parent.value < |t.cliques|
    requires parent.None? ==> t.root.None?
    ensures Invariant(AddClique(t, cond, parent))
  {
    AddCliqueIndexSound(t, cond, parent);
    AddCliqueChildLinks(t, cond, parent);
    AddCliqueParentLinks(t, cond, parent);
  }

  lemma AddCliqueIndexSound(t: Tree, cond: Conditional, parent: Option<nat>)
    requires Invariant(t) && Indexable(cond)
    requires parent.Some? ==> parent.value < |t.cliques|
    requires parent.None? ==> t.root.None?
    ensures IndexSound(AddClique(t, cond, parent))
  {
    var r := AddClique(t, cond, parent);
    forall k | 0 <= k < |r.nodes| && r.nodes[k].Some?
      ensures k in r.cliques[r.nodes[k].value].conditional.Frontals()
    {
      if k !in cond.Frontals() {
        assert k < |t.nodes| && r.nodes[k] == t.nodes[k];
        var c := t.nodes[k].value;
        assert r.cliques[c].conditional == t.cliques[c].conditional;
      }
    }
  }

  lemma AddCliqueChildLinks(t: Tree, cond: Conditional, parent: Option<nat>)
    requires Invariant(t) && Indexable(cond)
    requires parent.Some? ==> parent.value < |t.cliques|
    requires parent.None? ==> t.root.None?
    ensures var r := AddClique(t, cond, parent);
      forall c, j :: 0 <= c < |r.cliques| && 0 <= j < |r.cliques[c].children| ==>
        r.cliques[r.cliques[c].children[j]].parent == Some(c)
  {
    var r := AddClique(t, cond, parent);
    var n := |t.cliques|;
    forall c, j | 0 <= c < |r.cliques| && 0 <= j < |r.cliques[c].children|
      ensures r.cliques[r.cliques[c].children[j]].parent == Some(c)
    {
      if c < n && Some(c) == parent && j == |t.cliques[c].children| {
        assert r.cliques[c].children[j] == n;
      } else if c < n {
        assert r.cliques[c].children[j] == t.cliques[c].children[j];
      }
    }
  }

  lemma AddCliqueParentLinks(t: Tree, cond: Conditional, parent: Option<nat>)
    requires Invariant(t) && Indexable(cond)
    requires parent.Some? ==> parent.value < |t.cliques|
    requires parent.None? ==> t.root.None?
    ensures var r := AddClique(t, cond, parent);
      forall c :: 0 <= c < |r.cliques| && r.cliques[c].parent.Some? ==>
        c in r.cliques[r.cliques[c].parent.value].children
  {
    var r := AddClique(t, cond, parent);
    var n := |t.cliques|;
    forall c | 0 <= c < |r.cliques| && r.cliques[c].parent.Some?
      ensures c in r.cliques[r.cliques[c].parent.value].children
    {
      if c < n {
        var p := t.cliques[c].parent.value;
        assert c in t.cliques[p].children;
        if Some(p) == parent {
          assert r.cliques[p].children == t.cliques[p].children + [n];
        }
      } else {
        assert r.cliques[parent.value].children == t.cliques[parent.value].children + [n];
      }
    }
  }

  lemma AddToCliqueFrontPreserves(t: Tree, cond: Conditional, c: nat)
    requires Invariant(t) && c < |t.cliques| && cond.HasFrontal()
    requires FrontCompatible(t, cond, c)
    ensures Invariant(AddToCliqueFront(t, cond, c))
  {
    var r := AddToCliqueFront(t, cond, c);
    var q := t.cliques[c].conditional;
    assert r.cliques[c].conditional.Frontals() == [cond.LastFrontalKey()] + q.Frontals();
    forall k | 0 <= k < |r.nodes| && r.nodes[k].Some?
      ensures k in r.cliques[r.nodes[k].value].conditional.Frontals()
    {
      if k != cond.LastFrontalKey() {
        assert k < |t.nodes| && r.nodes[k] == t.nodes[k];
      }
    }
  }

  /** insert(bayesTree, conditional) keeps every invariant of the tree. */
  lemma InsertPreserves(t: Tree, cond: Conditional)
    requires Invariant(t) && CanInsert(t, cond)
    ensures Invariant(Insert(t, cond))
  {
    if cond.Parents() == [] {
      AddCliquePreserves(t, cond, None);
    } else {
      var p := t.nodes[MinKey(cond.Parents())].value;
      if |t.cliques[p].conditional.keys| == |cond.Parents()| {
        AddToCliqueFrontPreserves(t, cond, p);
      } else {
        AddCliquePreserves(t, cond, Some(p));
      }
    }
  }

  // ---------------------------------------------------------------------
  // removeClique, removePath, removeTop

  /** Every parent link names a clique of the arena (the part of WellFormed removal relies on). */
  predicate ParentsInRange(cl: seq<Clique>) {
    forall i :: 0 <= i < |cl| && cl[i].parent.Some? ==> cl[i].parent.value < |cl|
  }

  /**
   * removeClique: a clique without a parent link clears the root; otherwise
   * it is taken out of its parent's children.  Its children lose their
   * parent link and every key of its conditional, frontal or parent, loses
   * its index entry.  The clique keeps its own parent link and children.
   */
  function RemoveClique(t: Tree, c: nat): (r: Tree)
    requires ParentsInRange(t.cliques) && c < |t.cliques|
    ensures ParentsInRange(r.cliques) && |r.cliques| == |t.cliques| && |r.nodes| == |t.nodes|
  {
    var q := t.cliques[c];
    var root := if q.parent.None? then None else t.root;
    var unlinked := Unlink(t.cliques, c);
    Tree(SetParents(unlinked, unlinked[c].children, None), Assign(t.nodes, q.conditional.keys, None), root)
  }

  /** removeClique clears the root exactly when the clique has no parent link. */
  lemma RemoveCliqueRoot(t: Tree, c: nat)
    requires ParentsInRange(t.cliques) && c < |t.cliques|
    ensures RemoveClique(t, c).root == if t.cliques[c].parent.None? then None else t.root
  {
  }

  /** removeClique resets the index entry of every key of the conditional, and only those. */
  lemma RemoveCliqueNodes(t: Tree, c: nat)
    requires ParentsInRange(t.cliques) && c < |t.cliques|
    ensures forall k :: 0 <= k < |t.nodes| ==>
      RemoveClique(t, c).nodes[k] == if k in t.cliques[c].conditional.keys then None else t.nodes[k]
  {
  }

  /** removeClique takes c out of its parent's child list; conditionals and other child lists stay. */
  lemma RemoveCliqueChildren(t: Tree, c: nat)
    requires ParentsInRange(t.cliques) && c < |t.cliques|
    ensures forall i :: 0 <= i < |t.cliques| ==>
      RemoveClique(t, c).cliques[i].conditional == t.cliques[i].conditional &&
      RemoveClique(t, c).cliques[i].children ==
        if Some(i) == t.cliques[c].parent then RemoveAll(t.cliques[i].children, c) else t.cliques[i].children
  {
  }

  /** removeClique resets the parent link of c's children, and no other. */
  lemma RemoveCliqueParents(t: Tree, c: nat)
    requires ParentsInRange(t.cliques) && c < |t.cliques|
    ensures forall i :: 0 <= i < |t.cliques| ==>
      RemoveClique(t, c).cliques[i].parent == if i in Detached(t, c) then None else t.cliques[i].parent
  {
  }

  /** Takes clique c out of its parent's child list. */
  function Unlink(cl: seq<Clique>, c: nat): (r: seq<Clique>)
    requires c < |cl| && ParentsInRange(cl)
    ensures |r| == |cl| && ParentsInRange(r)
    ensures forall i :: 0 <= i < |cl| ==>
      r[i] == if Some(i) == cl[c].parent then cl[i].(children := RemoveAll(cl[i].children, c)) else cl[i]
  {
    if cl[c].parent.None? then cl
    else
      var p := cl[c].parent.value;
      cl[p := cl[p].(children := RemoveAll(cl[p].children, c))]
  }

  /** removeClique keeps every pointer of a well-formed tree inside the arena. */
  lemma RemoveCliqueWellFormed(t: Tree, c: nat)
    requires WellFormed(t) && c < |t.cliques|
    ensures WellFormed(RemoveClique(t, c))
  {
    var r := RemoveClique(t, c);
    RemoveCliqueChildren(t, c);
    RemoveCliqueParents(t, c);
    forall i | 0 <= i < |r.cliques|
      ensures CliqueInRange(r.cliques[i], |r.cliques|)
    {
      assert CliqueInRange(t.cliques[i], |t.cliques|);
      forall j | 0 <= j < |r.cliques[i].children|
        ensures r.cliques[i].children[j] < |r.cliques|
      {
        assert r.cliques[i].children[j] in t.cliques[i].children;
      }
    }
  }

  /** The children whose parent link removeClique(c) resets (read after the unlink from the parent). */
  function Detached(t: Tree, c: nat): seq<nat>
    requires c < |t.cliques|
  {
    if t.cliques[c].parent == Some(c) then RemoveAll(t.cliques[c].children, c) else t.cliques[c].children
  }

  /** What removePath hands back: the tree, the Bayes net and the orphan list. */
  datatype Removal = Removal(tree: Tree, bn: seq<Conditional>, orphans: seq<nat>)

  /**
   * removePath(clique, bn, orphans): removes the clique and, recursively, the
   * path above it.  On the way back down each removed clique's children are
   * spliced in front of the orphans (emptying its child list) and its
   * conditional is appended to the Bayes net.  `fuel` bounds the walk up the
   * parent links; the lemmas below take it at least the length of the path
   * to the root (PathInv).
   */
  function RemovePath(t: Tree, c: Option<nat>, bn: seq<Conditional>, orphans: seq<nat>, fuel: nat): (r: Removal)
    requires ParentsInRange(t.cliques) && (c.Some? ==> c.value < |t.cliques|)
    ensures ParentsInRange(r.tree.cliques) && |r.tree.cliques| == |t.cliques| && |r.tree.nodes| == |t.nodes|
    decreases fuel
  {
    if c.None? || fuel == 0 then Removal(t, bn, orphans)
    else
      var q := c.value;
      var t1 := RemoveClique(t, q);
      var r2 := RemovePath(t1, t1.cliques[q].parent, bn, RemoveAll(orphans, q), fuel - 1);
      var kids := r2.tree.cliques[q].children;
      var t3 := r2.tree.(cliques := r2.tree.cliques[q := r2.tree.cliques[q].(children := [])]);
      Removal(t3, r2.bn + [t.cliques[q].conditional], kids + r2.orphans)
  }

  /** One step of removePath on a clique. */
  lemma RemovePathSome(t: Tree, q: nat, bn: seq<Conditional>, orphans: seq<nat>, fuel: nat,
                        t1: Tree, t2: Tree, bn2: seq<Conditional>, orphans2: seq<nat>, r: Removal)
    requires ParentsInRange(t.cliques) && q < |t.cliques| && fuel > 0
    requires t1 == RemoveClique(t, q)
    requires var r2 := RemovePath(t1, t1.cliques[q].parent, bn, RemoveAll(orphans, q), fuel - 1);
      t2 == r2.tree && bn2 == r2.bn && orphans2 == r2.orphans
    requires r.tree.cliques == t2.cliques[q := t2.cliques[q].(children := [])]
    requires r.tree.nodes == t2.nodes && r.tree.root == t2.root
    requires r.bn == bn2 + [t.cliques[q].conditional] && r.orphans == t2.cliques[q].children + orphans2
    ensures r == RemovePath(t, Some(q), bn, orphans, fuel)
  {
  }

  /** removeTop with no indexed key removes nothing. */
  lemma {:induction false} RemoveTopSkips(t: Tree, keys: seq<Index>, bn: seq<Conditional>, orphans: seq<nat>)
    requires ParentsInRange(t.cliques) && NodesInRange(t)
    requires forall j :: 0 <= j < |keys| ==> keys[j] >= |t.nodes| || t.nodes[keys[j]].None?
    ensures RemoveTop(t, keys, bn, orphans) == Removal(t, bn, orphans)
    decreases |keys|
  {
    if keys != [] {
      RemoveTopSkips(t, keys[1..], bn, orphans);
    }
  }

  /** Every index entry names a clique of the arena. */
  predicate NodesInRange(t: Tree) {
    forall k :: 0 <= k < |t.nodes| && t.nodes[k].Some? ==> t.nodes[k].value < |t.cliques|
  }

  /**
   * removeTop: for every key that lies inside the index and has a clique,
   * removes the path from that clique to the root.
   */
  function RemoveTop(t: Tree, keys: seq<Index>, bn: seq<Conditional>, orphans: seq<nat>): (r: Removal)
    requires ParentsInRange(t.cliques) && NodesInRange(t)
    ensures |r.tree.cliques| == |t.cliques| && |r.tree.nodes| == |t.nodes|
    decreases |keys|
  {
    if keys == [] then Removal(t, bn, orphans)
    else
      var k := keys[0];
      if k < |t.nodes| && t.nodes[k].Some? then
        var step := RemovePath(t, t.nodes[k], bn, orphans, |t.cliques|);
        RemovePathNodesInRange(t, t.nodes[k], bn, orphans, |t.cliques|);
        RemoveTop(step.tree, keys[1..], step.bn, step.orphans)
      else
        RemoveTop(t, keys[1..], bn, orphans)
  }

  /** removePath only clears index entries, so they keep naming cliques of the arena. */
  lemma {:induction false} RemovePathNodesInRange(t: Tree, c: Option<nat>, bn: seq<Conditional>, orphans: seq<nat>, fuel: nat)
    requires ParentsInRange(t.cliques) && NodesInRange(t) && (c.Some? ==> c.value < |t.cliques|)
    ensures NodesInRange(RemovePath(t, c, bn, orphans, fuel).tree)
    decreases fuel
  {
    if c.Some? && fuel > 0 {
      var t1 := RemoveClique(t, c.value);
      RemoveCliqueNodes(t, c.value);
      RemovePathNodesInRange(t1, t1.cliques[c.value].parent, bn, RemoveAll(orphans, c.value), fuel - 1);
      var r2 := RemovePath(t1, t1.cliques[c.value].parent, bn, RemoveAll(orphans, c.value), fuel - 1);
      assert RemovePath(t, c, bn, orphans, fuel).tree.nodes == r2.tree.nodes;
    }
  }

  // ---------------------------------------------------------------------
  // Paths to the root

  /** The cliques from c up to the root, c first, following at most `fuel` links. */
  function PathUp(cl: seq<Clique>, c: nat, fuel: nat): (p: seq<nat>)
    requires ParentsInRange(cl) && c < |cl|
    ensures |p| <= fuel && (fuel > 0 ==> |p| > 0 && p[0] == c)
    ensures forall i :: 0 <= i < |p| ==> p[i] < |cl|
    decreases fuel
  {
    if fuel == 0 then []
    else if cl[c].parent.None? then [c]
    else [c] + PathUp(cl, cl[c].parent.value, fuel - 1)
  }

  /** The walk from c reaches a clique without a parent within `fuel` steps. */
  predicate Reaches(cl: seq<Clique>, c: nat, fuel: nat)
    requires ParentsInRange(cl) && c < |cl|
    decreases fuel
  {
    fuel > 0 && (cl[c].parent.None? || Reaches(cl, cl[c].parent.value, fuel - 1))
  }

  predicate Distinct(s: seq<nat>) {
    forall i, j :: 0 <= i < j < |s| ==> s[i] != s[j]
  }

  /** Every child of q links back to q. */
  predicate ChildLinks(cl: seq<Clique>, q: nat)
    requires q < |cl|
  {
    forall j :: 0 <= j < |cl[q].children| ==>
      cl[q].children[j] < |cl| && cl[cl[q].children[j]].parent == Some(q)
  }

  /**
   * What removePath needs of the path from c: it reaches the root within
   * the fuel, visits no clique twice, and the children of every clique on it
   * link back to that clique.
   */
  predicate PathInv(t: Tree, c: nat, fuel: nat)
  {
    ParentsInRange(t.cliques) && c < |t.cliques| && Reaches(t.cliques, c, fuel) &&
    Distinct(PathUp(t.cliques, c, fuel)) &&
    forall q :: q in PathUp(t.cliques, c, fuel) ==> ChildLinks(t.cliques, q)
  }

  /** The conditionals of a path, the last clique's first. */
  function RootFirst(cl: seq<Clique>, path: seq<nat>): (r: seq<Conditional>)
    requires forall i :: 0 <= i < |path| ==> path[i] < |cl|
    ensures |r| == |path|
    ensures forall i :: 0 <= i < |path| ==> r[i] == cl[path[|path| - 1 - i]].conditional
  {
    if path == [] then [] else RootFirst(cl, path[1..]) + [cl[path[0]].conditional]
  }

  function Elems(s: seq<nat>): set<nat> { set x | x in s }

  lemma ElemsAppend(a: seq<nat>, b: seq<nat>)
    ensures Elems(a + b) == Elems(a) + Elems(b)
    ensures Elems([]) == {} && (|a| == 1 ==> Elems(a) == {a[0]})
  {
  }

  lemma ElemsRemoveAll(s: seq<nat>, x: nat)
    ensures Elems(RemoveAll(s, x)) == Elems(s) - {x}
  {
  }

  /** The children of the cliques on a path, all together. */
  function Spliced(cl: seq<Clique>, path: seq<nat>): set<nat>
    requires forall i :: 0 <= i < |path| ==> path[i] < |cl|
  {
    if path == [] then {} else Elems(cl[path[0]].children) + Spliced(cl, path[1..])
  }

  lemma SplicedCons(cl: seq<Clique>, c: nat, path: seq<nat>)
    requires c < |cl| && forall i :: 0 <= i < |path| ==> path[i] < |cl|
    ensures forall i :: 0 <= i < |[c] + path| ==> ([c] + path)[i] < |cl|
    ensures Spliced(cl, [c] + path) == Elems(cl[c].children) + Spliced(cl, path)
  {
    assert ([c] + path)[1..] == path;
  }

  /** The keys, frontal and parent, of the conditionals on a path. */
  function PathKeys(cl: seq<Clique>, path: seq<nat>): set<nat>
    requires forall i :: 0 <= i < |path| ==> path[i] < |cl|
  {
    if path == [] then {} else Elems(cl[path[0]].conditional.keys) + PathKeys(cl, path[1..])
  }

  /** Along a walk that reaches the root, the parent of a visited clique is visited too. */
  lemma {:induction false} ParentOnPath(cl: seq<Clique>, x: nat, fuel: nat, q: nat)
    requires ParentsInRange(cl) && x < |cl| && Reaches(cl, x, fuel)
    requires q in PathUp(cl, x, fuel) && cl[q].parent.Some?
    ensures cl[q].parent.value in PathUp(cl, x, fuel)
    decreases fuel
  {
    if q != x {
      var p := cl[x].parent.value;
      ParentOnPath(cl, p, fuel - 1, q);
    } else if fuel > 1 {
      var p := cl[x].parent.value;
      assert PathUp(cl, p, fuel - 1)[0] == p;
    }
  }

  /** Two arenas that agree on the parent links along a walk give the same walk. */
  lemma {:induction false} PathFrame(cl1: seq<Clique>, cl2: seq<Clique>, x: nat, fuel: nat)
    requires ParentsInRange(cl1) && ParentsInRange(cl2) && x < |cl1| == |cl2|
    requires forall q :: q in PathUp(cl1, x, fuel) ==> cl2[q].parent == cl1[q].parent
    ensures PathUp(cl2, x, fuel) == PathUp(cl1, x, fuel)
    ensures Reaches(cl1, x, fuel) ==> Reaches(cl2, x, fuel)
    decreases fuel
  {
    if fuel > 0 {
      assert x in PathUp(cl1, x, fuel);
      if cl1[x].parent.Some? {
        PathFrame(cl1, cl2, cl1[x].parent.value, fuel - 1);
      }
    }
  }

  /** The walk from c that goes on to its parent p. */
  lemma PathStep(cl: seq<Clique>, c: nat, fuel: nat, p: nat)
    requires ParentsInRange(cl) && c < |cl| && cl[c].parent == Some(p)
    requires Reaches(cl, c, fuel) && Distinct(PathUp(cl, c, fuel))
    ensures fuel > 1 && p < |cl| && PathUp(cl, c, fuel) == [c] + PathUp(cl, p, fuel - 1)
    ensures Reaches(cl, p, fuel - 1) && Distinct(PathUp(cl, p, fuel - 1))
    ensures c !in PathUp(cl, p, fuel - 1) && p != c
  {
    var P := PathUp(cl, p, fuel - 1);
    assert ([c] + P)[1..] == P;
    assert P[0] == p;
  }

  /** No child of a clique lies on the walk up from it. */
  lemma ChildrenOffPath(cl: seq<Clique>, c: nat, fuel: nat)
    requires ParentsInRange(cl) && c < |cl| && ChildLinks(cl, c)
    requires Reaches(cl, c, fuel) && Distinct(PathUp(cl, c, fuel))
    ensures forall x :: x in cl[c].children ==> x !in PathUp(cl, c, fuel)
  {
    forall x | x in cl[c].children
      ensures x !in PathUp(cl, c, fuel)
    {
      var j :| 0 <= j < |cl[c].children| && cl[c].children[j] == x;
      assert cl[x].parent == Some(c);
      if x in PathUp(cl, c, fuel) {
        var p := cl[c].parent.value;
        PathStep(cl, c, fuel, p);
        if x != c {
          ParentOnPath(cl, p, fuel - 1, x);
        }
      }
    }
  }

  /**
   * One step of removePath: after removeClique(c) the walk above c is the
   * same as before and the invariant holds there.
   */
  lemma RemoveStep(t: Tree, c: nat, fuel: nat, p: nat)
    requires PathInv(t, c, fuel) && t.cliques[c].parent == Some(p)
    ensures fuel > 1 && p < |t.cliques|
    ensures Detached(t, c) == t.cliques[c].children
    ensures RemoveClique(t, c).cliques[c].parent == Some(p)
    ensures PathUp(RemoveClique(t, c).cliques, p, fuel - 1) == PathUp(t.cliques, p, fuel - 1)
    ensures PathInv(RemoveClique(t, c), p, fuel - 1)
  {
    var cl := t.cliques;
    var t1 := RemoveClique(t, c);
    PathStep(cl, c, fuel, p);
    ChildrenOffPath(cl, c, fuel);
    var P := PathUp(cl, p, fuel - 1);
    assert Detached(t, c) == cl[c].children;
    assert forall q :: q in P ==> t1.cliques[q].parent == cl[q].parent && q in PathUp(cl, c, fuel) by {
      RemoveCliqueParents(t, c);
    }
    PathFrame(cl, t1.cliques, p, fuel - 1);
    forall q | q in P
      ensures ChildLinks(t1.cliques, q)
    {
      ChildLinksAfterRemove(t, c, q);
    }
    RemoveCliqueParents(t, c);
  }

  /** removeClique(c) leaves the child links of any other clique intact. */
  lemma ChildLinksAfterRemove(t: Tree, c: nat, q: nat)
    requires ParentsInRange(t.cliques) && c < |t.cliques| && q < |t.cliques| && q != c
    requires ChildLinks(t.cliques, c) && ChildLinks(t.cliques, q)
    requires Detached(t, c) == t.cliques[c].children
    ensures ChildLinks(RemoveClique(t, c).cliques, q)
  {
    var cl := t.cliques;
    var t1 := RemoveClique(t, c);
    RemoveCliqueParents(t, c);
    RemoveCliqueChildren(t, c);
    forall j | 0 <= j < |t1.cliques[q].children|
      ensures t1.cliques[q].children[j] < |t1.cliques|
      ensures t1.cliques[t1.cliques[q].children[j]].parent == Some(q)
    {
      var x := t1.cliques[q].children[j];
      assert x in cl[q].children;
      var i :| 0 <= i < |cl[q].children| && cl[q].children[i] == x;
      assert cl[x].parent == Some(q);
      assert forall k :: 0 <= k < |cl[c].children| ==> cl[c].children[k] != x;
    }
  }

  // ---------------------------------------------------------------------
  // What removePath does, for a walk that reaches the root.  Each property
  // is proved by a lemma for the root clique, one for a clique with a
  // parent (which appeals to the property one level up), and a step lemma
  // that reads the result off one unfolding of removePath.

  lemma {:induction false} RootFirstFrame(cl1: seq<Clique>, cl2: seq<Clique>, path: seq<nat>)
    requires forall i :: 0 <= i < |path| ==> path[i] < |cl1| && path[i] < |cl2|
    requires forall i :: 0 <= i < |path| ==> cl1[path[i]].conditional == cl2[path[i]].conditional
    ensures RootFirst(cl1, path) == RootFirst(cl2, path)
  {
    var r1, r2 := RootFirst(cl1, path), RootFirst(cl2, path);
    assert forall i :: 0 <= i < |path| ==> r1[i] == r2[i];
  }

  /** removePath on a clique without a parent: only that clique goes. */
  lemma RemovePathLast(t: Tree, c: nat, bn: seq<Conditional>, orphans: seq<nat>, fuel: nat)
    requires ParentsInRange(t.cliques) && c < |t.cliques| && fuel > 0 && t.cliques[c].parent.None?
    ensures var t1 := RemoveClique(t, c);
      RemovePath(t, Some(c), bn, orphans, fuel) ==
        Removal(t1.(cliques := t1.cliques[c := t1.cliques[c].(children := [])]),
                bn + [t.cliques[c].conditional], t1.cliques[c].children + RemoveAll(orphans, c))
  {
    RemoveCliqueParents(t, c);
  }

  /** One level of removePath, for a clique whose parent link survives removeClique. */
  lemma RemovePathUnfold(t: Tree, c: nat, bn: seq<Conditional>, orphans: seq<nat>, fuel: nat, p: nat)
    requires ParentsInRange(t.cliques) && c < |t.cliques| && fuel > 0
    requires RemoveClique(t, c).cliques[c].parent == Some(p)
    ensures var r2 := RemovePath(RemoveClique(t, c), Some(p), bn, RemoveAll(orphans, c), fuel - 1);
      RemovePath(t, Some(c), bn, orphans, fuel) ==
        Removal(r2.tree.(cliques := r2.tree.cliques[c := r2.tree.cliques[c].(children := [])]),
                r2.bn + [t.cliques[c].conditional], r2.tree.cliques[c].children + r2.orphans)
  {
  }

  // --- the Bayes net

  /** The Bayes net receives the conditionals of the path, the root's first. */
  lemma {:induction false} RemovePathNet(t: Tree, c: nat, bn: seq<Conditional>, orphans: seq<nat>, fuel: nat)
    requires PathInv(t, c, fuel)
    ensures RemovePath(t, Some(c), bn, orphans, fuel).bn == bn + RootFirst(t.cliques, PathUp(t.cliques, c, fuel))
    decreases fuel, 1
  {
    if t.cliques[c].parent.None? {
      RemovePathLast(t, c, bn, orphans, fuel);
      assert PathUp(t.cliques, c, fuel) == [c];
    } else {
      RemovePathNetUp(t, c, bn, orphans, fuel, t.cliques[c].parent.value);
    }
  }

  lemma {:induction false} RemovePathNetUp(t: Tree, c: nat, bn: seq<Conditional>, orphans: seq<nat>, fuel: nat, p: nat)
    requires PathInv(t, c, fuel) && t.cliques[c].parent == Some(p)
    ensures RemovePath(t, Some(c), bn, orphans, fuel).bn == bn + RootFirst(t.cliques, PathUp(t.cliques, c, fuel))
    decreases fuel, 0
  {
    var t1 := RemoveClique(t, c);
    PathStep(t.cliques, c, fuel, p);
    RemoveStep(t, c, fuel, p);
    var P := PathUp(t.cliques, p, fuel - 1);
    RemovePathNet(t1, p, bn, RemoveAll(orphans, c), fuel - 1);
    RemoveCliqueChildren(t, c);
    RootFirstFrame(t1.cliques, t.cliques, P);
    NetStep(t, c, bn, orphans, fuel, p, P);
  }

  lemma NetStep(t: Tree, c: nat, bn: seq<Conditional>, orphans: seq<nat>, fuel: nat, p: nat, P: seq<nat>)
    requires ParentsInRange(t.cliques) && c < |t.cliques| && fuel > 0
    requires RemoveClique(t, c).cliques[c].parent == Some(p)
    requires PathUp(t.cliques, c, fuel) == [c] + P
    requires forall i :: 0 <= i < |P| ==> P[i] < |t.cliques|
    requires RemovePath(RemoveClique(t, c), Some(p), bn, RemoveAll(orphans, c), fuel - 1).bn == bn + RootFirst(t.cliques, P)
    ensures RemovePath(t, Some(c), bn, orphans, fuel).bn == bn + RootFirst(t.cliques, PathUp(t.cliques, c, fuel))
  {
    RemovePathUnfold(t, c, bn, orphans, fuel, p);
    assert ([c] + P)[1..] == P;
  }

  // --- child lists

  /** The removed cliques lose their children; every other child list is as before. */
  lemma {:induction false} RemovePathChildren(t: Tree, c: nat, bn: seq<Conditional>, orphans: seq<nat>, fuel: nat)
    requires PathInv(t, c, fuel)
    ensures var r := RemovePath(t, Some(c), bn, orphans, fuel);
      forall i :: 0 <= i < |t.cliques| ==>
        r.tree.cliques[i].children == if i in PathUp(t.cliques, c, fuel) then [] else t.cliques[i].children
    decreases fuel, 1
  {
    if t.cliques[c].parent.None? {
      RemovePathLast(t, c, bn, orphans, fuel);
      RemoveCliqueChildren(t, c);
      assert PathUp(t.cliques, c, fuel) == [c];
    } else {
      RemovePathChildrenUp(t, c, bn, orphans, fuel, t.cliques[c].parent.value);
    }
  }

  lemma {:induction false} RemovePathChildrenUp(t: Tree, c: nat, bn: seq<Conditional>, orphans: seq<nat>, fuel: nat, p: nat)
    requires PathInv(t, c, fuel) && t.cliques[c].parent == Some(p)
    ensures var r := RemovePath(t, Some(c), bn, orphans, fuel);
      forall i :: 0 <= i < |t.cliques| ==>
        r.tree.cliques[i].children == if i in PathUp(t.cliques, c, fuel) then [] else t.cliques[i].children
    decreases fuel, 0
  {
    var t1 := RemoveClique(t, c);
    PathStep(t.cliques, c, fuel, p);
    RemoveStep(t, c, fuel, p);
    var P := PathUp(t.cliques, p, fuel - 1);
    RemovePathChildren(t1, p, bn, RemoveAll(orphans, c), fuel - 1);
    RemoveCliqueChildren(t, c);
    ChildrenStep(t, c, bn, orphans, fuel, p, P);
  }

  lemma ChildrenStep(t: Tree, c: nat, bn: seq<Conditional>, orphans: seq<nat>, fuel: nat, p: nat, P: seq<nat>)
    requires ParentsInRange(t.cliques) && c < |t.cliques| && fuel > 0 && p in P
    requires RemoveClique(t, c).cliques[c].parent == Some(p)
    requires PathUp(t.cliques, c, fuel) == [c] + P
    requires forall i :: 0 <= i < |t.cliques| ==>
      RemovePath(RemoveClique(t, c), Some(p), bn, RemoveAll(orphans, c), fuel - 1).tree.cliques[i].children ==
        if i in P then [] else RemoveClique(t, c).cliques[i].children
    requires forall i :: 0 <= i < |t.cliques| && i != p ==> RemoveClique(t, c).cliques[i].children == t.cliques[i].children
    ensures var r := RemovePath(t, Some(c), bn, orphans, fuel);
      forall i :: 0 <= i < |t.cliques| ==>
        r.tree.cliques[i].children == if i in PathUp(t.cliques, c, fuel) then [] else t.cliques[i].children
  {
    RemovePathUnfold(t, c, bn, orphans, fuel, p);
  }

  // --- orphans

  lemma {:induction false} SplicedFrame(cl1: seq<Clique>, cl2: seq<Clique>, path: seq<nat>, x: nat)
    requires forall i :: 0 <= i < |path| ==> path[i] < |cl1| && path[i] < |cl2|
    requires forall i :: 0 <= i < |path| ==>
      Elems(cl2[path[i]].children) == Elems(cl1[path[i]].children) - {x}
    ensures Spliced(cl2, path) == Spliced(cl1, path) - {x}
  {
    if path != [] {
      SplicedFrame(cl1, cl2, path[1..], x);
    }
  }

  /** removeClique(c) takes c, and nothing else, out of the child lists along the walk above c. */
  lemma SplicedAfterRemove(t: Tree, c: nat, fuel: nat, p: nat)
    requires PathInv(t, c, fuel) && t.cliques[c].parent == Some(p)
    ensures fuel > 1 && p < |t.cliques|
    ensures Spliced(RemoveClique(t, c).cliques, PathUp(t.cliques, p, fuel - 1)) ==
      Spliced(t.cliques, PathUp(t.cliques, p, fuel - 1)) - {c}
  {
    var cl := t.cliques;
    var t1 := RemoveClique(t, c);
    PathStep(cl, c, fuel, p);
    var P := PathUp(cl, p, fuel - 1);
    RemoveCliqueChildren(t, c);
    forall i | 0 <= i < |P|
      ensures Elems(t1.cliques[P[i]].children) == Elems(cl[P[i]].children) - {c}
    {
      var q := P[i];
      assert q in PathUp(cl, c, fuel);
      assert ChildLinks(cl, q);
      if Some(q) == cl[c].parent {
        ElemsRemoveAll(cl[q].children, c);
      } else {
        assert forall k :: 0 <= k < |cl[q].children| ==> cl[q].children[k] != c;
      }
    }
    SplicedFrame(cl, t1.cliques, P, c);
  }

  lemma SpliceAlgebra(orphans: set<nat>, kids: set<nat>, spliced: set<nat>, path: set<nat>, c: nat)
    requires forall x :: x in kids ==> x != c && x !in path
    ensures kids + (((orphans - {c}) + (spliced - {c})) - path) == (orphans + (kids + spliced)) - ({c} + path)
  {
  }

  /**
   * The orphans gain the children of the removed cliques, and no removed
   * clique is left among them.
   */
  lemma {:induction false} RemovePathOrphans(t: Tree, c: nat, bn: seq<Conditional>, orphans: seq<nat>, fuel: nat)
    requires PathInv(t, c, fuel)
    ensures var P := PathUp(t.cliques, c, fuel);
      Elems(RemovePath(t, Some(c), bn, orphans, fuel).orphans) ==
        (Elems(orphans) + Spliced(t.cliques, P)) - Elems(P)
    decreases fuel, 1
  {
    if t.cliques[c].parent.None? {
      RemovePathLast(t, c, bn, orphans, fuel);
      RemoveCliqueChildren(t, c);
      ChildrenOffPath(t.cliques, c, fuel);
      assert PathUp(t.cliques, c, fuel) == [c];
      assert Spliced(t.cliques, [c]) == Elems(t.cliques[c].children);
      assert Elems(RemoveAll(orphans, c)) == Elems(orphans) - {c};
      assert Elems(t.cliques[c].children + RemoveAll(orphans, c)) ==
        Elems(t.cliques[c].children) + Elems(RemoveAll(orphans, c));
    } else {
      RemovePathOrphansUp(t, c, bn, orphans, fuel, t.cliques[c].parent.value);
    }
  }

  lemma {:induction false} RemovePathOrphansUp(t: Tree, c: nat, bn: seq<Conditional>, orphans: seq<nat>, fuel: nat, p: nat)
    requires PathInv(t, c, fuel) && t.cliques[c].parent == Some(p)
    ensures var P := PathUp(t.cliques, c, fuel);
      Elems(RemovePath(t, Some(c), bn, orphans, fuel).orphans) ==
        (Elems(orphans) + Spliced(t.cliques, P)) - Elems(P)
    decreases fuel, 0
  {
    var t1 := RemoveClique(t, c);
    PathStep(t.cliques, c, fuel, p);
    RemoveStep(t, c, fuel, p);
    ChildrenOffPath(t.cliques, c, fuel);
    var P := PathUp(t.cliques, p, fuel - 1);
    var r2 := RemovePath(t1, Some(p), bn, RemoveAll(orphans, c), fuel - 1);
    RemovePathOrphans(t1, p, bn, RemoveAll(orphans, c), fuel - 1);
    SplicedAfterRemove(t, c, fuel, p);
    ElemsRemoveAll(orphans, c);
    RemovePathChildren(t1, p, bn, RemoveAll(orphans, c), fuel - 1);
    RemoveCliqueChildren(t, c);
    OrphansStep(t, c, bn, orphans, fuel, p, P);
  }

  lemma OrphansStep(t: Tree, c: nat, bn: seq<Conditional>, orphans: seq<nat>, fuel: nat, p: nat, P: seq<nat>)
    requires ParentsInRange(t.cliques) && c < |t.cliques| && fuel > 0
    requires RemoveClique(t, c).cliques[c].parent == Some(p)
    requires PathUp(t.cliques, c, fuel) == [c] + P && c !in P
    requires forall i :: 0 <= i < |P| ==> P[i] < |t.cliques|
    requires forall x :: x in t.cliques[c].children ==> x !in [c] + P
    requires var r2 := RemovePath(RemoveClique(t, c), Some(p), bn, RemoveAll(orphans, c), fuel - 1);
      r2.tree.cliques[c].children == t.cliques[c].children &&
      Elems(r2.orphans) == ((Elems(orphans) - {c}) + (Spliced(t.cliques, P) - {c})) - Elems(P)
    ensures var Q := PathUp(t.cliques, c, fuel);
      Elems(RemovePath(t, Some(c), bn, orphans, fuel).orphans) ==
        (Elems(orphans) + Spliced(t.cliques, Q)) - Elems(Q)
  {
    RemovePathUnfold(t, c, bn, orphans, fuel, p);
    var r2 := RemovePath(RemoveClique(t, c), Some(p), bn, RemoveAll(orphans, c), fuel - 1);
    var kids := t.cliques[c].children;
    SplicedCons(t.cliques, c, P);
    ElemsAppend([c], P);
    ElemsAppend(kids, r2.orphans);
    SpliceAlgebra(Elems(orphans), Elems(kids), Spliced(t.cliques, P), Elems(P), c);
  }

  // --- the index and the root

  lemma {:induction false} PathKeysFrame(cl1: seq<Clique>, cl2: seq<Clique>, path: seq<nat>)
    requires forall i :: 0 <= i < |path| ==> path[i] < |cl1| && path[i] < |cl2|
    requires forall i :: 0 <= i < |path| ==> cl1[path[i]].conditional == cl2[path[i]].conditional
    ensures PathKeys(cl1, path) == PathKeys(cl2, path)
  {
    if path != [] {
      PathKeysFrame(cl1, cl2, path[1..]);
    }
  }

  /**
   * The index loses exactly the keys of the removed conditionals, and the
   * tree loses its root.
   */
  lemma {:induction false} RemovePathIndex(t: Tree, c: nat, bn: seq<Conditional>, orphans: seq<nat>, fuel: nat)
    requires PathInv(t, c, fuel)
    ensures var r := RemovePath(t, Some(c), bn, orphans, fuel);
      r.tree.root.None? &&
      forall k :: 0 <= k < |t.nodes| ==>
        r.tree.nodes[k] == if k in PathKeys(t.cliques, PathUp(t.cliques, c, fuel)) then None else t.nodes[k]
    decreases fuel, 1
  {
    if t.cliques[c].parent.None? {
      RemovePathLast(t, c, bn, orphans, fuel);
      RemoveCliqueNodes(t, c);
      RemoveCliqueRoot(t, c);
      assert PathUp(t.cliques, c, fuel) == [c];
    } else {
      RemovePathIndexUp(t, c, bn, orphans, fuel, t.cliques[c].parent.value);
    }
  }

  lemma {:induction false} RemovePathIndexUp(t: Tree, c: nat, bn: seq<Conditional>, orphans: seq<nat>, fuel: nat, p: nat)
    requires PathInv(t, c, fuel) && t.cliques[c].parent == Some(p)
    ensures var r := RemovePath(t, Some(c), bn, orphans, fuel);
      r.tree.root.None? &&
      forall k :: 0 <= k < |t.nodes| ==>
        r.tree.nodes[k] == if k in PathKeys(t.cliques, PathUp(t.cliques, c, fuel)) then None else t.nodes[k]
    decreases fuel, 0
  {
    var t1 := RemoveClique(t, c);
    PathStep(t.cliques, c, fuel, p);
    RemoveStep(t, c, fuel, p);
    var P := PathUp(t.cliques, p, fuel - 1);
    RemovePathIndex(t1, p, bn, RemoveAll(orphans, c), fuel - 1);
    IndexStep(t, c, bn, orphans, fuel, p, P);
  }

  lemma IndexStep(t: Tree, c: nat, bn: seq<Conditional>, orphans: seq<nat>, fuel: nat, p: nat, P: seq<nat>)
    requires ParentsInRange(t.cliques) && c < |t.cliques| && fuel > 0
    requires RemoveClique(t, c).cliques[c].parent == Some(p)
    requires PathUp(t.cliques, c, fuel) == [c] + P
    requires forall i :: 0 <= i < |P| ==> P[i] < |t.cliques|
    requires var t1 := RemoveClique(t, c);
      var r2 := RemovePath(t1, Some(p), bn, RemoveAll(orphans, c), fuel - 1);
      r2.tree.root.None? &&
      forall k :: 0 <= k < |t.nodes| ==>
        r2.tree.nodes[k] == if k in PathKeys(t1.cliques, P) then None else t1.nodes[k]
    ensures var r := RemovePath(t, Some(c), bn, orphans, fuel);
      r.tree.root.None? &&
      forall k :: 0 <= k < |t.nodes| ==>
        r.tree.nodes[k] == if k in PathKeys(t.cliques, PathUp(t.cliques, c, fuel)) then None else t.nodes[k]
  {
    RemovePathUnfold(t, c, bn, orphans, fuel, p);
    RemoveCliqueNodes(t, c);
    RemoveCliqueChildren(t, c);
    PathKeysFrame(t.cliques, RemoveClique(t, c).cliques, P);
    assert ([c] + P)[1..] == P;
    assert PathKeys(t.cliques, [c] + P) == Elems(t.cliques[c].conditional.keys) + PathKeys(t.cliques, P);
  }

  // --- parent links

  /**
   * The children of removed cliques lose their parent link; every other
   * parent link, the removed cliques' own included, is as before.
   */
  lemma {:induction false} RemovePathParents(t: Tree, c: nat, bn: seq<Conditional>, orphans: seq<nat>, fuel: nat)
    requires PathInv(t, c, fuel)
    ensures var r := RemovePath(t, Some(c), bn, orphans, fuel);
      var P := PathUp(t.cliques, c, fuel);
      forall i :: 0 <= i < |t.cliques| ==>
        r.tree.cliques[i].parent == if i in Spliced(t.cliques, P) - Elems(P) then None else t.cliques[i].parent
    decreases fuel, 1
  {
    if t.cliques[c].parent.None? {
      RemovePathLast(t, c, bn, orphans, fuel);
      RemoveCliqueParents(t, c);
      ChildrenOffPath(t.cliques, c, fuel);
      assert PathUp(t.cliques, c, fuel) == [c];
      assert Spliced(t.cliques, [c]) == Elems(t.cliques[c].children);
    } else {
      RemovePathParentsUp(t, c, bn, orphans, fuel, t.cliques[c].parent.value);
    }
  }

  lemma {:induction false} RemovePathParentsUp(t: Tree, c: nat, bn: seq<Conditional>, orphans: seq<nat>, fuel: nat, p: nat)
    requires PathInv(t, c, fuel) && t.cliques[c].parent == Some(p)
    ensures var r := RemovePath(t, Some(c), bn, orphans, fuel);
      var P := PathUp(t.cliques, c, fuel);
      forall i :: 0 <= i < |t.cliques| ==>
        r.tree.cliques[i].parent == if i in Spliced(t.cliques, P) - Elems(P) then None else t.cliques[i].parent
    decreases fuel, 0
  {
    var t1 := RemoveClique(t, c);
    RemoveStep(t, c, fuel, p);
    RemovePathParents(t1, p, bn, RemoveAll(orphans, c), fuel - 1);
    ParentsRewrite(t, c, fuel, p, RemovePath(t1, Some(p), bn, RemoveAll(orphans, c), fuel - 1).tree.cliques);
    ParentsStep(t, c, bn, orphans, fuel, p);
  }


  /** The parent links above c, restated from the tree without c in terms of the original tree. */
  lemma ParentsRewrite(t: Tree, c: nat, fuel: nat, p: nat, cl2: seq<Clique>)
    requires PathInv(t, c, fuel) && t.cliques[c].parent == Some(p) && |cl2| == |t.cliques|
    requires var t1 := RemoveClique(t, c);
      p < |t1.cliques| &&
      var P1 := PathUp(t1.cliques, p, fuel - 1);
      forall i :: 0 <= i < |t.cliques| ==>
        cl2[i].parent == if i in Spliced(t1.cliques, P1) - Elems(P1) then None else t1.cliques[i].parent
    ensures fuel > 1 && p < |t.cliques|
    ensures var P := PathUp(t.cliques, p, fuel - 1);
      forall i :: 0 <= i < |t.cliques| ==>
        cl2[i].parent == if i in (Spliced(t.cliques, P) - {c}) - Elems(P) then None else RemoveClique(t, c).cliques[i].parent
  {
    RemoveStep(t, c, fuel, p);
    SplicedAfterRemove(t, c, fuel, p);
  }

  lemma ParentsStep(t: Tree, c: nat, bn: seq<Conditional>, orphans: seq<nat>, fuel: nat, p: nat)
    requires PathInv(t, c, fuel) && t.cliques[c].parent == Some(p) && fuel > 1 && p < |t.cliques|
    requires var r2 := RemovePath(RemoveClique(t, c), Some(p), bn, RemoveAll(orphans, c), fuel - 1);
      var P := PathUp(t.cliques, p, fuel - 1);
      forall i :: 0 <= i < |t.cliques| ==>
        r2.tree.cliques[i].parent ==
          if i in (Spliced(t.cliques, P) - {c}) - Elems(P) then None else RemoveClique(t, c).cliques[i].parent
    ensures var r := RemovePath(t, Some(c), bn, orphans, fuel);
      var Q := PathUp(t.cliques, c, fuel);
      forall i :: 0 <= i < |t.cliques| ==>
        r.tree.cliques[i].parent == if i in Spliced(t.cliques, Q) - Elems(Q) then None else t.cliques[i].parent
  {
    PathStep(t.cliques, c, fuel, p);
    RemoveStep(t, c, fuel, p);
    ChildrenOffPath(t.cliques, c, fuel);
    var P := PathUp(t.cliques, p, fuel - 1);
    RemovePathUnfold(t, c, bn, orphans, fuel, p);
    RemoveCliqueParents(t, c);
    SplicedCons(t.cliques, c, P);
    ElemsAppend([c], P);
  }


  // ---------------------------------------------------------------------
  // insert(clique, children, isRoot), insert(subtree), fillNodesIndex, clear

  const EmptyCliqueMessage := "BayesTree::insert: empty clique!"

  /**
   * insert(clique, children, isRootClique): rejects a conditional without
   * frontal keys; otherwise adds a clique over the given children and makes
   * it the root when asked.
   */
  function InsertClique(t: Tree, cond: Conditional, children: seq<nat>, isRoot: bool): (r: Result<Tree>)
    requires cond.nrFrontals > 0 ==> Indexable(cond)
    requires WellFormed(t)
    requires forall j :: 0 <= j < |children| ==> children[j] < |t.cliques|
    ensures cond.nrFrontals == 0 <==> r.Err?
    ensures r.Err? ==> r.error == InvalidArgument(EmptyCliqueMessage)
    ensures r.Ok? ==>
      WellFormed(r.value) && |r.value.cliques| == |t.cliques| + 1 &&
      r.value.cliques[|t.cliques|] == Clique(cond, None, children) &&
      r.value.root == (if isRoot then Some(|t.cliques|) else t.root)
  {
    if cond.nrFrontals == 0 then Err(InvalidArgument(EmptyCliqueMessage))
    else
      var added := AddCliqueOver(t, cond, children);
      Ok(if isRoot then added.(root := Some(|t.cliques|)) else added)
  }

  /** The cliques below c, c first, in the order the child lists are walked (at most `fuel` deep). */
  function PreOrder(cl: seq<Clique>, c: nat, fuel: nat): (r: seq<nat>)
    requires c < |cl| && ChildrenInRange(cl)
    ensures fuel > 0 ==> |r| > 0 && r[0] == c
    ensures forall i :: 0 <= i < |r| ==> r[i] < |cl|
    decreases fuel, 0
  {
    if fuel == 0 then [] else [c] + PreOrderAll(cl, cl[c].children, fuel - 1)
  }

  function PreOrderAll(cl: seq<Clique>, cs: seq<nat>, fuel: nat): (r: seq<nat>)
    requires ChildrenInRange(cl) && forall j :: 0 <= j < |cs| ==> cs[j] < |cl|
    ensures forall i :: 0 <= i < |r| ==> r[i] < |cl|
    decreases fuel, 1, |cs|
  {
    if cs == [] then [] else PreOrder(cl, cs[0], fuel) + PreOrderAll(cl, cs[1..], fuel)
  }

  /** One step of the pre-order walk: the clique, then its children's subtrees. */
  lemma PreOrderUnfold(cl: seq<Clique>, c: nat, fuel: nat)
    requires c < |cl| && ChildrenInRange(cl) && fuel > 0
    ensures PreOrder(cl, c, fuel) == [c] + PreOrderAll(cl, cl[c].children, fuel - 1)
  {
  }

  /** One step of the walk over a list of children. */
  lemma PreOrderAllUnfold(cl: seq<Clique>, cs: seq<nat>, fuel: nat)
    requires ChildrenInRange(cl) && forall j :: 0 <= j < |cs| ==> cs[j] < |cl|
    ensures cs == [] ==> PreOrderAll(cl, cs, fuel) == []
    ensures cs != [] ==>
      PreOrderAll(cl, cs, fuel) == PreOrder(cl, cs[0], fuel) + PreOrderAll(cl, cs[1..], fuel)
  {
  }

  predicate ChildrenInRange(cl: seq<Clique>) {
    forall i, j :: 0 <= i < |cl| && 0 <= j < |cl[i].children| ==> cl[i].children[j] < |cl|
  }

  /**
   * fillNodesIndex(subtree): points every frontal key of every clique of
   * the subtree at that clique, parents before children.  Keys beyond the
   * index are skipped.
   */
  function FillNodesIndex(nodes: seq<Option<nat>>, cl: seq<Clique>, c: nat, fuel: nat): (r: seq<Option<nat>>)
    requires c < |cl| && ChildrenInRange(cl) && forall i :: 0 <= i < |cl| ==> cl[i].conditional.Sized()
    ensures |r| == |nodes|
    decreases fuel, 0
  {
    if fuel == 0 then nodes
    else FillAll(Assign(nodes, cl[c].conditional.Frontals(), Some(c)), cl, cl[c].children, fuel - 1)
  }

  function FillAll(nodes: seq<Option<nat>>, cl: seq<Clique>, cs: seq<nat>, fuel: nat): (r: seq<Option<nat>>)
    requires ChildrenInRange(cl) && forall i :: 0 <= i < |cl| ==> cl[i].conditional.Sized()
    requires forall j :: 0 <= j < |cs| ==> cs[j] < |cl|
    ensures |r| == |nodes|
    decreases fuel, 1, |cs|
  {
    if cs == [] then nodes else FillAll(FillNodesIndex(nodes, cl, cs[0], fuel), cl, cs[1..], fuel)
  }

  /** Every entry fillNodesIndex writes names a clique of the subtree that has that key as a frontal. */
  predicate FilledFrom(nodes: seq<Option<nat>>, r: seq<Option<nat>>, cl: seq<Clique>, sub: seq<nat>)
    requires |r| == |nodes| && forall i :: 0 <= i < |cl| ==> cl[i].conditional.Sized()
  {
    forall k :: 0 <= k < |r| ==>
      r[k] == nodes[k] ||
      (r[k].Some? && r[k].value in sub && r[k].value < |cl| && k in cl[r[k].value].conditional.Frontals())
  }

  lemma {:induction false} FillNodesIndexSound(nodes: seq<Option<nat>>, cl: seq<Clique>, c: nat, fuel: nat)
    requires c < |cl| && ChildrenInRange(cl) && forall i :: 0 <= i < |cl| ==> cl[i].conditional.Sized()
    ensures FilledFrom(nodes, FillNodesIndex(nodes, cl, c, fuel), cl, PreOrder(cl, c, fuel))
    decreases fuel, 0
  {
    if fuel > 0 {
      var a := Assign(nodes, cl[c].conditional.Frontals(), Some(c));
      FillAllSound(a, cl, cl[c].children, fuel - 1);
    }
  }

  lemma {:induction false} FillAllSound(nodes: seq<Option<nat>>, cl: seq<Clique>, cs: seq<nat>, fuel: nat)
    requires ChildrenInRange(cl) && forall i :: 0 <= i < |cl| ==> cl[i].conditional.Sized()
    requires forall j :: 0 <= j < |cs| ==> cs[j] < |cl|
    ensures FilledFrom(nodes, FillAll(nodes, cl, cs, fuel), cl, PreOrderAll(cl, cs, fuel))
    decreases fuel, 1, |cs|
  {
    if cs != [] {
      var a := FillNodesIndex(nodes, cl, cs[0], fuel);
      FillNodesIndexSound(nodes, cl, cs[0], fuel);
      FillAllSound(a, cl, cs[1..], fuel);
    }
  }

  /** The largest key of a non-empty list. */
  function MaxKey(s: seq<Index>): (m: Index)
    requires |s| > 0
    ensures m in s
    ensures forall x :: x in s ==> x <= m
  {
    if |s| == 1 then s[0]
    else
      var m := MaxKey(s[1..]);
      assert s == [s[0]] + s[1..];
      if s[0] >= m then s[0] else m
  }

  /** What insert(subtree) needs: a root slot, or an indexed lowest-ordered parent. */
  predicate CanInsertSubtree(t: Tree, s: nat)
  {
    WellFormed(t) && ChildrenInRange(t.cliques) && s < |t.cliques| &&
    (forall i :: 0 <= i < |t.cliques| ==> t.cliques[i].conditional.Sized()) &&
    Indexable(t.cliques[s].conditional) &&
    var cond := t.cliques[s].conditional;
    (cond.Parents() == [] ==> t.root.None?) &&
    (cond.Parents() != [] ==>
      var rep := MinKey(cond.Parents());
      rep < |t.nodes| && t.nodes[rep].Some?)
  }

  /** The largest frontal key of an indexable conditional is its last one. */
  lemma MaxFrontal(cond: Conditional)
    requires Indexable(cond)
    ensures MaxKey(cond.Frontals()) == cond.LastFrontalKey()
  {
    var f := cond.Frontals();
    assert cond.LastFrontalKey() == f[cond.nrFrontals - 1];
    assert f[cond.nrFrontals - 1] in f;
    var j :| 0 <= j < |f| && f[j] == MaxKey(f);
    assert cond.keys[j] <= cond.keys[cond.nrFrontals - 1];
  }

  /**
   * The index growth of insert(subtree): resized to one past the last
   * frontal key when it is empty or the largest frontal key does not fit.
   */
  function GrowFor(nodes: seq<Option<nat>>, cond: Conditional): (r: seq<Option<nat>>)
    requires Indexable(cond)
    ensures r == Resize(nodes, Max(cond.LastFrontalKey() + 1, |nodes|))
  {
    MaxFrontal(cond);
    if |nodes| == 0 || MaxKey(cond.Frontals()) > |nodes| - 1 then Resize(nodes, cond.LastFrontalKey() + 1)
    else nodes
  }

  /** The link step of insert(subtree): made the root, or appended to its parent clique's children. */
  function Link(t: Tree, c: nat): (r: Tree)
    requires CanInsertSubtree(t, c)
    ensures |r.cliques| == |t.cliques| && r.nodes == t.nodes && ChildrenInRange(r.cliques)
    ensures forall i :: 0 <= i < |t.cliques| ==> r.cliques[i].conditional == t.cliques[i].conditional
    ensures t.cliques[c].conditional.Parents() == [] ==> r.root == Some(c) && r.cliques == t.cliques
    ensures t.cliques[c].conditional.Parents() != [] ==>
        var p := t.nodes[MinKey(t.cliques[c].conditional.Parents())].value;
        r.root == t.root && r.cliques[c].parent == Some(p) &&
        r.cliques[p].children == t.cliques[p].children + [c] &&
        forall i :: 0 <= i < |t.cliques| && i != p && i != c ==> r.cliques[i] == t.cliques[i]
  {
    var cond := t.cliques[c].conditional;
    if cond.Parents() == [] then t.(root := Some(c))
    else
      var p := t.nodes[MinKey(cond.Parents())].value;
      var withChild := t.cliques[p := t.cliques[p].(children := t.cliques[p].children + [c])];
      t.(cliques := withChild[c := withChild[c].(parent := Some(p))])
  }

  /**
   * insert(subtree): hangs a subtree that already sits in the arena under the
   * clique of its lowest-ordered parent key (or makes it the root), grows the
   * index when the subtree root's frontal keys do not fit, and indexes the
   * whole subtree.  A null subtree changes nothing.
   */
  function InsertSubtree(t: Tree, s: Option<nat>): (r: Tree)
    requires s.Some? ==> CanInsertSubtree(t, s.value)
    ensures s.None? ==> r == t
    ensures s.Some? ==>
      var cond := t.cliques[s.value].conditional;
      |r.cliques| == |t.cliques| &&
      |r.nodes| == Max(cond.LastFrontalKey() + 1, |t.nodes|)
  {
    if s.None? then t
    else
      var linked := Link(t, s.value);
      linked.(nodes := FillNodesIndex(GrowFor(t.nodes, t.cliques[s.value].conditional), linked.cliques, s.value, |t.cliques|))
  }

  /**
   * insert(subtree) links the subtree root as Link says and changes an index
   * entry only to point a key at a clique of the subtree having it as a frontal.
   */
  lemma InsertSubtreeEffect(t: Tree, s: nat)
    requires CanInsertSubtree(t, s)
    ensures var r := InsertSubtree(t, Some(s));
      r.cliques == Link(t, s).cliques && r.root == Link(t, s).root &&
      FilledFrom(GrowFor(t.nodes, t.cliques[s].conditional), r.nodes, r.cliques, PreOrder(r.cliques, s, |t.cliques|))
  {
    var linked := Link(t, s);
    FillNodesIndexSound(GrowFor(t.nodes, t.cliques[s].conditional), linked.cliques, s, |t.cliques|);
  }

  /** clear(): empties the index and drops the root. */
  function Clear(t: Tree): (r: Tree)
    ensures r.nodes == [] && r.root.None?
    ensures Size(r) == 0
  {
    Tree(t.cliques, [], None)
  }

  /** The number of cliques reachable from the root. */
  function Size(t: Tree): (n: nat)
    ensures t.root.None? ==> n == 0
  {
    if t.root.Some? && t.root.value < |t.cliques| && ChildrenInRange(t.cliques)
    then |PreOrder(t.cliques, t.root.value, |t.cliques|)| else 0
  }

  /**
   * equals: same size, and the index entries agree slot by slot over this
   * tree's index: both empty, or both naming cliques with equal conditionals.
   */
  predicate Equals(t: Tree, other: Tree)
    requires WellFormed(t) && WellFormed(other) && |t.nodes| <= |other.nodes|
  {
    Size(t) == Size(other) &&
    forall k :: 0 <= k < |t.nodes| ==>
      (t.nodes[k].None? && other.nodes[k].None?) ||
      (t.nodes[k].Some? && other.nodes[k].Some? &&
       t.cliques[t.nodes[k].value].conditional == other.cliques[other.nodes[k].value].conditional)
  }

  /** Every well-formed tree equals itself. */
  lemma EqualsReflexive(t: Tree)
    requires WellFormed(t)
    ensures Equals(t, t)
  {
  }

  /** Over indexes of the same length, equals does not depend on which tree is compared with which. */
  lemma EqualsSymmetric(t: Tree, other: Tree)
    requires WellFormed(t) && WellFormed(other) && |t.nodes| == |other.nodes|
    ensures Equals(t, other) <==> Equals(other, t)
  {
  }

  // ---------------------------------------------------------------------
  // cloneTo, size, getCliqueData

  predicate AllIndexable(cl: seq<Clique>) {
    forall i :: 0 <= i < |cl| ==> Indexable(cl[i].conditional)
  }

  /**
   * cloneTo(newTree, subtree, parent): adds a copy of the subtree's clique
   * under `parent` (as the root when there is none), then clones each child
   * under the copy, in order.
   */
  function CloneSubtree(nt: Tree, cl: seq<Clique>, c: nat, parent: Option<nat>, fuel: nat): (r: Tree)
    requires WellFormed(nt) && ChildrenInRange(cl) && AllIndexable(cl) && c < |cl|
    requires parent.Some? ==> parent.value < |nt.cliques|
    requires parent.None? ==> nt.root.None?
    ensures WellFormed(r)
    ensures |r.cliques| == |nt.cliques| + |PreOrder(cl, c, fuel)|
    ensures parent.Some? ==> r.root == nt.root
    ensures parent.None? && fuel > 0 ==> r.root == Some(|nt.cliques|)
    decreases fuel, 0
  {
    if fuel == 0 then nt
    else CloneAll(AddClique(nt, cl[c].conditional, parent), cl, cl[c].children, |nt.cliques|, fuel - 1)
  }

  function CloneAll(nt: Tree, cl: seq<Clique>, cs: seq<nat>, parent: nat, fuel: nat): (r: Tree)
    requires WellFormed(nt) && ChildrenInRange(cl) && AllIndexable(cl) && parent < |nt.cliques|
    requires forall j :: 0 <= j < |cs| ==> cs[j] < |cl|
    ensures WellFormed(r) && r.root == nt.root
    ensures |r.cliques| == |nt.cliques| + |PreOrderAll(cl, cs, fuel)|
    decreases fuel, 1, |cs|
  {
    if cs == [] then nt
    else CloneAll(CloneSubtree(nt, cl, cs[0], Some(parent), fuel), cl, cs[1..], parent, fuel)
  }

  /** One step of cloneTo: the clique is added, then its children are cloned under it. */
  lemma CloneSubtreeReady(cl: seq<Clique>, c: nat)
    requires ChildrenInRange(cl) && AllIndexable(cl) && c < |cl|
    ensures Indexable(cl[c].conditional)
    ensures forall j :: 0 <= j < |cl[c].children| ==> cl[c].children[j] < |cl|
  {
  }

  lemma CloneSubtreeUnfold(nt: Tree, r: Tree, cl: seq<Clique>, c: nat, parent: Option<nat>, fuel: nat)
    requires WellFormed(nt) && ChildrenInRange(cl) && AllIndexable(cl) && c < |cl| && fuel > 0
    requires parent.Some? ==> parent.value < |nt.cliques|
    requires parent.None? ==> nt.root.None?
    requires r == CloneAll(AddClique(nt, cl[c].conditional, parent), cl, cl[c].children, |nt.cliques|, fuel - 1)
    ensures r == CloneSubtree(nt, cl, c, parent, fuel)
  {
  }

  /** One step of the loop over the children in cloneTo. */
  lemma CloneAllUnfold(nt: Tree, cl: seq<Clique>, cs: seq<nat>, parent: nat, fuel: nat)
    requires WellFormed(nt) && ChildrenInRange(cl) && AllIndexable(cl) && parent < |nt.cliques|
    requires forall j :: 0 <= j < |cs| ==> cs[j] < |cl|
    ensures cs == [] ==> CloneAll(nt, cl, cs, parent, fuel) == nt
    ensures cs != [] ==>
      CloneAll(nt, cl, cs, parent, fuel) ==
      CloneAll(CloneSubtree(nt, cl, cs[0], Some(parent), fuel), cl, cs[1..], parent, fuel)
  {
  }

  lemma AppendNil<T>(a: seq<T>)
    ensures a + [] == a
  {
  }

  lemma AppendAssociative<T>(a: seq<T>, b: seq<T>, c: seq<T>)
    ensures (a + b) + c == a + (b + c)
  {
  }

  /** The conditionals of a tree's cliques, by clique index. */
  function Conditionals(t: Tree): (r: seq<Conditional>)
    ensures |r| == |t.cliques|
  {
    seq(|t.cliques|, i requires 0 <= i < |t.cliques| => t.cliques[i].conditional)
  }

  /** The conditionals of the cliques a walk visits, in the order of the walk. */
  function ConditionalsAlong(cl: seq<Clique>, p: seq<nat>): (r: seq<Conditional>)
    requires forall i :: 0 <= i < |p| ==> p[i] < |cl|
    ensures |r| == |p|
  {
    seq(|p|, i requires 0 <= i < |p| => cl[p[i]].conditional)
  }

  lemma ConditionalsAlongAppend(cl: seq<Clique>, p1: seq<nat>, p2: seq<nat>)
    requires forall i :: 0 <= i < |p1| ==> p1[i] < |cl|
    requires forall i :: 0 <= i < |p2| ==> p2[i] < |cl|
    ensures forall i :: 0 <= i < |p1 + p2| ==> (p1 + p2)[i] < |cl|
    ensures ConditionalsAlong(cl, p1 + p2) == ConditionalsAlong(cl, p1) + ConditionalsAlong(cl, p2)
  {
    assert forall i :: 0 <= i < |p1 + p2| ==> (p1 + p2)[i] == if i < |p1| then p1[i] else p2[i - |p1|];
  }

  lemma ConditionalsAlongCons(cl: seq<Clique>, c: nat, p: seq<nat>)
    requires c < |cl| && forall i :: 0 <= i < |p| ==> p[i] < |cl|
    ensures forall i :: 0 <= i < |[c] + p| ==> ([c] + p)[i] < |cl|
    ensures ConditionalsAlong(cl, [c] + p) == [cl[c].conditional] + ConditionalsAlong(cl, p)
  {
    assert forall i :: 0 <= i < |[c] + p| ==> ([c] + p)[i] == if i == 0 then c else p[i - 1];
  }

  /** addClique appends the new conditional and changes no other. */
  lemma AddCliqueConditionals(t: Tree, cond: Conditional, parent: Option<nat>)
    requires WellFormed(t) && Indexable(cond)
    requires parent.Some? ==> parent.value < |t.cliques|
    requires parent.None? ==> t.root.None?
    ensures Conditionals(AddClique(t, cond, parent)) == Conditionals(t) + [cond]
  {
    var r := AddClique(t, cond, parent);
    forall i | 0 <= i < |t.cliques| ensures r.cliques[i].conditional == t.cliques[i].conditional {
      if Some(i) == parent {
        assert r.cliques[i] == t.cliques[i].(children := t.cliques[i].children + [|t.cliques|]);
      }
    }
    assert Conditionals(r) == Conditionals(t) + [cond];
  }

  /**
   * Cloning keeps the conditionals already in the new tree and appends the
   * subtree's conditionals in pre-order.
   */
  lemma {:induction false} CloneSubtreeConditionals(nt: Tree, cl: seq<Clique>, c: nat, parent: Option<nat>, fuel: nat)
    requires WellFormed(nt) && ChildrenInRange(cl) && AllIndexable(cl) && c < |cl|
    requires parent.Some? ==> parent.value < |nt.cliques|
    requires parent.None? ==> nt.root.None?
    ensures Conditionals(CloneSubtree(nt, cl, c, parent, fuel)) ==
      Conditionals(nt) + ConditionalsAlong(cl, PreOrder(cl, c, fuel))
    decreases fuel, 1
  {
    if fuel == 0 {
      AppendNil(Conditionals(nt));
    } else {
      CloneSubtreeConditionalsStep(nt, cl, c, parent, fuel);
    }
  }

  /** The step of CloneSubtreeConditionals: the clique, then its children's subtrees. */
  lemma {:induction false} CloneSubtreeConditionalsStep(nt: Tree, cl: seq<Clique>, c: nat, parent: Option<nat>, fuel: nat)
    requires WellFormed(nt) && ChildrenInRange(cl) && AllIndexable(cl) && c < |cl| && fuel > 0
    requires parent.Some? ==> parent.value < |nt.cliques|
    requires parent.None? ==> nt.root.None?
    ensures Conditionals(CloneSubtree(nt, cl, c, parent, fuel)) ==
      Conditionals(nt) + ConditionalsAlong(cl, PreOrder(cl, c, fuel))
    decreases fuel, 0
  {
    CloneAllConditionals(AddClique(nt, cl[c].conditional, parent), cl, cl[c].children, |nt.cliques|, fuel - 1);
    var rest := PreOrderAll(cl, cl[c].children, fuel - 1);
    AddCliqueConditionals(nt, cl[c].conditional, parent);
    ConditionalsAlongCons(cl, c, rest);
    AppendAssociative(Conditionals(nt), [cl[c].conditional], ConditionalsAlong(cl, rest));
  }


  lemma {:induction false} CloneAllConditionals(nt: Tree, cl: seq<Clique>, cs: seq<nat>, parent: nat, fuel: nat)
    requires WellFormed(nt) && ChildrenInRange(cl) && AllIndexable(cl) && parent < |nt.cliques|
    requires forall j :: 0 <= j < |cs| ==> cs[j] < |cl|
    ensures Conditionals(CloneAll(nt, cl, cs, parent, fuel)) ==
      Conditionals(nt) + ConditionalsAlong(cl, PreOrderAll(cl, cs, fuel))
    decreases fuel, 2, |cs|
  {
    if cs == [] {
      AppendNil(Conditionals(nt));
    } else {
      var nt1 := CloneSubtree(nt, cl, cs[0], Some(parent), fuel);
      var p0 := PreOrder(cl, cs[0], fuel);
      var rest := PreOrderAll(cl, cs[1..], fuel);
      CloneSubtreeConditionals(nt, cl, cs[0], Some(parent), fuel);
      CloneAllConditionals(nt1, cl, cs[1..], parent, fuel);
      ConditionalsAlongAppend(cl, p0, rest);
      AppendAssociative(Conditionals(nt), ConditionalsAlong(cl, p0), ConditionalsAlong(cl, rest));
    }
  }

  /** operator=: clears this tree and clones the other one's root subtree into it. */
  function CopyFrom(t: Tree, other: Tree): (r: Tree)
    requires WellFormed(t) && WellFormed(other) && ChildrenInRange(other.cliques) && AllIndexable(other.cliques)
    requires other.root.Some?
    ensures WellFormed(r) && r.root == Some(|t.cliques|)
    ensures |r.cliques| == |t.cliques| + Size(other)
  {
    CloneSubtree(Clear(t), other.cliques, other.root.value, None, |other.cliques|)
  }

  /** The copy holds, after the arena's old cliques, the other tree's conditionals in pre-order. */
  lemma CopyFromConditionals(t: Tree, other: Tree)
    requires WellFormed(t) && WellFormed(other) && ChildrenInRange(other.cliques) && AllIndexable(other.cliques)
    requires other.root.Some?
    ensures Conditionals(CopyFrom(t, other)) ==
      Conditionals(t) + ConditionalsAlong(other.cliques, PreOrder(other.cliques, other.root.value, |other.cliques|))
  {
    CloneSubtreeConditionals(Clear(t), other.cliques, other.root.value, None, |other.cliques|);
  }

  /** The sizes getCliqueData collects, one entry per clique in pre-order. */
  datatype CliqueData = CliqueData(conditionalSizes: seq<nat>, separatorSizes: seq<nat>)

  function SizesOf(cl: seq<Clique>, p: seq<nat>): (d: CliqueData)
    requires forall i :: 0 <= i < |p| ==> p[i] < |cl| && cl[p[i]].conditional.Sized()
    ensures |d.conditionalSizes| == |d.separatorSizes| == |p|
    ensures forall i :: 0 <= i < |p| ==>
      d.conditionalSizes[i] + d.separatorSizes[i] == |cl[p[i]].conditional.keys|
  {
    forall i | 0 <= i < |p|
      ensures cl[p[i]].conditional.nrFrontals + |cl[p[i]].conditional.Parents()| == |cl[p[i]].conditional.keys|
    {
      var q := cl[p[i]].conditional;
      assert q.Sized();
      assert |q.keys[q.nrFrontals..]| == |q.keys| - q.nrFrontals;
    }
    CliqueData(seq(|p|, i requires 0 <= i < |p| => cl[p[i]].conditional.nrFrontals),
               seq(|p|, i requires 0 <= i < |p| => |cl[p[i]].conditional.Parents()|))
  }

  function AppendData(a: CliqueData, b: CliqueData): CliqueData {
    CliqueData(a.conditionalSizes + b.conditionalSizes, a.separatorSizes + b.separatorSizes)
  }

  /** Appending collected sizes is associative and has the empty collection as unit. */
  lemma AppendDataLaws(a: CliqueData, b: CliqueData, c: CliqueData)
    ensures AppendData(AppendData(a, b), c) == AppendData(a, AppendData(b, c))
    ensures AppendData(a, CliqueData([], [])) == a
  {
    AppendAssociative(a.conditionalSizes, b.conditionalSizes, c.conditionalSizes);
    AppendAssociative(a.separatorSizes, b.separatorSizes, c.separatorSizes);
    assert a.conditionalSizes + [] == a.conditionalSizes;
    assert a.separatorSizes + [] == a.separatorSizes;
  }

  /** The sizes collected for one clique: its frontal count and its separator count. */
  lemma SizesOfOne(cl: seq<Clique>, c: nat)
    requires c < |cl| && cl[c].conditional.Sized()
    ensures SizesOf(cl, [c]) == CliqueData([cl[c].conditional.nrFrontals], [|cl[c].conditional.Parents()|])
  {
  }

  /** Nothing is collected along an empty list of cliques. */
  lemma SizesOfNil(cl: seq<Clique>)
    ensures SizesOf(cl, []) == CliqueData([], [])
  {
  }

  /** Collecting sizes along a concatenation of clique lists appends the two collections. */
  lemma SizesOfAppend(cl: seq<Clique>, p1: seq<nat>, p2: seq<nat>)
    requires forall i :: 0 <= i < |p1| ==> p1[i] < |cl| && cl[p1[i]].conditional.Sized()
    requires forall i :: 0 <= i < |p2| ==> p2[i] < |cl| && cl[p2[i]].conditional.Sized()
    ensures forall i :: 0 <= i < |p1 + p2| ==> (p1 + p2)[i] < |cl| && cl[(p1 + p2)[i]].conditional.Sized()
    ensures SizesOf(cl, p1 + p2) == AppendData(SizesOf(cl, p1), SizesOf(cl, p2))
  {
    forall i | 0 <= i < |p1 + p2| ensures (p1 + p2)[i] < |cl| && cl[(p1 + p2)[i]].conditional.Sized() {
      if i >= |p1| {
        assert (p1 + p2)[i] == p2[i - |p1|];
      }
    }
  }

  /** getCliqueData(): frontal and separator counts of every clique below the root, in pre-order. */
  function GetCliqueData(t: Tree): (d: CliqueData)
    requires t.root.Some? && t.root.value < |t.cliques| && ChildrenInRange(t.cliques)
    requires forall i :: 0 <= i < |t.cliques| ==> t.cliques[i].conditional.Sized()
    ensures |d.conditionalSizes| == |d.separatorSizes| == Size(t)
  {
    SizesOf(t.cliques, PreOrder(t.cliques, t.root.value, |t.cliques|))
  }

  /** The maximum fields of getStats; the averages are not modelled. */
  datatype CliqueStats = CliqueStats(maxConditionalSize: nat, maxSeparatorSize: nat)

  /** The running maximum of getStats' loop: `max` is raised by every larger size. */
  function MaxFrom(s: seq<nat>, max: nat): (m: nat)
    ensures max <= m && forall i :: 0 <= i < |s| ==> s[i] <= m
    ensures m == max || exists i :: 0 <= i < |s| && s[i] == m
    decreases |s|
  {
    if s == [] then max
    else MaxFrom(s[1..], if s[0] > max then s[0] else max)
  }

  /**
   * getStats(): the largest conditional size, attained by some clique
   * unless there is none, and the largest separator size, which is at
   * least 1 even when every separator is empty.
   */
  function Stats(d: CliqueData): (s: CliqueStats)
    ensures forall i :: 0 <= i < |d.conditionalSizes| ==> d.conditionalSizes[i] <= s.maxConditionalSize
    ensures forall i :: 0 <= i < |d.separatorSizes| ==> d.separatorSizes[i] <= s.maxSeparatorSize
    ensures s.maxConditionalSize == 0 || s.maxConditionalSize in d.conditionalSizes
    ensures s.maxSeparatorSize >= 1
    ensures s.maxSeparatorSize == 1 || s.maxSeparatorSize in d.separatorSizes
  {
    CliqueStats(MaxFrom(d.conditionalSizes, 0), MaxFrom(d.separatorSizes, 1))
  }

  // ---------------------------------------------------------------------
  // The constructors from a Bayes net

  /** Every conditional, taken from the last to the first, may be inserted in turn. */
  predicate Buildable(t: Tree, bn: seq<Conditional>)
    decreases |bn|
  {
    bn == [] ||
    (CanInsert(t, bn[|bn| - 1]) && Buildable(Insert(t, bn[|bn| - 1]), bn[..|bn| - 1]))
  }

  /** Inserts the conditionals of a Bayes net in reverse order, the last one first. */
  function InsertReversed(t: Tree, bn: seq<Conditional>): (r: Tree)
    requires Buildable(t, bn)
    ensures WellFormed(t) ==> WellFormed(r)
    decreases |bn|
  {
    if bn == [] then t
    else InsertReversed(Insert(t, bn[|bn| - 1]), bn[..|bn| - 1])
  }

  /** One insertion of the loop that builds a tree from a net, the last conditional first. */
  lemma InsertReversedStep(t: Tree, bn: seq<Conditional>, i: nat)
    requires 0 < i <= |bn| && Buildable(t, bn[..i])
    ensures CanInsert(t, bn[i - 1])
    ensures Buildable(Insert(t, bn[i - 1]), bn[..i - 1])
    ensures InsertReversed(Insert(t, bn[i - 1]), bn[..i - 1]) == InsertReversed(t, bn[..i])
  {
    assert bn[..i][i - 1] == bn[i - 1] && bn[..i][..i - 1] == bn[..i - 1];
  }

  /** Building by insertion keeps every invariant of the tree. */
  lemma {:induction false} InsertReversedPreserves(t: Tree, bn: seq<Conditional>)
    requires Invariant(t) && Buildable(t, bn)
    ensures Invariant(InsertReversed(t, bn))
    decreases |bn|
  {
    if bn != [] {
      InsertPreserves(t, bn[|bn| - 1]);
      InsertReversedPreserves(Insert(t, bn[|bn| - 1]), bn[..|bn| - 1]);
    }
  }

  /** BayesTree(bayesNet) for index conditionals: insertion in reverse order into an empty tree. */
  function FromBayesNet(bn: seq<Conditional>): (r: Tree)
    requires Buildable(Empty(), bn)
    ensures Invariant(r)
  {
    InsertReversedPreserves(Empty(), bn);
    InsertReversed(Empty(), bn)
  }

  /** The frontal key of a single-frontal conditional. */
  function FirstFrontalKey(c: Conditional): Index
    requires c.HasFrontal()
  {
    c.keys[0]
  }

  const MultiFrontalMessage := "BayesTree constructor from BayesNet only supports single frontal variable conditionals"
  const OutOfRangeMessage := "An inconsistent BayesNet was passed into the BayesTree constructor!"
  const DuplicateMessage := "An inconsistent BayesNet with duplicate frontal variables was passed into the BayesTree constructor!"

  /**
   * The validation loop of the generic BayesTree(bayesNet) constructor:
   * conditionals are filed under their frontal key in a table, and the
   * first one that has several frontal keys, a key beyond the table or a
   * key already filed raises invalid_argument.
   */
  function FileConditionals(bn: seq<Conditional>, table: seq<Option<Conditional>>): (r: Result<seq<Option<Conditional>>>)
    requires forall i :: 0 <= i < |bn| ==> bn[i].Sized()
    ensures r.Ok? ==> |r.value| == |table|
    ensures r.Err? ==> r.error.InvalidArgument?
    decreases |bn|
  {
    if bn == [] then Ok(table)
    else
      var c := bn[0];
      assert c.Sized();
      if c.nrFrontals != 1 then
        Err(InvalidArgument(MultiFrontalMessage))
      else if FirstFrontalKey(c) >= |table| then
        Err(InvalidArgument(OutOfRangeMessage))
      else if table[FirstFrontalKey(c)].Some? then
        Err(InvalidArgument(DuplicateMessage))
      else FileConditionals(bn[1..], table[FirstFrontalKey(c) := Some(c)])
  }

  /** Every conditional has a single frontal key that fits the table and is free there. */
  predicate Fileable(bn: seq<Conditional>, table: seq<Option<Conditional>>)
    requires forall i :: 0 <= i < |bn| ==> bn[i].Sized()
  {
    (forall i :: 0 <= i < |bn| ==>
      bn[i].Sized() && bn[i].nrFrontals == 1 && FirstFrontalKey(bn[i]) < |table| && table[FirstFrontalKey(bn[i])].None?) &&
    (forall i, j :: 0 <= i < j < |bn| && bn[i].Sized() && bn[j].Sized() && bn[i].nrFrontals == 1 && bn[j].nrFrontals == 1 ==>
      FirstFrontalKey(bn[i]) != FirstFrontalKey(bn[j]))
  }

  /** Fileable, one conditional at a time: the first is filed, then the rest against the new table. */
  lemma FileableCons(bn: seq<Conditional>, table: seq<Option<Conditional>>)
    requires bn != [] && forall i :: 0 <= i < |bn| ==> bn[i].Sized()
    ensures Fileable(bn, table) <==>
      bn[0].Sized() && bn[0].nrFrontals == 1 && FirstFrontalKey(bn[0]) < |table| && table[FirstFrontalKey(bn[0])].None? &&
      Fileable(bn[1..], table[FirstFrontalKey(bn[0]) := Some(bn[0])])
  {
    var c := bn[0];
    assert c.Sized();
    if c.nrFrontals == 1 && FirstFrontalKey(c) < |table| && table[FirstFrontalKey(c)].None? {
      var t1 := table[FirstFrontalKey(c) := Some(c)];
      if Fileable(bn[1..], t1) {
        forall i | 0 < i < |bn| ensures FirstFrontalKey(bn[i]) != FirstFrontalKey(c) {
          assert bn[i] == bn[1..][i - 1];
        }
        forall i, j | 0 <= i < j < |bn| && bn[i].Sized() && bn[j].Sized() && bn[i].nrFrontals == 1 && bn[j].nrFrontals == 1
          ensures FirstFrontalKey(bn[i]) != FirstFrontalKey(bn[j])
        {
          if i > 0 {
            assert bn[i] == bn[1..][i - 1] && bn[j] == bn[1..][j - 1];
          }
        }
      }
      if Fileable(bn, table) {
        forall i | 0 <= i < |bn[1..]| ensures t1[FirstFrontalKey(bn[1..][i])].None? {
          assert bn[1..][i] == bn[i + 1];
        }
        forall i, j | 0 <= i < j < |bn[1..]| && bn[1..][i].Sized() && bn[1..][j].Sized() &&
          bn[1..][i].nrFrontals == 1 && bn[1..][j].nrFrontals == 1
          ensures FirstFrontalKey(bn[1..][i]) != FirstFrontalKey(bn[1..][j])
        {
          assert bn[1..][i] == bn[i + 1] && bn[1..][j] == bn[j + 1];
        }
      }
    }
  }

  /**
   * Filing succeeds exactly when every conditional is single-frontal, in
   * range, free in the table and distinct from the others.
   */
  lemma {:induction false} FileConditionalsOk(bn: seq<Conditional>, table: seq<Option<Conditional>>)
    requires forall i :: 0 <= i < |bn| ==> bn[i].Sized()
    ensures FileConditionals(bn, table).Ok? <==> Fileable(bn, table)
    decreases |bn|
  {
    if bn != [] {
      FileableCons(bn, table);
      var c := bn[0];
      assert c.Sized();
      if c.nrFrontals == 1 && FirstFrontalKey(c) < |table| && table[FirstFrontalKey(c)].None? {
        FileConditionalsOk(bn[1..], table[FirstFrontalKey(c) := Some(c)]);
      }
    }
  }

  /** After filing, each conditional sits under its frontal key and every other slot is unchanged. */
  lemma {:induction false} FileConditionalsFiles(bn: seq<Conditional>, table: seq<Option<Conditional>>)
    requires forall i :: 0 <= i < |bn| ==> bn[i].Sized()
    requires Fileable(bn, table)
    ensures FileConditionals(bn, table).Ok?
    ensures forall i :: 0 <= i < |bn| ==>
      FileConditionals(bn, table).value[FirstFrontalKey(bn[i])] == Some(bn[i])
    ensures forall k :: 0 <= k < |table| && (forall i :: 0 <= i < |bn| ==> FirstFrontalKey(bn[i]) != k) ==>
      FileConditionals(bn, table).value[k] == table[k]
    decreases |bn|
  {
    if bn != [] {
      var c := bn[0];
      assert c.Sized();
      var key := FirstFrontalKey(c);
      var t1 := table[key := Some(c)];
      var r := FileConditionals(bn[1..], t1);
      FileableCons(bn, table);
      FileConditionalsFiles(bn[1..], t1);
      forall i | 0 <= i < |bn| ensures r.value[FirstFrontalKey(bn[i])] == Some(bn[i]) {
        if i == 0 {
          assert forall j :: 0 <= j < |bn[1..]| ==> FirstFrontalKey(bn[1..][j]) != key by {
            forall j | 0 <= j < |bn[1..]| ensures FirstFrontalKey(bn[1..][j]) != key {
              assert bn[1..][j] == bn[j + 1];
            }
          }
        } else {
          assert bn[i] == bn[1..][i - 1];
        }
      }
      forall k | 0 <= k < |table| && (forall i :: 0 <= i < |bn| ==> FirstFrontalKey(bn[i]) != k)
        ensures r.value[k] == table[k]
      {
        assert FirstFrontalKey(bn[0]) != k;
        assert forall j :: 0 <= j < |bn[1..]| ==> FirstFrontalKey(bn[1..][j]) != k by {
          forall j | 0 <= j < |bn[1..]| ensures FirstFrontalKey(bn[1..][j]) != k {
            assert bn[1..][j] == bn[j + 1];
          }
        }
      }
    }
  }

  /** A table with a null slot for every key up to and including `last`. */
  function NullTable(last: Index): (r: seq<Option<Conditional>>)
    ensures |r| == last + 1 && forall k :: 0 <= k < |r| ==> r[k].None?
  {
    seq(last + 1, _ => None)
  }

  /**
   * BayesTree(bayesNet) for general conditionals: the symbolic tree fixes
   * the cliques, and the conditionals are filed under their frontal key in a
   * table sized by the root clique's last frontal key.  The result is the
   * symbolic tree together with the filed conditionals.
   */
  function FromBayesNetChecked(bn: seq<Conditional>): (r: Result<(Tree, seq<Option<Conditional>>)>)
    requires Buildable(Empty(), bn) && forall i :: 0 <= i < |bn| ==> bn[i].Sized()
    requires FromBayesNet(bn).root.Some? &&
      FromBayesNet(bn).cliques[FromBayesNet(bn).root.value].conditional.HasFrontal()
    ensures r.Ok? ==> r.value.0 == FromBayesNet(bn)
  {
    var sbt := FromBayesNet(bn);
    var rootCond := sbt.cliques[sbt.root.value].conditional;
    match FileConditionals(bn, NullTable(rootCond.LastFrontalKey()))
    case Err(e) => Err(e)
    case Ok(table) => Ok((sbt, table))
  }

  /**
   * The general constructor accepts a Bayes net exactly when every
   * conditional has one frontal key, no key lies beyond the root clique's
   * last frontal key and no key repeats.
   */
  lemma FromBayesNetCheckedOk(bn: seq<Conditional>)
    requires Buildable(Empty(), bn) && forall i :: 0 <= i < |bn| ==> bn[i].Sized()
    requires FromBayesNet(bn).root.Some? &&
      FromBayesNet(bn).cliques[FromBayesNet(bn).root.value].conditional.HasFrontal()
    ensures FromBayesNetChecked(bn).Ok? <==>
      Fileable(bn, NullTable(FromBayesNet(bn).cliques[FromBayesNet(bn).root.value].conditional.LastFrontalKey()))
  {
    var sbt := FromBayesNet(bn);
    FileConditionalsOk(bn, NullTable(sbt.cliques[sbt.root.value].conditional.LastFrontalKey()));
  }

  /** Every conditional, from the last to the first, may be added to the front of clique c. */
  predicate Absorbable(t: Tree, conds: seq<Conditional>, c: nat)
    decreases |conds|
  {
    conds == [] ||
    (WellFormed(t) && c < |t.cliques| && conds[|conds| - 1].HasFrontal() &&
     FrontCompatible(t, conds[|conds| - 1], c) &&
     Absorbable(AddToCliqueFront(t, conds[|conds| - 1], c), conds[..|conds| - 1], c))
  }

  /** addToCliqueFront for each conditional in reverse order. */
  function AbsorbAll(t: Tree, conds: seq<Conditional>, c: nat): (r: Tree)
    requires WellFormed(t) && c < |t.cliques| && Absorbable(t, conds, c)
    ensures WellFormed(r) && r.root == t.root && |r.cliques| == |t.cliques|
    decreases |conds|
  {
    if conds == [] then t
    else AbsorbAll(AddToCliqueFront(t, conds[|conds| - 1], c), conds[..|conds| - 1], c)
  }

  /** The last frontal keys of a list of conditionals, in order. */
  function LastKeys(conds: seq<Conditional>): (r: seq<Index>)
    requires forall i :: 0 <= i < |conds| ==> conds[i].HasFrontal()
    ensures |r| == |conds| && forall i :: 0 <= i < |conds| ==> r[i] == conds[i].LastFrontalKey()
  {
    seq(|conds|, i requires 0 <= i < |conds| => conds[i].LastFrontalKey())
  }

  lemma {:induction false} AbsorbableHasFrontal(t: Tree, conds: seq<Conditional>, c: nat)
    requires Absorbable(t, conds, c)
    ensures forall i :: 0 <= i < |conds| ==> conds[i].HasFrontal()
    decreases |conds|
  {
    if conds != [] {
      var n := |conds| - 1;
      AbsorbableHasFrontal(AddToCliqueFront(t, conds[n], c), conds[..n], c);
      assert forall i :: 0 <= i < n ==> conds[i] == conds[..n][i];
    }
  }

  /**
   * Absorbing a list of conditionals into clique c puts their keys, in list
   * order, in front of the clique's keys and adds one frontal key for each;
   * the clique's links are kept.
   */
  lemma LastKeysSnoc(conds: seq<Conditional>)
    requires conds != [] && forall i :: 0 <= i < |conds| ==> conds[i].HasFrontal()
    ensures LastKeys(conds) == LastKeys(conds[..|conds| - 1]) + [conds[|conds| - 1].LastFrontalKey()]
  {
  }

  lemma {:induction false} AbsorbAllConditional(t: Tree, conds: seq<Conditional>, c: nat)
    requires WellFormed(t) && c < |t.cliques| && Absorbable(t, conds, c)
    ensures forall i :: 0 <= i < |conds| ==> conds[i].HasFrontal()
    ensures AbsorbAll(t, conds, c).cliques[c].conditional ==
      Conditional(LastKeys(conds) + t.cliques[c].conditional.keys, t.cliques[c].conditional.nrFrontals + |conds|)
    ensures AbsorbAll(t, conds, c).cliques[c].children == t.cliques[c].children
    ensures AbsorbAll(t, conds, c).cliques[c].parent == t.cliques[c].parent
    decreases |conds|
  {
    AbsorbableHasFrontal(t, conds, c);
    if conds != [] {
      var n := |conds| - 1;
      var t1 := AddToCliqueFront(t, conds[n], c);
      AbsorbAllConditional(t1, conds[..n], c);
      var init := LastKeys(conds[..n]);
      LastKeysSnoc(conds);
      var keys := t.cliques[c].conditional.keys;
      AppendAssociative(init, [conds[n].LastFrontalKey()], keys);
    }
  }

  const EmptyNetMessage := "BayesTree::insert: empty bayes net!"

  /**
   * BayesTree(bayesNet, subtrees): one clique for the whole Bayes net over
   * the subtrees' roots, built from the last conditional with addClique and
   * grown with addToCliqueFront for the others, and made the root.  The
   * subtrees already sit in the arena of `t`; an empty net is refused.
   */
  function FromBayesNetOver(t: Tree, bn: seq<Conditional>, childRoots: seq<nat>): (r: Result<Tree>)
    requires WellFormed(t) && forall j :: 0 <= j < |childRoots| ==> childRoots[j] < |t.cliques|
    requires |bn| > 0 ==>
      Indexable(bn[|bn| - 1]) &&
      Absorbable(AddCliqueOver(t, bn[|bn| - 1], childRoots), bn[..|bn| - 1], |t.cliques|)
    ensures r.Err? <==> |bn| == 0
    ensures r.Err? ==> r.error == InvalidArgument(EmptyNetMessage)
    ensures r.Ok? ==> WellFormed(r.value) && r.value.root == Some(|t.cliques|) && |r.value.cliques| == |t.cliques| + 1
  {
    if |bn| == 0 then Err(InvalidArgument(EmptyNetMessage))
    else
      var n := |bn| - 1;
      var t1 := AddCliqueOver(t, bn[n], childRoots);
      Ok(AbsorbAll(t1, bn[..n], |t.cliques|).(root := Some(|t.cliques|)))
  }

  /**
   * The root clique built over the subtrees holds the net's frontal keys in
   * order followed by the last conditional's parents, with one frontal key
   * per conditional besides the last one's own, and the subtree roots as
   * its children.
   */
  lemma FromBayesNetOverRoot(t: Tree, bn: seq<Conditional>, childRoots: seq<nat>)
    requires WellFormed(t) && forall j :: 0 <= j < |childRoots| ==> childRoots[j] < |t.cliques|
    requires |bn| > 0
    requires Indexable(bn[|bn| - 1]) &&
      Absorbable(AddCliqueOver(t, bn[|bn| - 1], childRoots), bn[..|bn| - 1], |t.cliques|)
    ensures forall i :: 0 <= i < |bn| - 1 ==> bn[i].HasFrontal()
    ensures var q := FromBayesNetOver(t, bn, childRoots).value.cliques[|t.cliques|];
      q.conditional == Conditional(LastKeys(bn[..|bn| - 1]) + bn[|bn| - 1].keys, bn[|bn| - 1].nrFrontals + |bn| - 1) &&
      q.children == childRoots && q.parent.None?
  {
    var n := |bn| - 1;
    AbsorbAllConditional(AddCliqueOver(t, bn[n], childRoots), bn[..n], |t.cliques|);
    assert forall i :: 0 <= i < n ==> bn[i] == bn[..n][i];
  }
}
