/**
 * The BayesTree class of BayesTree-inl.h: the arena of cliques, the
 * `nodes_` index and `root_` are fields that the methods update in place.
 * Each method is proved to leave the tree in the state the corresponding
 * function of BayesTreeModel computes from the old state, so every property
 * proved there carries over.
 */
module BayesTreeClass {
  import opened Wrappers
  import opened BayesTreeModel

  class BayesTree {
    var cliques: seq<Clique>
    var nodes: seq<Option<nat>>
    var root: Option<nat>

    /** The tree as a value. */
    function State(): Tree
      reads this
    {
      Tree(cliques, nodes, root)
    }

    /** The default constructor: no cliques, an empty index and no root. */
    constructor()
      ensures State() == Empty()
    {
      cliques := [];
      nodes := [];
      root := None;
    }

    /** BayesTree(bayesNet) for index conditionals: insert(*this, c) for every conditional, the last one first. */
    constructor FromBayesNet(bn: seq<Conditional>)
      requires Buildable(Empty(), bn)
      ensures State() == BayesTreeModel.FromBayesNet(bn)
    {
      cliques := [];
      nodes := [];
      root := None;
      new;
      var i := |bn|;
      assert bn[..i] == bn;
      while i > 0
        invariant 0 <= i <= |bn|
        invariant Buildable(State(), bn[..i])
        invariant InsertReversed(State(), bn[..i]) == InsertReversed(Empty(), bn)
        decreases i
      {
        InsertReversedStep(State(), bn, i);
        Insert(bn[i - 1]);
        i := i - 1;
      }
    }

    /**
     * BayesTree(bayesNet, subtrees): a single clique for the whole net over
     * the subtrees' roots, which already sit in this arena, becomes the
     * root; an empty net is refused.  Returns the new root clique.
     */
    method BuildOver(bn: seq<Conditional>, childRoots: seq<nat>) returns (r: Result<nat>)
      requires WellFormed(State()) && forall j :: 0 <= j < |childRoots| ==> childRoots[j] < |cliques|
      requires |bn| > 0 ==>
        Indexable(bn[|bn| - 1]) &&
        Absorbable(BayesTreeModel.AddCliqueOver(State(), bn[|bn| - 1], childRoots), bn[..|bn| - 1], |cliques|)
      modifies this
      ensures r.Err? <==> |bn| == 0
      ensures r.Err? ==> r.error == InvalidArgument(EmptyNetMessage) && State() == old(State())
      ensures r.Ok? ==>
        r.value == old(|cliques|) &&
        State() == FromBayesNetOver(old(State()), bn, childRoots).value
    {
      if |bn| == 0 {
        return Err(InvalidArgument(EmptyNetMessage));
      }
      var n := |bn| - 1;
      var c := AddCliqueOver(bn[n], childRoots);
      ghost var t1 := State();
      var i := n;
      while i > 0
        invariant 0 <= i <= n && c < |cliques| && WellFormed(State())
        invariant Absorbable(State(), bn[..i], c)
        invariant AbsorbAll(State(), bn[..i], c) == AbsorbAll(t1, bn[..n], c)
        decreases i
      {
        assert bn[..i][..i - 1] == bn[..i - 1];
        AddToCliqueFront(bn[i - 1], c);
        i := i - 1;
      }
      root := Some(c);
      return Ok(c);
    }

    /** Points every frontal key of the conditional at clique c, after making room for them. */
    method IndexFrontals(cond: Conditional, c: nat)
      requires Indexable(cond)
      modifies this
      ensures nodes == BayesTreeModel.IndexFrontals(old(nodes), cond, c)
      ensures cliques == old(cliques) && root == old(root)
    {
      nodes := Resize(nodes, Max(cond.LastFrontalKey() + 1, |nodes|));
      ghost var grown := nodes;
      var frontals := cond.Frontals();
      for j := 0 to |frontals|
        invariant |nodes| == |grown|
        invariant forall k :: 0 <= k < |nodes| ==> nodes[k] == if k in frontals[..j] then Some(c) else grown[k]
        invariant cliques == old(cliques) && root == old(root)
      {
        assert frontals[j] == cond.keys[j];
        nodes := nodes[frontals[j] := Some(c)];
        assert frontals[..j + 1] == frontals[..j] + [frontals[j]];
      }
      assert frontals[..|frontals|] == frontals;
      ghost var expected := BayesTreeModel.IndexFrontals(old(nodes), cond, c);
      assert |nodes| == |expected|;
      forall k | 0 <= k < |nodes| ensures nodes[k] == expected[k] {
      }
    }

    /** addClique(conditional, parent_clique); returns the new clique. */
    method AddClique(cond: Conditional, parent: Option<nat>) returns (c: nat)
      requires WellFormed(State()) && Indexable(cond)
      requires parent.Some? ==> parent.value < |cliques|
      requires parent.None? ==> root.None?
      modifies this
      ensures c == old(|cliques|)
      ensures State() == BayesTreeModel.AddClique(old(State()), cond, parent)
    {
      c := |cliques|;
      IndexFrontals(cond, c);
      cliques := cliques + [Clique(cond, None, [])];
      if parent.Some? {
        var p := parent.value;
        cliques := cliques[c := cliques[c].(parent := parent)];
        cliques := cliques[p := cliques[p].(children := cliques[p].children + [c])];
      } else {
        root := Some(c);
      }
    }

    /** addClique(conditional, child_cliques): a new clique over existing subtrees; returns it. */
    method AddCliqueOver(cond: Conditional, children: seq<nat>) returns (c: nat)
      requires WellFormed(State()) && Indexable(cond)
      requires forall j :: 0 <= j < |children| ==> children[j] < |cliques|
      modifies this
      ensures c == old(|cliques|)
      ensures State() == BayesTreeModel.AddCliqueOver(old(State()), cond, children)
    {
      c := |cliques|;
      IndexFrontals(cond, c);
      cliques := cliques + [Clique(cond, None, children)];
      ghost var start := cliques;
      for j := 0 to |children|
        invariant |cliques| == |start|
        invariant forall i :: 0 <= i < |cliques| ==>
          cliques[i] == if i in children[..j] then start[i].(parent := Some(c)) else start[i]
        invariant nodes == BayesTreeModel.IndexFrontals(old(nodes), cond, c) && root == old(root)
      {
        cliques := cliques[children[j] := cliques[children[j]].(parent := Some(c))];
        assert children[..j + 1] == children[..j] + [children[j]];
      }
      assert children[..|children|] == children;
      ghost var expected := BayesTreeModel.AddCliqueOver(old(State()), cond, children);
      assert |cliques| == |expected.cliques|;
      forall i | 0 <= i < |cliques| ensures cliques[i] == expected.cliques[i] {
      }
    }

    /** addToCliqueFront: the conditional's key joins clique c as a new first frontal key. */
    method AddToCliqueFront(cond: Conditional, c: nat)
      requires WellFormed(State()) && c < |cliques| && cond.HasFrontal()
      requires FrontCompatible(State(), cond, c)
      modifies this
      ensures State() == BayesTreeModel.AddToCliqueFront(old(State()), cond, c)
    {
      var key := cond.LastFrontalKey();
      nodes := Resize(nodes, Max(key + 1, |nodes|));
      nodes := nodes[key := Some(c)];
      var q := cliques[c].conditional;
      var newKeys := [key] + q.keys;
      cliques := cliques[c := cliques[c].(conditional := Conditional(newKeys, q.nrFrontals + 1))];
    }

    /** insert(bayesTree, conditional). */
    method Insert(cond: Conditional)
      requires CanInsert(State(), cond)
      modifies this
      ensures State() == BayesTreeModel.Insert(old(State()), cond)
    {
      var parents := cond.Parents();
      if parents == [] {
        var c := AddClique(cond, None);
        root := Some(c);
        return;
      }
      var parentRepresentative := MinKey(parents);
      var parentClique := nodes[parentRepresentative].value;
      if |cliques[parentClique].conditional.keys| == |parents| {
        AddToCliqueFront(cond, parentClique);
      } else {
        var _ := AddClique(cond, Some(parentClique));
      }
    }
 
    /** insert(clique, children, isRootClique): a new clique over the children, refused when it has no frontal key. */
    method InsertClique(cond: Conditional, children: seq<nat>, isRoot: bool) returns (r: Result<nat>)
      requires cond.nrFrontals > 0 ==> Indexable(cond)
      requires WellFormed(State()) && forall j :: 0 <= j < |children| ==> children[j] < |cliques|
      modifies this
      ensures BayesTreeModel.InsertClique(old(State()), cond, children, isRoot).Ok? <==> r.Ok?
      ensures r.Ok? ==>
        r.value == old(|cliques|) &&
        State() == BayesTreeModel.InsertClique(old(State()), cond, children, isRoot).value
      ensures r.Err? ==>
        r.error == BayesTreeModel.InsertClique(old(State()), cond, children, isRoot).error &&
        State() == old(State())
    {
      if cond.nrFrontals == 0 {
        return Err(InvalidArgument(EmptyCliqueMessage));
      }
      var c := AddCliqueOver(cond, children);
      if isRoot {
        root := Some(c);
      }
      return Ok(c);
    }

    /** removeClique: unlink from the parent (or drop the root), orphan the children, reset the index. */
    method RemoveClique(c: nat)
      requires ParentsInRange(cliques) && c < |cliques|
      modifies this
      ensures State() == BayesTreeModel.RemoveClique(old(State()), c)
    {
      var keys := cliques[c].conditional.keys;
      if cliques[c].parent.None? {
        root := None;
      } else {
        var p := cliques[c].parent.value;
        cliques := cliques[p := cliques[p].(children := RemoveAll(cliques[p].children, c))];
      }
      assert cliques == Unlink(old(cliques), c);
      ResetParents(cliques[c].children);
      SetIndex(keys, None);
    }

    /** Resets the parent link of every listed clique. */
    method ResetParents(ids: seq<nat>)
      modifies this
      ensures cliques == SetParents(old(cliques), ids, None)
      ensures nodes == old(nodes) && root == old(root)
    {
      for j := 0 to |ids|
        invariant |cliques| == |old(cliques)|
        invariant forall i :: 0 <= i < |cliques| ==>
          cliques[i] == if i in ids[..j] then old(cliques)[i].(parent := None) else old(cliques)[i]
        invariant nodes == old(nodes) && root == old(root)
      {
        if ids[j] < |cliques| {
          cliques := cliques[ids[j] := cliques[ids[j]].(parent := None)];
        }
        assert ids[..j + 1] == ids[..j] + [ids[j]];
      }
      assert ids[..|ids|] == ids;
      ghost var expected := SetParents(old(cliques), ids, None);
      forall i | 0 <= i < |cliques| ensures cliques[i] == expected[i] {
      }
    }

    /**
     * removePath(clique, bn, orphans): `bn` and `orphans` are the caller's
     * containers, passed in and handed back.
     */
    method RemovePath(c: Option<nat>, bn: seq<Conditional>, orphans: seq<nat>, fuel: nat)
      returns (bn': seq<Conditional>, orphans': seq<nat>)
      requires ParentsInRange(cliques) && (c.Some? ==> c.value < |cliques|)
      modifies this
      ensures var r := BayesTreeModel.RemovePath(old(State()), c, bn, orphans, fuel);
        State() == r.tree && bn' == r.bn && orphans' == r.orphans
      decreases fuel, 1
    {
      if c.None? || fuel == 0 {
        return bn, orphans;
      }
      bn', orphans' := RemovePathFrom(c.value, bn, orphans, fuel);
    }

    /** One step of removePath: removes clique q, then the path above it, then detaches q's children. */
    method RemovePathFrom(q: nat, bn: seq<Conditional>, orphans: seq<nat>, fuel: nat)
      returns (bn': seq<Conditional>, orphans': seq<nat>)
      requires ParentsInRange(cliques) && q < |cliques| && fuel > 0
      modifies this
      ensures var r := BayesTreeModel.RemovePath(old(State()), Some(q), bn, orphans, fuel);
        State() == r.tree && bn' == r.bn && orphans' == r.orphans
      decreases fuel, 0
    {
      ghost var t := State();
      var conditional := cliques[q].conditional;
      var remaining := RemoveAll(orphans, q);
      RemoveClique(q);
      ghost var t1 := State();
      var parent := cliques[q].parent;
      bn', orphans' := RemovePath(parent, bn, remaining, fuel - 1);
      ghost var t2, bn2, orphans2 := State(), bn', orphans';
      bn', orphans' := DetachChildren(q, conditional, bn', orphans');
      RemovePathSome(t, q, bn, orphans, fuel, t1, t2, bn2, orphans2, Removal(State(), bn', orphans'));
    }

    /** The last step of removePath on clique q: its children become orphans and it is removed into bn. */
    method DetachChildren(q: nat, conditional: Conditional, bn: seq<Conditional>, orphans: seq<nat>)
      returns (bn': seq<Conditional>, orphans': seq<nat>)
      requires q < |cliques|
      modifies this
      ensures cliques == old(cliques)[q := old(cliques)[q].(children := [])]
      ensures nodes == old(nodes) && root == old(root)
      ensures bn' == bn + [conditional] && orphans' == old(cliques)[q].children + orphans
    {
      orphans' := cliques[q].children + orphans;
      cliques := cliques[q := cliques[q].(children := [])];
      bn' := bn + [conditional];
    }

    /** removeTop(keys, bn, orphans): removes the path above the clique of every indexed key. */
    method RemoveTop(keys: seq<Index>, bn: seq<Conditional>, orphans: seq<nat>)
      returns (bn': seq<Conditional>, orphans': seq<nat>)
      requires ParentsInRange(cliques) && NodesInRange(State())
      modifies this
      ensures Removal(State(), bn', orphans') == BayesTreeModel.RemoveTop(old(State()), keys, bn, orphans)
    {
      bn', orphans' := bn, orphans;
      for i := 0 to |keys|
        invariant ParentsInRange(cliques) && NodesInRange(State())
        invariant BayesTreeModel.RemoveTop(State(), keys[i..], bn', orphans') ==
          BayesTreeModel.RemoveTop(old(State()), keys, bn, orphans)
      {
        assert keys[i..][1..] == keys[i + 1..];
        var key := keys[i];
        if key < |nodes| {
          var clique := nodes[key];
          if clique.Some? {
            RemovePathNodesInRange(State(), clique, bn', orphans', |cliques|);
            bn', orphans' := RemovePath(clique, bn', orphans', |cliques|);
          }
        }
      }
    }

    /** Points the index entry of every listed key inside the index at v. */
    method SetIndex(keys: seq<Index>, v: Option<nat>)
      modifies this
      ensures nodes == Assign(old(nodes), keys, v)
      ensures cliques == old(cliques) && root == old(root)
    {
      for j := 0 to |keys|
        invariant |nodes| == |old(nodes)|
        invariant forall k :: 0 <= k < |nodes| ==> nodes[k] == if k in keys[..j] then v else old(nodes)[k]
        invariant cliques == old(cliques) && root == old(root)
      {
        if keys[j] < |nodes| {
          nodes := nodes[keys[j] := v];
        }
        assert keys[..j + 1] == keys[..j] + [keys[j]];
      }
      assert keys[..|keys|] == keys;
      ghost var expected := Assign(old(nodes), keys, v);
      forall k | 0 <= k < |nodes| ensures nodes[k] == expected[k] {
      }
    }

    /** fillNodesIndex(subtree). */
    method FillNodesIndex(c: nat, fuel: nat)
      requires c < |cliques| && ChildrenInRange(cliques)
      requires forall i :: 0 <= i < |cliques| ==> cliques[i].conditional.Sized()
      modifies this
      ensures cliques == old(cliques) && root == old(root)
      ensures nodes == BayesTreeModel.FillNodesIndex(old(nodes), cliques, c, fuel)
      decreases fuel, 0
    {
      if fuel == 0 {
        return;
      }
      SetIndex(cliques[c].conditional.Frontals(), Some(c));
      ghost var start := nodes;
      var children := cliques[c].children;
      for j := 0 to |children|
        invariant cliques == old(cliques) && root == old(root)
        invariant FillAll(nodes, cliques, children[j..], fuel - 1) == FillAll(start, cliques, children, fuel - 1)
      {
        assert children[j..][1..] == children[j + 1..];
        FillNodesIndex(children[j], fuel - 1);
      }
    }

    /** insert(subtree): a null subtree changes nothing. */
    method InsertSubtree(s: Option<nat>)
      requires s.Some? ==> CanInsertSubtree(State(), s.value)
      modifies this
      ensures State() == BayesTreeModel.InsertSubtree(old(State()), s)
    {
      if s.None? {
        return;
      }
      var subtree := s.value;
      var cond := cliques[subtree].conditional;
      if cond.Parents() == [] {
        root := s;
      } else {
        var parentRepresentative := MinKey(cond.Parents());
        var parent := nodes[parentRepresentative].value;
        cliques := cliques[parent := cliques[parent].(children := cliques[parent].children + [subtree])];
        cliques := cliques[subtree := cliques[subtree].(parent := Some(parent))];
      }
      assert cliques == Link(old(State()), subtree).cliques;
      MaxFrontal(cond);
      if |nodes| == 0 || MaxKey(cond.Frontals()) > |nodes| - 1 {
        nodes := Resize(nodes, cond.LastFrontalKey() + 1);
      }
      assert nodes == GrowFor(old(nodes), cond);
      FillNodesIndex(subtree, |cliques|);
    }

    /** clear(). */
    method Clear()
      modifies this
      ensures State() == BayesTreeModel.Clear(old(State()))
    {
      nodes := [];
      root := None;
    }

    /** cloneTo(newTree, subtree, parent): copies the subtree of c into newTree under `parent`. */
    method CloneSubtree(newTree: BayesTree, c: nat, parent: Option<nat>, fuel: nat)
      requires newTree != this
      requires WellFormed(newTree.State()) && ChildrenInRange(cliques) && AllIndexable(cliques) && c < |cliques|
      requires parent.Some? ==> parent.value < |newTree.cliques|
      requires parent.None? ==> newTree.root.None?
      modifies newTree
      ensures newTree.State() == BayesTreeModel.CloneSubtree(old(newTree.State()), cliques, c, parent, fuel)
      decreases fuel, 1
    {
      if fuel == 0 {
        return;
      }
      CloneUnder(newTree, c, parent, fuel);
    }

    /** The body of cloneTo: a copy of clique c under `parent`, then its children under the copy. */
    method CloneUnder(newTree: BayesTree, c: nat, parent: Option<nat>, fuel: nat)
      requires newTree != this && fuel > 0
      requires WellFormed(newTree.State()) && ChildrenInRange(cliques) && AllIndexable(cliques) && c < |cliques|
      requires parent.Some? ==> parent.value < |newTree.cliques|
      requires parent.None? ==> newTree.root.None?
      modifies newTree
      ensures newTree.State() == BayesTreeModel.CloneSubtree(old(newTree.State()), cliques, c, parent, fuel)
      decreases fuel, 0, 0
    {
      ghost var s0 := newTree.State();
      var clique := cliques[c];
      CloneSubtreeReady(cliques, c);
      var newClique := newTree.AddClique(clique.conditional, parent);
      CloneChildren(newTree, clique.children, newClique, fuel - 1);
      CloneSubtreeUnfold(s0, newTree.State(), cliques, c, parent, fuel);
    }

    /** The loop of cloneTo over a clique's children, each cloned under newClique. */
    method CloneChildren(newTree: BayesTree, children: seq<nat>, newClique: nat, fuel: nat)
      requires newTree != this
      requires WellFormed(newTree.State()) && ChildrenInRange(cliques) && AllIndexable(cliques)
      requires newClique < |newTree.cliques|
      requires forall j :: 0 <= j < |children| ==> children[j] < |cliques|
      modifies newTree
      ensures newTree.State() == CloneAll(old(newTree.State()), cliques, children, newClique, fuel)
      decreases fuel, 2
    {
      ghost var start := newTree.State();
      for j := 0 to |children|
        invariant WellFormed(newTree.State()) && newClique < |newTree.cliques|
        invariant CloneAll(newTree.State(), cliques, children[j..], newClique, fuel) ==
          CloneAll(start, cliques, children, newClique, fuel)
      {
        assert children[j..][1..] == children[j + 1..];
        CloneAllUnfold(newTree.State(), cliques, children[j..], newClique, fuel);
        CloneSubtree(newTree, children[j], Some(newClique), fuel);
      }
      CloneAllUnfold(newTree.State(), cliques, children[|children|..], newClique, fuel);
    }

    /** cloneTo(newTree): copies the whole tree, from the root, into newTree. */
    method CloneTo(newTree: BayesTree)
      requires newTree != this && root.Some? && root.value < |cliques|
      requires WellFormed(newTree.State()) && newTree.root.None? && ChildrenInRange(cliques) && AllIndexable(cliques)
      modifies newTree
      ensures newTree.State() == BayesTreeModel.CloneSubtree(old(newTree.State()), cliques, root.value, None, |cliques|)
    {
      CloneSubtree(newTree, root.value, None, |cliques|);
    }

    /** operator=(other): clear, then let the other tree clone itself into this one. */
    method CopyFrom(other: BayesTree)
      requires other != this && WellFormed(State())
      requires WellFormed(other.State()) && ChildrenInRange(other.cliques) && AllIndexable(other.cliques)
      requires other.root.Some?
      modifies this
      ensures State() == BayesTreeModel.CopyFrom(old(State()), other.State())
    {
      Clear();
      other.CloneTo(this);
    }

    /** getCliqueData(data, clique): pushes the sizes of every clique of the subtree, parents first. */
    method CollectCliqueData(data: CliqueData, c: nat, fuel: nat) returns (d: CliqueData)
      requires c < |cliques| && ChildrenInRange(cliques)
      requires forall i :: 0 <= i < |cliques| ==> cliques[i].conditional.Sized()
      ensures d == AppendData(data, SizesOf(cliques, PreOrder(cliques, c, fuel)))
      decreases fuel, 0
    {
      if fuel == 0 {
        return data;
      }
      var q := cliques[c].conditional;
      PreOrderUnfold(cliques, c, fuel);
      SizesOfAppend(cliques, [c], PreOrderAll(cliques, cliques[c].children, fuel - 1));
      SizesOfOne(cliques, c);
      AppendDataLaws(data, SizesOf(cliques, [c]), SizesOf(cliques, PreOrderAll(cliques, cliques[c].children, fuel - 1)));
      d := CliqueData(data.conditionalSizes + [q.nrFrontals], data.separatorSizes + [|q.Parents()|]);
      d := CollectChildren(d, cliques[c].children, fuel - 1);
    }

    /** The loop of getCliqueData over a clique's children. */
    method CollectChildren(data: CliqueData, children: seq<nat>, fuel: nat) returns (d: CliqueData)
      requires ChildrenInRange(cliques) && forall j :: 0 <= j < |children| ==> children[j] < |cliques|
      requires forall i :: 0 <= i < |cliques| ==> cliques[i].conditional.Sized()
      ensures d == AppendData(data, SizesOf(cliques, PreOrderAll(cliques, children, fuel)))
      decreases fuel, 1
    {
      d := data;
      for j := 0 to |children|
        invariant AppendData(d, SizesOf(cliques, PreOrderAll(cliques, children[j..], fuel))) ==
          AppendData(data, SizesOf(cliques, PreOrderAll(cliques, children, fuel)))
      {
        assert children[j..][1..] == children[j + 1..];
        PreOrderAllUnfold(cliques, children[j..], fuel);
        ghost var head := SizesOf(cliques, PreOrder(cliques, children[j], fuel));
        ghost var tail := SizesOf(cliques, PreOrderAll(cliques, children[j + 1..], fuel));
        SizesOfAppend(cliques, PreOrder(cliques, children[j], fuel), PreOrderAll(cliques, children[j + 1..], fuel));
        AppendDataLaws(d, head, tail);
        d := CollectCliqueData(d, children[j], fuel);
      }
      PreOrderAllUnfold(cliques, children[|children|..], fuel);
      SizesOfNil(cliques);
      AppendDataLaws(d, d, d);
    }

    /** getCliqueData(): the sizes of every clique, from the root, in pre-order. */
    method GetCliqueData() returns (d: CliqueData)
      requires root.Some? && root.value < |cliques| && ChildrenInRange(cliques)
      requires forall i :: 0 <= i < |cliques| ==> cliques[i].conditional.Sized()
      ensures d == BayesTreeModel.GetCliqueData(State())
    {
      d := CollectCliqueData(CliqueData([], []), root.value, |cliques|);
    }
  }

  /**
   * The validation loop of the generic BayesTree(bayesNet) constructor:
   * files each conditional under its frontal key, and stops at the first
   * one that is multi-frontal, out of range or a duplicate.
   */
  method FileConditionals(bn: seq<Conditional>, table: seq<Option<Conditional>>)
    returns (r: Result<seq<Option<Conditional>>>)
    requires forall i :: 0 <= i < |bn| ==> bn[i].Sized()
    ensures r == BayesTreeModel.FileConditionals(bn, table)
  {
    var conditionals := table;
    for i := 0 to |bn|
      invariant BayesTreeModel.FileConditionals(bn[i..], conditionals) == BayesTreeModel.FileConditionals(bn, table)
    {
      assert bn[i..][1..] == bn[i + 1..];
      var c := bn[i];
      if c.nrFrontals != 1 {
        return Err(InvalidArgument(MultiFrontalMessage));
      }
      if FirstFrontalKey(c) >= |conditionals| {
        return Err(InvalidArgument(OutOfRangeMessage));
      }
      if conditionals[FirstFrontalKey(c)].Some? {
        return Err(InvalidArgument(DuplicateMessage));
      }
      conditionals := conditionals[FirstFrontalKey(c) := Some(c)];
    }
    return Ok(conditionals);
  }

  /**
   * BayesTree(bayesNet) for general conditionals: the symbolic tree of the
   * net, and the conditionals filed in a table with a slot for every key up
   * to the root clique's last frontal key.
   */
  method FromBayesNetChecked(bn: seq<Conditional>) returns (sbt: BayesTree, r: Result<seq<Option<Conditional>>>)
    requires Buildable(Empty(), bn) && forall i :: 0 <= i < |bn| ==> bn[i].Sized()
    requires BayesTreeModel.FromBayesNet(bn).root.Some? &&
      BayesTreeModel.FromBayesNet(bn).cliques[BayesTreeModel.FromBayesNet(bn).root.value].conditional.HasFrontal()
    ensures sbt.State() == BayesTreeModel.FromBayesNet(bn)
    ensures r.Ok? <==> BayesTreeModel.FromBayesNetChecked(bn).Ok?
    ensures r.Ok? ==> BayesTreeModel.FromBayesNetChecked(bn).value == (sbt.State(), r.value)
    ensures r.Err? ==> BayesTreeModel.FromBayesNetChecked(bn).error == r.error
  {
    sbt := new BayesTree.FromBayesNet(bn);
    var rootCond := sbt.cliques[sbt.root.value].conditional;
    var conditionals := NullTable(rootCond.LastFrontalKey());
    r := FileConditionals(bn, conditionals);
  }

  /** getStats(): the running maxima over the collected sizes. */
  method GetStats(data: CliqueData) returns (stats: CliqueStats)
    ensures stats == Stats(data)
  {
    var max := 0;
    for i := 0 to |data.conditionalSizes|
      invariant MaxFrom(data.conditionalSizes[i..], max) == MaxFrom(data.conditionalSizes, 0)
    {
      assert data.conditionalSizes[i..][1..] == data.conditionalSizes[i + 1..];
      if data.conditionalSizes[i] > max {
        max := data.conditionalSizes[i];
      }
    }
    var maxConditional := max;
    max := 1;
    for i := 0 to |data.separatorSizes|
      invariant MaxFrom(data.separatorSizes[i..], max) == MaxFrom(data.separatorSizes, 1)
    {
      assert data.separatorSizes[i..][1..] == data.separatorSizes[i + 1..];
      if data.separatorSizes[i] > max {
        max := data.separatorSizes[i];
      }
    }
    stats := CliqueStats(maxConditional, max);
  }
}
