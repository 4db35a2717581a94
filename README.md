# A verified model of the core of gtsam

gtsam is a C++ library for smoothing and mapping with factor graphs: a
problem is stated as a graph of factors over keyed variables, eliminated
into a Bayes net or a Bayes tree, and solved by dense linear algebra inside
nonlinear optimizers. This project models, in Dafny, the parts of that core
whose behaviour is bookkeeping, index arithmetic, exact algebra or small
decision logic, and proves what the library promises about them.

What is modelled, module by module:

- `BayesTreeClass`, `BayesTreeModel`, `BayesTreeExamples` — the Bayes tree of
  `BayesTree-inl.h` as a class over an arena of cliques: the key→clique
  index, child lists and parent links, `addClique`, `addToCliqueFront`,
  incremental `insert` (merge into the parent clique or attach below it),
  `removeClique`, `removePath`, `removeTop`, `insert(subtree)`,
  `fillNodesIndex`, `clear`, `cloneTo` and the clique statistics. Each
  method is proved against a functional model of the arena, and the model
  carries the well-formedness invariant (every frontal key indexed to its
  clique, parent and child links consistent). The ASIA tree of
  `testBayesTree.cpp` is rebuilt as a worked example.
- `Conditionals`, `SymbolicFactorGraphs`, `FactorGraphs`, `LinearFactors` —
  conditionals and their order-sensitive equality, the symbolic factor graph
  with `push_factor` and in-place elimination, factor-graph equality, counts
  of non-null slots and key unions, and the linear factor's key→block map,
  whose `insert` never overwrites a block.
- `Matrices`, `Vectors`, `Elimination`, `Errors`, `VerticalBlockMatrices` —
  the dense kernel with `double` as exact `real`: column-major construction
  and flattening, blocks, rows and columns, triangular substitution,
  stacking and collecting, row and column scaling, the Householder rank-one
  update, the control flow of `weighted_eliminate`, the weighted
  pseudo-inverse, vector operations, `Errors` arithmetic, and the block
  offsets of `VerticalBlockMatrix`.
- `ExpressionNodes`, `ExecutionTraces` — key sets, dimension maps, trace
  sizes with `upAlign` rounding and the pointer accounting of
  `traceExecution` for expression trees, and the kind-state machine of the
  execution trace.
- `Manifolds`, `LieScalars`, `LieVectors`, `LieMatrices`, `Calibrations`,
  `CalibratedCameras`, `Points` — additive charts and the Lie wrappers with
  their retract/localCoordinates round trips and group laws, the affine
  calibration `Cal3_S2`, and projection and backprojection of a calibrated
  camera with its cheirality guard.
- `Simulated2D`, `NonlinearConstraints`, `NonlinearOptimizers`,
  `LevenbergMarquardt`, `SmartProjection`, `NonlinearEqualityFactorGraphs`,
  `Domains` — the simulated 2D values and factors, constraint construction
  and Lagrange-key naming, the convergence test and lambda schedules of both
  Levenberg–Marquardt drivers, the smart projection factor's state and its
  triangulation and linearization decisions, the feasibility and error folds
  of the equality graph, and the discrete domain's arc consistency and
  all-diff narrowing.
- `TemplateSubstitutions`, `WrapUtilities` — the binding generator's
  template substitution and its text emission.

`Wrappers` holds the `Option` and `Result` types and the exceptions gtsam
throws, which the model returns as `Err` values.

## Model

| member | source | states |
|---|---|---|
| BayesTreeClass.BayesTree.FromBayesNet | gtsam/inference/BayesTree-inl.h:285-289 | the tree built from a net of index conditionals is the one obtained by inserting every conditional, the last one first |
| BayesTreeClass.BayesTree.BuildOver | gtsam/inference/BayesTree-inl.h:292-316 | an empty net is refused with invalid_argument and leaves the tree alone; otherwise one new root clique holds the whole net and adopts the subtrees' roots |
| BayesTreeClass.BayesTree.IndexFrontals | gtsam/inference/BayesTree-inl.h:164-166 | the index grows to cover the last frontal key and every frontal key points at the clique; nothing else changes |
| BayesTreeClass.BayesTree.AddClique | gtsam/inference/BayesTree-inl.h:153-175 | the new tree is BayesTreeModel.AddClique of the old one and the returned clique is the new last one |
| BayesTreeClass.BayesTree.AddCliqueOver | gtsam/inference/BayesTree-inl.h:178-190 | the new tree is BayesTreeModel.AddCliqueOver of the old one |
| BayesTreeClass.BayesTree.AddToCliqueFront | gtsam/inference/BayesTree-inl.h:193-217 | the new tree is BayesTreeModel.AddToCliqueFront of the old one |
| BayesTreeClass.BayesTree.Insert | gtsam/inference/BayesTree-inl.h:372-417 | the new tree is BayesTreeModel.Insert of the old one |
| BayesTreeClass.BayesTree.InsertClique | gtsam/inference/BayesTree-inl.h:421-433 | succeeds exactly when BayesTreeModel.InsertClique does and then yields its tree; a conditional without frontal keys is refused and the tree kept |
| BayesTreeClass.BayesTree.RemoveClique | gtsam/inference/BayesTree-inl.h:220-235 | the new tree is BayesTreeModel.RemoveClique of the old one |
| BayesTreeClass.BayesTree.ResetParents | gtsam/inference/BayesTree-inl.h:229-230 | the parent link of every listed clique is reset, and nothing else changes |
| BayesTreeClass.BayesTree.RemovePath | gtsam/inference/BayesTree-inl.h:541-563 | tree, Bayes net and orphans after the call are those of BayesTreeModel.RemovePath |
| BayesTreeClass.BayesTree.RemovePathFrom | gtsam/inference/BayesTree-inl.h:546-562 | one recursive step of removePath agrees with BayesTreeModel.RemovePath |
| BayesTreeClass.BayesTree.DetachChildren | gtsam/inference/BayesTree-inl.h:557-560 | the clique's children go to the front of the orphans, its child list is emptied and its conditional is appended to the net |
| BayesTreeClass.BayesTree.RemoveTop | gtsam/inference/BayesTree-inl.h:566-583 | tree, net and orphans after the call are those of BayesTreeModel.RemoveTop |
| BayesTreeClass.BayesTree.SetIndex | gtsam/inference/BayesTree-inl.h:232-234 | every listed key inside the index is pointed at the value; cliques and root unchanged |
| BayesTreeClass.BayesTree.FillNodesIndex | gtsam/inference/BayesTree-inl.h:436-444 | the index after the call is BayesTreeModel.FillNodesIndex of the old one; cliques and root unchanged |
| BayesTreeClass.BayesTree.InsertSubtree | gtsam/inference/BayesTree-inl.h:447-471 | the new tree is BayesTreeModel.InsertSubtree of the old one (a null subtree changes nothing) |
| BayesTreeClass.BayesTree.Clear | gtsam/inference/BayesTree-inl.h:533-538 | the new tree is BayesTreeModel.Clear of the old one |
| BayesTreeClass.BayesTree.CloneSubtree | gtsam/inference/BayesTree-inl.h:586-594 | the target tree becomes BayesTreeModel.CloneSubtree of its old state |
| BayesTreeClass.BayesTree.CloneUnder | gtsam/inference/BayesTree-inl.h:589-593 | the body of cloneTo agrees with BayesTreeModel.CloneSubtree |
| BayesTreeClass.BayesTree.CloneChildren | gtsam/inference/BayesTree-inl.h:591-592 | the loop over the children agrees with BayesTreeModel.CloneAll |
| BayesTreeClass.BayesTree.CloneTo | gtsam/inference/BayesTree-inl.h:586-594 | copying the whole tree is cloning the root's subtree with no parent |
| BayesTreeClass.BayesTree.CopyFrom | gtsam/inference/BayesTree-inl.h:325-330 | the tree after operator= is BayesTreeModel.CopyFrom of the old one and the other tree |
| BayesTreeClass.BayesTree.CollectCliqueData | gtsam/inference/BayesTree-inl.h:54-62 | the collected data gain the frontal and separator sizes of every clique of the subtree, in pre-order |
| BayesTreeClass.BayesTree.CollectChildren | gtsam/inference/BayesTree-inl.h:59-61 | the loop over the children appends their subtrees' sizes in pre-order |
| BayesTreeClass.BayesTree.GetCliqueData | gtsam/inference/BayesTree-inl.h:46-52 | the result is BayesTreeModel.GetCliqueData of the tree |
| BayesTreeClass.FileConditionals | gtsam/inference/BayesTree-inl.h:267-277 | the validation loop gives what BayesTreeModel.FileConditionals gives |
| BayesTreeClass.FromBayesNetChecked | gtsam/inference/BayesTree-inl.h:261-281 | the symbolic tree of the net, and the conditionals filed as BayesTreeModel.FromBayesNetChecked says, with its error on failure |
| BayesTreeClass.GetStats | gtsam/inference/BayesTree-inl.h:112-136 | the statistics are BayesTreeModel.Stats of the collected data |
| BayesTreeExamples.AsiaTree | cpp/testBayesTree.cpp:68-78 | building from the ASIA net of the tests gives the expected shape: E, L, B at the root over S, T and X |
| BayesTreeExamples.AsiaExample | cpp/testBayesTree.cpp:45-65 | the ASIA tree has four cliques; the root holds E, L, B as frontal keys and the cliques of S, T and X are its children |
| BayesTreeExamples.InOrderIsReversed | cpp/testBayesTree.cpp:47-54 | inserting conditionals one by one in list order succeeds exactly when the Bayes net constructor accepts the reversed list, and builds the same tree |
| BayesTreeExamples.AsiaTreesEqual | cpp/testBayesTree.cpp:45-78 | the tree from inserting B, L, E, S, T and X in turn equals, under BayesTree::equals, the tree the constructor builds from the ASIA net |
| BayesTreeModel.Resize | gtsam/inference/BayesTree-inl.h:164 | std::vector::resize keeps the first entries and pads with null pointers to the requested length |
| BayesTreeModel.Assign | gtsam/inference/BayesTree-inl.h:232-234 | every key listed and inside the index gets the value; every other entry is kept |
| BayesTreeModel.SetParents | gtsam/inference/BayesTree-inl.h:229-230 | the listed cliques get the parent link; all other fields and cliques are kept |
| BayesTreeModel.RemoveAll | gtsam/inference/BayesTree-inl.h:549 | std::list::remove keeps exactly the elements different from x |
| BayesTreeModel.MinKey | gtsam/inference/BayesTree-inl.h:363-369 | findParentClique's key is a parent key no larger than any other |
| BayesTreeModel.IndexFrontals | gtsam/inference/BayesTree-inl.h:164-166 | the index is at least one past the last frontal key; frontal keys point at the clique and every other entry is kept or null-padded |
| BayesTreeModel.AddClique | gtsam/inference/BayesTree-inl.h:153-175 | one new clique with the conditional and parent; the parent gains it as a child or it becomes the root; frontal keys index it; the rest is kept |
| BayesTreeModel.AddCliqueOver | gtsam/inference/BayesTree-inl.h:178-190 | one new clique over the children, whose parent links now point at it; the root is kept |
| BayesTreeModel.AddToCliqueFront | gtsam/inference/BayesTree-inl.h:193-217 | the conditional's key becomes one more frontal key at the front of the clique; its key is indexed to the clique; other cliques unchanged |
| BayesTreeModel.Insert | gtsam/inference/BayesTree-inl.h:372-417 | a conditional without parents starts the root clique; otherwise it joins the parent clique when its parents match, else it becomes a child clique |
| BayesTreeModel.AddCliquePreserves | gtsam/inference/BayesTree-inl.h:153-175 | addClique keeps the tree well formed, the index sound and parent/child links consistent |
| BayesTreeModel.AddToCliqueFrontPreserves | gtsam/inference/BayesTree-inl.h:193-217 | addToCliqueFront keeps every tree invariant |
| BayesTreeModel.InsertPreserves | gtsam/inference/BayesTree-inl.h:372-417 | insert keeps every tree invariant |
| BayesTreeModel.RemoveClique | gtsam/inference/BayesTree-inl.h:220-235 | the arena keeps its size and all parent links stay inside it |
| BayesTreeModel.RemoveCliqueRoot | gtsam/inference/BayesTree-inl.h:223-226 | removeClique clears the root exactly when the clique has no parent |
| BayesTreeModel.RemoveCliqueNodes | gtsam/inference/BayesTree-inl.h:232-234 | exactly the conditional's keys inside the index are reset |
| BayesTreeModel.RemoveCliqueChildren | gtsam/inference/BayesTree-inl.h:225-226 | the clique leaves its parent's child list; conditionals and other child lists stay |
| BayesTreeModel.RemoveCliqueParents | gtsam/inference/BayesTree-inl.h:229-230 | exactly the clique's children lose their parent link |
| BayesTreeModel.RemoveCliqueWellFormed | gtsam/inference/BayesTree-inl.h:220-235 | removeClique keeps every pointer inside the arena |
| BayesTreeModel.RemovePath | gtsam/inference/BayesTree-inl.h:541-563 | a null clique changes nothing; the arena keeps its size and parent links stay inside it |
| BayesTreeModel.RemovePathNet | gtsam/inference/BayesTree-inl.h:552-560 | the net receives the conditionals of the path, the root's first |
| BayesTreeModel.RemovePathChildren | gtsam/inference/BayesTree-inl.h:552-558 | the removed cliques lose their children; every other child list is as before |
| BayesTreeModel.RemovePathOrphans | gtsam/inference/BayesTree-inl.h:548-558 | the orphans gain the children of the removed cliques and hold no removed clique |
| BayesTreeModel.RemovePathIndex | gtsam/inference/BayesTree-inl.h:541-563 | the index loses exactly the keys of the removed conditionals, and the tree loses its root |
| BayesTreeModel.RemovePathParents | gtsam/inference/BayesTree-inl.h:541-563 | children of removed cliques lose their parent link; every other parent link is kept |
| BayesTreeModel.RemovePathNodesInRange | gtsam/inference/BayesTree-inl.h:541-563 | removePath keeps every index entry inside the arena |
| BayesTreeModel.RemoveTop | gtsam/inference/BayesTree-inl.h:566-583 | the arena and index keep their sizes |
| BayesTreeModel.RemoveTopSkips | gtsam/inference/BayesTree-inl.h:572-582 | keys that are outside the index or unindexed remove nothing |
| BayesTreeModel.InsertClique | gtsam/inference/BayesTree-inl.h:421-433 | no frontal key gives an error; otherwise a new clique over the children, the root when asked |
| BayesTreeModel.PreOrderUnfold | gtsam/inference/BayesTree-inl.h:54-62 | the walk is the clique followed by its children's walks |
| BayesTreeModel.FillNodesIndex | gtsam/inference/BayesTree-inl.h:436-444 | the index keeps its size |
| BayesTreeModel.FillNodesIndexSound | gtsam/inference/BayesTree-inl.h:436-444 | every entry written names a clique of the subtree in which that key is frontal |
| BayesTreeModel.MaxFrontal | gtsam/inference/BayesTree-inl.h:465-467 | the largest frontal key of an indexable conditional is its last one |
| BayesTreeModel.GrowFor | gtsam/inference/BayesTree-inl.h:465-468 | the index grows to one past the last frontal key when it is too short, and keeps its entries |
| BayesTreeModel.Link | gtsam/inference/BayesTree-inl.h:454-462 | the subtree root becomes the root or is appended to its parent clique's children with its parent link set |
| BayesTreeModel.InsertSubtree | gtsam/inference/BayesTree-inl.h:447-471 | a null subtree changes nothing; otherwise the arena is kept in size |
| BayesTreeModel.InsertSubtreeEffect | gtsam/inference/BayesTree-inl.h:447-471 | insert(subtree) links the root as Link says and only points keys at cliques of the subtree |
| BayesTreeModel.Clear | gtsam/inference/BayesTree-inl.h:533-538 | the index is empty, there is no root and the size is 0 |
| BayesTreeModel.EqualsReflexive | gtsam/inference/BayesTree-inl.h:345-360 | equals (same size, and the index slots pairwise both empty or naming cliques with equal conditionals) holds of every well-formed tree with itself |
| BayesTreeModel.EqualsSymmetric | gtsam/inference/BayesTree-inl.h:345-360 | over indexes of the same length, equals gives the same answer whichever tree is compared with which |
| BayesTreeModel.CloneSubtree | gtsam/inference/BayesTree-inl.h:586-594 | the copy of the clique goes under the parent (the root when none) and its subtree follows |
| BayesTreeModel.CloneSubtreeConditionals | gtsam/inference/BayesTree-inl.h:586-594 | cloning keeps the target's conditionals and appends the subtree's in pre-order |
| BayesTreeModel.AddCliqueConditionals | gtsam/inference/BayesTree-inl.h:153-175 | addClique appends the conditional and changes no other |
| BayesTreeModel.CopyFrom | gtsam/inference/BayesTree-inl.h:325-330 | operator= clears the tree and clones the other root's subtree into it |
| BayesTreeModel.CopyFromConditionals | gtsam/inference/BayesTree-inl.h:325-330 | the copy holds the other tree's conditionals in pre-order after the old ones |
| BayesTreeModel.SizesOfAppend | gtsam/inference/BayesTree-inl.h:54-62 | collecting sizes along two lists of cliques appends the two collections |
| BayesTreeModel.SizesOfOne | gtsam/inference/BayesTree-inl.h:57-58 | one clique contributes its frontal count and its separator count |
| BayesTreeModel.GetCliqueData | gtsam/inference/BayesTree-inl.h:46-52 | one frontal and one separator count per clique reachable from the root |
| BayesTreeModel.MaxFrom | gtsam/inference/BayesTree-inl.h:118-122 | the running maximum is at least its start and every element, and is one of them |
| BayesTreeModel.Stats | gtsam/inference/BayesTree-inl.h:112-136 | the largest conditional size is attained by a clique unless there is none; the separator maximum starts at 1 |
| BayesTreeModel.InsertReversedPreserves | gtsam/inference/BayesTree-inl.h:285-289 | building by insertion keeps every tree invariant |
| BayesTreeModel.FromBayesNet | gtsam/inference/BayesTree-inl.h:285-289 | the tree from an index-conditional net is the insertions from the last conditional to the first |
| BayesTreeModel.FileConditionals | gtsam/inference/BayesTree-inl.h:267-277 | each conditional is filed under its frontal key; a second frontal key or a filled slot is an invalid_argument |
| BayesTreeModel.FileConditionalsOk | gtsam/inference/BayesTree-inl.h:268-274 | filing succeeds exactly when every conditional is single-frontal, in range, free and distinct from the others |
| BayesTreeModel.FileConditionalsFiles | gtsam/inference/BayesTree-inl.h:276 | after filing each conditional sits under its key and every other slot is unchanged |
| BayesTreeModel.FromBayesNetChecked | gtsam/inference/BayesTree-inl.h:261-281 | the symbolic tree fixes the cliques and the conditionals are filed in a null table sized by the net's last key |
| BayesTreeModel.FromBayesNetCheckedOk | gtsam/inference/BayesTree-inl.h:267-277 | the constructor accepts a net exactly when every conditional has one frontal key, distinct from the others |
| BayesTreeModel.AbsorbAll | gtsam/inference/BayesTree-inl.h:308-313 | addToCliqueFront for each conditional, from the last to the first |
| BayesTreeModel.LastKeysSnoc | gtsam/inference/BayesTree-inl.h:208-214 | absorbing puts the conditionals' keys, in list order, before the clique's keys |
| BayesTreeModel.FromBayesNetOver | gtsam/inference/BayesTree-inl.h:292-316 | an empty net is an invalid_argument; otherwise one root clique over the subtrees built from the last conditional forward |
| BayesTreeModel.FromBayesNetOverRoot | gtsam/inference/BayesTree-inl.h:305-315 | the root clique holds the net's frontal keys in order followed by the last conditional's parents |
| Calibrations.Uncalibrate | cpp/Cal3_S2.h:89-92 | the image point minus the principal point is the calibration applied to the intrinsic point: (fx x + s y, fy y) |
| Calibrations.DefaultUncalibrate | cpp/Cal3_S2.h:20-25 | the default calibration leaves coordinates unchanged |
| Calibrations.PrincipalPoint | cpp/Cal3_S2.h:65-67 | the principal point is where the intrinsic origin lands |
| Calibrations.ToVector | cpp/Cal3_S2.h:72-77 | the vector has dim() = 5 entries: fx, fy, s, u0, v0 in that order |
| Calibrations.ToVectorInjective | cpp/Cal3_S2.h:72-77 | two calibrations have the same vector exactly when they are equal |
| Calibrations.Exmap | cpp/Cal3_S2.h:58-60 | the new calibration's vector is the old one plus the first five entries of d |
| Calibrations.ExmapZero | cpp/Cal3_S2.h:58-60 | exmap of the zero vector is the calibration itself |
| Calibrations.CalibrationMatrix | cpp/Cal3_S2.h:82-84 | K is 3x3, upper triangular, with last row (0, 0, 1) |
| Calibrations.MatrixUncalibrates | cpp/Cal3_S2.h:82-92 | K times the homogeneous point (x, y, 1) is the uncalibrated point with homogeneous coordinate 1 |
| CalibratedCameras.ProjectToCamera | gtsam/geometry/CalibratedCamera.cpp:35-42 | the image point scaled by the depth gives back the point's x and y |
| CalibratedCameras.BackprojectFromCamera | gtsam/geometry/CalibratedCamera.cpp:45-48 | the back-projected point has the given depth and, for a non-zero depth, projects back onto p |
| CalibratedCameras.BackprojectProject | gtsam/geometry/CalibratedCamera.cpp:35-48 | every point off the image plane is the back-projection of its projection at its own depth |
| CalibratedCameras.Project | gtsam/geometry/CalibratedCamera.cpp:82-96 | throws CheiralityException exactly when the point is on or behind the image plane; otherwise the result back-projects to the point |
| Conditionals.KeyEqualsEquivalence | inference/Conditional.h:46-48 | the base-class key comparison is reflexive, symmetric and transitive |
| Conditionals.OnKeyRespectsEquals | inference/Conditional.h:70-81 | onKey(key) holds exactly for the conditionals key-equal to one that has the key |
| Conditionals.SymbolicConditional.AsConditional | inference/SymbolicConditional.h:26-29 | the conditional seen through the base class keeps the key and the parent list |
| Conditionals.SymbolicConditional.Parentless | inference/SymbolicConditional.h:44-46 | the key and no parents |
| Conditionals.SymbolicConditional.WithParent | inference/SymbolicConditional.h:51-54 | the key and the one parent |
| Conditionals.SymbolicConditional.WithTwoParents | inference/SymbolicConditional.h:59-64 | the key and the two parents in argument order |
| Conditionals.SymbolicConditional.WithThreeParents | inference/SymbolicConditional.h:69-75 | the key and the three parents in argument order |
| Conditionals.SymbolicConditional.WithParents | inference/SymbolicConditional.h:80-83 | the key and the parent list as given |
| Conditionals.SymbolicConditional.NrParents | inference/SymbolicConditional.h:105-107 | the number of parents is the length of the parent list |
| Conditionals.SymbolicConditional.EqualsIsValueEquality | inference/SymbolicConditional.h:94-99 | equals holds exactly for the same key and the same parents in the same order, and implies the base-class equality |
| Conditionals.SymbolicConditional.EqualsOtherKind | inference/SymbolicConditional.h:96-97 | a conditional of another kind is never equal, whatever its key |
| Domains.Domain.Evaluate | gtsam_unstable/discrete/Domain.cpp:28-30 | out_of_range exactly when the key is unassigned; otherwise 1 when the value is allowed and 0 when it is not |
| Domains.Domain.ToDecisionTreeFactor | gtsam_unstable/discrete/Domain.cpp:33-41 | one key with the domain's cardinality; the table entry of each value is what operator() gives that value |
| Domains.Domain.EnsureArcConsistency | gtsam_unstable/discrete/Domain.cpp:50-57 | the wrong key is an invalid_argument and a value domains[j] lacks is "Unsatisfiable", both with nothing changed; otherwise domains[j] becomes this domain, which only narrows it; no other domain changes |
| Domains.Domain.CheckAllDiff | gtsam_unstable/discrete/Domain.cpp:60-75 | returns true exactly when some value is allowed by no other listed domain, and the domain is then the singleton of the first such value; otherwise it is unchanged; an ordered set stays ordered |
| Domains.Domain.PartiallyApply | gtsam_unstable/discrete/Domain.cpp:78-84 | unsatisfiable exactly when the key is assigned a disallowed value; otherwise a fresh copy of this domain |
| Domains.Domain.PartiallyApplyDomains | gtsam_unstable/discrete/Domain.cpp:87-93 | unsatisfiable exactly when domains[key] is a singleton of a disallowed value; otherwise a fresh copy of domains[key] |
| Domains.Taken | gtsam_unstable/discrete/Domain.cpp:64-70 | a value is taken exactly when some listed key other than this one allows it |
| Domains.FirstFree | gtsam_unstable/discrete/Domain.cpp:63-74 | the first position whose value is not taken, every earlier one taken; none exactly when every value is taken |
| Domains.FirstFreeSnoc | gtsam_unstable/discrete/Domain.cpp:63-74 | extending a fully taken prefix by a taken value keeps it fully taken; by a free value makes that position the first free one |
| Domains.FirstFreeNarrows | gtsam_unstable/discrete/Domain.cpp:69-71 | the narrowed singleton is one of the old values, allowed by no other listed domain, and is an ordered set |
| Elimination.UpdatedA | cpp/Matrix.cpp:370-378 | every row i loses a(i) times r in the columns after j; columns up to j are kept |
| Elimination.UpdatedB | cpp/Matrix.cpp:370-372 | every entry b(i) loses a(i) d |
| Elimination.UpdateAb | cpp/Matrix.cpp:333-380 | A and b after the call are UpdatedA and UpdatedB of their old values |
| Elimination.SubtractScaledRow | cpp/Matrix.cpp:373-377 | row i loses ai r in the columns after j; every other entry is kept |
| Elimination.UpdatedRowSum | cpp/Matrix.cpp:376-377 | the updated row's sum against x is the old sum minus a(i) times r's sum against x |
| Elimination.UpdateAbSubstitution | cpp/Matrix.cpp:426-428 | substituting x_j = d - r x into row i of the old system gives row i of the updated system: the residuals agree |
| Elimination.UpdatedResidual | cpp/Matrix.cpp:426-428 | the updated row's residual is the old one plus a(i) (d - r x) |
| Elimination.HouseholderW | cpp/Matrix.cpp:306-316 | w(c) is beta times column c of A, from row j down, against v |
| Elimination.RankOneUpdate | cpp/Matrix.cpp:318-325 | rows from j lose v w'; the rows above j are kept |
| Elimination.RankOneEntry | cpp/Matrix.cpp:322-324 | entry (r, c) loses v(r - j) w(c) from row j on and is kept above |
| Elimination.Reflected | cpp/Matrix.cpp:291-327 | the update keeps the matrix's shape; nothing changes when j is past the last row |
| Elimination.HouseholderUpdate | cpp/Matrix.cpp:291-327 | the matrix after the call is Reflected of the old one |
| Elimination.ColumnProducts | cpp/Matrix.cpp:307-316 | the first loop computes HouseholderW |
| Elimination.ColumnProduct | cpp/Matrix.cpp:309-315 | one column of the first loop is entry c of HouseholderW |
| Elimination.SubtractFromColumn | cpp/Matrix.cpp:320-324 | column c loses v(r - j) wc from row j on; every other entry is kept |
| Elimination.ReflectedW | cpp/Matrix.cpp:306-316 | when beta times the squared norm of v is 2, w of the reflected matrix is -w |
| Elimination.HouseholderInvolution | cpp/Matrix.cpp:284-291 | when beta times the squared norm of v is 2 the update is the reflection I - beta v v', and applying it twice gives A back |
| Elimination.Weights | cpp/Matrix.cpp:392 | one weight per sigma, the reciprocal of its square |
| Elimination.SolutionRow | cpp/Matrix.cpp:412-414 | basis(n, j) with r(c) the pseudo-inverse against column c for every column after j |
| Elimination.EliminateFrom | cpp/Matrix.cpp:398-429 | the loop returns rows and leaves A and b of the original shapes |
| Elimination.EliminateSkip | cpp/Matrix.cpp:409 | a column with precision below 1e-8 leaves the rows, A and b as they are |
| Elimination.EliminateStop | cpp/Matrix.cpp:411-424 | a column that is not skipped contributes the row (r, d, 1/sqrt(precision)); the loop stops once min(m, n) rows are found |
| Elimination.EliminateStep | cpp/Matrix.cpp:426-428 | otherwise A and b are updated by updateAb and the loop goes on with the next column |
| Elimination.SolutionRowLead | cpp/Matrix.cpp:412-414 | the row of column j has zeros before j and 1 at j |
| Elimination.EchelonSnoc | cpp/Matrix.cpp:412-421 | appending the row of column j keeps the rows in echelon form |
| Elimination.EliminateEchelon | cpp/Matrix.cpp:383-432 | the rows weighted_eliminate returns are in echelon form: each leads with a 1, at strictly increasing columns |
| Elimination.EliminateRankBound | cpp/Matrix.cpp:386-424 | at most min(m, n) rows, and at most one per column |
| Elimination.SolutionRowOf | cpp/Matrix.cpp:412-414 | the loop computes SolutionRow |
| Elimination.WeightedEliminate | cpp/Matrix.cpp:383-432 | the rows returned and A and b after the call are EliminateFrom of the inputs from column 0 |
| Elimination.EliminateColumn | cpp/Matrix.cpp:399-428 | one pass on column j agrees with EliminateFrom: skip, stop, or update and go on |
| Errors.Equals | linear/Errors.cpp:33-37 | true exactly when both lists have the same number of blocks and each block is within tol of the expected one |
| Errors.ErrorsEqualZeroTol | linear/Errors.cpp:33-37 | with tolerance 0 equals is equality of the lists |
| Errors.ErrorsEqualSymmetric | linear/Errors.cpp:25-31 | equals does not depend on which list is the expected one |
| Errors.Difference | linear/Errors.cpp:40-51 | the blockwise difference has the shape of its operands |
| Errors.Minus | linear/Errors.cpp:40-51 | operator- pushes one blockwise difference per block, in order |
| Errors.DifferenceSelf | linear/Errors.cpp:40-51 | a list minus itself is all zeros, block by block |
| Errors.BlockDots | linear/Errors.cpp:62-63 | one dot product per pair of blocks |
| Errors.Dot | linear/Errors.cpp:54-65 | the running sum is the sum over the blocks of their dot products |
| Errors.ErrorsDotSymmetric | linear/Errors.cpp:54-65 | dot is symmetric, and dot(a, a) is never negative |
| Errors.ErrorsAxpy | linear/Errors.cpp:68-72 | each block of y becomes y + alpha x; the shape is kept |
| Errors.Axpy | linear/Errors.cpp:68-72 | y after the call is ErrorsAxpy of its old value |
| Errors.AxpyZero | linear/Errors.cpp:68-72 | axpy with alpha 0 leaves y as it was |
| Errors.AxpyUndoesMinus | linear/Errors.cpp:40-72 | axpy with alpha 1 adds b back to a - b |
| Errors.ErrorsDotAxpy | linear/Errors.cpp:54-72 | dot(y + alpha x, z) = dot(y, z) + alpha dot(x, z) |
| ExecutionTraces.Identity | gtsam/nonlinear/ExecutionTrace.h:141-145 | the n-by-n identity |
| ExecutionTraces.AddTopLeft | gtsam/nonlinear/ExecutionTrace.h:40-57 | dTdA is added into the top-left corner of the block and the rest of the block is kept |
| ExecutionTraces.AddTopLeftZero | gtsam/nonlinear/ExecutionTrace.h:40-57 | adding a zero block changes nothing |
| ExecutionTraces.AddTopLeftTwice | gtsam/nonlinear/ExecutionTrace.h:40-57 | two leaves with the same key accumulate: adding D1 then D2 adds their sum |
| ExecutionTraces.HandleLeafCase | gtsam/nonlinear/ExecutionTrace.h:60-68 | dTdA is added into the key's block and every other block is kept |
| ExecutionTraces.ExecutionTrace.SetLeaf | gtsam/nonlinear/ExecutionTrace.h:107-110 | the trace becomes a Leaf holding the key |
| ExecutionTraces.ExecutionTrace.SetFunction | gtsam/nonlinear/ExecutionTrace.h:112-115 | the trace becomes a Function holding the record |
| ExecutionTraces.ExecutionTrace.Record | gtsam/nonlinear/ExecutionTrace.h:128-136 | a record exactly when the trace is a Function whose record has the requested type |
| ExecutionTraces.ExecutionTrace.StartReverseAD1 | gtsam/nonlinear/ExecutionTrace.h:142-151 | a Constant changes nothing, a Leaf adds the identity into its block, a Function hands the Jacobians to its record |
| ExecutionTraces.ExecutionTrace.ReverseAD1 | gtsam/nonlinear/ExecutionTrace.h:153-160 | a Constant changes nothing, a Leaf adds dTdA into its block, a Function hands dTdA to its record |
| ExecutionTraces.LeafReverseADLocal | gtsam/nonlinear/ExecutionTrace.h:40-68 | the leaf case changes only its key's block, keeps the key set, and on dynamic sizes is a plain sum |
| ExpressionNodes.UpAligned | gtsam/nonlinear/internal/ExpressionNode.h:36-52 | an aligned value is kept; without overflow the result is the next multiple of the alignment, less than one alignment above the value |
| ExpressionNodes.UpAlignedSmallest | gtsam/nonlinear/internal/ExpressionNode.h:36-52 | no multiple of the alignment lies between the value and its rounding |
| ExpressionNodes.UpAlignedIdempotent | gtsam/nonlinear/internal/ExpressionNode.h:36-52 | rounding a rounded value changes nothing |
| ExpressionNodes.UpAlignedWraps | gtsam/nonlinear/internal/ExpressionNode.h:42-46 | near the top of the word the rounding wraps around to 0, as size_t arithmetic does |
| ExpressionNodes.SizeCell.UpAlign | gtsam/nonlinear/internal/ExpressionNode.h:36-48 | upAlign rounds the referenced value in place to UpAligned of its old value |
| ExpressionNodes.KeysAreLeaves | gtsam/nonlinear/internal/ExpressionNode.h:93-423 | a key is among keys() exactly when some leaf of the expression carries it |
| ExpressionNodes.DimsMerge | gtsam/nonlinear/internal/ExpressionNode.h:99-429 | dims adds exactly the expression's keys to the map, keeps the other entries, and gives each key the dimension of a leaf with that key |
| ExpressionNodes.Dims | gtsam/nonlinear/internal/ExpressionNode.h:331-334 | the caller's map after the call is DimsInto of its old contents |
| ExpressionNodes.DimsArguments | gtsam/nonlinear/internal/ExpressionNode.h:426-429 | the arguments write into the map one after the other |
| ExpressionNodes.ArgValues | gtsam/nonlinear/internal/ExpressionNode.h:316-320 | the arguments' values, one per argument, or none at the first that fails |
| ExpressionNodes.ValueDefined | gtsam/nonlinear/internal/ExpressionNode.h:176-178 | value() succeeds exactly when every key of the expression has a value (values.at throws otherwise) |
| ExpressionNodes.ValueLocal | gtsam/nonlinear/internal/ExpressionNode.h:133-320 | two assignments that agree on the expression's keys give it the same value |
| ExpressionNodes.TraceSizeAligned | gtsam/nonlinear/internal/ExpressionNode.h:213-405 | every trace size is a multiple of the alignment, and a function node's is at least its record's size |
| ExpressionNodes.Trace | gtsam/nonlinear/internal/ExpressionNode.h:138-489 | the storage keeps its length; a constant keeps the trace, a leaf marks it Leaf(key), a function node marks it Function at ptr |
| ExpressionNodes.TraceValue | gtsam/nonlinear/internal/ExpressionNode.h:138-289 | traceExecution returns what value() returns and throws where value() throws, however the arguments' pointers move |
| ExpressionNodes.TraceFrame | gtsam/nonlinear/internal/ExpressionNode.h:268-290 | traceExecution writes only inside [ptr, ptr + traceSize()) |
| ExpressionNodes.Depth | gtsam/nonlinear/internal/ExpressionNode.h:200-214 | every argument of a function node is shallower than the node |
| ExpressionNodes.TraceReadsBack | gtsam/nonlinear/internal/ExpressionNode.h:268-290 | with each argument traced after the previous one, the trace read back from any storage agreeing on its range is the expression's own shape |
| ExpressionNodes.BinaryOfUnariesSize | gtsam/nonlinear/internal/ExpressionNode.h:213-310 | with alignment 1 a unary node over a leaf needs one place, a binary node over two of them three |
| ExpressionNodes.UnaryOfLeafTrace | gtsam/nonlinear/internal/ExpressionNode.h:268-290 | tracing a unary node over a leaf at place 1 writes its record there |
| ExpressionNodes.BinaryOfUnariesShape | gtsam/nonlinear/internal/ExpressionNode.h:372-383 | the shape of the binary node walks to the first leaf first |
| ExpressionNodes.SharedRecordReadback | gtsam/nonlinear/internal/ExpressionNode.h:377-378 | a root record whose two traces lead to the same record reads back as that record twice |
| ExpressionNodes.AsWrittenLosesFirstRecord | gtsam/nonlinear/internal/ExpressionNode.h:377-379 | as written, both arguments of a binary node write at the same pointer: reverse AD then reaches k2 twice and k1 never |
| ExpressionNodes.TraceArgsStep | gtsam/nonlinear/internal/ExpressionNode.h:481-485 | tracing the arguments is tracing the first, then the rest from where it ends; it fails where the first fails |
| ExpressionNodes.TraceExecution | gtsam/nonlinear/internal/ExpressionNode.h:268-489 | the buffer and the caller's trace after the call, and the value, are those of Trace with each argument traced after the previous one |
| ExpressionNodes.TraceArguments | gtsam/nonlinear/internal/ExpressionNode.h:481-485 | the arguments traced in place agree with TraceArgs |
| FactorGraphs.CountNonNullBound | gtsam/inference/FactorGraphUnordered-inl.h:71-76 | the count of non-null factors is at most the size, and equal to it exactly when no slot is null |
| FactorGraphs.KeyUnion | gtsam/inference/FactorGraphUnordered-inl.h:80-86 | a key is in the union exactly when some non-null factor has it |
| FactorGraphs.GraphsEqualReflexive | gtsam/inference/FactorGraphUnordered-inl.h:54-67 | with a reflexive factor equality, every graph equals itself |
| FactorGraphs.GraphsEqualSymmetric | gtsam/inference/FactorGraphUnordered-inl.h:54-67 | with a symmetric factor equality, graph equality gives the same answer whichever graph is compared with which |
| FactorGraphs.FactorGraph.Equals | gtsam/inference/FactorGraphUnordered-inl.h:54-67 | true exactly when the sizes agree and each slot pair is both null or both factors that are equal |
| FactorGraphs.FactorGraph.NrFactors | gtsam/inference/FactorGraphUnordered-inl.h:71-76 | the number of non-null slots, at most size() |
| FactorGraphs.FactorGraph.Keys | gtsam/inference/FactorGraphUnordered-inl.h:80-86 | the union of the keys of every non-null factor |
| LevenbergMarquardt.Code | gtsam/nonlinear/LevenbergMarquardtOptimizer.cpp:49-61 | each verbosity level has an integer code between 0 and 5 |
| LevenbergMarquardt.CodeInjective | gtsam/nonlinear/LevenbergMarquardtOptimizer.cpp:49-61 | two levels have the same code exactly when they are the same level |
| LevenbergMarquardt.UpperChar | gtsam/nonlinear/LevenbergMarquardtOptimizer.cpp:36 | a lower-case ASCII letter maps to the matching capital; every other character is unchanged |
| LevenbergMarquardt.ToUpper | gtsam/nonlinear/LevenbergMarquardtOptimizer.cpp:36 | to_upper keeps the length and upper-cases each character in place |
| LevenbergMarquardt.ToUpperIdempotent | gtsam/nonlinear/LevenbergMarquardtOptimizer.cpp:36 | upper-casing twice is the same as upper-casing once |
| LevenbergMarquardt.VerbosityToString | gtsam/nonlinear/LevenbergMarquardtOptimizer.cpp:49-61 | "UNDEFINED" is printed exactly for a value outside the six levels |
| LevenbergMarquardt.ParsePrint | gtsam/nonlinear/LevenbergMarquardtOptimizer.cpp:35-61 | parsing the printed name of a level gives back that level |
| LevenbergMarquardt.ParseIgnoresCase | gtsam/nonlinear/LevenbergMarquardtOptimizer.cpp:35-46 | parsing is case-insensitive: an upper-cased string parses like the original |
| LevenbergMarquardt.ParseUnknown | gtsam/nonlinear/LevenbergMarquardtOptimizer.cpp:44-45 | a string that names no level, ignoring case, parses to SILENT |
| LevenbergMarquardt.ParseLowerCase | gtsam/nonlinear/LevenbergMarquardtOptimizer.cpp:35-39 | "trylambda" parses to TRYLAMBDA |
| LevenbergMarquardt.TrialLoop | gtsam/nonlinear/LevenbergMarquardtOptimizer.cpp:103-183 | the lambda loop terminates once lambda is positive and the factor exceeds 1, after at least one trial |
| LevenbergMarquardt.TrialLoopResult | gtsam/nonlinear/LevenbergMarquardtOptimizer.cpp:103-183 | every lambda tried before the last was below the upper bound and rejected; an accepted step is the last trial, is no worse than the old error, and divides lambda by the factor; a rejected last trial reached the bound and keeps values and error |
| LevenbergMarquardt.TrialLoopDescends | gtsam/nonlinear/LevenbergMarquardtOptimizer.cpp:147-151 | the loop never increases the error and lambda stays positive |
| LevenbergMarquardt.EscalatedPositive | gtsam/nonlinear/LevenbergMarquardtOptimizer.cpp:161 | repeated multiplication by a factor above 1 never lowers a positive lambda, and dividing it again stays positive |
| LevenbergMarquardt.LevenbergMarquardtOptimizer.Iterate | gtsam/nonlinear/LevenbergMarquardtOptimizer.cpp:79-190 | one iteration leaves the state the lambda loop computes, adds its trials to the inner-iteration count, never increases the error and counts one iteration |
| LieScalars.EqualsSymmetric | gtsam/base/LieScalar.h:55-57 | equality within tol is symmetric and reflexive for a non-negative tol |
| LieScalars.Retract | gtsam/base/LieScalar.h:66 | retract moves the value by the first coordinate |
| LieScalars.LocalCoordinates | gtsam/base/LieScalar.h:69 | the one local coordinate retracts onto t2 |
| LieScalars.LocalRetract | gtsam/base/LieScalar.h:66-69 | local coordinates of a retraction give back the one-entry vector |
| LieScalars.LocalIsScalarChart | gtsam/base/LieScalar.h:66-69 | retract and localCoordinates are the scalar chart of the manifold traits |
| LieScalars.Identity | gtsam/base/LieScalar.h:74-76 | the identity is the default scalar 0 |
| LieScalars.Compose | gtsam/base/LieScalar.h:79-85 | composition adds the values |
| LieScalars.Between | gtsam/base/LieScalar.h:88-94 | composing a with between(a, l2) gives l2 |
| LieScalars.Inverse | gtsam/base/LieScalar.h:97-99 | the inverse composes with the scalar to the identity on both sides |
| LieScalars.GroupLaws | gtsam/base/LieScalar.h:74-99 | the identity is neutral, composition is associative, and between(a, b) is inverse(a) composed with b |
| LieScalars.Expmap | gtsam/base/LieScalar.h:104 | Expmap takes the first coordinate as the value |
| LieScalars.Logmap | gtsam/base/LieScalar.h:107 | Logmap gives a one-entry vector that Expmap maps back to the scalar |
| LieScalars.LogmapExpmap | gtsam/base/LieScalar.h:104-107 | Logmap inverts Expmap on one-entry vectors |
| LieVectors.Dim | gtsam/base/LieVector.h:79 | the dimension is the vector's length |
| LieVectors.Retract | gtsam/base/LieVector.h:82 | retract keeps the dimension and moves each entry by the matching coordinate |
| LieVectors.LocalCoordinates | gtsam/base/LieVector.h:85 | the local coordinates have the dimension and retract onto t2 |
| LieVectors.LocalRetract | gtsam/base/LieVector.h:82-85 | local coordinates of a retraction give back the vector |
| LieVectors.RetractIsVectorChart | gtsam/base/LieVector.h:82-85 | retract and localCoordinates are the vector chart of the manifold traits |
| LieVectors.Identity | gtsam/base/LieVector.h:90-93 | identity() always fails with a runtime error |
| LieVectors.Compose | gtsam/base/LieVector.h:100-107 | composition adds entry by entry |
| LieVectors.Between | gtsam/base/LieVector.h:110-116 | composing a with between(a, l2) gives l2 |
| LieVectors.Inverse | gtsam/base/LieVector.h:119-123 | composing with the inverse gives the zero vector |
| LieVectors.GroupLaws | gtsam/base/LieVector.h:100-123 | the zero vector is neutral, composition is associative, and between(a, b) is inverse(a) composed with b |
| LieVectors.Expmap | gtsam/base/LieVector.h:128-131 | Expmap keeps the dimension of the coordinates |
| LieVectors.Logmap | gtsam/base/LieVector.h:134-137 | Expmap maps Logmap's vector back to the point |
| LieVectors.LogmapExpmap | gtsam/base/LieVector.h:128-137 | Logmap inverts Expmap |
| LieMatrices.Dim | gtsam/base/LieMatrix.h:92 | the dimension is rows times columns |
| LieMatrices.Retract | gtsam/base/LieMatrix.h:97-104 | a vector of the wrong size fails with invalid_argument; otherwise the shape is kept and entry (i, j) moves by the row-major coordinate i * cols + j |
| LieMatrices.RetractEntries | gtsam/base/LieMatrix.h:101-103 | adding the row-major reshape of v moves entry (i, j) by v[i * cols + j] |
| LieMatrices.LocalCoordinates | gtsam/base/LieMatrix.h:112-117 | the local coordinates have rows times columns entries and retract onto t2 |
| LieMatrices.LocalRetract | gtsam/base/LieMatrix.h:97-117 | a retraction by a vector of the right size succeeds, and its local coordinates give back the vector |
| LieMatrices.RowMajorChart | gtsam/base/LieMatrix.h:97-117 | retract and localCoordinates are the row-major matrix chart of the manifold traits |
| LieMatrices.Identity | gtsam/base/LieMatrix.h:128-131 | identity() always fails with a runtime error |
| LieMatrices.Compose | gtsam/base/LieMatrix.h:138-145 | composition keeps the shape and adds entry by entry |
| LieMatrices.Between | gtsam/base/LieMatrix.h:148-154 | composing a with between(a, l2) gives l2 |
| LieMatrices.Inverse | gtsam/base/LieMatrix.h:157-161 | composing with the inverse gives the zero matrix of the shape |
| LieMatrices.GroupLaws | gtsam/base/LieMatrix.h:138-161 | the zero matrix is neutral, composition is associative, and between(a, b) is inverse(a) composed with b |
| LieMatrices.Expmap | gtsam/base/LieMatrix.h:168-170 | Expmap always fails with a runtime error |
| LieMatrices.Logmap | gtsam/base/LieMatrix.h:173-179 | Logmap has rows times columns entries, entry (i, j) at row-major position i * cols + j |
| LieMatrices.LogmapEntries | gtsam/base/LieMatrix.h:176-177 | the row-major flattening puts entry (i, j) at i * cols + j |
| LieMatrices.LogmapIsLocalAtZero | gtsam/base/LieMatrix.h:112-179 | Logmap is the local coordinates of the matrix seen from the zero matrix |
| LinearFactors.MapInsert | cpp/LinearFactor.h:215-217 | std::map::insert adds the key and never overwrites a block already present |
| LinearFactors.FirstTerm | cpp/LinearFactor.h:85-86 | the first term carrying a key is found, and no earlier term carries it |
| LinearFactors.InsertAllBlocks | cpp/LinearFactor.h:85-86 | inserting the terms in order adds exactly their keys, keeps existing blocks, and a new key gets the matrix of its first term |
| LinearFactors.LinearFactor.constructor | cpp/LinearFactor.h:46-47 | the default factor has no blocks, an empty b and no sigmas |
| LinearFactors.LinearFactor.FromB | cpp/LinearFactor.h:50-52 | the null factor holds b with a sigma of 1 per row and no blocks |
| LinearFactors.LinearFactor.Unary | cpp/LinearFactor.h:55-59 | one block for key1, b, and the sigma repeated per row |
| LinearFactors.LinearFactor.Binary | cpp/LinearFactor.h:62-68 | the blocks are the two terms inserted in order, so a repeated key keeps the first matrix |
| LinearFactors.LinearFactor.Ternary | cpp/LinearFactor.h:71-79 | the blocks are the three terms inserted in order |
| LinearFactors.LinearFactor.FromTerms | cpp/LinearFactor.h:82-87 | the blocks are the terms inserted in order, with one sigma repeated per row of b |
| LinearFactors.LinearFactor.FromTermsWithSigmas | cpp/LinearFactor.h:90-95 | the blocks are the terms inserted in order, with the given sigmas |
| LinearFactors.LinearFactor.Size | cpp/LinearFactor.h:114 | size() is the number of keys with a block |
| LinearFactors.LinearFactor.GetA | cpp/LinearFactor.h:135-140 | the block is returned exactly when the factor involves the key; otherwise invalid_argument names the key |
| LinearFactors.LinearFactor.Insert | cpp/LinearFactor.h:215-217 | insert adds a block only for a new key and leaves b and the sigmas alone |
| LinearFactors.LinearFactor.SetA | cpp/LinearFactor.h:225-227 | set_A is insert: an existing block is not replaced |
| LinearFactors.LinearFactor.SetB | cpp/LinearFactor.h:220-222 | set_b replaces b and nothing else |
| LinearFactors.InsertKeepsBlocks | cpp/LinearFactor.h:215-217 | after insert the key is present, an old block is kept, and the size grows by one exactly for a new key |
| Manifolds.MatrixPlus | gtsam/base/Manifold.h:259 | origin + map keeps the shape and adds entry by entry |
| Manifolds.MatrixMinus | gtsam/base/Manifold.h:252 | other - origin keeps the shape and adding it back to origin gives other |
| Manifolds.MatrixNegated | gtsam/base/Manifold.h:106-112 | the group inverse of a matrix adds to it to give the zero matrix |
| Manifolds.Flattened | gtsam/base/Manifold.h:253 | the storage of a matrix has rows times columns entries |
| Manifolds.Reshaped | gtsam/base/Manifold.h:258 | mapping a vector of m times n entries gives a well-formed m-by-n matrix |
| Manifolds.ReshapedFlattened | gtsam/base/Manifold.h:251-259 | mapping a matrix's storage back gives the matrix |
| Manifolds.FlattenedReshaped | gtsam/base/Manifold.h:251-259 | the storage of a mapped vector is the vector |
| Manifolds.RowMajorEntry | gtsam/base/Manifold.h:258 | in row-major storage entry (i, j) is element i * n + j |
| Manifolds.MatrixZero | gtsam/base/Manifold.h:133-141 | the zero of a fixed-size matrix has the shape and all entries 0 |
| Manifolds.ScalarLocal | gtsam/base/Manifold.h:229-233 | the one-entry local coordinates retract onto the other value |
| Manifolds.ScalarLocalRetract | gtsam/base/Manifold.h:229-236 | local coordinates of a retraction give back the one-entry vector |
| Manifolds.VectorLocal | gtsam/base/Manifold.h:272-274 | the local coordinates have the vector's size and retract onto the other vector |
| Manifolds.VectorLocalRetract | gtsam/base/Manifold.h:272-277 | local coordinates of a retraction give back the vector |
| Manifolds.MatrixLocal | gtsam/base/Manifold.h:251-256 | the local coordinates have rows times columns entries and retract onto the other matrix |
| Manifolds.MatrixRetract | gtsam/base/Manifold.h:257-260 | retract keeps the shape of the origin |
| Manifolds.MatrixChartDimension | gtsam/base/Manifold.h:261-263 | getDimension is rows times columns, the dimension trait of the matrix |
| Manifolds.MatrixLocalRetract | gtsam/base/Manifold.h:251-260 | local coordinates of a retraction give back the vector |
| Manifolds.CanonicalScalarLocal | gtsam/base/Manifold.h:212-214 | the canonical coordinates of a scalar are the one-entry vector holding it |
| Manifolds.CanonicalScalarRetract | gtsam/base/Manifold.h:216-218 | canonical retract inverts canonical local on scalars |
| Manifolds.CanonicalMatrixLocal | gtsam/base/Manifold.h:212-214 | the canonical coordinates of a fixed-size matrix are its storage, the zero matrix being the origin |
| Manifolds.CanonicalMatrixRetract | gtsam/base/Manifold.h:216-218 | canonical retract of a fixed-size matrix maps the coordinates onto its storage |
| Matrices.Zeros | cpp/Matrix.cpp:68-72 | zeros(m, n) is a well-formed m-by-n matrix of zeros |
| Matrices.ColumnMajor | cpp/Matrix.cpp:41-49 | Matrix_(m, n, v) is a well-formed m-by-n matrix for any v with at least m * n entries |
| Matrices.ColumnMajorEntry | cpp/Matrix.cpp:41-49 | entry (i, j) of Matrix_(m, n, v) is v(j * m + i): the copy goes column by column and reads only the first m * n entries |
| Matrices.ColumnMajorFlatten | cpp/Matrix.cpp:41-156 | Vector_ of Matrix_(m, n, v) gives back v |
| Matrices.FlattenColumnMajor | cpp/Matrix.cpp:41-156 | Vector_(A) has rows times columns entries, and Matrix_ of it gives back A |
| Matrices.MatrixFromColumns | cpp/Matrix.cpp:41-49 | the loops of Matrix_ fill the fresh buffer with exactly the column-major matrix of v's first m * n entries, for any v at least that long |
| Matrices.VectorFromMatrix | cpp/Matrix.cpp:148-156 | the loops of Vector_ produce the columns of A one after the other |
| Matrices.Eye | cpp/Matrix.cpp:77-81 | eye(m, n) has 1 exactly on the first min(m, n) diagonal positions and 0 elsewhere |
| Matrices.Diag | cpp/Matrix.cpp:86-91 | diag(v) is square, as large as v is long, with v on the diagonal and 0 elsewhere |
| Matrices.EqualWithAbsTolCheck | cpp/Matrix.cpp:96-112 | the result is true exactly when the sizes agree and every entry differs by at most tol |
| Matrices.EqualWithZeroTol | cpp/Matrix.cpp:96-112 | with tolerance 0, equal_with_abs_tol holds exactly for equal matrices |
| Matrices.Column | cpp/Matrix.cpp:159-171 | column j holds entry (i, j) at position i |
| Matrices.Row | cpp/Matrix.cpp:174-187 | row_ fails with invalid_argument exactly when i is not a row index; otherwise it holds entry (i, j) at position j |
| Matrices.Block | cpp/Matrix.cpp:206-214 | the block of rows [i1, i2) and columns [j1, j2) has those dimensions, and entry (k, l) is entry (i1 + k, j1 + l) |
| Matrices.BlockWhole | cpp/Matrix.cpp:206-214 | the block of all rows and columns is the matrix itself |
| Matrices.BlockOfBlock | cpp/Matrix.cpp:206-214 | a block of a block is the block of the matrix at the summed offsets |
| Matrices.BlockRow | cpp/Matrix.cpp:174-214 | a one-row block spanning every column is the row row_ returns |
| Matrices.Sub | cpp/Matrix.cpp:206-214 | sub copies exactly the block of rows [i1, i2) and columns [j1, j2) |
| Matrices.BackSubstituteUpper | cpp/Matrix.cpp:527-544 | a non-square U fails with invalid_argument; otherwise the result x solves row i of U x = b for every i, using only the entries at or right of the diagonal (and pivot 1 when unit is set) |
| Matrices.BackSubstituteUpperTransposed | cpp/Matrix.cpp:547-564 | a non-square U fails with invalid_argument; otherwise the result solves U' x = b, reading U column by column |
| Matrices.BackSubstituteLower | cpp/Matrix.cpp:567-584 | a non-square L fails with invalid_argument; otherwise the result solves L x = b from the first row down |
| Matrices.SolvesUpperTriangular | cpp/Matrix.cpp:527-544 | for an upper-triangular U, a back-substitution solution makes U x equal b |
| Matrices.SolvesLowerTriangular | cpp/Matrix.cpp:567-584 | for a lower-triangular L, a forward-substitution solution makes L x equal b |
| Matrices.UpperStep | cpp/Matrix.cpp:535-541 | setting x(r) from row r keeps rows r+1 onwards solved and solves row r |
| Matrices.LowerStep | cpp/Matrix.cpp:575-581 | setting x(r) from row r keeps rows before r solved and solves row r |
| Matrices.StackMatrices | cpp/Matrix.cpp:587-611 | stack computes exactly the matrices' rows one matrix after the other |
| Matrices.StackDimensions | cpp/Matrix.cpp:589-597 | the first pass gives the row total and the column count of the last matrix |
| Matrices.StackBlock | cpp/Matrix.cpp:587-611 | each matrix of the list is the block of the stack starting at the row count of the matrices before it |
| Matrices.CollectMatrices | cpp/Matrix.cpp:614-661 | collect computes exactly the matrices side by side |
| Matrices.CollectDimensions | cpp/Matrix.cpp:617-623 | the first pass gives the row count and the allocated width |
| Matrices.CollectWidth | cpp/Matrix.cpp:617-623 | the allocated width is the total of the column counts |
| Matrices.CollectBlock | cpp/Matrix.cpp:614-648 | each matrix of the list is the block of the result starting at the column count of the matrices before it |
| Matrices.VectorScaleRows | cpp/Matrix.cpp:665-677 | for A.rows at most the length of v, vector_scale(v, A) multiplies row i of a copy of A by v(i) |
| Matrices.RowScaledApply | cpp/Matrix.cpp:665-677 | scaling the rows by v is multiplying by diag(v) on the left: each entry of the product is scaled by v(i) |
| Matrices.RowScaledOnes | cpp/Matrix.cpp:665-677 | scaling by a vector of ones leaves A unchanged |
| Matrices.VectorScaleColumns | cpp/Matrix.cpp:681-692 | for A.cols at most the length of v, vector_scale(A, v) multiplies column j of a copy of A by v(j) |
| Matrices.ColumnScaledTranspose | cpp/Matrix.cpp:665-692 | scaling the columns of A is scaling the rows of its transpose |
| Matrices.SkewSymmetric | cpp/Matrix.cpp:695-701 | skewSymmetric(wx, wy, wz) is a 3-by-3 matrix |
| Matrices.SkewSymmetricTranspose | cpp/Matrix.cpp:695-701 | the skew-symmetric matrix is minus its transpose |
| Matrices.SkewSymmetricCross | cpp/Matrix.cpp:695-701 | multiplying by skewSymmetric(w) is the cross product with w |
| Matrices.SkewSymmetricAxis | cpp/Matrix.cpp:695-701 | w lies in the kernel of skewSymmetric(w) |
| Vectors.Repeat | cpp/Vector.cpp:82-85 | repeat(n, value) has n entries, all equal to value |
| Vectors.Zero | cpp/Vector.cpp:89 | zero(n) has n entries, all 0 |
| Vectors.Delta | cpp/Vector.cpp:88-92 | for i < n, delta(n, i, value) has n entries: value at i and 0 everywhere else |
| Vectors.VectorFromValues | cpp/Vector.cpp:53-70 | for m at most the number of values, Vector_(m, ...) holds the first m values in order |
| Vectors.IsZero | cpp/Vector.cpp:73-79 | zero(v) is true exactly when every entry is 0 |
| Vectors.GreaterThanOrEqual | cpp/Vector.cpp:115-123 | for vec1 no longer than vec2, the result is true exactly when every entry of vec1 is at least the matching entry of vec2 |
| Vectors.EqualsAsWritten | cpp/Vector.cpp:104-112 | for vec1 no longer than vec2, operator== as written is true exactly when vec1 matches the prefix of vec2 of its length |
| Vectors.EqualsAsWrittenPrefix | cpp/Vector.cpp:104-112 | [1] compares equal, as written, to the longer [1, 2] |
| Vectors.Equals | cpp/Vector.cpp:104-112 | operator== with a length check is true exactly for equal vectors |
| Vectors.EqualWithAbsTolCheck | cpp/Vector.cpp:126-137 | the result is true exactly when the lengths agree and every entry differs by at most tol |
| Vectors.EqualWithZeroTol | cpp/Vector.cpp:126-137 | with tolerance 0, equal_with_abs_tol holds exactly for equal vectors |
| Vectors.Sub | cpp/Vector.cpp:149-155 | for i1 <= i2 <= the length of v, sub(v, i1, i2) has i2 - i1 entries, entry i being v(i1 + i) |
| Vectors.SubIsSlice | cpp/Vector.cpp:149-155 | what sub computes is the half-open slice [i1, i2) |
| Vectors.Emul | cpp/Vector.cpp:158-165 | emul multiplies entry by entry |
| Vectors.Ediv | cpp/Vector.cpp:168-175 | each entry of ediv times the divisor entry gives back the dividend entry |
| Vectors.EdivSafe | cpp/Vector.cpp:178-187 | ediv_ gives 0 where both entries are 0 and the quotient elsewhere |
| Vectors.SumOfAppend | cpp/Vector.cpp:190-196 | the sum of a concatenation is the sum of the two sums |
| Vectors.Sum | cpp/Vector.cpp:190-196 | the loop of sum adds up exactly the entries |
| Vectors.SumOfRepeat | cpp/Vector.cpp:82-196 | a constant vector sums to its length times the constant |
| Vectors.FirstConstraint | cpp/Vector.cpp:236-240 | the first row at or after i with sigma below 1e-9 and a coefficient above 1e-9 in size is found, and no earlier row is one; none means no row is |
| Vectors.RowPrecision | cpp/Vector.cpp:248-255 | a row's precision is never negative |
| Vectors.WeightedSquares | cpp/Vector.cpp:244-256 | a' inv(Sigma) a is never negative |
| Vectors.WeightedColumn | cpp/Vector.cpp:262-264 | the scaled column holds f times each row's precision times its coefficient |
| Vectors.PseudoinverseGiven | cpp/Vector.cpp:232-267 | the pseudo-inverse has one entry per sigma |
| Vectors.WrittenSelectable | cpp/Vector.cpp:236-256 | when no sigma is 0 at a coefficient of size exactly 1e-9, every row the guards weigh has a non-zero sigma |
| Vectors.FindConstraint | cpp/Vector.cpp:236-240 | the first loop finds exactly the first hard constraint row |
| Vectors.FillPrecisions | cpp/Vector.cpp:244-256 | the second loop stores each row's precision and returns a' inv(Sigma) a |
| Vectors.WeighRow | cpp/Vector.cpp:248-255 | one pass of the second loop stores row i's precision, adds its weighted square and changes no other entry |
| Vectors.WeightedSquaresStep | cpp/Vector.cpp:249-254 | a negligible coefficient adds nothing; any other row adds a_i squared over sigma_i squared |
| Vectors.ScalePrecisions | cpp/Vector.cpp:258-265 | a precision below 1e-9 zeroes the result; otherwise each entry becomes precision_i times a_i over the total |
| Vectors.WeightedPseudoinverseInto | cpp/Vector.cpp:232-267 | the fast version fills the caller's buffer with the pseudo-inverse and returns the precision, both as Pseudoinverse defines them |
| Vectors.Pseudoinverse | cpp/Vector.cpp:232-267 | the written result has one entry per sigma |
| Vectors.PseudoinverseGuardGap | cpp/Vector.cpp:237-252 | with a = [1e-9] and sigma = [0] no guard catches the row, and its precision divides by zero |
| Vectors.FirstConstraintFixed | cpp/Vector.cpp:236-240 | under the corrected guard the first hard constraint row is found, and no earlier row is one |
| Vectors.FixedSelectable | cpp/Vector.cpp:236-256 | under the corrected guard every row that is weighed has a non-zero sigma, for every input |
| Vectors.PseudoinverseFixed | cpp/Vector.cpp:232-267 | the corrected pseudo-inverse has one entry per sigma, for every input |
| Vectors.PseudoinverseFixedAgrees | cpp/Vector.cpp:232-267 | away from the gap the written guards divide safely and give the corrected result |
| Vectors.PseudoinverseConstraint | cpp/Vector.cpp:236-240 | a hard constraint at row i gives infinite precision and delta(m, i, 1/a_i): a left inverse of a that ignores every other row |
| Vectors.PseudoinverseUnit | cpp/Vector.cpp:258-265 | with no hard constraint and a precision of at least 1e-9, the pseudo-inverse times a is 1 |
| Vectors.WeightedPseudoinverse | cpp/Vector.cpp:271-278 | the checked version fails with invalid_argument exactly when the lengths differ; otherwise it returns what the fast version as written computes (Pseudoinverse), except on the guard gap, where the corrected result stands in |
| Vectors.WeighedUnderWrittenGuard | cpp/Vector.cpp:237-252 | a = [1e-9], sigmas = [1e-10] is weighed by the written guards, with precision 100 and pseudo-inverse [1e9], while the corrected guard makes it a hard constraint of infinite precision |
| Vectors.Concat | cpp/Vector.cpp:281-296 | the concatenation's length is the total of the lengths |
| Vectors.ConcatBlocks | cpp/Vector.cpp:289-293 | entry d of vector k sits at the total length of the vectors before it, plus d |
| Vectors.ConcatVectors | cpp/Vector.cpp:281-296 | the two passes of concatVectors produce exactly the vectors one after the other |
| NonlinearConstraints.MakeBase | cpp/NonlinearConstraint.h:41-49 | the measurement is the zero vector of length p with sigma 1, and nrConstraints() is p |
| NonlinearConstraints.MakeConstraint1 | cpp/NonlinearConstraint.h:118-130 | a given Lagrange key is kept; an empty one becomes "L_" + key, so the key is never empty |
| NonlinearConstraints.MakeConstraint2 | cpp/NonlinearConstraint.h:195-209 | a given Lagrange key is kept; an empty one becomes "L_" + key1 + key2, so the key is never empty |
| NonlinearConstraints.DefaultKeyInjective1 | cpp/NonlinearConstraint.h:126-129 | distinct keys give unary constraints distinct default Lagrange keys |
| NonlinearConstraints.DefaultKeyClash2 | cpp/NonlinearConstraint.h:205-208 | the binary default is not unique: ("a", "bc") and ("ab", "c") both get "L_abc" |
| NonlinearConstraints.LinearizeSingle | cpp/NonlinearConstraint.h:75-77 | linearize with a single configuration always fails with invalid_argument |
| NonlinearConstraints.UnaryScalarExample | cpp/testNonlinearConstraint.cpp:32-47 | g(x) = x^2 - 5 on "x" with key "L_x1" keeps the key, has one multiplier and error -4 at x = 1 |
| NonlinearEqualityFactorGraphs.Linearize | gtsam_unstable/nonlinear/NonlinearEqualityFactorGraph.h:33-44 | one linear equality per factor, in order, each the factor's linearization at x tagged with its dual key |
| NonlinearEqualityFactorGraphs.MaxAbs | gtsam_unstable/nonlinear/NonlinearEqualityFactorGraph.h:54 | the infinity norm bounds every absolute entry, is one of them, and is 0 for the empty vector |
| NonlinearEqualityFactorGraphs.MaxAbsWithin | gtsam_unstable/nonlinear/NonlinearEqualityFactorGraph.h:54 | the infinity norm is within tol exactly when every absolute entry is |
| NonlinearEqualityFactorGraphs.CheckFeasibility | gtsam_unstable/nonlinear/NonlinearEqualityFactorGraph.h:49-59 | the result is true exactly when every factor's unwhitened error has infinity norm at most tol |
| NonlinearEqualityFactorGraphs.FeasibleEntrywise | gtsam_unstable/nonlinear/NonlinearEqualityFactorGraph.h:49-59 | an empty graph is feasible; otherwise feasibility is every entry of every error within a non-negative tol |
| NonlinearEqualityFactorGraphs.FeasibleMonotone | gtsam_unstable/nonlinear/NonlinearEqualityFactorGraph.h:49-59 | a graph feasible at one tolerance is feasible at every larger one |
| NonlinearEqualityFactorGraphs.SumOverAppend | gtsam_unstable/nonlinear/NonlinearEqualityFactorGraph.h:61-77 | the sum over two graphs side by side is the sum of their sums |
| NonlinearEqualityFactorGraphs.SumOverNonNegative | gtsam_unstable/nonlinear/NonlinearEqualityFactorGraph.h:61-68 | non-negative factor errors give a non-negative total |
| NonlinearEqualityFactorGraphs.SumOverNulls | gtsam_unstable/nonlinear/NonlinearEqualityFactorGraph.h:61-77 | a graph of null slots only sums to 0 |
| NonlinearEqualityFactorGraphs.Error | gtsam_unstable/nonlinear/NonlinearEqualityFactorGraph.h:61-68 | the loop adds up the errors of the non-null factors |
| NonlinearEqualityFactorGraphs.Cost | gtsam_unstable/nonlinear/NonlinearEqualityFactorGraph.h:70-77 | the loop adds up the entries of the non-null factors' unwhitened errors |
| NonlinearOptimizers.Make | cpp/NonlinearOptimizer-inl.h:49-54 | a new optimizer's error is the graph's error at its configuration |
| NonlinearOptimizers.CheckConvergence | cpp/NonlinearOptimizer-inl.h:24-44 | converged exactly when the relative decrease is below relTol or the absolute decrease below absTol; a zero current error follows IEEE division (any increase counts as converged) |
| NonlinearOptimizers.ConvergenceMonotone | cpp/NonlinearOptimizer-inl.h:24-44 | loosening either threshold keeps a converged pair converged |
| NonlinearOptimizers.RelativeTest | cpp/NonlinearOptimizer-inl.h:36-39 | for a positive current error the relative test compares the decrease with relTol times the error |
| NonlinearOptimizers.NoProgressConverges | cpp/NonlinearOptimizer-inl.h:28-40 | a step that leaves the error unchanged is converged for any positive absTol |
| NonlinearOptimizers.Iterate | cpp/NonlinearOptimizer-inl.h:77-101 | iterate gives a consistent optimizer at the Gauss-Newton update of the configuration, with the default lambda |
| NonlinearOptimizers.GaussNewton | cpp/NonlinearOptimizer-inl.h:104-120 | what gaussNewton returns is a consistent optimizer |
| NonlinearOptimizers.GaussNewtonFirstConverged | cpp/NonlinearOptimizer-inl.h:104-120 | gaussNewton returns exactly the first iterate that passes the convergence test |
| NonlinearOptimizers.EscalatedIsPower | cpp/NonlinearOptimizer-inl.h:158 | after k rejections the damping is lambda times factor^k |
| NonlinearOptimizers.TryLambda | cpp/NonlinearOptimizer-inl.h:128-161 | what try_lambda returns is a consistent optimizer |
| NonlinearOptimizers.TryLambdaResult | cpp/NonlinearOptimizer-inl.h:128-161 | a returned step does not increase the error; it is the damped step at lambda times factor^k after k rejections, with lambda then divided by the factor |
| NonlinearOptimizers.MaxIterationsIgnored | cpp/NonlinearOptimizer-inl.h:203-214 | as written, any two iteration limits above 1 give the same run |
| NonlinearOptimizers.LevenbergMarquardtStopsAtMax | cpp/NonlinearOptimizer-inl.h:188-215 | with the limit passed on, a run that never converges stops after exactly maxIterations iterations |
| Simulated2D.PoseKey | gtsam/slam/simulated2D.h:34 | the key of pose j is the symbol 'x' with index j |
| Simulated2D.PointKey | gtsam/slam/simulated2D.h:37 | the key of point j is the symbol 'l' with index j |
| Simulated2D.KeysDistinct | gtsam/slam/simulated2D.h:34-37 | pose and point keys never collide, and each kind of key determines its index |
| Simulated2D.Values.constructor | gtsam/slam/simulated2D.h:51-52 | the values start empty with both counts 0 |
| Simulated2D.Values.FromBase | gtsam/slam/simulated2D.h:55-57 | a copy of the base values whose counts start at 0 whatever the base holds |
| Simulated2D.Values.InsertPose | gtsam/slam/simulated2D.h:60-63 | a present key fails and changes nothing; otherwise p is stored under 'x'j, the pose count grows by one, and every other pose and every point is unchanged |
| Simulated2D.Values.InsertPoint | gtsam/slam/simulated2D.h:66-69 | a present key fails and changes nothing; otherwise p is stored under 'l'j, the point count grows by one, and every other point and every pose is unchanged |
| Simulated2D.Values.Pose | gtsam/slam/simulated2D.h:82-84 | pose(j) is found exactly when 'x'j is stored, and is the stored point |
| Simulated2D.Values.Point | gtsam/slam/simulated2D.h:87-89 | point(j) is found exactly when 'l'j is stored, and is the stored point |
| Simulated2D.Odo | gtsam/slam/simulated2D.h:102-104 | the odometry from x1, added to x1, gives x2 |
| Simulated2D.Mea | gtsam/slam/simulated2D.h:111-113 | the measurement from x, added to x, gives l |
| Simulated2D.PriorError | gtsam/slam/simulated2D.h:137-139 | the prior error has two entries and is zero exactly when the prediction equals the measurement |
| Simulated2D.OdometryError | gtsam/slam/simulated2D.h:174-178 | the odometry error has two entries and is zero exactly when odo(x1, x2) equals the measurement |
| Simulated2D.MeasurementError | gtsam/slam/simulated2D.h:214-218 | the measurement error has two entries and is zero exactly when mea(x, l) equals the measurement |
| Simulated2D.ConsistentErrorsVanish | gtsam/slam/simulated2D.h:137-218 | measuring exactly what the functions predict gives zero errors for all three factors |
| SmartProjection.DecideIfTriangulate | gtsam_unstable/slam/SmartProjectionFactor.h:229-244 | retriangulate exactly when there are no old poses, the counts differ, or some pose differs from its old pose beyond the threshold |
| SmartProjection.DecideIfLinearize | gtsam_unstable/slam/SmartProjectionFactor.h:248-277 | relinearize exactly when there are no old poses, the counts differ, or some pose after the first differs beyond the threshold |
| SmartProjection.LinearizeImpliesTriangulate | gtsam_unstable/slam/SmartProjectionFactor.h:229-277 | whenever the poses call for relinearizing at a threshold they also call for retriangulating at it |
| SmartProjection.FirstPoseIgnored | gtsam_unstable/slam/SmartProjectionFactor.h:260-266 | a change in the first pose alone triggers retriangulation but not relinearization |
| SmartProjection.UpperToLength | gtsam_unstable/slam/SmartProjectionFactor.h:526-536 | the first i rows of the upper triangle hold i(2n-i+1)/2 blocks |
| SmartProjection.UpperPairsLength | gtsam_unstable/slam/SmartProjectionFactor.h:327 | the upper triangle of n keys has n(n+1)/2 blocks, the size Gs is allocated with |
| SmartProjection.UpperToPrefix | gtsam_unstable/slam/SmartProjectionFactor.h:526-536 | the blocks of fewer rows are a prefix of the blocks of more rows |
| SmartProjection.PairAt | gtsam_unstable/slam/SmartProjectionFactor.h:526-536 | block (i1, i2) with i1 <= i2 sits at the running count GsCount2 the loop reaches it with |
| SmartProjection.UpperToBounds | gtsam_unstable/slam/SmartProjectionFactor.h:526-536 | every block of the first i rows has i1 <= i2 < n and i1 < i |
| SmartProjection.UpperPairsComplete | gtsam_unstable/slam/SmartProjectionFactor.h:526-536 | the blocks stored are exactly the pairs i1 <= i2 < n: none out of range and none missing |
| SmartProjection.FillBlocks | gtsam_unstable/slam/SmartProjectionFactor.h:525-536 | Gs holds, in row order, block (i1, i2) of H for each i1 <= i2, and gs holds slice i1 of the gradient for each key |
| SmartProjection.IdCounter.constructor | gtsam_unstable/slam/SmartProjectionFactor.h:49 | the ID counter starts at 0 with nothing issued |
| SmartProjection.AfterTriangulation | gtsam_unstable/slam/SmartProjectionFactor.h:347-385 | without retriangulation only the degeneracy flag can change; with it the poses are recorded, cheirality is set exactly on a point behind a camera, degenerate exactly when triangulation fails, and the point is the triangulated one on success; a cheirality failure always leaves the state degenerate |
| SmartProjection.TriangulationIdempotent | gtsam_unstable/slam/SmartProjectionFactor.h:347-385 | triangulating twice at the same poses leaves the state as the first call left it |
| SmartProjection.SmartProjectionFactorState.constructor | gtsam_unstable/slam/SmartProjectionFactor.h:52-55 | the new state takes the counter's value as a fresh ID, the counter grows by one, and no Hessian is cached |
| SmartProjection.SmartProjectionFactorState.Triangulate | gtsam_unstable/slam/SmartProjectionFactor.h:347-385 | the triangulation part of the state becomes AfterTriangulation of the old one and the linearization part is unchanged |
| SmartProjection.ZeroBlocks | gtsam_unstable/slam/SmartProjectionFactor.h:342 | count blocks, each the 6x6 zero matrix |
| SmartProjection.ZeroSlices | gtsam_unstable/slam/SmartProjectionFactor.h:343 | count gradient blocks, each the zero 6-vector |
| SmartProjection.HalfSumNonNegative | gtsam_unstable/slam/SmartProjectionFactor.h:611-638 | the error is never negative when the distances are not |
| SmartProjection.HalfSumZero | gtsam_unstable/slam/SmartProjectionFactor.h:611-638 | the error is zero exactly when every distance is zero |
| SmartProjection.Distances | gtsam_unstable/slam/SmartProjectionFactor.h:624-637 | one distance per measurement, that of measurement i from camera i |
| SmartProjection.SmartProjectionFactor.constructor | gtsam_unstable/slam/SmartProjectionFactor.h:142-153 | keys and measurements are those given, the thresholds take their defaults and both cheirality flags are off |
| SmartProjection.SmartProjectionFactor.WithTolerances | gtsam_unstable/slam/SmartProjectionFactor.h:163-176 | as the plain constructor but with the given rank tolerance and linearization threshold |
| SmartProjection.SmartProjectionFactor.WithFlagsAsWritten | gtsam_unstable/slam/SmartProjectionFactor.h:189-200 | the flags constructor as written: the measurements are stored but the keys are left empty |
| SmartProjection.SmartProjectionFactor.WithFlags | gtsam_unstable/slam/SmartProjectionFactor.h:189-200 | the corrected flags constructor: the keys are stored beside the measurements and the flags are those given |
| SmartProjection.SmartProjectionFactor.Empty | gtsam_unstable/slam/SmartProjectionFactor.h:207-212 | no measurements and no keys, default thresholds |
| SmartProjection.SmartProjectionFactor.Add | gtsam_unstable/slam/SmartProjectionFactor.h:222-225 | the measurement and the key are appended, so measurements and keys stay paired if they were |
| SmartProjection.SmartProjectionFactor.Dim | gtsam_unstable/slam/SmartProjectionFactor.h:314-316 | six dimensions per key |
| SmartProjection.SmartProjectionFactor.Linearize | gtsam_unstable/slam/SmartProjectionFactor.h:319-548 | fewer than two poses give a zero Hessian factor and mark the state degenerate, changing nothing else; otherwise the state is triangulated and the cached factor is returned when no relinearization is called for; otherwise the new poses are recorded, a degenerate state moves the point to infinity along the first measurement, a regular one fails when the point is behind a camera, a measurement without a pose is out_of_range, and on success the factor holds every upper block of H and every gradient slice, cached only under selective relinearization |
| SmartProjection.SmartProjectionFactor.Relinearize | gtsam_unstable/slam/SmartProjectionFactor.h:460-547 | the triangulation flags and poses are kept; a degenerate state gets the point at infinity along the first measurement; a point behind a camera or a missing pose fails with the cache untouched; otherwise the blocks of H and the gradient slices are returned and cached under selective relinearization |
| SmartProjection.SmartProjectionFactor.ProjectAll | gtsam_unstable/slam/SmartProjectionFactor.h:491-513 | the projection loop fails with cheirality when the point is behind the camera of some measurement, else with out_of_range when a measurement has no camera, and succeeds otherwise |
| SmartProjection.SmartProjectionFactor.Error | gtsam_unstable/slam/SmartProjectionFactor.h:556-643 | inactive or with fewer than two poses the error is zero and the state untouched; otherwise the state is triangulated, a degenerate one puts the point at infinity along the first measurement and sums the rotation-only distances, and a regular one sums the projection distances unless the point is behind a camera |
| SmartProjection.SmartProjectionFactor.SumDistances | gtsam_unstable/slam/SmartProjectionFactor.h:610-638 | half the sum of the distances of all measurements, unless the point is behind one of their cameras (cheirality) or a measurement has no camera (out_of_range) |
| SmartProjection.FlagsConstructorAsWritten | gtsam_unstable/slam/SmartProjectionFactor.h:189-200 | a factor built by the flags constructor on matching keys and measurements has dimension 0 and unpaired measurements |
| SmartProjection.FlagsConstructorCorrected | gtsam_unstable/slam/SmartProjectionFactor.h:189-200 | with the keys stored, the factor has six dimensions per key and paired measurements |
| SymbolicFactorGraphs.Separator | cpp/SymbolicFactorGraph.h:66-71 | the separator holds every key of the involved factors other than the eliminated one, each exactly once |
| SymbolicFactorGraphs.EliminatedOneKeys | cpp/SymbolicFactorGraph.h:66-71 | after eliminateOne(key) the graph involves exactly its old keys minus key, and no factor involves key |
| SymbolicFactorGraphs.EliminatedOneConditional | cpp/SymbolicFactorGraph.h:66-71 | the conditional returned is on key, and its parents are exactly the other keys of the factors that involved key |
| SymbolicFactorGraphs.EliminatedAll | cpp/SymbolicFactorGraph.h:73-77 | eliminate yields one conditional per key of the ordering, on that key, in order |
| SymbolicFactorGraphs.EliminatedAllKeys | cpp/SymbolicFactorGraph.h:73-77 | after eliminating an ordering none of its keys remains in the graph and every other key does |
| SymbolicFactorGraphs.SymbolicFactorGraph.constructor | cpp/SymbolicFactorGraph.h:27 | the graph starts empty |
| SymbolicFactorGraphs.SymbolicFactorGraph.FromFactorGraph | cpp/SymbolicFactorGraph.h:56-64 | one symbolic factor per factor of the input, on that factor's keys, in order |
| SymbolicFactorGraphs.SymbolicFactorGraph.PushFactor1 | cpp/SymbolicFactorGraph.h:30-33 | exactly one factor on the key is appended; the rest of the graph is unchanged |
| SymbolicFactorGraphs.SymbolicFactorGraph.PushFactor2 | cpp/SymbolicFactorGraph.h:36-39 | exactly one factor on the two keys is appended; the rest of the graph is unchanged |
| SymbolicFactorGraphs.SymbolicFactorGraph.PushFactor3 | cpp/SymbolicFactorGraph.h:42-45 | exactly one factor on the three keys is appended; the rest of the graph is unchanged |
| SymbolicFactorGraphs.SymbolicFactorGraph.PushFactor4 | cpp/SymbolicFactorGraph.h:48-51 | exactly one factor on the four keys is appended; the rest of the graph is unchanged |
| SymbolicFactorGraphs.SymbolicFactorGraph.EliminateOne | cpp/SymbolicFactorGraph.h:66-71 | the graph becomes the factors not on key plus one factor on the separator, and a fresh conditional on key given the separator is returned |
| SymbolicFactorGraphs.SymbolicFactorGraph.Eliminate | cpp/SymbolicFactorGraph.h:73-77 | the graph is consumed in place key by key and the conditionals are returned in the order of elimination |
| VerticalBlockMatrices.Offsets | gtsam/base/VerticalBlockMatrix.h:263-271 | one offset more than there are blocks, starting at 0 |
| VerticalBlockMatrices.OffsetsStep | gtsam/base/VerticalBlockMatrix.h:266-270 | each offset is the previous one plus the width of the block between them |
| VerticalBlockMatrices.OffsetPrefixSum | gtsam/base/VerticalBlockMatrix.h:263-271 | offset j is the sum of the widths of the first j blocks |
| VerticalBlockMatrices.LastOffset | gtsam/base/VerticalBlockMatrix.h:86-87 | the last offset is the total width, the column count the matrix is resized to |
| VerticalBlockMatrices.OffsetsNondecreasing | gtsam/base/VerticalBlockMatrix.h:263-271 | the offsets never decrease, so every block has a non-negative width |
| VerticalBlockMatrices.PrefixSumMonotone | gtsam/base/VerticalBlockMatrix.h:263-271 | the sum of the first i widths is at most the sum of the first j when i <= j |
| VerticalBlockMatrices.VerticalBlockMatrix.constructor | gtsam/base/VerticalBlockMatrix.h:76-80 | an empty matrix with the single offset 0 and an empty view, satisfying the invariants |
| VerticalBlockMatrices.VerticalBlockMatrix.WithHeight | gtsam/base/VerticalBlockMatrix.h:84-89 | offsets are the running sums of the widths, the matrix has the given height and their total width, the view is all of it, and the invariants hold |
| VerticalBlockMatrices.VerticalBlockMatrix.WithMatrix | gtsam/base/VerticalBlockMatrix.h:96-103 | succeeds exactly when the widths sum to the matrix's columns, keeping the matrix and viewing all of it; otherwise invalid_argument |
| VerticalBlockMatrices.VerticalBlockMatrix.FillOffsets | gtsam/base/VerticalBlockMatrix.h:263-271 | the offsets become the running sums of the widths and nothing else changes |
| VerticalBlockMatrices.VerticalBlockMatrix.Rows | gtsam/base/VerticalBlockMatrix.h:133-136 | the view is never taller than the matrix |
| VerticalBlockMatrices.VerticalBlockMatrix.Cols | gtsam/base/VerticalBlockMatrix.h:139-142 | the view is never wider than the matrix |
| VerticalBlockMatrices.VerticalBlockMatrix.Range | gtsam/base/VerticalBlockMatrix.h:161-172 | the range has the view's rows and the columns of the blocks, and entry (k, l) is the matrix entry at row rowStart + k and the range's starting column plus l |
| VerticalBlockMatrices.VerticalBlockMatrix.BlockAt | gtsam/base/VerticalBlockMatrix.h:151-153 | a single block has the view's rows and that block's width |
| VerticalBlockMatrices.VerticalBlockMatrix.Full | gtsam/base/VerticalBlockMatrix.h:190-192 | the full view is rows() by cols() |
| VerticalBlockMatrices.VerticalBlockMatrix.Offset | gtsam/base/VerticalBlockMatrix.h:200-205 | a checked block starts inside the matrix |
| VerticalBlockMatrices.VerticalBlockMatrix.SetRowStart | gtsam/base/VerticalBlockMatrix.h:208-210 | only rowStart changes |
| VerticalBlockMatrices.VerticalBlockMatrix.SetRowEnd | gtsam/base/VerticalBlockMatrix.h:215-217 | only rowEnd changes |
| VerticalBlockMatrices.VerticalBlockMatrix.SetFirstBlock | gtsam/base/VerticalBlockMatrix.h:220-222 | only the first block of the view changes |
| VerticalBlockMatrices.VerticalBlockMatrix.RangeSplit | gtsam/base/VerticalBlockMatrix.h:161-172 | two adjacent ranges placed side by side are the range spanning both |
| VerticalBlockMatrices.VerticalBlockMatrix.ColsFromDims | gtsam/base/VerticalBlockMatrix.h:139-148 | with offsets from the widths, cols() is the sum of the widths from the first block of the view, nBlocks() counts the blocks from there, and each block is as wide as its width |
| TemplateSubstitutions.Substitute | wrap/TemplateSubstitution.h:43-50 | an unqualified template argument becomes the instantiated type, otherwise "This" becomes the expanded class, and any other type is returned as it is |
| TemplateSubstitutions.NamespacedKept | wrap/TemplateSubstitution.h:44-49 | a type named like the template argument but inside a namespace is not substituted |
| TemplateSubstitutions.TemplateArgFirst | wrap/TemplateSubstitution.h:44-47 | when the template argument is itself named "This", the template-argument test wins |
| TemplateSubstitutions.SubstituteRange | wrap/TemplateSubstitution.h:43-50 | the result is the input, the instantiated type or the expanded class, and differs from the input only on the two substituted cases |
| TemplateSubstitutions.Rename | wrap/TemplateSubstitution.h:56-58 | rename replaces the qualified name and keeps the pointer flag |
| TemplateSubstitutions.SubstituteReturnAsWritten | wrap/TemplateSubstitution.h:53-60 | the return-type overload as written: the result is never a pointer, and a type needing no substitution comes back as a default ReturnType |
| TemplateSubstitutions.ReturnTypeLost | wrap/TemplateSubstitution.h:53-60 | a shared pointer to double comes back as a default ReturnType, losing both its name and its pointer flag |
| TemplateSubstitutions.SubstituteReturn | wrap/TemplateSubstitution.h:53-60 | the corrected overload keeps the pointer flag and returns a type needing no substitution unchanged |
| TemplateSubstitutions.SubstituteReturnAgrees | wrap/TemplateSubstitution.h:43-60 | the corrected return-type overload substitutes the qualified name exactly as the Qualified overload does |
| TemplateSubstitutions.QualifiedNameEndsWithName | wrap/TemplateSubstitution.h:64-65 | a qualified name ends with the bare name, and is the bare name when there are no namespaces |
| TemplateSubstitutions.QualifiedNameOneNamespace | wrap/TemplateSubstitution.h:64-65 | with one namespace the qualified name is namespace, delimiter, name |
| TemplateSubstitutions.ShowShape | wrap/TemplateSubstitution.h:62-67 | the printed form starts with the template argument and a slash and ends with a closing parenthesis |
| WrapUtilities.AssertEqual | wrap/utilities.cpp:44-51 | true exactly when the strings are equal |
| WrapUtilities.AssertEqualVectors | wrap/utilities.cpp:54-79 | true exactly when the sizes agree and every element agrees in order |
| WrapUtilities.MaybeSharedPtr | wrap/utilities.cpp:106-111 | with add the type is wrapped in "shared_ptr<" and ">", without it is returned unchanged |
| WrapUtilities.UnwrapSharedPtr | wrap/utilities.cpp:106-111 | unwrapping never lengthens a string |
| WrapUtilities.UnwrapMaybeSharedPtr | wrap/utilities.cpp:106-111 | unwrapping a wrapped type gives the type back |
| WrapUtilities.MaybeSharedPtrInjective | wrap/utilities.cpp:106-111 | different types never produce the same text |
| WrapUtilities.UsingLinesAppend | wrap/utilities.cpp:114-118 | the using lines of two namespace lists in a row are those of each in turn |
| WrapUtilities.UsingLinesEmpty | wrap/utilities.cpp:114-118 | nothing is written exactly when there are no namespaces |
| WrapUtilities.GenerateUsingNamespace | wrap/utilities.cpp:114-118 | one "using namespace" line per namespace is appended to the buffer, in order |
| WrapUtilities.IncludeLinesEmpty | wrap/utilities.cpp:125-130 | no include line is written exactly when every include is empty |
| WrapUtilities.IncludesDefault | wrap/utilities.cpp:121-133 | the matlab include comes first; the class header is included exactly when no non-empty include was given, and otherwise the given includes follow |
| WrapUtilities.GenerateIncludes | wrap/utilities.cpp:121-133 | the include block is appended to the buffer |

## Left out

- Printing, logging, timing, `std::cout` diagnostics and the `verbose` paths of every class: they do not change results.
- `BayesTree.h` is not part of this model: the default constructor, `size()` and `operator[]` are modelled as the empty arena, the number of cliques reachable from the root, and the key→clique index.
- `BayesTreeClass.GetStats`: the averages of getStats are left out, because they divide by the clique count in floating point; the maxima are modelled.
- `BayesTreeClass.FromBayesNetChecked`: the generic constructor's `recursiveTreeBuild` body is not part of this model; the result is the symbolic tree built by `insert` together with the filed conditionals.
- The Bayes net plus subtrees constructor: the merge of the subtrees' `nodes_` tables is left out, because the subtrees share the arena of the new tree in this model.
- `BayesTreeClass.BayesTree.RemovePath`, `BayesTreeClass.BayesTree.FillNodesIndex`, `BayesTreeClass.BayesTree.CloneTo`: recursion is bounded by a `fuel` argument at least the height of the tree; a cyclic parent chain, which gtsam cannot build, is not modelled.
- Checks gtsam makes only in debug builds (`assert` under NDEBUG), such as the size checks of `Errors` operator- and dot and the checks of addToCliqueFront, become preconditions.
- `Matrices.BackSubstituteUpper`, `Matrices.BackSubstituteUpperTransposed`, `Matrices.BackSubstituteLower`: these model the debug build, in which the `#ifndef NDEBUG` square check throws invalid_argument; a release build does not refuse a non-square matrix. They also require a non-zero diagonal when `unit` is false, where gtsam divides by zero and yields IEEE infinities.
- `Vectors.Ediv`: requires every divisor to be non-zero; gtsam yields an IEEE infinity or NaN for a zero divisor, which reals do not have.
- `Vectors.EdivSafe`: requires a zero divisor to meet a zero dividend (the 0/0 case ediv_ maps to 0); a non-zero dividend over zero yields an IEEE infinity in gtsam, which reals do not have.
- `Domain.h`, `Qualified.h`, `ReturnType.h`, `CallRecord.h`, `Values.h` and the Levenberg–Marquardt optimizer header are not part of this model. The Domain is a key, a cardinality and a value set, with `isSingleton` read as size 1. The call-record alignment is a parameter. `Values::insert` on a present key returns `ValuesKeyAlreadyExists`. The verbosity enumeration order follows its use in the translator. The optimizer's constructor is not modelled.
- `Domain::print` and `Domain::operator*` are left out: printing, and a product of decision-tree factors that are not modelled.
- `file_contents` and `files_equal` in `wrap/utilities.cpp` read files and run `diff`; they are left out as I/O.
- `Vectors.WeightedPseudoinverse`: on the guard gap (a coefficient of exactly 1e-9 with sigma 0) gtsam divides by zero and returns IEEE infinities and NaN; the model returns the corrected guard's result there instead, and the written result everywhere else.
- `Vectors.EqualsAsWritten`, `Vectors.GreaterThanOrEqual`, `Vectors.VectorFromValues`, `Vectors.Delta`, `Vectors.Sub`, `Matrices.VectorScaleRows`, `Matrices.VectorScaleColumns`: gtsam checks no sizes here, so a longer vec1, fewer than m values, i >= n, i1 > i2 (where `i2-i1` wraps as `size_t`) or i2 > |v|, and a vector shorter than the rows or columns it scales all read or write past the end of a buffer, which is undefined behaviour; these inputs are excluded by precondition.
- `BayesTreeModel.Assign`: skips keys outside the index, where `nodes_[key].reset()` has no bounds check; its callers `RemoveClique` and `FillNodesIndex` only pass keys of a well-formed tree, which are always inside the index, so the skip never fires for them.
- `FileWriter.h` is not part of this model: `WrapUtilities.FileWriter` is only its `oss` buffer, which starts empty.
- `BayesTreeModel.Equals`: requires the other tree's index to be at least as long as this one's, because `std::equal` reads past the end of a shorter one (undefined behaviour).
- `Vectors.EqualWithAbsTolCheck`: the `isnan` test of `equal_with_abs_tol` is left out, because reals have no NaN.
- `rand_vector_norm`, `house`, `max`, `print`, `svd`, `qr`, `inverse` and `householder_` of the vector and matrix kernels are outside the modelled core (randomness, floating-point iteration, or operations whose result only numerical code defines).
- `Elimination`: `weighted_eliminate` receives the weighted pseudo-inverse and the square root as function parameters; only its control flow and bookkeeping are modelled.
- `ExpressionNodes`: Jacobians and reverse-mode differentiation of function nodes are not modelled; values are abstracted to reals and the node functions are parameters.
- `LieMatrices`, `LieVectors`: the optional Jacobian arguments, which gtsam itself leaves unimplemented, are left out.
- `NonlinearConstraints`: `gradient`, `linearize(config, lagrange)`, `print` and `equals` are left out; `error_vector` is the user's function, passed in without a contract of its own.
- `NonlinearOptimizers.GaussNewton`, `NonlinearOptimizers.TryLambda`: the recursion is bounded by a `fuel` argument; the linear solve and the error of a configuration are parameters.
- `LevenbergMarquardt.LevenbergMarquardtOptimizer.Iterate`: requires lambda > 0 and a lambda factor > 1 so that the loop terminates; the linear solve and the trial errors are parameters.
- `SmartProjection`: the Schur complement, triangulation, projection and backprojection are function parameters; `exit(EXIT_FAILURE)` on a cheirality failure, in both linearize and error, becomes `Err(CheiralityException)`; the branches under `!manageDegeneracy` are left out, because that static flag is always true; the `body_P_sensor` composition and `values.at` are folded into the camera poses the methods receive.
- `SmartProjection.SmartProjectionFactor.Empty`: the model/calibration constructor leaves `throwCheirality_` uninitialised in gtsam; the model starts it false.
- `NonlinearEqualityFactorGraphs.Linearize`, `NonlinearEqualityFactorGraphs.CheckFeasibility`: the `dynamic_pointer_cast` selection of equality factors is modelled by a tag on each factor, and null slots are excluded by precondition.
- `SymbolicFactorGraphs.SymbolicFactorGraph.EliminateOne`: `SymbolicFactorGraph.cpp` is not part of this model; eliminateOne is modelled on its declared contract, with the separator in order of first appearance.
- Floating-point rounding everywhere: `double` is modelled as exact `real`.

## Findings

| source | as written | input that shows it | evidently intended | confidence | as-written member | corrected member |
|---|---|---|---|---|---|---|
| cpp/Vector.cpp:104-112 | `operator==` compares the first entries of vec1 with vec2 and never compares the lengths | vec1 = [1], vec2 = [1, 2] compare equal | vectors of different lengths are unequal | not executed | Vectors.EqualsAsWrittenPrefix | Vectors.Equals |
| cpp/Vector.cpp:237-252 | a row is a constraint when sigma is below 1e-9 and its coefficient above 1e-9, and it is skipped when its coefficient is below 1e-9 | a = [1e-9], sigmas = [0] falls into neither case and its precision 1/sigma^2 divides by zero | the boundary coefficient is either a constraint or skipped | not executed | Vectors.PseudoinverseGuardGap | Vectors.PseudoinverseFixedAgrees |
| gtsam/nonlinear/internal/ExpressionNode.h:377-378 | the binary node traces both arguments at the same pointer | a binary function of two unary functions of leaves k1 and k2: the record of the second unary overwrites that of the first, so k1 is never reached | each argument is traced after the records of the previous one | not executed | ExpressionNodes.AsWrittenLosesFirstRecord | ExpressionNodes.TraceReadsBack |
| cpp/NonlinearOptimizer-inl.h:213-214 | the recursive call of levenbergMarquardt passes lambdaFactor where maxIterations goes | maxIterations = 2 and 100 with lambdaFactor = 10 run identically | one iteration fewer on each recursive call | not executed | NonlinearOptimizers.MaxIterationsIgnored | NonlinearOptimizers.LevenbergMarquardtStopsAtMax |
| wrap/TemplateSubstitution.h:53-60 | the ReturnType overload starts from a default ReturnType and only renames it | a shared pointer to double comes back as a default, non-pointer type | an unsubstituted type is returned unchanged and the pointer flag kept | not executed | TemplateSubstitutions.ReturnTypeLost | TemplateSubstitutions.SubstituteReturnAgrees |
| gtsam_unstable/slam/SmartProjectionFactor.h:189-200 | the constructor with exception-handling flags never stores the pose keys | two keys with two measurements give a factor of dimension 0 | the keys are stored as in the other constructors | not executed | SmartProjection.FlagsConstructorAsWritten | SmartProjection.FlagsConstructorCorrected |
