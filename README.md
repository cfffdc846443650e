# rustfst core, modelled in Dafny

This project models the core of rustfst, a library of weighted finite-state
transducers (FSTs). An FST is a vector of states, each with an optional final
weight and an ordered list of transitions `(ilabel, olabel, weight,
nextstate)`, plus an optional start state. The model covers:

- **Storage.** `VectorFst` and its `MutableFst` operations, including
  `del_states` with its dense renumbering.
- **Mutable transitions.** The transition iterator `TrsIterMut`, with its
  epsilon counters and property-bit updates.
- **Structural algorithms.** `connect`, `concat`, `union`, `project`,
  `tr_unique`, `relabel_pairs`, `tr_map` and the encode table and mappers.
- **Builders, paths and properties.** The linear builders `transducer` and
  `acceptor`, the paths iterator, and `compute_fst_properties` with the
  `FstProperties` bit layout.
- **Graph algorithms.** Tarjan's SCC algorithm, the deprecated recursive
  `dfs`, and `isomorphic`.
- **Bookkeeping.** The symbol table, the minimization partition, the
  interval set and the lazy-FST cache `SimpleVecCache`.
- **Composition.** The sorted matcher and the four epsilon compose filters.
- **Semirings.** The string semirings, `StringWeightVariant` and
  `UnionWeight`.
- **Text format.** The parsed AT&T text FST.

There is one Dafny module per source file, plus shared ones:

- `Wrappers` holds `Option` and `Result`.
- `Semirings` holds a semiring as a record of its four operations.
- `FstTypes` holds labels, state ids, `Tr` and the state record.
- `TrCompare`, `SumTrsSpec`, `DelStatesSpec`, `ConnectMarks`,
  `ConnectTrim` and `FilterStates` hold the specification functions and
  lemmas behind the methods.

Types whose fields the source updates in place are classes whose methods
carry `modifies` clauses: `VectorFst`, `TrsIterMut`, `SymbolTable`,
`Partition`, `IntervalSet`, the cache, the matcher's iterator, the compose
filters, the SCC visitors, `EncodeTableMut`, `UnionWeight` and the paths
iterator. Each such method is stated against a function of the old state,
and the lemmas prove what the source promises about those functions.

Conventions of the model:

- A panic of the source (an index out of range, an `unwrap` of `None`)
  becomes a `requires`.
- An error the source returns (`bail!`, `?`) becomes `Err` of a `Result`,
  except where "Left out" names an operation the model takes as total
  or a case the model excludes by a `requires`.
- Weights are a type parameter. The operations an algorithm uses are passed
  to it as values.

## Model

| member | source | states |
|---|---|---|
| VectorFsts.VectorFst.constructor | rustfst/src/fst_impls/vector_fst/mutable_fst.rs:18-25 | a new FST has no states and no start |
| VectorFsts.VectorFst.SetStart | rustfst/src/fst_impls/vector_fst/mutable_fst.rs:27-35 | the start becomes `s` when `s` exists; otherwise an error and nothing changes; the states are never touched |
| VectorFsts.VectorFst.SetStartUnchecked | rustfst/src/fst_impls/vector_fst/mutable_fst.rs:37-39 | the start becomes `s` without any check |
| VectorFsts.VectorFst.SetFinal | rustfst/src/fst_impls/vector_fst/mutable_fst.rs:41-48 | only state `s` changes, and only its final weight, to `Some(w)`; a missing state is an error and changes nothing |
| VectorFsts.VectorFst.SetFinalUnchecked | rustfst/src/fst_impls/vector_fst/mutable_fst.rs:50-52 | only the final weight of `s` changes |
| VectorFsts.VectorFst.AddState | rustfst/src/fst_impls/vector_fst/mutable_fst.rs:54-58 | returns the previous number of states and appends exactly one empty state |
| VectorFsts.VectorFst.AddStates | rustfst/src/fst_impls/vector_fst/mutable_fst.rs:60-63 | appends exactly `n` empty states and keeps the existing ones |
| VectorFsts.VectorFst.DelStates | rustfst/src/fst_impls/vector_fst/mutable_fst.rs:78-124 | the states become `DelStates` of the old states (survivors in order, renumbered densely, transitions into deleted states removed, others retargeted) and the start follows its state or becomes `None` |
| VectorFsts.VectorFst.DelState | rustfst/src/fst_impls/vector_fst/mutable_fst.rs:65-76 | an id past the end is an error and changes nothing; otherwise the effect of `del_states` on that single state |
| VectorFsts.VectorFst.DelAllStates | rustfst/src/fst_impls/vector_fst/mutable_fst.rs:126-132 | no states and no start remain |
| VectorFsts.VectorFst.DelTrsIdSortedUnchecked | rustfst/src/fst_impls/vector_fst/mutable_fst.rs:134-139 | only state `s` changes: the transitions at the listed increasing indices are removed |
| VectorFsts.VectorFst.AddTr | rustfst/src/fst_impls/vector_fst/mutable_fst.rs:141-148 | `tr` is appended to the transitions of `source` and nothing else changes; a missing source is an error and changes nothing |
| VectorFsts.VectorFst.AddTrUnchecked | rustfst/src/fst_impls/vector_fst/mutable_fst.rs:150-152 | `tr` is appended to the transitions of `source` |
| VectorFsts.VectorFst.SetTrsUnchecked | rustfst/src/fst_impls/vector_fst/mutable_fst.rs:154-156 | the transitions of `source` are replaced and nothing else changes |
| VectorFsts.VectorFst.DeleteFinalWeight | rustfst/src/fst_impls/vector_fst/mutable_fst.rs:158-164 | `source` becomes non-final and nothing else changes; a missing state is an error |
| VectorFsts.VectorFst.DeleteFinalWeightUnchecked | rustfst/src/fst_impls/vector_fst/mutable_fst.rs:166-168 | `source` becomes non-final |
| VectorFsts.VectorFst.DeleteTrs | rustfst/src/fst_impls/vector_fst/mutable_fst.rs:170-177 | `source` loses all its transitions; a missing state is an error and changes nothing |
| VectorFsts.VectorFst.PopTrs | rustfst/src/fst_impls/vector_fst/mutable_fst.rs:179-188 | returns the old transitions of `source` and leaves it none; a missing state is an error |
| VectorFsts.VectorFst.TakeFinalWeight | rustfst/src/fst_impls/vector_fst/mutable_fst.rs:213-219 | returns the old final weight of `s` and leaves it non-final; a missing state is an error |
| VectorFsts.VectorFst.UniqueTrsUnchecked | rustfst/src/fst_impls/vector_fst/mutable_fst.rs:233-237 | the transitions of `s` become `Dedup(SortTrs(...))`, whose meaning `SortTrsCorrect` and `DedupCorrect` state |
| VectorFsts.VectorFst.SumTrsUnchecked | rustfst/src/fst_impls/vector_fst/mutable_fst.rs:239-257 | the transitions of `s` become `SumRuns` of the sorted transitions, whose meaning `SumRunsCorrect` states |
| VectorFsts.MarkDeleted | rustfst/src/fst_impls/vector_fst/mutable_fst.rs:79-83 | `new_id` holds -1 exactly at the ids to delete and 0 elsewhere |
| VectorFsts.CompactStates | rustfst/src/fst_impls/vector_fst/mutable_fst.rs:85-97 | the states left are `KeptStates` (the survivors in order), and `new_id` holds each survivor's dense new number and -1 for deleted states |
| VectorFsts.RemapStates | rustfst/src/fst_impls/vector_fst/mutable_fst.rs:99-112 | every surviving state gets its transitions remapped through `new_id` |
| VectorFsts.RemapTrsOf | rustfst/src/fst_impls/vector_fst/mutable_fst.rs:100-111 | retargeting in place and then removing the recorded indices from the back gives `RemapTrs` |
| VectorFsts.SumSorted | rustfst/src/fst_impls/vector_fst/mutable_fst.rs:242-255 | the compaction loop computes `SumRuns`: each run of equal-key transitions is folded into its first one with Plus |
| VectorFsts.DropTrs | rustfst/src/fst_impls/vector_fst/mutable_fst.rs:109-111 | removing the recorded indices from the back equals `DropIdx` |
| DelStatesSpec.KeptCountBounds | rustfst/src/fst_impls/vector_fst/mutable_fst.rs:85-95 | the number of survivors below `s` grows with `s` and strictly so past a survivor |
| DelStatesSpec.NewIdDense | rustfst/src/fst_impls/vector_fst/mutable_fst.rs:87-95 | the new ids of survivors are strictly increasing and below the number of survivors, so the numbering is dense and order-preserving |
| DelStatesSpec.KeptStatesLength | rustfst/src/fst_impls/vector_fst/mutable_fst.rs:97 | the truncated vector has exactly as many states as there are survivors |
| DelStatesSpec.KeptStatesAt | rustfst/src/fst_impls/vector_fst/mutable_fst.rs:87-97 | a surviving state sits at its new id |
| DelStatesSpec.KeptStatesOnto | rustfst/src/fst_impls/vector_fst/mutable_fst.rs:87-97 | every position of the result holds a survivor, the one whose new id it is |
| DelStatesSpec.RemapTrsKeeps | rustfst/src/fst_impls/vector_fst/mutable_fst.rs:101-104 | a transition into a surviving state is kept and retargeted to the new id |
| DelStatesSpec.RemapTrsFrom | rustfst/src/fst_impls/vector_fst/mutable_fst.rs:101-111 | every remaining transition comes from a transition into a surviving state, retargeted |
| DelStatesSpec.RemapTrsInRange | rustfst/src/fst_impls/vector_fst/mutable_fst.rs:101-104 | retargeted transitions lead to states of the smaller FST |
| DelStatesSpec.DelStatesInRange | rustfst/src/fst_impls/vector_fst/mutable_fst.rs:78-124 | deletion keeps a well-formed FST well formed: transitions and the start stay within the new range |
| DelStatesSpec.DropRetargeted | rustfst/src/fst_impls/vector_fst/mutable_fst.rs:100-111 | retargeting in place, then removing the recorded indices, is `RemapTrs` |
| VectorFsts.VectorFst.NumStates | rustfst/src/fst_impls/vector/vector_fst.rs:113-115 | the ids below it are exactly those that may be the start; when the transitions are in range, every target is below it |
| TrCompare.CompareIsKeyOrder | rustfst/src/algorithms/tr_unique.rs:8-34 | `tr_compare` is a total preorder on (ilabel, olabel, nextstate): it answers Equal exactly for equal keys, ignores the weight, and is antisymmetric |
| TrCompare.LessEqTrans | rustfst/src/algorithms/tr_unique.rs:8-34 | the order `tr_compare` induces is transitive |
| TrCompare.InsertSorted | rustfst/src/fst_impls/vector_fst/mutable_fst.rs:235 | inserting one transition into a sorted list keeps it sorted |
| TrCompare.InsertPerm | rustfst/src/fst_impls/vector_fst/mutable_fst.rs:235 | inserting adds exactly that transition |
| TrCompare.SortTrsSorted | rustfst/src/fst_impls/vector_fst/mutable_fst.rs:235 | the stable sort yields `tr_compare` order |
| TrCompare.SortTrsPerm | rustfst/src/fst_impls/vector_fst/mutable_fst.rs:235 | the stable sort is a permutation |
| TrCompare.SortTrsStable | rustfst/src/fst_impls/vector_fst/mutable_fst.rs:235 | the stable sort keeps the transitions of each key in their original order |
| TrCompare.SortTrsCorrect | rustfst/src/fst_impls/vector_fst/mutable_fst.rs:235 | `sort_by(tr_compare)` is sorted, a permutation (weights included) and stable per key |
| TrCompare.DedupElems | rustfst/src/fst_impls/vector_fst/mutable_fst.rs:236 | `dedup` keeps exactly the values present, is no longer, and keeps the last element |
| TrCompare.DedupCorrect | rustfst/src/fst_impls/vector_fst/mutable_fst.rs:236 | after `dedup` no two neighbours are equal, the same values are present, and sortedness is kept |
| SumTrsSpec.FreshKey | rustfst/src/fst_impls/vector_fst/mutable_fst.rs:243-253 | a transition whose key differs from the last kept one is above every key seen so far |
| SumTrsSpec.WeightedMerge | rustfst/src/fst_impls/vector_fst/mutable_fst.rs:244-249 | merging into the last kept transition adds its weight to that key's sum |
| SumTrsSpec.WeightedAppend | rustfst/src/fst_impls/vector_fst/mutable_fst.rs:250-252 | a transition with a new key starts its own sum |
| SumTrsSpec.SumRunsInduct | rustfst/src/fst_impls/vector_fst/mutable_fst.rs:242-255 | every prefix of the compaction is strictly sorted, covers every key seen, and carries each key's Plus-sum |
| SumTrsSpec.SumRunsCorrect | rustfst/src/fst_impls/vector_fst/mutable_fst.rs:239-257 | on sorted input no two results share (ilabel, olabel, nextstate), every input key survives, and each result carries the Plus of all weights of its key in order |
| TrCompare.Compare | rustfst/src/algorithms/tr_unique.rs:8-34 | Equal exactly for the same (ilabel, olabel, nextstate) key, Less exactly when the key is lexicographically smaller |
| TrsIterMuts.UpdateLabels | rustfst/src/trs_iter_mut.rs:241-277 | bit by bit: `ACCEPTOR` survives only if the new labels agree, `NOT_ACCEPTOR` holds iff the new labels differ or it held and the old ones agreed, and likewise for the three epsilon pairs; no other bit changes |
| TrsIterMuts.UpdateWeights | rustfst/src/trs_iter_mut.rs:279-291 | `WEIGHTED` holds iff the new weight is neither Zero nor One, or it held and the old weight was trivial; `UNWEIGHTED` is cleared by a non-trivial new weight; no other bit changes |
| TrsIterMuts.KeepRelevant | rustfst/src/trs_iter_mut.rs:293-305 | only the bits a transition write cannot invalidate are kept, each unchanged |
| TrsIterMuts.UpdateLabelsSound | rustfst/src/trs_iter_mut.rs:241-277 | after overwriting one transition, every label bit `update_properties_labels` leaves is true of the new transitions |
| TrsIterMuts.UpdateWeightsSound | rustfst/src/trs_iter_mut.rs:279-291 | after overwriting one transition, both weight bits `update_properties_weights` leaves are true |
| TrsIterMuts.FewerBitsHold | rustfst/src/trs_iter_mut.rs:293-305 | dropping bits never makes a true claim false |
| TrsIterMuts.NewPropsLabelsSound | rustfst/src/trs_iter_mut.rs:324-340 | after a label-only write, every property bit kept is true of the new transitions |
| TrsIterMuts.NewPropsWeightsSound | rustfst/src/trs_iter_mut.rs:342-350 | after a weight-only write, every property bit kept is true |
| TrsIterMuts.NewPropsAllSound | rustfst/src/trs_iter_mut.rs:307-322 | after `set_tr`, every property bit kept is true |
| TrsIterMuts.KeepRelevantSound | rustfst/src/trs_iter_mut.rs:128-135 | after a destination-only write, every property bit kept is true |
| TrsIterMuts.CountIEpsUpdate | rustfst/src/trs_iter_mut.rs:25-34 | overwriting one transition changes the number of input epsilons exactly as `updt_nieps!` adjusts the counter |
| TrsIterMuts.CountOEpsUpdate | rustfst/src/trs_iter_mut.rs:36-45 | overwriting one transition changes the number of output epsilons exactly as `updt_noeps!` adjusts the counter |
| TrsIterMuts.TrsIterMut.constructor | rustfst/src/trs_iter_mut.rs:48-60 | the iterator wraps the given transitions, properties and counters |
| TrsIterMuts.TrsIterMut.Len | rustfst/src/trs_iter_mut.rs:75-77 | the number of transitions |
| TrsIterMuts.TrsIterMut.IsEmpty | rustfst/src/trs_iter_mut.rs:79-81 | true exactly when there are no transitions |
| TrsIterMuts.TrsIterMut.Get | rustfst/src/trs_iter_mut.rs:62-69 | `Some` of the transition at `idx`, `None` past the end |
| TrsIterMuts.TrsIterMut.SetIlabel | rustfst/src/trs_iter_mut.rs:83-98 | only the ilabel of `idx` changes; the input-epsilon counter still counts the ilabel-0 transitions and the properties become `compute_new_properties_labels`; an index past the end is an error and changes nothing |
| TrsIterMuts.TrsIterMut.SetOlabel | rustfst/src/trs_iter_mut.rs:100-115 | only the olabel of `idx` changes and the output-epsilon counter stays exact; an index past the end is an error and changes nothing |
| TrsIterMuts.TrsIterMut.SetWeight | rustfst/src/trs_iter_mut.rs:117-126 | only the weight of `idx` changes, the counters stay, and the properties follow `compute_new_properties_weights`; an index past the end is an error and changes nothing |
| TrsIterMuts.TrsIterMut.SetNextstate | rustfst/src/trs_iter_mut.rs:128-135 | only the destination of `idx` changes; the properties are narrowed even when the index is past the end, which is an error |
| TrsIterMuts.TrsIterMut.SetTr | rustfst/src/trs_iter_mut.rs:137-152 | transition `idx` is replaced and both counters stay exact; an index past the end is an error and changes nothing |
| TrsIterMuts.TrsIterMut.SetIlabelUnchecked | rustfst/src/trs_iter_mut.rs:154-170 | as `set_ilabel` without the index check |
| TrsIterMuts.TrsIterMut.SetOlabelUnchecked | rustfst/src/trs_iter_mut.rs:172-188 | as `set_olabel` without the index check |
| TrsIterMuts.TrsIterMut.SetLabelsUnchecked | rustfst/src/trs_iter_mut.rs:190-208 | both labels change and both counters stay exact |
| TrsIterMuts.TrsIterMut.SetWeightUnchecked | rustfst/src/trs_iter_mut.rs:210-220 | as `set_weight` without the index check |
| TrsIterMuts.TrsIterMut.SetNextstateUnchecked | rustfst/src/trs_iter_mut.rs:222-230 | as `set_nextstate` without the index check |
| TrsIterMuts.TrsIterMut.SetTrUnchecked | rustfst/src/trs_iter_mut.rs:232-238 | as `set_tr` without the index check |
| SymbolTables.AddedTables | rustfst/src/symbol_table.rs:72-84 | giving a new symbol the next label keeps the two maps inverse and the labels contiguous |
| SymbolTables.SymbolTable.constructor | rustfst/src/symbol_table.rs:38-48 | the new table binds label 0 to `<eps>` and nothing else, and has length 1 |
| SymbolTables.SymbolTable.AddSymbol | rustfst/src/symbol_table.rs:72-84 | a present symbol returns its old label and changes nothing; a new symbol returns the old length, which grows by one; afterwards `get_label` and `get_symbol` map the symbol and the label to each other; old labels are kept |
| SymbolTables.SymbolTable.AddTable | rustfst/src/symbol_table.rs:214-218 | every existing label is kept, the symbols become the union of both tables', and the length stays the number of symbols |
| SymbolTables.SymbolTable.LookupInverse | rustfst/src/symbol_table.rs:115-134 | `get_label(sym) == Some(l)` exactly when `get_symbol(l) == Some(sym)` |
| SymbolTables.SymbolTable.ContainsLabelBelowLen | rustfst/src/symbol_table.rs:98-100 | `contains_label(l)`, that is `get_symbol(l)` is `Some`, holds exactly for labels below `len()` |
| SymbolTables.SymbolTable.Len | rustfst/src/symbol_table.rs:98-100 | on a valid table, the number of distinct symbols, and the labels bound are exactly those below it |
| SymbolTables.SymbolTable.IsEmpty | rustfst/src/symbol_table.rs:50-52 | true exactly when the length is 0, which on a valid table means even `<eps>` is unbound |
| SymbolTables.SymbolTable.GetLabel | rustfst/src/symbol_table.rs:115-117 | `Some` exactly for a symbol of the table; on a valid table its label is the one `get_symbol` maps back to the symbol |
| SymbolTables.SymbolTable.GetSymbol | rustfst/src/symbol_table.rs:132-134 | `Some` exactly for a bound label, on a valid table exactly for labels below the length, and `get_label` of the answer gives the label back |
| SymbolTables.SymbolTable.ContainsSymbol | rustfst/src/symbol_table.rs:146-148 | true exactly for a symbol of the table, which on a valid table is a symbol some label below the length maps to |
| SymbolTables.SymbolTable.ContainsLabel | rustfst/src/symbol_table.rs:161-163 | true exactly for a bound label, on a valid table exactly for labels below the length |
| Connect.SccVisitor.constructor | rustfst/src/algorithms/connect.rs:92-104 | the visitor starts with empty vectors, nothing numbered and an empty component stack |
| Connect.SccVisitor.InitVisit | rustfst/src/algorithms/connect.rs:108-119 | one entry per state: nothing discovered, nothing accessible, nothing coaccessible, empty stack |
| Connect.SccVisitor.InitState | rustfst/src/algorithms/connect.rs:121-129 | `s` is pushed and numbered with the counter, which grows by one, and it is marked accessible exactly when its tree is rooted at the start |
| Connect.SccVisitor.BackArc | rustfst/src/algorithms/connect.rs:135-144 | the lowlink of `s` drops to the number of `t` when lower, and `s` is marked coaccessible if `t` is |
| Connect.SccVisitor.ForwardOrCrossArc | rustfst/src/algorithms/connect.rs:146-158 | the lowlink of `s` drops only for a target still on the stack, and `s` is marked coaccessible if `t` is |
| Connect.SccVisitor.FinishParent | rustfst/src/algorithms/connect.rs:196-203 | the parent is marked coaccessible if the child is, and its lowlink drops to the child's |
| Connect.SccVisitor.SccCoaccess | rustfst/src/algorithms/connect.rs:170-183 | the scan answers whether some state of the stack from `s` upwards is coaccessible |
| Connect.SccVisitor.PopTop | rustfst/src/algorithms/connect.rs:184-194 | one pop: the top state leaves the stack, is marked when the component is coaccessible, and the loop stops exactly at `s` |
| Connect.SccVisitor.PopScc | rustfst/src/algorithms/connect.rs:184-194 | the stack is cut back to below `s`, every popped state leaves the stack, is completed into one component, and takes the component's coaccessible mark |
| Connect.SccVisitor.Visit | rustfst/src/algorithms/connect.rs:284-331 | the visit of a white state discovers exactly what it reaches, keeps the marks sound, and leaves its completed states marked coaccessible exactly when they reach a final state |
| Connect.SccVisitor.DfsVisit | rustfst/src/algorithms/connect.rs:260-344 | afterwards a state is marked accessible iff the start reaches it, every state marked coaccessible reaches a final state, and with a start every state that reaches a final state is marked |
| Connect.SccVisitor.SkipVisited | rustfst/src/algorithms/connect.rs:337-341 | the sweep skips to the next white state, or to the end |
| Connect.Useless | rustfst/src/algorithms/connect.rs:36-40 | exactly the states that are not both reachable from the start and able to reach a final state |
| Connect.Connect | rustfst/src/algorithms/connect.rs:32-43 | the FST becomes `del_states` of the useless states, so survivors keep their order and the start follows its state |
| ConnectTrim.EdgeKept | rustfst/src/fst_impls/vector_fst/mutable_fst.rs:99-112 | a transition between two surviving states is still present after deletion, renumbered |
| ConnectTrim.WalkKept | rustfst/src/algorithms/connect.rs:32-43 | a path from an accessible state to a coaccessible state crosses only useful states and survives trimming |
| ConnectTrim.KeptAccessible | rustfst/src/algorithms/connect.rs:32-43 | a kept state is reachable from the start of the trimmed FST |
| ConnectTrim.KeptCoAccessible | rustfst/src/algorithms/connect.rs:32-43 | a kept state reaches a final state of the trimmed FST |
| ConnectTrim.ConnectTrims | rustfst/src/algorithms/connect.rs:11 | after `connect`, every state is on a path from the start to a final state |
| ConnectTrim.ConnectNoStart | rustfst/src/algorithms/connect.rs:265-270 | an FST without a start loses every state |
| ConnectMarks.MarkAll | rustfst/src/algorithms/connect.rs:184-188 | each state of the popped segment is coaccessible afterwards when the component is, and no other mark changes |
| ConnectMarks.ClearAll | rustfst/src/algorithms/connect.rs:189 | each popped state leaves the stack, and no other flag changes |
| ConnectMarks.CoFinal | rustfst/src/algorithms/connect.rs:167-169 | a final state is coaccessible |
| ConnectMarks.CoPrepend | rustfst/src/algorithms/connect.rs:140-142 | a state with a transition to a coaccessible state is coaccessible |
| ConnectMarks.SegmentMarked | rustfst/src/algorithms/connect.rs:170-183 | in a finished component, a state that reaches a final state implies some state of the component is marked |
| ConnectMarks.PopMarks | rustfst/src/algorithms/connect.rs:184-194 | marking the whole component by its one flag keeps the marks sound and makes them complete on the component |
| ConnectMarks.FinishMark | rustfst/src/algorithms/connect.rs:167-169 | marking a final state finishes it and keeps the marks sound and complete on completed states |
| ConnectMarks.CloseFacts | rustfst/src/algorithms/connect.rs:170-195 | closing a component leaves its root visited and the marks sound and complete on completed states |
| ConnectMarks.StartFacts | rustfst/src/algorithms/connect.rs:121-129 | discovering a state starts its visit with the expected numbering and accessible mark |
| ConnectMarks.ArcFacts | rustfst/src/algorithms/connect.rs:317-324 | examining a transition to a discovered state keeps the invariant of the visit |
| ConnectMarks.ChildFacts | rustfst/src/algorithms/connect.rs:308-316 | visiting an undiscovered target, then finishing it with its parent, keeps the invariant of the visit |
| ConnectMarks.FirstSweep | rustfst/src/algorithms/connect.rs:279-331 | after the visit from the start, the accessible marks are exactly the states the start reaches |
| ConnectMarks.NextSweep | rustfst/src/algorithms/connect.rs:337-341 | a visit from a later root marks nothing accessible, since the start does not reach it |
| ConnectMarks.SweepDone | rustfst/src/algorithms/connect.rs:280-343 | once every state is visited, the accessible marks are exact and the coaccessible marks are exactly the states reaching a final state |
| ConnectMarks.StartOutside | rustfst/src/algorithms/connect.rs:281 | a start outside the FST reaches none of its states |
| ConnectMarks.CoReach | rustfst/src/algorithms/connect.rs:196-199 | a state reaching a coaccessible state is coaccessible |
| Concats.AppendShifted | rustfst/src/algorithms/concat/concat.rs:68-79 | FST2's states are appended after FST1's, each a copy with every destination moved up by FST1's number of states; the start is unchanged |
| Concats.AddShiftedState | rustfst/src/algorithms/concat/concat.rs:69-78 | one new state holding the shifted copy of an FST2 state |
| Concats.Concat | rustfst/src/algorithms/concat/concat.rs:54-109 | without a start FST1 is unchanged; otherwise its states become the concatenation and its start stays |
| Concats.ConcatShape | rustfst/src/algorithms/concat/concat.rs:68-98 | the result has n1 + n2 states; FST1's transitions are kept; FST2's transitions are shifted by n1; the final states are exactly the copies of FST2's, with their weights, so every original final state of FST1 loses its final weight |
| Concats.ConcatBridge | rustfst/src/algorithms/concat/concat.rs:82-98 | a state of FST1 gains exactly one eps:eps transition, weighted by its old final weight, to FST2's start + n1, exactly when it was final and FST2 has a start |
| Concats.ConcatInRange | rustfst/src/algorithms/concat/concat.rs:68-98 | concatenation keeps an FST well formed |
| Unions.Union | rustfst/src/algorithms/union/union_static.rs:54-119 | without an FST2 start nothing changes; otherwise FST1 becomes the union's states and start (the start corrected, see Findings) |
| Unions.UnionStartIsStart2 | rustfst/src/algorithms/union/union_static.rs:88-93 | when FST1 has no start, the new start is the copy of FST2's start: same final weight, same transitions shifted |
| Unions.UnionStartAsWrittenMisses | rustfst/src/algorithms/union/union_static.rs:88-93 | the start as written, `start2` without the offset, names a state of FST1 rather than the copy of FST2's start |
| Unions.UnionJoinsStarts | rustfst/src/algorithms/union/union_static.rs:96-113 | if FST1 is initial-acyclic, its start gains exactly one eps:eps transition of weight One to start2 + n1; otherwise a new start state with exactly the two eps transitions, to start1 and to start2 + n1, is added |
| Unions.UnionKeepsStates | rustfst/src/algorithms/union/union_static.rs:75-86 | FST1's states keep their finals and transitions, and FST2's states appear as shifted copies with their finals |
| Unions.UnionInRange | rustfst/src/algorithms/union/union_static.rs:75-113 | union keeps an FST well formed, start included |
| Projections.Project | rustfst/src/algorithms/projection.rs:65-93 | each state's transitions are projected in place and the start is unchanged |
| Projections.ProjectAll | rustfst/src/algorithms/projection.rs:69-86 | the inner loop projects every transition the iterator holds, and the iterator's counters stay exact |
| Projections.ProjectShape | rustfst/src/algorithms/projection.rs:65-88 | every transition gets equal labels, the kept side's label; the number of states, the finals, the transition counts, the weights and the destinations are unchanged |
| Projections.ProjectIdempotent | rustfst/src/algorithms/projection.rs:65-88 | projecting twice is projecting once |
| Projections.ProjectedIsAcceptor | rustfst/src/algorithms/projection.rs:105-119 | the properties computed for a projected FST contain `ACCEPTOR` and not `NOT_ACCEPTOR` |
| TrUniques.TrUnique | rustfst/src/algorithms/tr_unique.rs:38-51 | the number of states and the start are unchanged, and each state's transitions become the sorted, deduplicated ones |
| TrUniques.UniqueTrsCorrect | rustfst/src/algorithms/tr_unique.rs:38-44 | the transitions end up sorted by `tr_compare`, exactly the same transitions are present, and no two neighbours are equal |
| TrUniques.UniqueTrsKeepsDuplicate | rustfst/src/algorithms/tr_unique.rs:36-44 | [t1, t2, t1] with t1, t2 differing only in weight stays unchanged, so t1 is kept twice |
| TrUniques.UniqueTrsIntendedCorrect | rustfst/src/algorithms/tr_unique.rs:36-37 | the corrected version is sorted, holds exactly the same transitions, and holds no two equal ones anywhere |
| TrUniques.DistinctElems | rustfst/src/algorithms/tr_unique.rs:36-37 | keeping first occurrences keeps every value, and keeps it once |
| RelabelPairs.IteratorToHashmap | rustfst/src/algorithms/relabel_pairs.rs:10-24 | succeeds exactly when no old label is repeated, and then returns the map of the pairs |
| RelabelPairs.PairsMapLookup | rustfst/src/algorithms/relabel_pairs.rs:14-22 | the map sends each old label to its new label and holds no other key |
| RelabelPairs.RelabelAll | rustfst/src/algorithms/relabel_pairs.rs:61-77 | every transition of the iterator is relabelled through the two maps, and the iterator's counters stay exact |
| RelabelPairs.RelabelPairsOf | rustfst/src/algorithms/relabel_pairs.rs:48-79 | a repeated old label in either list is an error and changes nothing; otherwise every transition is relabelled and the start stays |
| RelabelPairs.RelabelShape | rustfst/src/algorithms/relabel_pairs.rs:61-77 | only labels change: a mapped label becomes its new label, an unmapped one stays, and the weights, destinations, finals and counts are untouched |
| RelabelPairs.RelabelPairsExample | rustfst/src/algorithms/relabel_pairs.rs:89-127 | the unit test's FST, relabelled with its pairs, is the expected FST |
| Unions.UnionStartAsWritten | rustfst/src/algorithms/union/union_static.rs:88-93 | as written, agrees with the corrected start whenever FST1 has a start, and differs from it when FST1 has none but has states |
| TrMaps.MapAll | rustfst/src/algorithms/tr_map.rs:99-107 | through the transitions iterator of one state, every transition is replaced by its image under the mapper, in place and in order |
| TrMaps.MapStateAt | rustfst/src/algorithms/tr_map.rs:99-179 | one state of the main loop: its transitions are mapped, then its final weight; it fails exactly when the mapper is `MapNoSuperfinal` and gives that final weight a label; the superfinal state is created on the first labelled image under `MapAllowSuperfinal`; only this state changes among the original ones |
| TrMaps.MapFinal | rustfst/src/algorithms/tr_map.rs:109-178 | the final-weight step for one state: an error exactly for a labelled image under `MapNoSuperfinal`, and then nothing changes; otherwise only this state is rewritten, and the superfinal state exists afterwards exactly when it existed before or was created here |
| TrMaps.TrMap | rustfst/src/algorithms/tr_map.rs:78-185 | an FST without a start is left alone; otherwise the call succeeds exactly when no final weight maps to a labelled image under `MapNoSuperfinal`, and then the FST becomes the mapped FST; the start never changes |
| TrMaps.TrMapShape | rustfst/src/algorithms/tr_map.rs:93-155 | every original transition is replaced in place by its image; each state gains at most one transition; the superfinal state, when there is one, is the last state, final with weight One and without transitions |
| TrMaps.TrMapFinalMoved | rustfst/src/algorithms/tr_map.rs:116-177 | a label-free image under `MapNoSuperfinal` or `MapAllowSuperfinal` stays the final weight; every other image except a label-free Zero under `MapRequireSuperfinal` becomes the state's last transition, to the superfinal state, and the state stops being final |
| TrMaps.TrMapFinals | rustfst/src/algorithms/tr_map.rs:36-39 | a state that was not final stays non-final; under `MapRequireSuperfinal` the superfinal state is the only final state, as the `MapFinalAction` documentation says |
| TrMaps.TrMapInRange | rustfst/src/algorithms/tr_map.rs:93-155 | if the mapper keeps destinations, every transition of the result leads to a state of the result |
| TrMaps.RequireAsWrittenKeepsFinal | rustfst/src/algorithms/tr_map.rs:157-177 | under `MapRequireSuperfinal`, a state whose final weight maps to a label-free Zero keeps its old final weight as written (weight 5 stays 5), while the corrected step makes it non-final |
| Encodes.TrRoundTrip | rustfst/src/algorithms/encode.rs:40-54 | decoding an encoded transition with the tuple it was encoded from gives back the transition, for every choice of flags; the tuple keeps the input label always, the output label when labels are encoded, and the weight when weights are encoded |
| Encodes.EncodedTrInjective | rustfst/src/algorithms/encode.rs:110-122 | two transitions with the same encoded form whose tuples have equal codes exactly when the tuples are equal are the same transition: encoding loses nothing |
| Encodes.EncodeTableMut.constructor | rustfst/src/algorithms/encode.rs:31-38 | a new table holds no tuples and keeps the two flags |
| Encodes.EncodeTableMut.Encode | rustfst/src/algorithms/encode.rs:72-82 | a tuple already in the table gets its old code back and nothing changes; a new tuple is appended and gets the next code; a code is the index plus one, so it is never epsilon, and it decodes to the tuple |
| Encodes.EncodeTableMut.Decode | rustfst/src/algorithms/encode.rs:84-86 | a code gives a tuple exactly when it is at most the number of tuples stored |
| Encodes.EncodeTableMut.DecodeEncodes | rustfst/src/algorithms/encode.rs:72-86 | on a valid table each stored code decodes to a tuple whose code it is, and distinct tuples have distinct codes |
| Encodes.EncodeMapper.constructor | rustfst/src/algorithms/encode.rs:100-107 | the mapper owns a new, empty table with the given flags |
| Encodes.EncodeMapper.TrMap | rustfst/src/algorithms/encode.rs:111-122 | a transition is replaced by its encoded form; its code is a stored code whose tuple is the transition's tuple; the encoded form decodes back to the transition; the table only grows |
| Encodes.EncodeMapper.FinalTrMap | rustfst/src/algorithms/encode.rs:124-137 | when weights are not encoded, the final pseudo-transition and the table are left alone; otherwise the pseudo-transition is encoded like a transition |
| Encodes.EncodeMapper.FinalAction | rustfst/src/algorithms/encode.rs:139-145 | a superfinal state is required exactly when weights are encoded; never `MapAllowSuperfinal` |
| Encodes.EncodeMapper.EncodeTrs | rustfst/src/algorithms/encode.rs:111-122 | encoding all the transitions of one state, one after another: every result decodes back to its original with the table as it stands at the end |
| Encodes.DecodeMapper.constructor | rustfst/src/algorithms/encode.rs:153-155 | the mapper holds the given table |
| Encodes.DecodeMapper.TrMap | rustfst/src/algorithms/encode.rs:159-175 | the input label is read as a code and the parts it stands for are restored; the destination is kept, and the output label and weight are kept when they were not encoded |
| Encodes.DecodeMapper.FinalTrMap | rustfst/src/algorithms/encode.rs:177-179 | final weights are left alone |
| Encodes.DecodeMapper.FinalAction | rustfst/src/algorithms/encode.rs:181-183 | decoding never needs a superfinal state |
| LabelsToFst.Transducer | rustfst/src/utils/labels_to_fst.rs:43-73 | a new FST with start 0 whose states are the linear chain for the two label lists |
| LabelsToFst.Acceptor | rustfst/src/utils/labels_to_fst.rs:111-131 | a new FST with start 0 whose states are the linear chain reading and writing the same labels |
| LabelsToFst.LinearShape | rustfst/src/utils/labels_to_fst.rs:48-70 | the chain has max(len(inputs), len(outputs)) + 1 states; every state but the last has exactly one transition, of weight One, to the next state, and is not final; transition i carries input i and output i, and epsilon once a list runs out; the last state is final with the given weight and has no transitions |
| LabelsToFst.AcceptorIsAcceptor | rustfst/src/utils/labels_to_fst.rs:75-77 | the computed properties of an acceptor built from labels include `ACCEPTOR` and not `NOT_ACCEPTOR` |
| FstProperties.PairIndex | rustfst/src/fst_properties/properties.rs:17-99 | each of the 16 properties has one of the 16 bit pairs of the `u32` |
| FstProperties.PairIndexInverse | rustfst/src/fst_properties/properties.rs:17-99 | no two properties share a bit pair |
| FstProperties.BitIndex | rustfst/src/fst_properties/properties.rs:17-99 | each bit has a place below 32 |
| FstProperties.BitIndexInjective | rustfst/src/fst_properties/properties.rs:17-99 | distinct bits have distinct places |
| FstProperties.BitLayout | rustfst/src/fst_properties/properties.rs:17-99 | the 32 bits have 32 distinct values below 2^32, and each negative bit is twice its positive bit, as `NEG_PROPERTIES = POS_PROPERTIES << 1` declares |
| FstProperties.NegAbovePos | rustfst/src/fst_properties/properties.rs:288-289 | the negative bit of a property sits just above its positive bit |
| FstProperties.BitValueInjective | rustfst/src/fst_properties/properties.rs:17-99 | distinct bits have distinct values |
| ComputeFstProperties.ComputeFstProperties | rustfst/src/fst_properties/compute_fst_properties.rs:15-148 | the result holds exactly the visitor's cycle and reachability bits and, for each of the other twelve properties, its found bit when the FST has an instance of it and its initial bit otherwise |
| ComputeFstProperties.ScanState | rustfst/src/fst_properties/compute_fst_properties.rs:49-138 | one turn of the outer loop: the checks on the state's transitions, then on its final weight; the count of final states seen so far stays positive exactly when a final state came before |
| ComputeFstProperties.ScanTrs | rustfst/src/fst_properties/compute_fst_properties.rs:50-122 | the inner loop finds exactly the properties that some transition of the state is an instance of |
| ComputeFstProperties.ScanTr | rustfst/src/fst_properties/compute_fst_properties.rs:54-121 | the checks on one transition add exactly the properties it is an instance of |
| ComputeFstProperties.ScanLabels | rustfst/src/fst_properties/compute_fst_properties.rs:54-84 | the determinism, acceptor and epsilon checks on one transition, using the label sets of the transitions before it |
| ComputeFstProperties.ScanOrder | rustfst/src/fst_properties/compute_fst_properties.rs:86-117 | the sorting, weight, weighted-cycle, topological-order and string checks on one transition, using the transition before it |
| ComputeFstProperties.EncodeFound | rustfst/src/fst_properties/compute_fst_properties.rs:55-58 | finding an instance of a property sets its found bit and clears its initial bit |
| ComputeFstProperties.Mark | rustfst/src/fst_properties/compute_fst_properties.rs:55-117 | a guarded set-and-clear moves the property to the found side exactly when its condition holds |
| ComputeFstProperties.AddLabelFindsHas | rustfst/src/fst_properties/compute_fst_properties.rs:54-84 | a property is found after the label checks on a transition exactly when it was found before or the transition is an instance of it |
| ComputeFstProperties.AddOrderFindsHas | rustfst/src/fst_properties/compute_fst_properties.rs:86-117 | a property is found after the order checks on a transition exactly when it was found before or the transition is an instance of it |
| ComputeFstProperties.StateSteps | rustfst/src/fst_properties/compute_fst_properties.rs:124-138 | the checks on a state add exactly the properties it is an instance of |
| ComputeFstProperties.TrSteps | rustfst/src/fst_properties/compute_fst_properties.rs:54-117 | the twelve checks on a transition add exactly the properties it is an instance of |
| ComputeFstProperties.StartEncodes | rustfst/src/fst_properties/compute_fst_properties.rs:19-46 | before the scan, the result holds the visitor's bits and the initial bit of each scanned property, and nothing is found yet |
| ComputeFstProperties.LabelsOfHas | rustfst/src/fst_properties/compute_fst_properties.rs:50-51 | a label is in the label set of some transitions exactly when one of them carries it |
| ComputeFstProperties.LabelSetsRepeat | rustfst/src/fst_properties/compute_fst_properties.rs:54-64 | a transition's label is in the set of the labels before it exactly when it repeats a label of an earlier transition of the state |
| ComputeFstProperties.FoundTrsHas | rustfst/src/fst_properties/compute_fst_properties.rs:53-122 | after the first k transitions of a state a property is found exactly when it was found before or one of them is an instance of it |
| ComputeFstProperties.FoundStatesHas | rustfst/src/fst_properties/compute_fst_properties.rs:49-139 | after the first n states a property is found exactly when some transition or some state among them is an instance of it |
| ComputeFstProperties.SomeChecksStep | rustfst/src/fst_properties/compute_fst_properties.rs:49-139 | the instances among the first n states are those among the first n - 1 and those of state n - 1 |
| ComputeFstProperties.FoundAllHas | rustfst/src/fst_properties/compute_fst_properties.rs:49-146 | a property is found exactly when some transition or some state is an instance of it or, for `STRING`, when the start is not state 0 |
| ComputeFstProperties.ComputedBit | rustfst/src/fst_properties/compute_fst_properties.rs:35-147 | a scanned property has its found bit exactly when the FST has an instance of it, and its initial bit exactly when it has not |
| ComputeFstProperties.AcceptorBits | rustfst/src/fst_properties/compute_fst_properties.rs:66-69 | `ACCEPTOR` iff every transition has equal labels; `NOT_ACCEPTOR` iff not `ACCEPTOR` |
| ComputeFstProperties.IDeterministicBits | rustfst/src/fst_properties/compute_fst_properties.rs:54-58 | `I_DETERMINISTIC` iff no state has two transitions with the same input label; `NOT_I_DETERMINISTIC` iff not |
| ComputeFstProperties.ODeterministicBits | rustfst/src/fst_properties/compute_fst_properties.rs:60-64 | `O_DETERMINISTIC` iff no state has two transitions with the same output label; `NOT_O_DETERMINISTIC` iff not |
| ComputeFstProperties.EpsilonsBits | rustfst/src/fst_properties/compute_fst_properties.rs:71-74 | `EPSILONS` iff some transition has both labels epsilon; `NO_EPSILONS` iff not |
| ComputeFstProperties.IEpsilonsBits | rustfst/src/fst_properties/compute_fst_properties.rs:76-79 | `I_EPSILONS` iff some transition has an epsilon input label; `NO_I_EPSILONS` iff not |
| ComputeFstProperties.OEpsilonsBits | rustfst/src/fst_properties/compute_fst_properties.rs:81-84 | `O_EPSILONS` iff some transition has an epsilon output label; `NO_O_EPSILONS` iff not |
| ComputeFstProperties.ILabelSortedBits | rustfst/src/fst_properties/compute_fst_properties.rs:87-91 | `I_LABEL_SORTED` iff each state's transitions are in non-decreasing input-label order; `NOT_I_LABEL_SORTED` iff not |
| ComputeFstProperties.OLabelSortedBits | rustfst/src/fst_properties/compute_fst_properties.rs:93-96 | `O_LABEL_SORTED` iff each state's transitions are in non-decreasing output-label order; `NOT_O_LABEL_SORTED` iff not |
| ComputeFstProperties.WeightedBits | rustfst/src/fst_properties/compute_fst_properties.rs:99-133 | `WEIGHTED` iff some transition weight is neither Zero nor One or some final weight is not One; `UNWEIGHTED` iff not |
| ComputeFstProperties.WeightedCyclesBits | rustfst/src/fst_properties/compute_fst_properties.rs:99-107 | `WEIGHTED_CYCLES` iff some transition with a weight neither Zero nor One stays inside its strongly connected component; `UNWEIGHTED_CYCLES` iff not |
| ComputeFstProperties.TopSortedBits | rustfst/src/fst_properties/compute_fst_properties.rs:109-112 | `TOP_SORTED` iff every transition goes to a larger state id; `NOT_TOP_SORTED` iff not |
| ComputeFstProperties.StringBits | rustfst/src/fst_properties/compute_fst_properties.rs:114-146 | `STRING` iff every transition of state s goes to s + 1, no state but the last is final, every non-final state has exactly one transition, and the start, if any, is state 0; `NOT_STRING` iff not |
| ComputeFstProperties.ComputedConsistent | rustfst/src/fst_properties/compute_fst_properties.rs:33-147 | the cycle and reachability bits are the visitor's; every other property has exactly one of its two bits; so consistent visitor bits give a consistent result |
| Dfs.Targets | rustfst/src/algorithms/dfs.rs:87-88 | the graph the search walks: for each state, the destinations of its transitions, in order |
| Dfs.ReachTrans | rustfst/src/algorithms/dfs.rs:87-89 | reachability along transitions is transitive |
| Dfs.ReachPrepend | rustfst/src/algorithms/dfs.rs:87-89 | a transition followed by a walk is a walk |
| Dfs.TarjanAlgorithm.constructor | rustfst/src/algorithms/dfs.rs:54-62 | nothing numbered, an empty stack, no records, next id 0 |
| Dfs.TarjanAlgorithm.StrongConnect | rustfst/src/algorithms/dfs.rs:75-123 | from an undiscovered state: every state it discovers gets a number above all earlier ones; the states it completes form whole components, each with a fresh id in completion order, closed under transitions; the caller's part of the stack is kept, and every state still on the stack reaches a state below it |
| Dfs.TarjanAlgorithm.VisitTr | rustfst/src/algorithms/dfs.rs:88-107 | one transition of the loop: an undiscovered target is searched and the lowlink becomes the smaller of the two lowlinks; a target on the stack lowers the lowlink to its number; a completed target changes nothing; the loop invariant moves one transition on |
| Dfs.TarjanAlgorithm.CloseComponent | rustfst/src/algorithms/dfs.rs:109-120 | when the lowlink equals the number, the state and everything above it on the stack are popped, get the next id, and the id counter grows by one; otherwise nothing is popped |
| Dfs.TarjanAlgorithm.PopComponent | rustfst/src/algorithms/dfs.rs:111-118 | the pop loop removes exactly the stack down to and including the state, and marks each popped state off the stack with the current id |
| Dfs.TarjanAlgorithm.Compute | rustfst/src/algorithms/dfs.rs:64-73 | after one search from every undiscovered state in order, the stack is empty and every state has an id |
| Dfs.TarjanAlgorithm.GetScc | rustfst/src/algorithms/dfs.rs:125-130 | the id of every state, one per state |
| Dfs.LoopBack | rustfst/src/algorithms/dfs.rs:96-106 | a transition to a discovered state lowers the lowlink to that state's number exactly when it is on the stack, and keeps the loop invariant |
| Dfs.LoopChild | rustfst/src/algorithms/dfs.rs:88-95 | after the nested search of an undiscovered target, taking the smaller lowlink keeps the loop invariant |
| Dfs.Pop | rustfst/src/algorithms/dfs.rs:110-120 | a state whose lowlink is its number is the root of a component: it and the states above it on the stack reach each other, are closed under transitions, and get the next id |
| Dfs.NoPop | rustfst/src/algorithms/dfs.rs:109-110 | a state whose lowlink is below its number stays on the stack with those above it, and the search still meets its contract |
| Dfs.FindStronglyConnectedComponents | rustfst/src/algorithms/dfs.rs:133-143 | one id per state; every id below the count is used; ids never increase along a transition; two states share an id exactly when each reaches the other |
| Dfs.WalkDescends | rustfst/src/algorithms/dfs.rs:154-177 | along any walk the id never increases: components are numbered in completion order |
| Dfs.CommonCycle | rustfst/src/algorithms/dfs.rs:179-206 | states on a common cycle share their id |
| Dfs.ZeroIsSink | rustfst/src/algorithms/dfs.rs:154-177 | nothing reachable from the component numbered 0 has another id |
| Dfs.Unreachable | rustfst/src/algorithms/dfs.rs:87-89 | nothing outside a set closed under transitions is reachable from inside it |
| Dfs.ThreeIds | rustfst/src/algorithms/dfs.rs:171-174 | three states with ids in strictly decreasing order, the rest sharing the first one's, use exactly ids 2, 1, 0 |
| Dfs.ChainExample | rustfst/src/algorithms/dfs.rs:154-177 | in the chain 0 -> 1 -> 2 every state is its own component: 3 ids, with state 0 getting 2, state 1 getting 1 and state 2 getting 0, as the first test expects |
| Dfs.CycleExample | rustfst/src/algorithms/dfs.rs:179-206 | in the graph 0 -> 2 -> 1 -> 0, 0 -> 3 -> 4 the cycle is one component: 3 ids, with 2 for states 0, 1 and 2, 1 for state 3 and 0 for state 4, as the second test expects |
| DeprecatedDfs.Unseen | rustfst/src/algorithms/dfs.rs:16-22 | the states the search may still visit: those below the number of states not yet accessible |
| DeprecatedDfs.MarkedSound | rustfst/src/algorithms/dfs.rs:17-31 | a state that is final, or has a transition to a state that really reaches a final state, really reaches a final state |
| DeprecatedDfs.CallStep | rustfst/src/algorithms/dfs.rs:21-23 | the nested call on a successor not yet accessible makes it accessible and keeps the loop invariant |
| DeprecatedDfs.CheckStep | rustfst/src/algorithms/dfs.rs:25-27 | the state becomes coaccessible-to-be when a successor is already coaccessible |
| DeprecatedDfs.FinishStep | rustfst/src/algorithms/dfs.rs:30-32 | marking the state at the end of its loop completes the call |
| DeprecatedDfs.DeprecatedDfs | rustfst/src/algorithms/dfs.rs:10-35 | the state and everything newly accessible is reached from it, with all their successors accessible; it is marked coaccessible exactly when it was, is final, or has a transition to a coaccessible state; newly marked states are newly visited ones marked by the same rule; marking stays sound |
| DeprecatedDfs.FromEmpty | rustfst/src/algorithms/dfs.rs:10-35 | from empty sets, the accessible set is exactly the states reachable from the start, and every state marked coaccessible reaches a final state |
| Isomorphic.CompareTotal | rustfst/src/algorithms/isomorphic.rs:22-48 | with a strict total order on weights, `tr_compare` is a total order: it says Equal exactly for equal transitions, and Less one way exactly when Greater the other way |
| Isomorphic.LessEqTrans | rustfst/src/algorithms/isomorphic.rs:22-48 | the order of `tr_compare` is transitive |
| Isomorphic.Insert | rustfst/src/algorithms/isomorphic.rs:100-101 | inserting a transition into a list adds exactly that transition |
| Isomorphic.SortBy | rustfst/src/algorithms/isomorphic.rs:100-101 | `sort_by(tr_compare)` returns a permutation of its input |
| Isomorphic.InsertSorted | rustfst/src/algorithms/isomorphic.rs:100-101 | inserting into a sorted list gives a sorted list |
| Isomorphic.SortBySorted | rustfst/src/algorithms/isomorphic.rs:100-101 | the output of the sort is sorted by `tr_compare` |
| Isomorphic.SortedHeads | rustfst/src/algorithms/isomorphic.rs:100-101 | two sorted permutations of one list start with the same transition |
| Isomorphic.SortedUnique | rustfst/src/algorithms/isomorphic.rs:100-101 | two sorted permutations of one list are equal: the sorted order does not depend on the input order |
| Isomorphic.RenameTrs | rustfst/src/algorithms/isomorphic.rs:178-183 | a list of transitions with every destination renumbered, and nothing else changed |
| Isomorphic.SortTargets | rustfst/src/algorithms/isomorphic.rs:100-101 | sorting keeps every destination in range |
| Isomorphic.InsertRename | rustfst/src/algorithms/isomorphic.rs:100-101 | inserting a transition that shares labels and weight with none of the list commutes with renumbering |
| Isomorphic.SortRename | rustfst/src/algorithms/isomorphic.rs:100-101 | for transitions of which no two share labels and weight, sorting commutes with renumbering destinations |
| Isomorphic.SortedImage | rustfst/src/algorithms/isomorphic.rs:95-101 | when the second machine is the first through a renumbering, the sorted transitions of the image of a state are the sorted transitions of the state, renumbered |
| Isomorphic.CompleteImage | rustfst/src/algorithms/isomorphic.rs:178-183 | a renumbering of the kind the documentation describes maps every state as the check needs |
| Isomorphic.MatchedStep | rustfst/src/algorithms/isomorphic.rs:103-117 | a successful step of the transitions loop extends the matched prefix by one |
| Isomorphic.CheckedStep | rustfst/src/algorithms/isomorphic.rs:147-154 | popping a pair and checking it successfully keeps every paired, unqueued state checked |
| Isomorphic.CheckedDone | rustfst/src/algorithms/isomorphic.rs:147-157 | with the queue empty, every paired state has passed the check: the pairing is a simulation |
| Isomorphic.ImageOfPaired | rustfst/src/algorithms/isomorphic.rs:64-73 | under a renumbering the pairing agrees with, a queued pair is a state and its image, and the state is mapped as the check needs |
| Isomorphic.Isomorphism.constructor | rustfst/src/algorithms/isomorphic.rs:51-61 | nothing paired, nothing queued, `non_det` false; only `fst_1` must be well formed (its states index `state_pairs`), while `fst_2` may hold any start and destinations |
| Isomorphic.Isomorphism.PairState | rustfst/src/algorithms/isomorphic.rs:64-73 | a pair already recorded succeeds; a state already paired with another state fails; otherwise the pair is recorded and queued; a recorded pair is never changed |
| Isomorphic.Isomorphism.PairTrs | rustfst/src/algorithms/isomorphic.rs:103-131 | the loop over two sorted transition lists succeeds exactly when the transitions at each position have the same labels, approximately equal weights and destinations that can be paired; `non_det` is raised only for two adjacent matching transitions of the first list; it succeeds whenever the second list is the first renumbered by a map the pairing agrees with |
| Isomorphic.Isomorphism.IsomorphicState | rustfst/src/algorithms/isomorphic.rs:75-132 | an error, changing nothing, exactly when `s2` is not a state of the second machine (`final_weight(s2)?`); otherwise true only when the pair passes the check under the new pairing; false when finalities or final weights differ, or when the numbers of transitions differ; `non_det` is raised only for ambiguous transitions; true whenever a renumbering maps the first state to the second |
| Isomorphic.Isomorphism.PopAndCheck | rustfst/src/algorithms/isomorphic.rs:147-155 | one round of the loop: the pairing only grows and the number of unpaired states plus the queue length drops; on success every paired, unqueued state is checked; an error means a state outside the second machine was paired; `non_det` always has an ambiguous paired state behind it; the round succeeds while the pairing agrees with a renumbering |
| Isomorphic.Isomorphism.Isomorphic | rustfst/src/algorithms/isomorphic.rs:134-158 | two machines without a start are isomorphic; exactly one without a start gives false; a true answer pairs the starts and makes the pairing a simulation; the `?` error means a state outside the second machine was paired, which never happens when that machine is well formed; the non-determinism error means some paired state has ambiguous transitions; when the second machine is the first through a renumbering, the answer is true |
| Isomorphic.IntOps | rustfst/src/algorithms/isomorphic.rs:224-255 | integer weights ordered by `<` and compared exactly |
| Isomorphic.IntOpsComplete | rustfst/src/algorithms/isomorphic.rs:224-255 | that order is strict and total, and that comparison is reflexive |
| Isomorphic.SwappedExample | rustfst/src/algorithms/isomorphic.rs:240-255 | the one-transition machine and the same machine with its two states swapped are related by the renumbering [1, 0], so the answer is true |
| Isomorphic.AddedTrExample | rustfst/src/algorithms/isomorphic.rs:224-238 | after an extra transition out of the start, no pairing of the starts is a simulation, so the answer is not true |
| Isomorphic.MergedStatesExample | rustfst/src/algorithms/isomorphic.rs:178-183 | the pairing need not be one to one: a three-state machine whose two final states both map to the single final state of a two-state machine passes, though no renumbering turns one machine into the other |
| Isomorphic.ThreeStatesMap | rustfst/src/algorithms/isomorphic.rs:64-73 | the map [0, 1, 1] sends the three-state machine onto the two-state one |
| Isomorphic.ThreeStatesUnambiguous | rustfst/src/algorithms/isomorphic.rs:118-129 | no state of the three-state machine has two matching adjacent transitions, so `non_det` is never raised there |
| IntervalSets.CmpIsOrder | rustfst/src/algorithms/compose/interval_set.rs:30-45 | the order on intervals (begin ascending, then end descending) is total and transitive, says Equal only for equal intervals, and never puts a later begin first |
| IntervalSets.CmpExamples | rustfst/src/algorithms/compose/interval_set.rs:242-275 | [1,4) < [2,3), [1,4) = [1,4), [3,4) > [2,3), [1,4) < [1,3) and [1,4) > [1,5), as the unit test expects |
| IntervalSets.SortIvCorrect | rustfst/src/algorithms/compose/interval_set.rs:156 | the sort orders the intervals and keeps each as often as before |
| IntervalSets.CoversPerm | rustfst/src/algorithms/compose/interval_set.rs:156 | reordering the intervals does not change the points they cover |
| IntervalSets.LowerBound | rustfst/src/algorithms/compose/interval_set.rs:137-138 | `lower_bound`: every interval before the index is below the key, and the interval at the index, if any, is not |
| IntervalSets.NormalizeAsWrittenStuck | rustfst/src/algorithms/compose/interval_set.rs:161-168 | as written, a pass of the loop from an empty interval returns the same index: on [[3, 3)] `normalize` never ends |
| IntervalSets.MergeRun | rustfst/src/algorithms/compose/interval_set.rs:169-179 | the inner loop: the current interval swallows the following intervals that start no later than its end; it then covers exactly their points, and the next interval starts after its end |
| IntervalSets.MergePass | rustfst/src/algorithms/compose/interval_set.rs:161-184 | one pass of the outer loop: an empty interval is skipped; otherwise the interval is kept, extended over those it swallows, and its length counted; the index strictly advances |
| IntervalSets.MergeSorted | rustfst/src/algorithms/compose/interval_set.rs:157-185 | the merging loop over the sorted intervals: the kept intervals are sorted, non-empty, neither overlapping nor adjacent, cover exactly the points of the input, and their total length is the count |
| IntervalSets.IntervalSet.constructor | rustfst/src/algorithms/compose/interval_set.rs:49-53 | `default`: no intervals and no count |
| IntervalSets.IntervalSet.Push | rustfst/src/algorithms/compose/interval_set.rs:113-115 | the interval is appended; the count is unchanged |
| IntervalSets.IntervalSet.Clear | rustfst/src/algorithms/compose/interval_set.rs:122-124 | no intervals and no count |
| IntervalSets.IntervalSet.Union | rustfst/src/algorithms/compose/interval_set.rs:130-133 | the other set's intervals are appended, possibly leaving the set unnormalized; the count is unchanged |
| IntervalSets.IntervalSet.MemberCorrect | rustfst/src/algorithms/compose/interval_set.rs:135-143 | on a normalized set, `member(v)` holds exactly when some interval contains v |
| IntervalSets.IntervalSet.SingletonCorrect | rustfst/src/algorithms/compose/interval_set.rs:145-151 | on a normalized set, `singleton` holds exactly when the set covers a single point |
| IntervalSets.IntervalSet.Normalize | rustfst/src/algorithms/compose/interval_set.rs:153-192 | the intervals become sorted, non-empty, neither overlapping nor adjacent; they cover exactly the points covered before; the count is their total length |
| Partitions.Cut | rustfst/src/algorithms/partition.rs:72-80 | a list with one position cut out |
| Partitions.Relabel | rustfst/src/algorithms/partition.rs:154-162 | walking a class list from its head by next pointers gives exactly the elements of the list the new class id, and changes nothing else |
| Partitions.BlocksToClasses | rustfst/src/algorithms/partition.rs:120-177 | after a round, two placed elements share a class id exactly when they were in the same list (the same class, and both or neither said yes) before it |
| Partitions.Partition.constructor | rustfst/src/algorithms/partition.rs:22-26 | n elements, all in no class; no classes; no visited class; the counter at 1 |
| Partitions.Partition.Initialize | rustfst/src/algorithms/partition.rs:28-33 | the element table is resized to n, keeping the old entries; every class is dropped; the counter is 1; the visited classes are kept, and the partition is consistent when there were none |
| Partitions.Partition.AddClass | rustfst/src/algorithms/partition.rs:35-39 | one more, empty, class, whose id is returned; nothing else changes |
| Partitions.Partition.AllocateClasses | rustfst/src/algorithms/partition.rs:41-45 | n more, empty, classes; nothing else changes |
| Partitions.Partition.Add | rustfst/src/algorithms/partition.rs:47-62 | an element in no class joins class c at the head of its no-list and the size of c grows by one; every other class is unchanged |
| Partitions.Partition.Unlink | rustfst/src/algorithms/partition.rs:64-80 | the element leaves the no-list of its class, whose size drops by one; the element's own record is unchanged and it is in no class |
| Partitions.Partition.MoveElement | rustfst/src/algorithms/partition.rs:64-83 | the element leaves the no-list of its class, which shrinks by one, and heads the no-list of class c, which grows by one |
| Partitions.Partition.SplitOn | rustfst/src/algorithms/partition.rs:85-118 | an element already marked with the current counter is exactly one already in its yes-list, and then nothing changes; otherwise it moves from the no-list to the head of the yes-list of its class, the class size is kept, the yes size grows by one, and the class is recorded as visited exactly when its yes-list was empty |
| Partitions.Partition.PushYes | rustfst/src/algorithms/partition.rs:107-117 | an unlinked element goes to the head of the yes-list of its class with the current mark; the class is recorded as visited exactly when that list was empty |
| Partitions.Partition.SplitRefine | rustfst/src/algorithms/partition.rs:120-165 | when every member said yes, the yes-list becomes the no-list and -1 is returned; otherwise the smaller side (the yes side on a tie) becomes the no-list of a new class, returned, and the sizes of the two classes add up to the old size; the grouping into lists is kept |
| Partitions.Partition.FinalizeSplit | rustfst/src/algorithms/partition.rs:167-177 | every visited class is refined; the new classes are enqueued in order when there is a queue; afterwards no class is visited, every yes-list is empty, the counter has grown by one, and two placed elements share a class id exactly when they were in the same list before |
| Partitions.Partition.GetClassId | rustfst/src/algorithms/partition.rs:179-181 | on a consistent partition, the class id of a placed element names the class whose lists hold it |
| Partitions.Partition.GetClassSize | rustfst/src/algorithms/partition.rs:183-185 | on a consistent partition, the size of a class is the number of elements in its two lists |
| Partitions.Partition.NumClasses | rustfst/src/algorithms/partition.rs:187-189 | on a consistent partition, the number of classes is the number of class lists |
| Partitions.Partition.Iter | rustfst/src/algorithms/partition.rs:191-265 | the iterator yields exactly the no-list of the class, in list order |
| IntervalSets.IntervalSet.Count | rustfst/src/algorithms/compose/interval_set.rs:118-120 | the count last recorded, which only `Normalize` sets (to the total length of the normalized intervals) and `Push` and `Union` leave as it was; no invariant ties it to the intervals |
| IntervalSets.IntervalSet.Member | rustfst/src/algorithms/compose/interval_set.rs:135-143 | a member is covered by some interval, on any set (exactness on a normalized set is `MemberCorrect`) |
| IntervalSets.IntervalSet.Singleton | rustfst/src/algorithms/compose/interval_set.rs:145-151 | a singleton set has one interval and covers exactly its first point |
| SortedMatchers.MatchInputOnComputed | rustfst/src/algorithms/compose/matchers/sorted_matcher.rs:56-85 | on computed properties, matching on input labels is granted exactly when every state's transitions are sorted by input label, and refused (`MatchNone`) otherwise |
| SortedMatchers.MatchOutputOnComputed | rustfst/src/algorithms/compose/matchers/sorted_matcher.rs:56-85 | the same for output labels |
| SortedMatchers.Priority | rustfst/src/algorithms/compose/matchers/sorted_matcher.rs:91-93 | the priority is defined exactly for the states the FST has; any other state is an error |
| SortedMatchers.LowerBound | rustfst/src/algorithms/compose/matchers/sorted_matcher.rs:141-142 | on sorted transitions, every transition before the position has a label below the key and every one from it on has a label at least the key |
| SortedMatchers.MatchingFromNone | rustfst/src/algorithms/compose/matchers/sorted_matcher.rs:169-184 | no transition carries the label from a position on, so nothing matches from there |
| SortedMatchers.MatchingFromSkip | rustfst/src/algorithms/compose/matchers/sorted_matcher.rs:141-142 | skipping transitions that do not carry the label loses no match |
| SortedMatchers.RunFromSorted | rustfst/src/algorithms/compose/matchers/sorted_matcher.rs:169-184 | on sorted transitions, the run of the label that the iterator yields from a position at or above the key equals every matching transition from there |
| SortedMatchers.RunIsMatching | rustfst/src/algorithms/compose/matchers/sorted_matcher.rs:141-184 | the run starting at the lower bound holds every transition with the label, in order, and nothing else |
| SortedMatchers.IteratorSortedMatcher.constructor | rustfst/src/algorithms/compose/matchers/sorted_matcher.rs:124-155 | matching epsilon yields the implicit loop first and scans from 0; `NO_LABEL` is matched as epsilon without the loop; on sorted transitions the iterator yields exactly the matching transitions, after the loop if any |
| SortedMatchers.IteratorSortedMatcher.Next | rustfst/src/algorithms/compose/matchers/sorted_matcher.rs:169-184 | each item returned is the head of what was still to come and the rest remains; `None` only when nothing remains, with the state unchanged |
| FilterStates.CountOEpsBounds | rustfst/src/algorithms/compose/compose_filters/match_compose_filter.rs:80-93 | the number of output epsilons is at most the number of transitions; it is 0 exactly when no transition outputs epsilon and full exactly when all do |
| FilterStates.CountIEpsBounds | rustfst/src/algorithms/compose/compose_filters/match_compose_filter.rs:80-93 | the same for input epsilons |
| MatchComposeFilters.MatchFilterRange | rustfst/src/algorithms/compose/compose_filters/match_compose_filter.rs:98-145 | the filter only ever answers 0, 1, 2 or the blocking state |
| MatchComposeFilters.MatchComposeFilter.constructor | rustfst/src/algorithms/compose/compose_filters/match_compose_filter.rs:41-68 | the filter starts at no state pair, in no filter state, with all four facts false |
| MatchComposeFilters.MatchComposeFilter.SetState | rustfst/src/algorithms/compose/compose_filters/match_compose_filter.rs:74-96 | the same triple keeps the cached facts; a new triple refreshes them from the two states (all output/input epsilons and not final; no epsilon); a missing state is an error after the triple is recorded and before any fact changes |
| MatchComposeFilters.MatchPending1 | rustfst/src/algorithms/compose/compose_filters/match_compose_filter.rs:99-115 | during a run of FST1 epsilon moves neither an FST2 epsilon move nor an epsilon match goes through before a label match |
| MatchComposeFilters.MatchPending2 | rustfst/src/algorithms/compose/compose_filters/match_compose_filter.rs:116-132 | the mirror image for a run of FST2 epsilon moves |
| MatchComposeFilters.MatchFilterOrder | rustfst/src/algorithms/compose/compose_filters/match_compose_filter.rs:98-145 | over any run the filter lets through, epsilon moves of the two sides are never mixed between label matches |
| NoMatchComposeFilters.NoMatchFilterBlocksEpsMatch | rustfst/src/algorithms/compose/compose_filters/no_match_compose_filter.rs:122-126 | the filter blocks exactly the epsilon-to-epsilon matches; single-sided epsilon moves and label matches go through |
| SequenceComposeFilters.SequenceComposeFilter.constructor | rustfst/src/algorithms/compose/compose_filters/sequence_compose_filter.rs:38-63 | the filter starts at no state pair with both facts false |
| SequenceComposeFilters.SequenceComposeFilter.SetState | rustfst/src/algorithms/compose/compose_filters/sequence_compose_filter.rs:69-82 | the same triple keeps the cached facts; a new one refreshes them from FST1's state; a missing state is an error after the triple is recorded |
| SequenceComposeFilters.SequencePending | rustfst/src/algorithms/compose/compose_filters/sequence_compose_filter.rs:84-105 | after an FST2 epsilon move no FST1 epsilon move goes through before a label match |
| SequenceComposeFilters.SequenceFilterOrder | rustfst/src/algorithms/compose/compose_filters/sequence_compose_filter.rs:84-105 | over any run the filter lets through, FST1 epsilons come before FST2 epsilons and an epsilon-to-epsilon match is never taken |
| AltSequenceComposeFilters.AltSequenceComposeFilter.constructor | rustfst/src/algorithms/compose/compose_filters/alt_sequence_compose_filter.rs:105-124 | the filter starts at no state pair with both facts false |
| AltSequenceComposeFilters.AltSequenceComposeFilter.SetState | rustfst/src/algorithms/compose/compose_filters/alt_sequence_compose_filter.rs:143-157 | the same triple keeps the cached facts; a new one refreshes them from FST2's state; a missing state is an error after the triple is recorded |
| AltSequenceComposeFilters.AltSequencePending | rustfst/src/algorithms/compose/compose_filters/alt_sequence_compose_filter.rs:159-178 | after an FST1 epsilon move no FST2 epsilon move goes through before a label match |
| AltSequenceComposeFilters.AltSequenceFilterOrder | rustfst/src/algorithms/compose/compose_filters/alt_sequence_compose_filter.rs:159-178 | over any run the filter lets through, FST2 epsilons come before FST1 epsilons and an epsilon-to-epsilon match is never taken |
| SortedMatchers.MatchTypeOf | rustfst/src/algorithms/compose/matchers/sorted_matcher.rs:56-85 | the requested side, `MatchNone` or `MatchUnknown`; the requested side exactly when the FST is known sorted on it, `MatchNone` exactly when it is not known sorted but known unsorted |
| SortedMatchers.GetLabel | rustfst/src/algorithms/compose/matchers/sorted_matcher.rs:157-163 | the input label when matching on input, the output label when matching on output |
| SequenceComposeFilters.SequenceComposeFilter.Start | rustfst/src/algorithms/compose/compose_filters/sequence_compose_filter.rs:65-67 | the state every label match leads to, and one from which FST1 may move alone on an epsilon |
| SequenceComposeFilters.SequenceComposeFilter.FilterTr | rustfst/src/algorithms/compose/compose_filters/sequence_compose_filter.rs:84-107 | only 0, 1 or blocked; FST2 moving alone is blocked exactly when FST1's state has only output epsilons and is not final, and leads to 1 exactly when that state has epsilons and other transitions; FST1 moving alone goes through only out of 0, and a match is blocked exactly when it is an epsilon match; only FST2 moving alone reaches 1 |
| AltSequenceComposeFilters.AltSequenceComposeFilter.Start | rustfst/src/algorithms/compose/compose_filters/alt_sequence_compose_filter.rs:139-141 | the state every label match leads to, and one from which FST2 may move alone on an epsilon |
| AltSequenceComposeFilters.AltSequenceComposeFilter.FilterTr | rustfst/src/algorithms/compose/compose_filters/alt_sequence_compose_filter.rs:159-180 | only 0, 1 or blocked; FST1 moving alone is blocked exactly when FST2's state has only input epsilons and is not final, and leads to 1 exactly when that state has epsilons and other transitions; FST2 moving alone is blocked exactly out of 1, and a match is blocked exactly when it is an epsilon match; only FST1 moving alone reaches 1 |
| MatchComposeFilters.MatchComposeFilter.Start | rustfst/src/algorithms/compose/compose_filters/match_compose_filter.rs:70-72 | the state every label match leads to, and the only one out of which an epsilon on both sides goes through |
| MatchComposeFilters.MatchComposeFilter.FilterTr | rustfst/src/algorithms/compose/compose_filters/match_compose_filter.rs:98-145 | for each of the three kinds of move and each filter state (0, 1, 2, blocked), the next state the source assigns, with the epsilon counts of the other side deciding the moves out of 0 |
| NoMatchComposeFilters.Start | rustfst/src/algorithms/compose/compose_filters/no_match_compose_filter.rs:114-116 | the start state lets every transition through |
| NoMatchComposeFilters.FilterTr | rustfst/src/algorithms/compose/compose_filters/no_match_compose_filter.rs:122-126 | lets a pair through exactly when it is not an epsilon match on both sides |
| NoMatchComposeFilters.Properties | rustfst/src/algorithms/compose/compose_filters/no_match_compose_filter.rs:148-150 | the input properties, unchanged |
| StringVariants.ReverseSeqInvolution | rustfst/src/semirings/string_variant.rs:58-67 | reversing a label list twice gives it back |
| StringVariants.ReverseSeqConcat | rustfst/src/semirings/string_variant.rs:58-67 | the reverse of a concatenation is the concatenation of the reverses, swapped |
| StringVariants.UnwrapLabel | rustfst/src/semirings/string_variant.rs:24-34 | defined only on a one-label list, and returns that label |
| StringVariants.UnwrapLabels | rustfst/src/semirings/string_variant.rs:36-41 | defined only on a label list, and returns exactly that list |
| StringVariants.IsEmptyList | rustfst/src/semirings/string_variant.rs:43-48 | true exactly for the empty label list, never for `Infinity` |
| StringVariants.Reverse | rustfst/src/semirings/string_variant.rs:58-67 | `Infinity` stays `Infinity`; a label list becomes its labels in reverse order |
| StringVariants.ReverseInvolution | rustfst/src/semirings/string_variant.rs:58-67 | reversing a weight twice gives it back |
| StringVariants.ItemsConcat | rustfst/src/semirings/string_variant.rs:50-112 | joining back the items the iterator yields gives the weight it walked |
| StringVariants.SingletonsConcat | rustfst/src/semirings/string_variant.rs:100-104 | joining the one-label items of a list gives that list back |
| StringVariants.StringWeightVariantIterator.constructor | rustfst/src/semirings/string_variant.rs:50-56 | a fresh iterator has every item of the weight still to yield |
| StringVariants.StringWeightVariantIterator.Next | rustfst/src/semirings/string_variant.rs:91-111 | each call yields the next item and drops it from what remains; once nothing remains, `None` forever |
| StringVariants.IteratorExamples | rustfst/src/semirings/string_variant.rs:119-148 | `Infinity` yields itself once; `[1, 2]` yields `[1]` then `[2]` |
| StringWeights.LcpIsLongestCommonPrefix | rustfst/src/semirings/string_weight.rs:103-112 | the left Plus keeps a prefix of both lists, and every common prefix is a prefix of it |
| StringWeights.ReversePrefixSuffix | rustfst/src/semirings/string_weight.rs:113-124 | a list is a suffix of another exactly when its reverse is a prefix of the other's reverse |
| StringWeights.LcsIsLongestCommonSuffix | rustfst/src/semirings/string_weight.rs:113-124 | the right Plus keeps a suffix of both lists, and every common suffix is a suffix of it |
| StringWeights.Plus | rustfst/src/semirings/string_weight.rs:84-128 | Zero on either side gives the other; Plus fails exactly in the restricted semiring on two unequal non-Zero weights |
| StringWeights.LcpSelf | rustfst/src/semirings/string_weight.rs:103-112 | the common prefix of a list with itself is the list |
| StringWeights.LcpCommutes | rustfst/src/semirings/string_weight.rs:103-112 | the common prefix does not depend on the order of the arguments |
| StringWeights.LcpAssociates | rustfst/src/semirings/string_weight.rs:103-112 | the common prefix of three lists does not depend on the grouping |
| StringWeights.PlusIdempotentCommutative | rustfst/src/semirings/string_weight.rs:84-128 | Plus is idempotent and commutative in all three string semirings |
| StringWeights.PlusAssociative | rustfst/src/semirings/string_weight.rs:84-128 | in the left and right semirings Plus never fails and is associative |
| StringWeights.TimesAssign | rustfst/src/semirings/string_weight.rs:129-140 | the loop that pushes `w2`'s labels onto `w1` computes the concatenation, with `Infinity` absorbing |
| StringWeights.TimesMonoid | rustfst/src/semirings/string_weight.rs:68-78 | Times is associative, One is its identity on both sides and Zero annihilates on both sides |
| StringWeights.LcpPrepend | rustfst/src/semirings/string_weight.rs:103-112 | a common head factors out of the common prefix |
| StringWeights.LcsAppend | rustfst/src/semirings/string_weight.rs:113-124 | a common tail factors out of the common suffix |
| StringWeights.PropertiesHold | rustfst/src/semirings/string_weight.rs:162-176 | the laws the declared properties claim hold: Times distributes over Plus from the left in a left semiring and from the right in a right semiring, and Plus is idempotent |
| StringWeights.ReverseSwapsPlus | rustfst/src/semirings/string_weight.rs:158-160 | reversing maps the left semiring's Plus onto the right semiring's |
| StringWeights.DivideLeftW | rustfst/src/semirings/string_weight.rs:316-327 | `Infinity` stays `Infinity`; a label list loses as many leading labels as the divisor has, keeping a suffix |
| StringWeights.DivideRightW | rustfst/src/semirings/string_weight.rs:329-340 | `Infinity` stays `Infinity`; a label list loses as many trailing labels as the divisor has, keeping a prefix |
| StringWeights.DivideUndoesTimes | rustfst/src/semirings/string_weight.rs:316-340 | left division undoes a product on the left, right division one on the right |
| StringWeights.SumDividesSummand | rustfst/src/semirings/string_weight.rs:342-360 | weak divisibility: the left sum divides each summand from the left, the right sum from the right |
| StringWeights.PrefixDivides | rustfst/src/semirings/string_weight.rs:103-112 | a list is its common prefix followed by the rest |
| StringWeights.SuffixDivides | rustfst/src/semirings/string_weight.rs:113-124 | a list is the rest followed by its common suffix |
| StringWeights.Divide | rustfst/src/semirings/string_weight.rs:342-371 | division succeeds exactly when the semiring defines that side (left only, right only, or either explicit side for the restricted one) and then divides on that side |
| StringWeights.AsI32 | rustfst/src/semirings/string_weight.rs:287-289 | the cast keeps the value modulo 2^32 within the `i32` range, and leaves values below 2^31 alone |
| StringWeights.WriteBinary | rustfst/src/semirings/string_weight.rs:280-294 | writes the length and then each label, `Infinity` as `[1, -1]` |
| StringWeights.ParseBinary | rustfst/src/semirings/string_weight.rs:266-278 | a successful parse consumes some input |
| StringWeights.BinaryRoundTrip | rustfst/src/semirings/string_weight.rs:266-294 | writing then parsing gives the weight back and leaves what follows, for labels and lengths below 2^31 |
| StringWeights.WideLabelReadsAsInfinity | rustfst/src/semirings/string_weight.rs:270-289 | the one-label list `[0xFFFF_FFFF]` is written as `[1, -1]` and reads back as `Infinity` |
| UnionWeights.PushBackSorted | rustfst/src/semirings/union_weight.rs:165-175 | a sorted push grows the list by one when the weight comes after the last element, and otherwise keeps the length; all but the last element are unchanged |
| UnionWeights.PushBackUnsorted | rustfst/src/semirings/union_weight.rs:176-185 | an unsorted push adds the weight and loses nothing |
| UnionWeights.PushAllErr | rustfst/src/semirings/union_weight.rs:87-102 | once a push fails, later pushes keep that error |
| UnionWeights.PushAllSnoc | rustfst/src/semirings/union_weight.rs:87-102 | pushing a list and then one more element is one more sorted push |
| UnionWeights.Plus | rustfst/src/semirings/union_weight.rs:72-108 | Zero on either side gives the other |
| UnionWeights.MergeOrderElems | rustfst/src/semirings/union_weight.rs:83-103 | the merge visits every element of both lists, and nothing else |
| UnionWeights.SortedCons | rustfst/src/semirings/union_weight.rs:83-93 | an element no later one comes before extends a sorted list |
| UnionWeights.MergeOrderSorted | rustfst/src/semirings/union_weight.rs:83-103 | merging two strictly sorted lists visits their elements in sorted order |
| UnionWeights.PushAllDedups | rustfst/src/semirings/union_weight.rs:165-175 | sorted pushes of a sorted list never fail and leave a strictly sorted list of the elements of both, equal neighbours merged |
| UnionWeights.PlusIsUnion | rustfst/src/semirings/union_weight.rs:72-108 | Plus of two strictly sorted lists never fails, is strictly sorted and holds exactly the elements of either |
| UnionWeights.PlusCommutative | rustfst/src/semirings/union_weight.rs:155-161 | Plus of strictly sorted lists is commutative, as the declared properties claim |
| UnionWeights.StrictlySortedUnique | rustfst/src/semirings/union_weight.rs:155-161 | two strictly sorted lists with the same elements are equal |
| UnionWeights.HeadLeast | rustfst/src/semirings/union_weight.rs:165-175 | the first element of a strictly sorted list comes before every other one |
| UnionWeights.Products | rustfst/src/semirings/union_weight.rs:116-120 | one row of products, in the order of the right operand |
| UnionWeights.Times | rustfst/src/semirings/union_weight.rs:110-126 | Zero on either side gives Zero |
| UnionWeights.TimesOne | rustfst/src/semirings/union_weight.rs:58-63 | One is a right identity of Times on strictly sorted lists when it is one of the inner semiring |
| UnionWeights.TimesOneFrom | rustfst/src/semirings/union_weight.rs:114-123 | the rows still to be summed, times One, add exactly their elements |
| UnionWeights.Divide | rustfst/src/semirings/union_weight.rs:207-225 | Zero on either side gives Zero; two operands of more than one element are an error |
| UnionWeights.DivideByZeroAsWritten | rustfst/src/semirings/union_weight.rs:207-225 | as written, a one-element weight divided by Zero is an error, while the corrected division gives Zero |
| UnionWeights.DivideUndoesTimes | rustfst/src/semirings/union_weight.rs:110-126 | division undoes a product of one-element weights when the inner division undoes the inner product |
| UnionWeights.UnionWeight.constructor | rustfst/src/semirings/union_weight.rs:65-70 | the weight holds the given list |
| UnionWeights.UnionWeight.PushBack | rustfst/src/semirings/union_weight.rs:165-187 | the list becomes the sorted or unsorted push; a failed merge is an error that leaves the list as it was |
| UnionWeights.UnionWeight.PushAllSorted | rustfst/src/semirings/union_weight.rs:95-103 | the loop of sorted pushes computes the pushes in order, stopping at the first error |
| UnionWeights.UnionWeight.PlusAssign | rustfst/src/semirings/union_weight.rs:72-108 | the weight becomes the Plus of the two lists, or keeps its value on an error |
| UnionWeights.UnionWeight.TimesAssign | rustfst/src/semirings/union_weight.rs:110-126 | the weight becomes the Times of the two lists, built row by row, or keeps its value on an error |
| UnionWeights.UnionWeight.DivideAssign | rustfst/src/semirings/union_weight.rs:207-225 | the weight becomes the corrected Divide of the two lists, or keeps its value on an error |
| UnionWeights.UnionWeight.DivideAll | rustfst/src/semirings/union_weight.rs:212-219 | the loop pushes each quotient sorted, stopping at the first error |
| UnionWeights.ProductRow | rustfst/src/semirings/union_weight.rs:116-120 | one row of `times_assign` is the sorted pushes of its products |
| UnionWeights.DividePushErr | rustfst/src/semirings/union_weight.rs:212-219 | once a quotient push fails, later ones keep that error |
| UnionWeights.PushAllAppend | rustfst/src/semirings/union_weight.rs:87-102 | pushing two lists in turn is pushing their concatenation |
| StringWeights.Zero | rustfst/src/semirings/string_weight.rs:68-72 | annihilates Times on both sides |
| StringWeights.One | rustfst/src/semirings/string_weight.rs:74-78 | is the identity of Times on both sides |
| StringWeights.Times | rustfst/src/semirings/string_weight.rs:129-140 | `Infinity` exactly when a factor is; otherwise as many labels as both factors together |
| UnionWeights.Zero | rustfst/src/semirings/union_weight.rs:51-56 | the empty list, which the contracts of Plus and Times take as identity and annihilator |
| UnionWeights.One | rustfst/src/semirings/union_weight.rs:58-63 | a single element, the inner one, and not Zero |
| UnionWeights.DivideAsWritten | rustfst/src/semirings/union_weight.rs:207-225 | as written: the corrected division when neither side is Zero; an error for a Zero divisor; Zero for a Zero dividend only when the divisor has one element, an error otherwise |
| UnionWeights.PlusAppends | rustfst/src/semirings/union_weight.rs:72-108 | adding a weight that comes after every element of a strictly sorted list appends it |
| ParsedTextFsts.FromVecRowsParsed | rustfst/src/parsers/text_fst/parsed_text_fst.rs:94-113 | the loop over the rows builds exactly the container the row-by-row definition gives |
| ParsedTextFsts.RowsAccounted | rustfst/src/parsers/text_fst/parsed_text_fst.rs:104-110 | every row lands in exactly one place: transition rows in the transitions, final rows in the finals, and only `Infinity` finals are dropped |
| ParsedTextFsts.RowsInOrder | rustfst/src/parsers/text_fst/parsed_text_fst.rs:104-110 | the two lists keep the order of the text |
| ParsedTextFsts.Project | rustfst/src/parsers/text_fst/parsed_text_fst.rs:147-149 | the state each row names (a transition's source or target, a final row's state), one per row, in order |
| ParsedTextFsts.MaxOf | rustfst/src/parsers/text_fst/parsed_text_fst.rs:151-155 | the maximum is one of the elements and no element exceeds it |
| ParsedTextFsts.NumStates | rustfst/src/parsers/text_fst/parsed_text_fst.rs:146-157 | 0 exactly when no state is mentioned; otherwise above every mentioned state (sources, targets, finals, start), and one more than a mentioned state |
| ParsedTextFsts.MentionedStatesCover | rustfst/src/parsers/text_fst/parsed_text_fst.rs:147-154 | the chained states are empty exactly when nothing is mentioned, and hold every source, target, final state and the start |
| ParsedTextFsts.FirstRowCounted | rustfst/src/parsers/text_fst/parsed_text_fst.rs:95-102 | the start is the state of the first row, of whichever kind, and is counted by `num_states` even when that row is a dropped `Infinity` final |
| ParsedTextFsts.OneRow | rustfst/src/parsers/text_fst/parsed_text_fst.rs:105-109 | a single row contributes itself to its own list and nothing else |
| ParsedTextFsts.NotContiguousExample | rustfst/src/parsers/text_fst/parsed_text_fst.rs:189-211 | lines out of order (transition, final, transition) parse into two transitions and one final, start 0 |
| ParsedTextFsts.NoTrailingNewlineExample | rustfst/src/parsers/text_fst/parsed_text_fst.rs:213-233 | one transition and one final, start 0 |
| ParsedTextFsts.InfinityFinalExample | rustfst/src/parsers/text_fst/parsed_text_fst.rs:235-260 | an `Infinity` final is dropped and a weighted one kept |
| PathsIterators.StateBelow | rustfst/src/fst_traits/paths_iterator.rs:46-52 | in a ranked FST every transition leads to a state of lower rank |
| PathsIterators.PendingAppend | rustfst/src/fst_traits/paths_iterator.rs:43-59 | the paths still to come from a queue split over its two halves |
| PathsIterators.QueueNodesAppend | rustfst/src/fst_traits/paths_iterator.rs:43-59 | the work left in a queue splits over its two halves |
| PathsIterators.Pushes | rustfst/src/fst_traits/paths_iterator.rs:46-52 | one queued pair per transition: its target with the path extended by its labels and weight |
| PathsIterators.PushesPending | rustfst/src/fst_traits/paths_iterator.rs:46-52 | the pairs queued for a state lead to exactly the paths through its transitions |
| PathsIterators.WalkEnd | rustfst/src/fst_traits/paths_iterator.rs:43-59 | a walk from a state ends at a state of the FST |
| PathsIterators.PathsViaMember | rustfst/src/fst_traits/paths_iterator.rs:46-52 | a path through some transitions is a path from the target of one of them |
| PathsIterators.PathsViaHas | rustfst/src/fst_traits/paths_iterator.rs:46-52 | a path from the target of one of the transitions is a path through them |
| PathsIterators.YieldedAreWalks | rustfst/src/fst_traits/paths_iterator.rs:42-62 | every path yielded follows a walk to a final state |
| PathsIterators.WalkCons | rustfst/src/fst_traits/paths_iterator.rs:46-52 | a transition followed by a walk from its target is a walk whose path extends the transition's |
| PathsIterators.WalksAreYielded | rustfst/src/fst_traits/paths_iterator.rs:42-62 | every walk to a final state gives a path that is yielded |
| PathsIterators.PathsFromAreWalks | rustfst/src/fst_traits/paths_iterator.rs:42-62 | the paths yielded are exactly the walks to a final state: labels along the walk, and the weight times the final weight |
| PathsIterators.PopPush | rustfst/src/fst_traits/paths_iterator.rs:43-58 | one round of the loop leaves the paths still to come minus the one popped (when its state is final), with less work left |
| PathsIterators.PathsIterator.constructor | rustfst/src/fst_traits/paths_iterator.rs:24-32 | the paths still to come are every accepted path from the start, or none without a start |
| PathsIterators.PathsIterator.Next | rustfst/src/fst_traits/paths_iterator.rs:42-62 | each call yields one of the paths still to come and removes it; `None` only when none remain |
| PathsIterators.SingleStateExample | rustfst/src/fst_traits/paths_iterator.rs:84-98 | one state, start and final: the empty path with weight One |
| PathsIterators.LeafPaths | rustfst/src/fst_traits/paths_iterator.rs:54-58 | from a state without transitions, only the path ending there, if it is final |
| PathsIterators.OneStepPaths | rustfst/src/fst_traits/paths_iterator.rs:100-114 | from a state with one transition to a leaf: the path ending there and the one through the transition |
| PathsIterators.ThreeWayPaths | rustfst/src/fst_traits/paths_iterator.rs:116-162 | from a state with three transitions: its own path and those through each transition |
| PathsIterators.DiamondRanked | rustfst/src/fst_traits/paths_iterator.rs:116-162 | the four-state FST of the path tests is acyclic |
| PathsIterators.DiamondStart | rustfst/src/fst_traits/paths_iterator.rs:116-219 | its paths from the start, one ending in each final state |
| PathsIterators.OneFinalStateExample | rustfst/src/fst_traits/paths_iterator.rs:116-162 | with one final state: three paths, weighted by the product along them times the final weight |
| PathsIterators.MultipleFinalStatesExample | rustfst/src/fst_traits/paths_iterator.rs:163-219 | with every state final: six paths, one ending in each state |
| SimpleVecCaches.MaxNextPlusOne | rustfst/src/algorithms/lazy/cache/simple_vec_cache.rs:94-96 | above every target, and one more than some target when there is one |
| SimpleVecCaches.Resized | rustfst/src/algorithms/lazy/cache/simple_vec_cache.rs:104-106 | the vector grows just enough to hold the index, keeps its entries and pads with `NotComputed` |
| SimpleVecCaches.SumKnownTrsUpdate | rustfst/src/algorithms/lazy/cache/simple_vec_cache.rs:143-151 | storing an entry changes the transition count by the difference of the old and new entries |
| SimpleVecCaches.SumKnownTrsPad | rustfst/src/algorithms/lazy/cache/simple_vec_cache.rs:143-151 | padding with `NotComputed` does not change the transition count |
| SimpleVecCaches.TrsTokens | rustfst/src/algorithms/lazy/cache/simple_vec_cache.rs:241-252 | one token per transitions entry, in order |
| SimpleVecCaches.FinalTokens | rustfst/src/algorithms/lazy/cache/simple_vec_cache.rs:266-271 | one token per final-weight entry, in order |
| SimpleVecCaches.ParseTrsEntriesRoundTrip | rustfst/src/algorithms/lazy/cache/simple_vec_cache.rs:286 | parsing the written transitions entries gives them back and leaves what follows |
| SimpleVecCaches.ParseFinalEntriesRoundTrip | rustfst/src/algorithms/lazy/cache/simple_vec_cache.rs:291-294 | parsing the written final-weight entries gives them back and leaves what follows |
| SimpleVecCaches.ParseWriteRoundTrip | rustfst/src/algorithms/lazy/cache/simple_vec_cache.rs:220-313 | parsing what was written gives back the same cache and leaves what follows |
| SimpleVecCaches.ReadWriteEq | rustfst/src/algorithms/lazy/cache/simple_vec_cache.rs:203-313 | a cache read back from its own serialisation is `eq` to it |
| SimpleVecCaches.EqIgnoresStartKnown | rustfst/src/algorithms/lazy/cache/simple_vec_cache.rs:203-217 | `eq` compares only the start's value, not its counter: two caches differing only there are `eq` but not identical |
| SimpleVecCaches.SimpleVecCache.constructor | rustfst/src/algorithms/lazy/cache/simple_vec_cache.rs:60-68 | nothing computed and every counter 0 |
| SimpleVecCaches.SimpleVecCache.Clear | rustfst/src/algorithms/lazy/cache/simple_vec_cache.rs:38-47 | back to the empty cache |
| SimpleVecCaches.SimpleVecCache.InsertStart | rustfst/src/algorithms/lazy/cache/simple_vec_cache.rs:75-82 | the start becomes computed, a start state raises the start counter past it, and nothing else changes |
| SimpleVecCaches.SimpleVecCache.GetTrs | rustfst/src/algorithms/lazy/cache/simple_vec_cache.rs:84-87 | computed exactly when the entry exists and is computed, and then its transitions |
| SimpleVecCaches.SimpleVecCache.InsertTrs | rustfst/src/algorithms/lazy/cache/simple_vec_cache.rs:89-113 | the entry becomes the transitions with their epsilon counts, the vector growing if needed; the counter rises past every target; nothing else changes |
| SimpleVecCaches.SimpleVecCache.GetFinalWeight | rustfst/src/algorithms/lazy/cache/simple_vec_cache.rs:115-122 | the stored entry, `NotComputed` beyond the stored length |
| SimpleVecCaches.SimpleVecCache.InsertFinalWeight | rustfst/src/algorithms/lazy/cache/simple_vec_cache.rs:124-133 | the entry becomes the weight, the vector growing if needed; the counter rises past the state; nothing else changes |
| SimpleVecCaches.SimpleVecCache.NumKnownStates | rustfst/src/algorithms/lazy/cache/simple_vec_cache.rs:135-141 | the largest of the three counters |
| SimpleVecCaches.SimpleVecCache.NumTrs | rustfst/src/algorithms/lazy/cache/simple_vec_cache.rs:153-156 | defined exactly for computed entries, and then their number of transitions |
| SimpleVecCaches.SimpleVecCache.NumInputEpsilons | rustfst/src/algorithms/lazy/cache/simple_vec_cache.rs:158-161 | defined exactly for computed entries, and then the number of input epsilons of their transitions |
| SimpleVecCaches.SimpleVecCache.NumOutputEpsilons | rustfst/src/algorithms/lazy/cache/simple_vec_cache.rs:163-166 | the same for output epsilons |
| SimpleVecCaches.SimpleVecCache.Write | rustfst/src/algorithms/lazy/cache/simple_vec_cache.rs:220-274 | the two loops write the stream the cache's encoding defines, entry by entry |
| SimpleVecCaches.InsertTrsValid | rustfst/src/algorithms/lazy/cache/simple_vec_cache.rs:89-113 | after `insert_trs` every cached target and epsilon count is still consistent with the counter |
| SimpleVecCaches.KnownStatesBound | rustfst/src/algorithms/lazy/cache/simple_vec_cache.rs:135-141 | every state the cache has seen (the start, each cached target, each cached final index) is below `num_known_states` |
| SimpleVecCaches.InsertTrsCount | rustfst/src/algorithms/lazy/cache/simple_vec_cache.rs:143-151 | inserting the transitions of a state not yet computed raises `compute_num_known_trs` by their number |
| SimpleVecCaches.ParseTrsEntries | rustfst/src/algorithms/lazy/cache/simple_vec_cache.rs:286 | succeeds exactly when the next `n` items are transition entries, and then returns those and what follows them |
| SimpleVecCaches.ParseFinalEntries | rustfst/src/algorithms/lazy/cache/simple_vec_cache.rs:290-293 | succeeds exactly when the next `n` items are final-weight entries, and then returns those and what follows them |
| SimpleVecCaches.ParseSimpleVecCache | rustfst/src/algorithms/lazy/cache/simple_vec_cache.rs:276-312 | whatever it parses, writing it back gives the consumed input: the stream is read field for field as it is written |
| SimpleVecCaches.SumKnownTrsBounds | rustfst/src/algorithms/lazy/cache/simple_vec_cache.rs:143-151 | each entry's transitions count towards the total, which is 0 exactly when no entry adds any |
| SimpleVecCaches.SimpleVecCache.GetStart | rustfst/src/algorithms/lazy/cache/simple_vec_cache.rs:71-73 | a cached start state is below the number of known states |
| SimpleVecCaches.SimpleVecCache.ComputeNumKnownTrs | rustfst/src/algorithms/lazy/cache/simple_vec_cache.rs:143-151 | at least the transition count of every computed entry, and 0 exactly when every computed entry is empty |
| SimpleVecCaches.SimpleVecCache.LenTrs | rustfst/src/algorithms/lazy/cache/simple_vec_cache.rs:168-171 | no state at or beyond it has computed transitions |
| SimpleVecCaches.SimpleVecCache.LenFinalWeights | rustfst/src/algorithms/lazy/cache/simple_vec_cache.rs:173-176 | no state at or beyond it has a computed final weight, and on a valid cache it is at most the number of known states |

## Left out

- Floating-point weights and `approx_equal`'s `delta` are not modelled. Weights are an abstract type, and "approximately equal" is a relation passed to `isomorphic`. Only its reflexivity is assumed.
- Property-bit updates made by the structural algorithms through `set_properties_with_mask` are not modelled: `concat_properties`, `union_properties`, `project_properties` and `tr_map`'s `mapper.properties`. Those functions are not part of this model. `trs_iter_mut`'s own property updates are modelled.
- `FstProperties` is a set of bits, not a `u32`. `BitValue` keeps the layout.
- Unions.Union: whether FST1 is initial-acyclic is a parameter. It is not computed by `compute_and_update_properties`.
- ComputeFstProperties.ComputeFstProperties: the cycle and reachability bits and the SCC ids come from the SCC visitor. They are inputs, not recomputed.
- The encode and decode drivers of encode.rs (lines 194-221) are not modelled. These are the stateful mapper run through `tr_map` and decode's call to `rm_final_epsilon`. The table, both mappers and the transitions loop are modelled.
- Connect.Connect requires every transition and the start to be within the FST, and `Connect.SccVisitor.DfsVisit` every transition. The source panics otherwise. A destination outside the FST fails at `state_color[arc.nextstate]` (connect.rs line 306). A start outside it makes `dfs_visit` stop at once (connect.rs line 281) with nothing marked, and `ConnectMarks.StartOutside` shows such a start reaches no state. Every state is then deleted, and `del_states` fails at `new_id[start]` (vector_fst/mutable_fst.rs line 115). VectorFst's `set_start` never leaves the start outside the FST.
- Connect.SccVisitor.Visit is recursive. The call stack stands for the explicit stack of `DfsState` frames in `dfs_visit`, so the order of visits and marks is the same.
- The `u32`/`i32` casts of state ids in dfs.rs and connect.rs are not modelled. Ids are natural numbers and `-1` is an `Option`.
- VectorFsts.VectorFst.DelStates: `new_id` is a `Vec<i32>` in the source (vector_fst/mutable_fst.rs lines 79 and 89). The model numbers the survivors with unbounded integers, so the wrap-around past 2^31 states is not modelled.
- DeprecatedDfs.DeprecatedDfs requires every transition to lead to a state of the FST. The source's `fst.arcs_iter(state_id_cour)?` (dfs.rs line 18) returns an error on a destination outside the FST, after that destination was inserted into `accessible_states`. That error path is not modelled.
- TrMaps.TrMap: the mapper's `tr_map` and `final_tr_map` are total functions of `TrMapper`. The source's `mapper.tr_map(&mut tr)?` and `mapper.final_tr_map(..)?` (tr_map.rs lines 104 and 115) may return an error. That error is not modelled.
- VectorFsts.VectorFst.SumTrsUnchecked: the semiring's Plus is a total function, so the `plus_assign(..).unwrap()` of vector_fst/mutable_fst.rs lines 247-249 cannot panic in the model.
- UnionWeights.UnionWeight.TimesAssign and UnionWeights.Times use the inner semiring's total Times, so the error of `w1.times(w2)?` (union_weight.rs line 118) is not modelled. The error of the sorted push that follows (`merge`) is modelled.
- DeprecatedDfs.DeprecatedDfs states coaccessibility exactly only for the root of the search. The recursive `dfs` is incomplete in general: with 0→1, 1→0, 0→2 and 2 final, state 1 is never recorded as coaccessible. The model proves that what it records is sound.
- Isomorphic.Isomorphism.Isomorphic: the pairing the source builds is not injective. `MergedStatesExample` shows a three-state FST accepted as isomorphic to a two-state one. The contract states a simulation from the starts, not a bijection.
- SortedMatchers.IteratorSortedMatcher.constructor requires the match type to be input or output. The source accepts any type there and panics later, in `get_label`, once a transition is read.
- IntervalSets.LowerBound is a linear scan for the first interval that is not below the key. The superslice crate's binary `lower_bound`, which compose/interval_set.rs line 138 calls, gives the same index on sorted intervals only. On an unnormalized set the two can differ, so `IntervalSets.IntervalSet.MemberCorrect` is stated for a normalized set only.
- SortedMatchers.LowerBound is a binary search with the same result on sorted transitions. The superslice crate's `lower_bound_by` is not part of this model. On unsorted transitions the contract promises only a position in range.
- SortedMatchers.MatchInputOnComputed covers `match_type` on computed properties only, where sortedness is never unknown. The `test` flag, which calls `properties_check`, is not modelled separately. The `MatchUnknown` answer for unknown bits is in `MatchTypeOf`.
- IntervalSets.IntervalSet.Normalize requires `begin <= end` for every interval. In the source, `count += end - begin` underflows (a panic in debug builds) otherwise.
- StringWeights.BinaryRoundTrip holds only for labels and lengths below 2^31. Wider labels are written as negative `i32`s, and `WideLabelReadsAsInfinity` shows one that reads back as `Infinity`.
- The text parsers of the string and union weights and of the AT&T format (the nom grammars) are not modelled. Neither are file reading and writing. `ParsedTextFsts` starts from the parsed rows, and the cache's binary format is a stream of tokens.
- The three `Mutex`es of `SimpleVecCache` are not modelled, because the model is sequential. `cache_internal_types.rs` (`CachedData`, `CacheStatus`) is not part of this model. Its behaviour is taken from the calls made to it: entries beyond the end read as `NotComputed`.
- PathsIterators.PathsIterator.constructor requires an acyclic FST, given as a rank that every transition decreases. On a cycle the source's iteration does not end. `fst_path.rs` is not part of this model: `AddToPath` appends the non-epsilon labels and multiplies the weights.
- `UnionWeight`'s `reverse` (union_weight.rs lines 140-153), `properties` and `quantize` are not modelled, because they rely on the inner semiring's own reverse and quantize. `PlusIsUnion` and `PlusCommutative` assume that `compare` is a strict total order and that `merge` of equal elements gives the element back.
- SymbolTables.SymbolTable.AddTable adds the other table's symbols in an unspecified order, as iterating a hash map does. The contract states the result's symbols and that existing labels are kept, not which new label each symbol gets.
- filter_states.rs is not part of this model. `FilterStates.IntegerFilterState` follows its use in the filters: `new_no_state` is `NO_STATE_ID`.
- The matchers' implicit loop, the compose driver and the lookahead filters are not modelled. The filters are stated over runs of composition moves.
- Symbol-table text and binary I/O is not modelled.
- Partitions.Partition.Iter returns the elements of a class as a sequence. The iterator object of lines 191-265 is not modelled.

## Findings

| source | as written | input that shows it | evidently intended | confidence | as-written member | corrected member |
|---|---|---|---|---|---|---|
| rustfst/src/algorithms/union/union_static.rs:88-93 | when FST1 has no start, its start is set to `start2`, without adding FST1's number of states | FST1 one non-final state and no start, FST2 one final start state: the start becomes FST1's state 0, not the copy of FST2's start at 1 | the start is `start2 + n1`, the copy of FST2's start | high, not executed | Unions.UnionStartAsWrittenMisses | Unions.UnionStartIsStart2 |
| rustfst/src/algorithms/tr_unique.rs:36-44 | a stable sort by `tr_compare` (which ignores weights) followed by a `dedup` of equal neighbours | `[t1, t2, t1]` with t1, t2 equal but for the weight: nothing is removed, t1 stays twice | the documented "a single instance of each transition": no two equal transitions anywhere | medium, not executed | TrUniques.UniqueTrsKeepsDuplicate | TrUniques.UniqueTrsIntendedCorrect |
| rustfst/src/algorithms/tr_map.rs:157-177 | with `MapRequireSuperfinal`, a final weight whose image is Zero without labels leaves the state's old final weight in place | a state final with weight 5, a mapper sending every final weight to Zero: the state stays final with 5 | the state is no longer final; only the transition to the superfinal state carries its weight | medium, not executed | TrMaps.RequireAsWrittenKeepsFinal | TrMaps.TrMapFinals |
| rustfst/src/algorithms/compose/interval_set.rs:161-168 | an empty interval is skipped with `continue` without advancing the index | the set `[3, 3)`: the loop makes no progress and never ends | the empty interval is stepped over | high, not executed | IntervalSets.NormalizeAsWrittenStuck | IntervalSets.IntervalSet.Normalize |
| rustfst/src/semirings/union_weight.rs:207-225 | on a Zero operand the list is cleared, but the code then falls through to the one-element checks | a one-element weight divided by Zero: the cleared list has no element, so the division is an error | the quotient is Zero | medium, not executed | UnionWeights.DivideByZeroAsWritten | UnionWeights.Divide |
