# metagraph plugin registry and pandas edge wrappers, in Dafny

This project models three pieces of the metagraph library:

- **The plugin registry.** It holds six catalogs: abstract types, concrete types, wrappers, translators, abstract algorithms and concrete algorithms. `register` puts one object into the single catalog it classifies into. `register_from_modules` walks a graph of modules and registers every public member that qualifies. Recursion into submodules is optional and tracked by a shared seen-set.
- **The abstract type table.** This covers the nine abstract types, their property enumerations (including the four dtype choices), their unambiguous reductions, and the capabilities a `NodeMap` wrapper must supply.
- **The pandas edge-list wrappers.** `PandasEdgeSet` and `PandasEdgeMap` are modelled with:
  - their constructor checks;
  - `num_nodes`;
  - `to_edgeset`;
  - the abstract property computation of the edge map;
  - both `assert_equal` class methods.

The model is purely functional:

- A Python object is a value with an identity field (`uid`).
- A module is an identity into a `Universe` map. The map gives the module's `__name__` and its `vars()` in order.
- A call that mutates the registry returns an `Effect`. An `Effect` holds the registry after the call together with the returned value or the raised error, so "nothing changes on error" can be stated.
- A pandas frame is a map from labels to typed columns of one common height.

Files:

- `results.dfy` holds `Option` and `Result`.
- `text.dfy` holds the string tests.
- `collections.dfy` holds duplicate-freedom and a stable insertion sort.
- `plugin_registry.dfy` holds the catalogs and `register`.
- `module_discovery.dfy` holds `register_from_modules`.
- `abstract_types.dfy` holds the abstract type table.
- `pandas_types.dfy` holds the edge wrappers.
- `discovery_examples.dfy` holds four worked module graphs.

### Behaviour kept as the code has it

- **Roots are re-scanned.** Every root module is scanned, even when recursion from an earlier root already scanned it. Line 162 of `metagraph/core/plugin_registry.py` adds the root to the seen-set without testing it. So "each module is visited at most once" holds only for modules reached by recursion. That is the `entered` log, which is proved duplicate-free. It does not hold for the roots. `DiscoveryExamples.RootRescanned` shows a root that recursion already entered being scanned again under its own name, and registering a class then.
- **The two module-name tests differ.** The recursion test (`metagraph/core/plugin_registry.py`, line 149) is a bare prefix test. The class-origin test (lines 135-136) requires a "." boundary. So recursion from `metagraph` enters a module named `metagraphx`, yet the classes defined there are not registered. `DiscoveryExamples.PrefixWithoutBoundary` shows this.
- **The weights computation cannot be reached.** The edge map's `compute_abstract_properties` computes a property called `weights`. The bound abstract type `EdgeMap` declares `has_negative_weights` and no `weights`. Requested names are validated against the declaration first, so a request for `weights` always raises. A request for `has_negative_weights` is accepted and never answered.
- **The `str` branch is dead.** In the weights computation, the `"str"` assignment (lines 115-116) is always overwritten or followed by `min_val < 0`. On a non-empty string column that comparison raises. The model makes that a `WeightTypeError`.
- **`to_edgeset` is always directed.** It calls the `PandasEdgeSet` constructor with the default `is_directed=True`, so an undirected edge map becomes a directed edge set.

## Model

| member | source | states |
|---|---|---|
| PluginRegistry.Fresh | metagraph/core/plugin_registry.py:69-77 | a new registry has all six catalogs empty and is consistent (every entry sits in the catalog its classification names) |
| PluginRegistry.Classify | metagraph/core/plugin_registry.py:84-101 | the chosen catalog is one the object qualifies for, it is the first in test order among those, and `None` means it qualifies for none |
| PluginRegistry.ClassifyKeepsKinds | metagraph/core/plugin_registry.py:84-101 | classes land only in the three class catalogs and non-classes only in the three instance catalogs |
| PluginRegistry.Register | metagraph/core/plugin_registry.py:79-107 | succeeds iff the object qualifies for some catalog and then returns it unchanged; exactly that catalog gains the object and the other five are untouched; on error the registry is unchanged and the error names the object; catalogs only grow and consistency is preserved |
| PluginRegistry.RegisterIdempotent | metagraph/core/plugin_registry.py:84-99 | registering the same object twice has the effect of registering it once (set semantics) |
| PluginRegistry.ExactlyOneCatalog | metagraph/core/plugin_registry.py:84-101 | after a successful register on a consistent registry, the object is in exactly one catalog, the one it classifies into |
| ModuleDiscovery.SelectedClassifies | metagraph/core/plugin_registry.py:131-145 | every value the discovery filter selects is accepted by `register`, so discovery never makes it raise |
| ModuleDiscovery.ScanFrom | metagraph/core/plugin_registry.py:127-158 | the member loop of `_register_module` ends even on a cyclic module graph; the seen-set only grows, by modules of the universe only; catalogs only grow |
| ModuleDiscovery.Visit | metagraph/core/plugin_registry.py:128-158 | one loop iteration keeps the seen-set and the catalogs growing |
| ModuleDiscovery.VisitStays | metagraph/core/plugin_registry.py:146-152 | a member that is not a matching, unseen submodule changes neither the seen-set nor the log of entered modules |
| ModuleDiscovery.VisitEnters | metagraph/core/plugin_registry.py:146-158 | a submodule the visit enters was unseen before, ends up seen and logged as entered, and has every public selected member registered under the scan's root name |
| ModuleDiscovery.ScanEntersMatching | metagraph/core/plugin_registry.py:146-152 | a module newly seen by a scan was reached with recursion on and has a name starting with the root's name |
| ModuleDiscovery.VisitEntersMatching | metagraph/core/plugin_registry.py:146-152 | the same for one member |
| ModuleDiscovery.ScanLog | metagraph/core/plugin_registry.py:146-158 | recursion enters each module at most once; the log grows by exactly the modules newly marked seen |
| ModuleDiscovery.VisitLog | metagraph/core/plugin_registry.py:146-158 | the same for one member |
| ModuleDiscovery.ScanSound | metagraph/core/plugin_registry.py:128-158 | everything a scan adds to a catalog passes the filter and is bound to a public name in the scanned module or a module it entered |
| ModuleDiscovery.VisitSound | metagraph/core/plugin_registry.py:128-158 | the same for one member |
| ModuleDiscovery.ScanComplete | metagraph/core/plugin_registry.py:128-158 | every public, selected member of the rest of the module and of every entered module is in its catalog afterwards |
| ModuleDiscovery.VisitComplete | metagraph/core/plugin_registry.py:128-158 | the same for one member |
| ModuleDiscovery.ScanNoRecurse | metagraph/core/plugin_registry.py:146-148 | with `recurse=False` a scan sees and enters nothing new |
| ModuleDiscovery.LogEnter | metagraph/core/plugin_registry.py:150-152 | marking an unseen module seen and logging it keeps the log duplicate-free |
| ModuleDiscovery.FirstNonModule | metagraph/core/plugin_registry.py:120-124 | the position of the first argument that is not a module, or `None` iff every argument is a module |
| ModuleDiscovery.ValidateArgs | metagraph/core/plugin_registry.py:118-124 | after unpacking a lone list or tuple, errors iff some argument is not a module, reporting the first such position; on success returns exactly the modules' identities |
| ModuleDiscovery.ScanRoots | metagraph/core/plugin_registry.py:160-168 | the loop over the sorted roots, each marked seen and scanned under its own name, only grows the seen-set and the catalogs |
| ModuleDiscovery.RootsLog | metagraph/core/plugin_registry.py:160-168 | across all roots the shared seen-set keeps recursion from entering any module twice |
| ModuleDiscovery.RootsNoRecurse | metagraph/core/plugin_registry.py:160-168 | without recursion the call sees exactly the roots and enters nothing |
| ModuleDiscovery.RootsSound | metagraph/core/plugin_registry.py:127-168 | every new catalog entry passes the filter for the name of one root, and is bound publicly in a scanned module whose name starts with that same root's name |
| ModuleDiscovery.RootsEntersMatching | metagraph/core/plugin_registry.py:146-168 | across the root loop, recursion enters a module only with `recurse` on and only when its name starts with the name of some root |
| ModuleDiscovery.RootsComplete | metagraph/core/plugin_registry.py:160-168 | every root has all its selected public members registered under its own name, and every other scanned module under the name of some root |
| ModuleDiscovery.SortRoots | metagraph/core/plugin_registry.py:161 | the sorted roots are a permutation of the given roots, ordered by the number of dots in their names, and stable among equal depths |
| ModuleDiscovery.PermutedRoots | metagraph/core/plugin_registry.py:161 | reordering the roots does not change which modules they are |
| ModuleDiscovery.PermutedFacts | metagraph/core/plugin_registry.py:161 | every fact stated root by root (completeness, the prefix of entered modules, soundness) carries over from the sorted roots to the roots as given |
| ModuleDiscovery.ScanRootsMeets | metagraph/core/plugin_registry.py:160-168 | scanning any ordering of the roots from an empty seen-set meets every traversal promise for the roots as given: growth, at-most-once entry, entry only below a root's name, soundness paired with the selecting root, and completeness for the roots and for every scanned module |
| ModuleDiscovery.DiscoverRoots | metagraph/core/plugin_registry.py:160-168 | the order is the stable sort of the roots by depth, the final state is the scan of the roots in exactly that order from an empty seen-set, and it meets every traversal promise |
| ModuleDiscovery.RegisterFromModules | metagraph/core/plugin_registry.py:109-168 | errors iff argument validation fails, and then before any registration, leaving the registry unchanged; otherwise the roots are stably sorted by depth, the registry is that of scanning them in that order from an empty seen-set, and it meets every traversal promise |
| Collections.SortBy | metagraph/core/plugin_registry.py:161 | the result is a permutation of the input, sorted by the key |
| Collections.SortByStable | metagraph/core/plugin_registry.py:161 | the sort is stable: the elements of each key keep their input order |
| Text.CountDots | metagraph/core/plugin_registry.py:161 | the sort key `__name__.count(".")` is at most the name's length and is zero iff the name holds no dot |
| Text.CountDotsAppend | metagraph/core/plugin_registry.py:161 | dot counts add over concatenation, so a submodule `base.rest` sorts strictly after `base` |
| DiscoveryExamples.PrivateHelperSkipped | metagraph/core/plugin_registry.py:128-140 | a module with an abstract type, a concrete type and a private helper class registers the first two and skips the helper |
| DiscoveryExamples.PrefixWithoutBoundary | metagraph/core/plugin_registry.py:135-149 | recursion from `metagraph` enters `metagraphx`, and the class defined there is still not registered |
| DiscoveryExamples.RootRescanned | metagraph/core/plugin_registry.py:160-168 | roots `metagraph`, `metagraphx`: the second root, already entered by recursion from the first, is scanned again under its own name and its class is registered then |
| DiscoveryExamples.LookalikeSorted | metagraph/core/plugin_registry.py:161 | two roots of equal depth keep their order |
| DiscoveryExamples.CycleEntersOnce | metagraph/core/plugin_registry.py:146-158 | on two modules that bind each other the scan ends, entering the submodule once and not re-entering the root |
| DiscoveryExamples.NestedSorted | metagraph/core/plugin_registry.py:161 | roots `A.B`, `A` are sorted to `A`, `A.B` |
| DiscoveryExamples.ScanNestedSorted | metagraph/core/plugin_registry.py:127-168 | scanning `A` then `A.B` registers a class defined in `A.y` and bound in `A.B`, because recursion reaches `A.B` under the name `A` |
| DiscoveryExamples.ScanNestedAsGiven | metagraph/core/plugin_registry.py:127-168 | scanning `A.B` then `A` registers nothing: under the name `A.B` the class fails the origin test, and `A.B` is already seen when `A` is scanned |
| DiscoveryExamples.ShallowestFirst | metagraph/core/plugin_registry.py:109-168 | `register_from_modules(A.B, A)` sorts the roots and registers the class, which a scan in the order given would miss |
| AbstractTypes.ReductionTarget | metagraph/types.py:45-81 | a type has a reduction target iff its subcomponent set is non-empty, and then that set is the singleton of the target |
| AbstractTypes.SubcomponentsSingleValued | metagraph/types.py:45-81 | no type has more than one unambiguous subcomponent |
| AbstractTypes.ReductionDepthOne | metagraph/types.py:45-81 | a reduction target reduces no further |
| AbstractTypes.ReduceStopsAtTwo | metagraph/types.py:45-81 | two or more reduction steps always run out |
| AbstractTypes.ReductionAcyclic | metagraph/types.py:45-81 | no positive number of reduction steps leads back to the start |
| AbstractTypes.ReductionKeepsPropertyNames | metagraph/types.py:41-81 | a reduction target declares no property its source type lacks |
| AbstractTypes.PropertiesWellFormed | metagraph/types.py:19-81 | each type declares every property once, and every value list is non-empty and duplicate-free |
| AbstractTypes.DtypeUniform | metagraph/types.py:19-75 | every `dtype` property ranges over exactly the four choices str, float, int, bool |
| AbstractTypes.NodeMapRequirements | metagraph/types.py:45-56 | only `NodeMap` demands wrapper capabilities: the method `__getitem__` and the property `num_nodes` |
| AbstractTypes.EdgeMapPropertyNames | metagraph/types.py:70-76 | `EdgeMap` declares exactly `is_directed`, `dtype` and `has_negative_weights` |
| AbstractTypes.FirstUndeclared | metagraph/plugins/pandas/types.py:105 | validation reports nothing iff every requested name is declared by the type; a reported name was requested and is undeclared |
| AbstractTypes.FirstUndeclaredIsFirst | metagraph/plugins/pandas/types.py:105 | the reported name is the earliest undeclared one in the request |
| PandasTypes.DtypeName | metagraph/plugins/pandas/types.py:110 | the simplified dtype is one of the four dtype choices |
| PandasTypes.DtypeNameInjective | metagraph/plugins/pandas/types.py:110 | distinct column dtypes get distinct simplified names |
| PandasTypes.NewEdgeSet | metagraph/plugins/pandas/types.py:23-35 | construction succeeds iff both labels are columns, the error names the first missing label, and the attributes are the arguments |
| PandasTypes.NewEdgeMap | metagraph/plugins/pandas/types.py:59-91 | construction succeeds iff all three labels are columns, the error names the first missing one in source, target, weight order, and the attributes are the arguments |
| PandasTypes.EdgeMapNeedsEdgeSet | metagraph/plugins/pandas/types.py:23-91 | an edge map is accepted exactly when the edge set on the same labels is accepted and the weight label is a column |
| PandasTypes.LevelUnionSize | metagraph/plugins/pandas/types.py:37-40 | `len(src_nodes \| dst_nodes)` is the number of distinct edge endpoints, at most twice the row count and positive on a non-empty frame |
| PandasTypes.EdgeSetNumNodes | metagraph/plugins/pandas/types.py:37-40 | the edge set's node count is its number of distinct endpoints |
| PandasTypes.EdgeMapNumNodes | metagraph/plugins/pandas/types.py:96-99 | the edge map's node count is its number of distinct endpoints |
| PandasTypes.ToEdgeSet | metagraph/plugins/pandas/types.py:93-94 | conversion always succeeds with the same frame, labels, edges and node count, and the result is directed |
| PandasTypes.ToEdgeSetForgetsUndirected | metagraph/plugins/pandas/types.py:93-94 | an undirected map converts to an edge set whose directedness differs from the map's |
| PandasTypes.MinOf | metagraph/plugins/pandas/types.py:121 | the minimum is one of the values and no value is smaller |
| PandasTypes.WeightSign | metagraph/plugins/pandas/types.py:113-128 | bool gives non-negative; a numeric column gives "any" iff some weight is negative, "positive" iff all are positive, and "non-negative" iff none is negative and some is zero; a string column errs iff non-empty; an empty column gives positive |
| PandasTypes.PropertiesAfterValidation | metagraph/plugins/pandas/types.py:107-130 | the result holds `is_directed` and `dtype` from the attributes and the weight dtype, plus `weights` iff it was requested; it fails only when `weights` is requested and the weights cannot be classified |
| PandasTypes.WeightsReadOnlyOnRequest | metagraph/plugins/pandas/types.py:107-116 | unless `weights` is requested, the answer does not depend on the weight values |
| PandasTypes.ComputeAbstractProperties | metagraph/plugins/pandas/types.py:101-130 | errors iff some requested name is undeclared by `EdgeMap`, reporting such a name; otherwise `is_directed` is the attribute and `dtype` is one of the four choices |
| PandasTypes.WeightsRequestRejected | metagraph/plugins/pandas/types.py:105-114 | a request containing `weights` is always rejected by validation |
| PandasTypes.AcceptedRequestsGetFastOnly | metagraph/plugins/pandas/types.py:105-130 | every accepted request gets exactly the two fast properties, never `has_negative_weights` |
| PandasTypes.SharedChecksPass | metagraph/plugins/pandas/types.py:44-52 | the directedness, length and index-intersection checks pass iff directedness agrees and both indexes are duplicate-free with the same keys |
| PandasTypes.EdgeSetAssertEqual | metagraph/plugins/pandas/types.py:42-52 | fails on directedness iff it differs, and passes iff directedness agrees and both edge lists are duplicate-free with equal edge sets |
| PandasTypes.EdgeSetToleranceIgnored | metagraph/plugins/pandas/types.py:43 | the tolerances do not affect the verdict |
| PandasTypes.EdgeSetSelfEqual | metagraph/plugins/pandas/types.py:42-52 | an edge set equals itself iff it has no repeated edge |
| PandasTypes.Align | metagraph/plugins/pandas/types.py:143-145 | after reindexing, each row of obj1 is paired with obj2's weight for the same key |
| PandasTypes.AlignedAgreement | metagraph/plugins/pandas/types.py:143-152 | comparing the reindexed columns elementwise is comparing every pair of rows with equal keys |
| PandasTypes.CompareEdgeLists | metagraph/plugins/pandas/types.py:132-152 | on two weighted edge lists: fails on directedness iff it differs; passes only when the shared checks pass; float weights against string weights are incomparable exactly when the shared checks pass |
| PandasTypes.CompareEdgeListsPass | metagraph/plugins/pandas/types.py:132-152 | the comparison passes iff directedness agrees, the key sets are equal and duplicate-free, the weight dtypes are comparable, and rows with equal keys have agreeing weights |
| PandasTypes.EdgeMapAssertEqual | metagraph/plugins/pandas/types.py:132-152 | the same three facts stated on two edge maps |
| PandasTypes.EdgeMapAssertEqualPass | metagraph/plugins/pandas/types.py:132-152 | `assert_equal` on two edge maps passes iff they match key by key as above |
| PandasTypes.ReorderKeepsMatch | metagraph/plugins/pandas/types.py:140-152 | a key-by-key match against obj2 still holds when obj2's rows are reordered |
| PandasTypes.RowOrderIrrelevant | metagraph/plugins/pandas/types.py:140-152 | two second arguments holding the same rows in any order get the same pass or fail |
| PandasTypes.EdgeMapRowOrderIrrelevant | metagraph/plugins/pandas/types.py:140-152 | the same on edge maps |
| PandasTypes.ToleranceExamples | metagraph/plugins/pandas/types.py:133-150 | with `rel_tol=1e-9` and `abs_tol=0.0`, a difference of 1e-10 on a weight of 1 passes and one of 1e-3 fails |

## Left out

- The katana translators, the pagerank algorithm, `PandasDataFrameType.assert_equal` and the `NodeID` marker are outside this model.
- Python introspection is abstracted:
  - `type(obj) is type` and `isinstance(val, type)` both become "is a class";
  - metaclasses other than `type` are not modelled;
  - `issubclass` and `isinstance` become the sets of type bases and capability classes an object carries.
- The plugin entry points and the import machinery are outside this model. So is the order in which `vars()` lists members: the universe fixes it.
- The `_assert` and `_assert_instance` helpers of the wrapper base class are not part of this model. `_assert` is modelled as raising on a false condition, and `_assert_instance` as always satisfied, because `Frame` is the only frame type.
- `_validate_abstract_props` is not part of this model. It is modelled as rejecting any requested name the bound abstract type does not declare. `dtypes.dtypes_simplified` is modelled as already applied: columns carry one of the four simplified dtypes.
- `known_props` is unused by the source and is not a parameter of the model.
- Floating point is modelled by mathematical reals:
  - rounding is not modelled;
  - NaN is not modelled, except that the minimum of an empty column behaves as NaN and fails both comparisons with zero.
- A pandas MultiIndex intersection `&` is modelled as the intersection of the key sets.
- `num_nodes` counts an `Int` and a `Float` of equal value as two nodes. pandas may coerce them to one.
- PandasTypes.EdgeSetAssertEqual: edge keys are compared as exact values, so the key `(1, 2)` with `Int` endpoints differs from `(1.0, 2.0)` with `Float` endpoints, and `True` differs from `1`. pandas compares index tuples by Python equality and treats them as one key.
- PandasTypes.EdgeMapAssertEqual: the same exact comparison of edge keys, so an integer-keyed and a float-keyed edge map with equal values fail on the keys.
- PandasTypes.WeightSign: a string column's minimum is not modelled, and a non-empty one is a `WeightTypeError`. Python would raise `TypeError` at `min_val < 0`.
- PandasTypes.EdgeMapAssertEqual: float weights against string weights are reported as `Incomparable` rather than as Python's `TypeError`. `np.isclose` raises that error from the dtypes alone, before any value is read, so the model reports it on empty frames too and never inspects the weight values on that path.
- PandasTypes.EdgeMapAssertEqual: frames are modelled without row labels, as if every frame had the default row index. In pandas, `v1 == v2` on integer, bool or string weights raises `ValueError` when the two Series are not identically labelled. That happens when the first frame's row index is not the default one and the second frame was reindexed, or when no reindex happened and the two row indexes differ. The model does not raise that error and compares the weights key by key.
- PandasTypes.CompareEdgeListsPass: the same. Its "iff" holds for frames with the default row index. With other row labels, pandas raises on non-float weights where the model may pass.
- ModuleDiscovery.RegisterFromModules requires every validated module to be in the universe, because a module object always has a `__name__` and `vars()`. It also requires the universe to be closed: every module bound in a module of the universe is in it. The universe stands for all modules of the process, so a submodule is never skipped for want of a name.
- The roots are scanned with an empty starting seen-set and an empty log. The call creates both fresh, so no other starting state is reachable.
