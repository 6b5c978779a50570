# graph_stability: the perturb-and-assess engine

This project models the core of the `graph_wrapper` class of graph_stability in Dafny.

A wrapper holds two things:
- a target graph with its Laplacian spectrum;
- a working copy, the perturbed graph, that loses one random node or one random edge per step until fewer than two nodes remain.

After every step the wrapper records a snapshot in six parallel lists:
- the spectrum;
- the normalised eigencentrality;
- the bulk index;
- Reduced Spectral Similarity (RSS);
- Irreconcilable Spectral Dissimilarity (ISD);
- Total Spectral Similarity (TSS).

The project has three modules, one per file:

- `GraphModel` (GraphModel.dfy) covers graphs as symmetric adjacency maps `map<int, set<int>>` without self-loops, and the networkx removals on them. It states the NODE and EDGE steps declaratively as `NodeStep` and `EdgeStep`. It has two imperative loops:
  - `RemoveIsolated`, the "drop neighbours left with degree 0" loop, proved equal to the closed form `WithoutIsolated`; together with the networkx removals this gives the declarative steps (`NodeStepByRemovals`, `EdgeStepByRemovals`);
  - `EdgeListOf`, which builds `list(graph.edges())`, proved to list each edge of `EdgeSet(g)` exactly once.
- `SpectralAnalyzer` (SpectralAnalyzer.dfy) covers the spectral measures:
  - sums, and squared norms as the Euclidean norm;
  - the bulk index, as a loop with an early return;
  - RSS and TSS;
  - the eigencentrality fallback and normalisation.
- `GraphWrapperDef` (GraphWrapperDef.dfy) holds the class `GraphWrapper`, plus a pure description of one `apply_perturbation` call: `PerturbationStep`, whose `StepResult` is the outcome, the new graph and the new edge list. In the class, the target (`self.graph`, its spectrum, bulk index, eigencentrality and norm) is `const`. The perturbed graph, the degenerate flag, the edge list and the trace are `var` fields that the methods update. The methods are the source's own:
  - `InitPerturbedGraph`;
  - `ApplyPerturbation`, through `RemoveChosenNode` and `RemoveChosenEdge`;
  - `AssessSimilarity`;
  - `UpdatePerturbedSpectraInfo`;
  - `ApplyPerturbationSequence`, a `while` loop on the degenerate flag.

  `ApplyPerturbation`, `RemoveChosenNode` and `RemoveChosenEdge` are proved equal to `PerturbationStep`, `NodeStep` and `EdgePerturbation`. `AssessSimilarity` is proved to append either the degenerate sentinel or `MeasuredSnapshot` of the spectrum it is given. One pass of the sequence loop (`PerturbOnce`) is proved to take a `PerturbationStep` for some valid random draw and to append the matching entry. `ApplyPerturbationSequence` itself is proved to keep a loop invariant (`SequenceInvariant`) and to satisfy facts about its end state and its number of entries. The invariant `Valid()` holds throughout. It covers:
  - the perturbed graph is well formed on target nodes;
  - every edge-list entry is an ordered pair (u, v) with u < v;
  - a set flag means the graph is degenerate;
  - the trace lists are aligned and every entry is well scored.

  A ghost field `edgeListInSync` records when the edge list mirrors the graph's edge set. It is true after `init_perturbed_graph` and across EDGE steps.

Modelling choices:
- **Foreign code.** The eigen-solver (`nx.laplacian_spectrum`, `nx.eigenvector_centrality_numpy`) is foreign. Spectra and raw centralities are therefore inputs:
  - method parameters for one assessment;
  - functions `spectrumOf` and `centralitiesOf` from graph to sequence for the sequence loop.

  A spectrum is assumed to have one entry per node.
- **Norm.** `numpy.linalg.norm` is a function parameter constrained by `IsEuclideanNorm`: it is non-negative and its square is the sum of squares.
- **Random choices.** `numpy.random.choice` becomes the parameters `nodePick` and `edgePick` of `ApplyPerturbation`, restricted by `requires` to a node of the graph and an index into the list. It becomes `:|` in the sequence loop.

Places where the code differs from what a reader of its comments or documentation might expect (the model follows the code):
- **Bulk index.** `get_bulk_index` returns the 0-based index at which the running sum first strictly exceeds 95% of the total. It does not return that index + 1, and RSS and ISD slice `[:bulk_index]`, so the crossing eigenvalue is excluded. For the two-node path (spectrum `[2, 0]`) the bulk index is 0, so the initial RSS of the target against itself is 0, not 1 (`PathTwoSelfRss`).
- **Initial ISD.** At initialisation `get_isd` uses its default `bulk_index=-1`, that is, all eigenvalues but the last. Since `get_spectrum` sorts in descending order, a Laplacian spectrum ends in 0, and the initial ISD is then 0.
- **ISD arguments.** `get_isd` reads the wrapper's target spectrum and ignores both spectrum arguments.
- **Degenerate sentinel.** For a degenerate graph the trace records:
  - the spectrum `[0]`;
  - the centrality `[0]`;
  - the bulk index as the list `[0]`, not the number 0;
  - RSS 0, ISD 1 and TSS 0.
- **Degenerate check first.** `apply_perturbation` tests for a degenerate graph before it checks the perturbation type, so an invalid type on a degenerate graph returns quietly. `apply_perturbation_sequence` then completes without raising.
- **Stale edge list.** A NODE step does not update the edge list. An EDGE step pops the drawn entry before networkx checks it, so a stale entry is consumed and then raises.
- **Isolated nodes in EDGE mode.** A target with two or more isolated nodes is not degenerate but runs out of edges. In EDGE mode `numpy.random.choice(0)` then raises; this is modelled as `EmptyChoice`.
- **Fallback length.** The eigencentrality fallback for fewer than two edges is `[0.5, 0.5]` whatever the node count.

## Model

| member | source | states |
|---|---|---|
| GraphModel.IsDegenerate | graph_wrapper_def.py:278-279 | `is_degenerate`: a graph is degenerate when it has fewer than two nodes |
| GraphModel.WithoutNode | graph_wrapper_def.py:72 | networkx `remove_node`: the node and every edge incident to it go, every other adjacency is kept |
| GraphModel.WithoutEdge | graph_wrapper_def.py:86 | networkx `remove_edge` on an existing edge: both directions of the edge go, nothing else changes |
| GraphModel.WithoutIsolated | graph_wrapper_def.py:75-77 | the closed form of the clean-up loops at 75-77 and 89-92: exactly the candidates of degree 0 are dropped |
| GraphModel.NodeStep | graph_wrapper_def.py:63-77 | the closed form of the NODE branch: the chosen node goes, so does every neighbour whose only neighbour it was, and every other node loses its edge to the chosen node |
| GraphModel.EdgeStep | graph_wrapper_def.py:79-92 | the closed form of the EDGE branch: the edge goes in both directions, and so does an endpoint whose only neighbour was the other endpoint |
| GraphModel.EdgeListOf | graph_wrapper_def.py:251 | the built list holds every edge of the graph exactly once, each as (u, v) with u < v |
| GraphModel.RemoveIsolated | graph_wrapper_def.py:75-77 | the clean-up loop removes exactly the candidates whose degree is 0 and leaves every other node and its neighbours unchanged |
| GraphModel.NodeStepByRemovals | graph_wrapper_def.py:66-77 | networkx `remove_node` of the chosen node followed by the clean-up of its former neighbours yields the declarative NODE step |
| GraphModel.NodeStepWellFormed | graph_wrapper_def.py:72-77 | a NODE step keeps the graph symmetric and loop-free and never adds a node; the chosen node is gone |
| GraphModel.NodeStepShrinks | graph_wrapper_def.py:72 | a NODE step strictly decreases the node count |
| GraphModel.NodeStepNoIsolated | graph_wrapper_def.py:75-77 | a NODE step on a graph without isolated nodes leaves none |
| GraphModel.NodeStepNodes | graph_wrapper_def.py:72-77 | the chosen node is removed; a former neighbour is removed iff its degree after the removal is 0; every other node keeps its neighbours |
| GraphModel.NodeStepEdges | graph_wrapper_def.py:72-77 | the edges after a NODE step are exactly the edges not incident to the chosen node |
| GraphModel.EdgeStepByRemovals | graph_wrapper_def.py:86-92 | networkx `remove_edge` followed by the clean-up of both endpoints yields the declarative EDGE step |
| GraphModel.EdgeStepWellFormed | graph_wrapper_def.py:86-92 | an EDGE step keeps the graph symmetric and loop-free and never adds a node |
| GraphModel.EdgeStepNoIsolated | graph_wrapper_def.py:89-92 | an EDGE step on a graph without isolated nodes leaves none |
| GraphModel.EdgeStepEdges | graph_wrapper_def.py:86 | an EDGE step removes exactly the chosen edge, so the edge count drops by exactly 1 |
| GraphModel.EdgeStepNodes | graph_wrapper_def.py:89-92 | an endpoint is removed iff its degree after the edge removal is 0; no other node or adjacency changes |
| GraphModel.NoEdgesNoNodes | graph_wrapper_def.py:104-106 | a graph without isolated nodes and without edges is empty |
| GraphModel.DegenerateHasNoEdges | graph_wrapper_def.py:278-279 | a graph with fewer than two nodes has no edge |
| GraphModel.Popped | graph_wrapper_def.py:83 | `list.pop(k)`: the list is one shorter, the entries before `k` keep their index and those after it move down by one, in order |
| GraphModel.PopElements | graph_wrapper_def.py:83 | popping an entry of a duplicate-free list keeps it duplicate-free and removes exactly that entry's value from its set of elements |
| GraphModel.DistinctCard | graph_wrapper_def.py:251 | a duplicate-free list has as many entries as distinct elements |
| SpectralAnalyzer.Sum | graph_wrapper_def.py:167 | numpy `sum` of a vector, as used for the spectral total at 167 and the normalisation at 209 |
| SpectralAnalyzer.Diff | graph_wrapper_def.py:223 | numpy element-wise subtraction of two equal-length vectors |
| SpectralAnalyzer.Divided | graph_wrapper_def.py:209 | numpy division of every entry of a vector by a non-zero scalar, as in `e / sum(e)` |
| SpectralAnalyzer.PrefixSlice | graph_wrapper_def.py:183 | Python slicing `s[:b]`: the result is a prefix of `s`; its length is `b` for `0 <= b <= len` and `len + b` for `-len <= b < 0`; a `b` at or past the end gives the whole of `s`, and a `b` below `-len` gives the empty prefix |
| SpectralAnalyzer.NormZero | graph_wrapper_def.py:224-227 | the Euclidean norm of a vector is 0 iff every entry is 0 |
| SpectralAnalyzer.NormOfPrefix | graph_wrapper_def.py:183-185 | a prefix never has a larger norm than the whole vector |
| SpectralAnalyzer.NormDropZero | graph_wrapper_def.py:183-185 | dropping a trailing 0 leaves the norm unchanged |
| SpectralAnalyzer.GetBulkIndex | graph_wrapper_def.py:166-177 | the result is in [0, len]; every inclusive running sum before it is at most 95% of the total; if it is below len, the running sum through it is strictly above 95%; a positive total always gives a result below len |
| SpectralAnalyzer.BulkIndexUnique | graph_wrapper_def.py:166-177 | the bulk-index characterisation determines a single index, so the characterisation is exact |
| SpectralAnalyzer.PathTwoBulkIndex | graph_wrapper_def.py:171-174 | for the spectrum [2, 0] the bulk index is 0: the crossing element is reported, not the count through it |
| SpectralAnalyzer.GetRss | graph_wrapper_def.py:218-232 | RSS is at most 1; it is 0 when the target prefix has norm 0, in particular for bulk index 0; with a positive target-prefix norm it is exactly 1 iff the two prefixes are equal |
| SpectralAnalyzer.TotalSpectralSimilarity | graph_wrapper_def.py:137 | TSS equals RSS when ISD is 0 and is 0 when ISD is 1; for ISD in [0, 1] it lies between 0 and RSS for non-negative RSS and is at most 1 |
| SpectralAnalyzer.NormalizedSum | graph_wrapper_def.py:209 | dividing a vector by its non-zero sum makes it sum to 1 |
| SpectralAnalyzer.Normalized | graph_wrapper_def.py:207-209 | `e / sum(e)` sums to 1, each entry times the original sum is the original entry, and non-negative input stays non-negative |
| SpectralAnalyzer.FallbackCentralities | graph_wrapper_def.py:202-203 | the fixed centralities `[0.5, 0.5]` used for a graph with fewer than two edges |
| SpectralAnalyzer.FallbackCentralitiesNormalized | graph_wrapper_def.py:202-203 | the fallback [0.5, 0.5] is non-negative, sums to 1 and is unchanged by normalisation |
| SpectralAnalyzer.NormalizedEigencentrality | graph_wrapper_def.py:202-209 | the result sums to 1; with fewer than two edges it is [0.5, 0.5]; otherwise it is the solver's vector scaled by its sum, entry for entry; it is non-negative when its input is |
| GraphWrapperDef.DegenerateSnapshot | graph_wrapper_def.py:114-120 | the sentinel recorded for a degenerate graph: spectrum [0], centrality [0], bulk index as the list [0], RSS 0, ISD 1, TSS 0 |
| GraphWrapperDef.SingleEntry | graph_wrapper_def.py:255-274 | a freshly seeded trace has six aligned lists of length 1 whose entry is the given snapshot |
| GraphWrapperDef.Appended | graph_wrapper_def.py:304-309 | an update appends to all six lists together: aligned, one longer, new last entry, every earlier entry kept |
| GraphWrapperDef.DegenerateSnapshotWellScored | graph_wrapper_def.py:114-120 | the degenerate sentinel is consistently scored (ISD 1, RSS 0, TSS 0 = (1 - ISD) * RSS) |
| GraphWrapperDef.AppendedWellScored | graph_wrapper_def.py:304-309 | appending a consistently scored snapshot keeps every entry of the trace consistently scored |
| GraphWrapperDef.EdgePerturbation | graph_wrapper_def.py:82-92 | the EDGE branch after the draw: the new list is the old one with entry `k` popped, its entries staying ordered pairs; the step completes iff the popped pair is an edge of the graph, and then the edge set loses exactly that pair; otherwise it raises `EdgeNotInGraph` for that pair and the graph is unchanged; the graph stays well formed on a subset of its nodes |
| GraphWrapperDef.PerturbationStep | graph_wrapper_def.py:52-96 | a graph with fewer than two nodes aborts with graph and list unchanged, before the type is checked; otherwise an invalid type raises `InvalidPerturbationType` with graph and list unchanged, NODE gives `NodeStep` of the drawn node with the list untouched, EDGE on an empty list raises `EmptyChoice`, and EDGE otherwise is the EDGE branch for the drawn index; the graph stays well formed with no node added |
| GraphWrapperDef.StepProgress | graph_wrapper_def.py:63-92 | the edge list never grows; a completed NODE step shrinks the node count and leaves the list alone; a completed EDGE step does not grow the graph and its list is the old one with the drawn entry popped |
| GraphWrapperDef.EdgeStepKeepsMirror | graph_wrapper_def.py:82-92 | when the list mirrors the edge set, the drawn entry is an edge, so the step completes and the popped list mirrors the new graph |
| GraphWrapperDef.MirroredListNonEmpty | graph_wrapper_def.py:82 | a non-degenerate graph without isolated nodes has an edge, so a mirroring list has an entry to draw |
| GraphWrapperDef.EdgeStepCountsDown | graph_wrapper_def.py:82-92 | on a mirrored graph without isolated nodes an EDGE step completes, removes exactly one edge, leaves no isolated node, and leaves a degenerate graph only when it is empty |
| GraphWrapperDef.NodeStepKeepsNoIsolated | graph_wrapper_def.py:63-77 | `apply_perturbation` in NODE mode keeps a graph free of isolated nodes |
| GraphWrapperDef.IsolatedPairRaisesInEdgeMode | graph_wrapper_def.py:79-83 | two isolated nodes are not degenerate, yet an EDGE step on them with an empty list raises |
| GraphWrapperDef.PathTwoSelfRss | graph_wrapper_def.py:252 | for the two-node path the target's RSS against itself is 0 because its bulk index is 0 |
| GraphWrapperDef.NoIsolatedNotDegenerate | graph_wrapper_def.py:278-279 | a non-empty graph without isolated nodes has an edge and at least two nodes |
| GraphWrapperDef.GraphWrapper.constructor | graph_wrapper_def.py:42-48 | the target, its bulk index and norm are recorded; the target eigencentrality is what `get_normalized_eigencentrality(TARGET)` returns for the given solver output; the perturbed state is initialised as `init_perturbed_graph` does; the invariant holds |
| GraphWrapperDef.GraphWrapper.ReturnValidGraphChoice | graph_wrapper_def.py:281-287 | fails with `InvalidGraphChoice` iff the choice is neither TARGET nor PERTURBED; otherwise returns the target or the perturbed graph, which is well formed on target nodes |
| GraphWrapperDef.GraphWrapper.GetNormalizedEigencentrality | graph_wrapper_def.py:198-209 | fails iff the graph choice is invalid; otherwise sums to 1, is [0.5, 0.5] for a chosen graph with fewer than two edges, and is the normalised solver vector otherwise |
| GraphWrapperDef.GraphWrapper.GetIsd | graph_wrapper_def.py:179-185 | ISD lies in [0, 1]; it is 0 when the bulk index covers the whole target, 1 at bulk index 0, and 0 at the default index -1 when the last target eigenvalue is 0 |
| GraphWrapperDef.GraphWrapper.IsdIgnoresSpectra | graph_wrapper_def.py:179-185 | ISD depends only on the bulk index, never on the two spectrum arguments |
| GraphWrapperDef.GraphWrapper.InitialSnapshot | graph_wrapper_def.py:252-274 | the seed entry holds the target spectrum, eigencentrality and bulk index; its RSS is 1 when the target prefix has positive norm and 0 otherwise; its ISD is 0 and TSS equals RSS when the last eigenvalue is 0; it is consistently scored |
| GraphWrapperDef.GraphWrapper.MeasuredSnapshot | graph_wrapper_def.py:124-137 | a non-degenerate entry is consistently scored; at bulk index 0 it has RSS 0, ISD 1 and TSS 0; with a positive target-prefix norm RSS is 1 iff the perturbed and target prefixes agree |
| GraphWrapperDef.GraphWrapper.InitPerturbedGraph | graph_wrapper_def.py:247-276 | the perturbed graph is reset to the target, the flag cleared, the edge list filled with each target edge once, and the trace reset to the single seed entry, which depends only on the target |
| GraphWrapperDef.GraphWrapper.RemoveChosenNode | graph_wrapper_def.py:63-77 | the perturbed graph becomes the NODE step of the chosen node; the edge list stays in sync only if no edge was lost |
| GraphWrapperDef.GraphWrapper.RemoveChosenEdge | graph_wrapper_def.py:79-92 | the outcome, graph and list are exactly those of the EDGE branch for the drawn index |
| GraphWrapperDef.GraphWrapper.ApplyPerturbation | graph_wrapper_def.py:52-96 | the outcome, graph and list are exactly those of `PerturbationStep`; the invariant is kept; the edge list stays in sync across EDGE steps and across NODE steps that lose no edge |
| GraphWrapperDef.GraphWrapper.UpdatePerturbedSpectraInfo | graph_wrapper_def.py:295-311 | one entry is appended to each of the six lists |
| GraphWrapperDef.GraphWrapper.AssessSimilarity | graph_wrapper_def.py:110-149 | the flag is set iff the graph is degenerate; exactly one entry is appended and earlier ones kept; a degenerate graph appends the sentinel, otherwise the entry is measured at the perturbed spectrum's bulk index, with the eigencentrality of `get_normalized_eigencentrality(PERTURBED)` |
| GraphWrapperDef.GraphWrapper.PerturbAndAssess | graph_wrapper_def.py:104-106 | one loop pass: the step is exactly `PerturbationStep` for the given draw; a raise leaves the trace and flag alone; otherwise one entry is appended, the sentinel when the graph is now degenerate and else the measured entry of the new graph's spectrum and centralities |
| GraphWrapperDef.GraphWrapper.PerturbOnce | graph_wrapper_def.py:104-106 | a pass keeps the loop invariant; for some valid random draw its step is exactly `PerturbationStep` of the old graph and list; it appends the sentinel or the measured entry of the new graph as `assess_similarity` does, or nothing when it raises; it raises only for an invalid type on a non-degenerate target, or in EDGE mode on a target with isolated nodes; otherwise it sets the flag or strictly decreases node count plus list length |
| GraphWrapperDef.GraphWrapper.FinishedSequence | graph_wrapper_def.py:104 | when the loop exits, the graph is degenerate and the trace ends with the sentinel |
| GraphWrapperDef.GraphWrapper.ApplyPerturbationSequence | graph_wrapper_def.py:98-108 | the loop terminates; the trace keeps the seed entry first; on completion the graph is degenerate and the trace ends with the sentinel; an invalid type raises unless the target is degenerate; NODE mode always completes within at most max(node count, 2) entries; EDGE mode on a target without isolated nodes completes with an empty graph after exactly one entry per target edge |
| GraphWrapperDef.GraphWrapper.TargetNotEmpty | graph_wrapper_def.py:42-45 | a target spectrum with positive norm implies at least one node |

## Left out

- Graph construction in `__init__` (graph_wrapper_def.py:26-31) is left out: the `graph_dict` generator dispatch and `nx.relabel_nodes`. The constructor takes a graph whose nodes are already integers. Edge-list entries are assumed to be (u, v) with u < v, which is what networkx yields for nodes relabelled in insertion order.
- GraphWrapperDef.GraphWrapper.InitPerturbedGraph: the order of `list(graph.edges())` is not modelled. In the source that list is deterministic, so two calls give identical lists; in the model `EdgeListOf` builds the edges in some order, so `InitPerturbedGraph` is idempotent only up to the order of the edge list. Every other property holds for any order.
- The eigen-solver calls `nx.laplacian_spectrum`, `nx.adjacency_spectrum` and `nx.eigenvector_centrality_numpy`, together with `get_spectrum` and `get_matrix`, are left out. They are foreign floating-point code. Their results are inputs to the model, which assumes one spectrum entry per node.
- GraphWrapperDef.GraphWrapper.PerturbAndAssess, PerturbOnce and ApplyPerturbationSequence: the eigen-solver functions are required to give one entry per node and a non-zero centrality sum for every graph with at least two edges, not just for the graphs the loop visits. The model is stronger than the source here.
- `numpy.linalg.norm` is a parameter constrained to be a Euclidean norm, because the square root is not defined in the model.
- Floating-point rounding is not modelled: all arithmetic is on exact reals.
- GraphWrapperDef.GraphWrapper.constructor: a target spectrum with norm 0 makes `get_isd` divide by zero (numpy gives NaN), and a zero centrality sum makes the normalisation divide by zero. Both are excluded by `requires`, and their NaN results are not modelled.
- SpectralAnalyzer.GetRss: with prefixes of different lengths numpy either raises a broadcasting error or, when one prefix has length 1, broadcasts and returns a number. The model requires equal lengths instead. Both call sites (graph_wrapper_def.py:131 and :252) pass equal-length prefixes, since a perturbed graph never has more nodes than the target and the bulk index is at most the perturbed length.
- The randomness of `numpy.random.choice` is left out. Choices are parameters or arbitrary valid picks, and the properties hold for every choice.
- `calc_normalized_entropy`, `calc_KL_divergence_from_uniformity` and `get_normalized_entropy` are left out: they are `log2` floating-point numerics outside the engine.
- `set_layout`, `visualize`, the `degree_sequence` colour-map bounds and the `print` on abort are left out: they are plotting and console output. The abort is modelled as the `Aborted` outcome, without a message.
- The text of the raised exception messages is not modelled; errors carry only the offending value.
- GraphWrapperDef.GraphWrapper.ApplyPerturbationSequence: the link between each trace entry and the graph it was measured on is stated pass by pass (`PerturbOnce`), not collected into one contract over the whole run.
