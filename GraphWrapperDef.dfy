/** The `graph_wrapper` class: a target graph with its Laplacian spectrum,
    a perturbed copy that loses one node or one edge per step, and the trace
    of spectral-similarity measures recorded after every step. */
module GraphWrapperDef {
  import opened GraphModel
  import opened SpectralAnalyzer

  /** The perturbation kinds the wrapper accepts; any other value is kept so
      that the raised message can name it. */
  datatype PerturbationType = Node | Edge | OtherPerturbation(name: string)

  /** The graph selectors the wrapper accepts. */
  datatype GraphChoice = Target | Perturbed | OtherChoice(name: string)

  /** The exceptions the modelled operations raise. */
  datatype Error =
    | InvalidPerturbationType(perturbation: string)  // raised by apply_perturbation
    | InvalidGraphChoice(choice: string)             // raised by return_valid_graph_choice
    | EmptyChoice                                    // numpy `choice(0)` on an empty edge list
    | EdgeNotInGraph(u: int, v: int)                 // networkx `remove_edge` on a missing edge

  datatype Result<T> = Success(value: T) | Failure(error: Error)

  /** How a call ended: normally, by the degenerate-graph early return, or by
      an exception. */
  datatype Outcome = Done | Aborted | Raised(error: Error)

  /** A bulk-index entry of the trace: an index, or the list `[0]` that the
      degenerate sentinel stores. */
  datatype BulkEntry = BulkIndex(index: nat) | BulkList(items: seq<int>)

  /** One step's worth of the six trace lists. */
  datatype Snapshot = Snapshot(spectrum: seq<real>, centrality: seq<real>, bulk: BulkEntry,
                               rss: real, isd: real, tss: real)

  /** `perturbed_spectra_info`: six parallel lists keyed by measure. */
  datatype SpectraInfo = SpectraInfo(spectra: seq<seq<real>>, centralities: seq<seq<real>>,
                                     bulkIndices: seq<BulkEntry>, rss: seq<real>,
                                     isd: seq<real>, tss: seq<real>)

  predicate Aligned(info: SpectraInfo) {
    var n := |info.spectra|;
    |info.centralities| == n && |info.bulkIndices| == n &&
    |info.rss| == n && |info.isd| == n && |info.tss| == n
  }

  /** The number of recorded steps. */
  function Size(info: SpectraInfo): nat {
    |info.spectra|
  }

  /** The `i`-th entry of every list. */
  function Entry(info: SpectraInfo, i: nat): Snapshot
    requires Aligned(info) && i < Size(info)
  {
    Snapshot(info.spectra[i], info.centralities[i], info.bulkIndices[i],
             info.rss[i], info.isd[i], info.tss[i])
  }

  /** The trace holding one entry. */
  function SingleEntry(s: Snapshot): (r: SpectraInfo)
    ensures Aligned(r) && Size(r) == 1 && Entry(r, 0) == s
  {
    SpectraInfo([s.spectrum], [s.centrality], [s.bulk], [s.rss], [s.isd], [s.tss])
  }

  /** `update_perturbed_spectra_info`: one append to each of the six lists. */
  function Appended(info: SpectraInfo, s: Snapshot): (r: SpectraInfo)
    requires Aligned(info)
    ensures Aligned(r) && Size(r) == Size(info) + 1
    ensures Entry(r, Size(info)) == s
    ensures forall i :: 0 <= i < Size(info) ==> Entry(r, i) == Entry(info, i)
  {
    SpectraInfo(info.spectra + [s.spectrum], info.centralities + [s.centrality],
                info.bulkIndices + [s.bulk], info.rss + [s.rss], info.isd + [s.isd],
                info.tss + [s.tss])
  }

  /** What `assess_similarity` records for a degenerate graph. */
  const DegenerateSnapshot: Snapshot := Snapshot([0.0], [0.0], BulkList([0]), 0.0, 1.0, 0.0)

  /** The trace's last entry is the degenerate one. */
  predicate EndsDegenerate(info: SpectraInfo)
    requires Aligned(info)
  {
    Size(info) >= 2 && Entry(info, Size(info) - 1) == DegenerateSnapshot
  }

  /** The scores of an entry are mutually consistent: ISD in [0, 1], RSS at
      most 1, and TSS = (1 - ISD) * RSS. */
  predicate WellScored(s: Snapshot) {
    0.0 <= s.isd <= 1.0 && s.rss <= 1.0 && s.tss == TotalSpectralSimilarity(s.isd, s.rss)
  }

  predicate AllWellScored(info: SpectraInfo)
    requires Aligned(info)
  {
    forall i :: 0 <= i < Size(info) ==> WellScored(Entry(info, i))
  }

  lemma DegenerateSnapshotWellScored()
    ensures WellScored(DegenerateSnapshot)
    ensures DegenerateSnapshot.tss == 0.0
  {
  }

  /** Appending a consistent entry keeps the whole trace consistent. */
  lemma AppendedWellScored(info: SpectraInfo, s: Snapshot)
    requires Aligned(info) && AllWellScored(info) && WellScored(s)
    ensures AllWellScored(Appended(info, s))
  {
    var r := Appended(info, s);
    forall i | 0 <= i < Size(r) ensures WellScored(Entry(r, i)) {
      if i < Size(info) {
        assert Entry(r, i) == Entry(info, i);
      }
    }
  }

  /** What one `apply_perturbation` call leaves behind. */
  datatype StepResult = StepResult(outcome: Outcome, graph: Graph, edgeList: seq<Edge>)

  /** Every entry of an edge list is an ordered pair. */
  predicate OrderedEntries(list: seq<Edge>) {
    forall i :: 0 <= i < |list| ==> list[i].0 < list[i].1
  }

  /** The edge list mirrors the graph: each edge once. */
  ghost predicate Mirrors(list: seq<Edge>, g: Graph) {
    NoDuplicates(list) && Elements(list) == EdgeSet(g)
  }

  /** The EDGE branch of `apply_perturbation` once index `k` is drawn: the
      entry is popped whether or not its edge is still in the graph. */
  function EdgePerturbation(g: Graph, list: seq<Edge>, k: nat): (r: StepResult)
    requires WellFormed(g) && k < |list|
    ensures WellFormed(r.graph) && r.graph.Keys <= g.Keys
    ensures r.outcome != Done ==> r.graph == g
    ensures r.edgeList == Popped(list, k) && |r.edgeList| == |list| - 1
    ensures OrderedEntries(list) ==> OrderedEntries(r.edgeList)
    ensures r.outcome == Done <==> IsEdge(g, list[k].0, list[k].1)
    ensures r.outcome != Done ==> r.outcome == Raised(EdgeNotInGraph(list[k].0, list[k].1))
    ensures OrderedEntries(list) && r.outcome == Done ==> EdgeSet(r.graph) == EdgeSet(g) - {list[k]}
  {
    var e := list[k];
    var rest := Popped(list, k);
    if IsEdge(g, e.0, e.1) then
      EdgeStepWellFormed(g, e.0, e.1);
      assert OrderedEntries(list) ==> EdgeSet(EdgeStep(g, e.0, e.1)) == EdgeSet(g) - {e} by {
        if OrderedEntries(list) {
          EdgeStepEdges(g, e.0, e.1);
        }
      }
      StepResult(Done, EdgeStep(g, e.0, e.1), rest)
    else StepResult(Raised(EdgeNotInGraph(e.0, e.1)), g, rest)
  }

  /** `apply_perturbation` on the perturbed graph `g` and edge list `list`,
      given the random node and edge-index choices. */
  function PerturbationStep(kind: PerturbationType, g: Graph, list: seq<Edge>,
                            nodePick: int, edgePick: nat): (r: StepResult)
    requires WellFormed(g)
    requires kind == Node && !IsDegenerate(g) ==> nodePick in g
    requires kind == Edge && !IsDegenerate(g) && |list| > 0 ==> edgePick < |list|
    ensures WellFormed(r.graph) && r.graph.Keys <= g.Keys
    ensures r.outcome == Aborted <==> IsDegenerate(g)
    ensures r.outcome != Done ==> r.graph == g
    ensures IsDegenerate(g) ==> r == StepResult(Aborted, g, list)
    ensures !IsDegenerate(g) && kind.OtherPerturbation? ==>
      r == StepResult(Raised(InvalidPerturbationType(kind.name)), g, list)
    ensures !IsDegenerate(g) && kind == Node ==> r == StepResult(Done, NodeStep(g, nodePick), list)
    ensures !IsDegenerate(g) && kind == Edge && |list| == 0 ==> r == StepResult(Raised(EmptyChoice), g, list)
    ensures !IsDegenerate(g) && kind == Edge && |list| > 0 ==> r == EdgePerturbation(g, list, edgePick)
  {
    if IsDegenerate(g) then StepResult(Aborted, g, list)
    else match kind
      case OtherPerturbation(name) => StepResult(Raised(InvalidPerturbationType(name)), g, list)
      case Node =>
        NodeStepWellFormed(g, nodePick);
        StepResult(Done, NodeStep(g, nodePick), list)
      case Edge =>
        if |list| == 0 then StepResult(Raised(EmptyChoice), g, list)
        else EdgePerturbation(g, list, edgePick)
  }

  /** Every completed step shrinks the graph or the edge list, which is what
      makes the perturbation loop terminate. */
  lemma StepProgress(kind: PerturbationType, g: Graph, list: seq<Edge>, nodePick: int, edgePick: nat)
    requires WellFormed(g)
    requires kind == Node && !IsDegenerate(g) ==> nodePick in g
    requires kind == Edge && !IsDegenerate(g) && |list| > 0 ==> edgePick < |list|
    ensures var r := PerturbationStep(kind, g, list, nodePick, edgePick);
      && |r.edgeList| <= |list|
      && (r.outcome == Done && kind == Node ==> |r.graph| < |g| && r.edgeList == list)
      && (r.outcome == Done && kind == Edge ==> |r.graph| <= |g| && r.edgeList == Popped(list, edgePick))
  {
    var r := PerturbationStep(kind, g, list, nodePick, edgePick);
    if r.outcome == Done {
      SubsetCard(r.graph.Keys, g.Keys);
      if kind == Node {
        NodeStepShrinks(g, nodePick);
      }
    }
  }

  /** A drawn entry of a mirrored list is an edge of the graph, so the EDGE
      step completes, and the popped list still mirrors the new graph. */
  lemma EdgeStepKeepsMirror(g: Graph, list: seq<Edge>, k: nat)
    requires WellFormed(g) && Mirrors(list, g) && OrderedEntries(list) && k < |list|
    ensures var r := EdgePerturbation(g, list, k);
      r.outcome == Done && Mirrors(r.edgeList, r.graph)
  {
    var e := list[k];
    PopElements(list, k);
    assert e in Elements(list);
    EdgeSetMember(g, e.0, e.1);
    EdgeStepEdges(g, e.0, e.1);
  }

  /** A non-degenerate graph without isolated nodes has an edge, so a list
      mirroring it is not empty. */
  lemma MirroredListNonEmpty(g: Graph, list: seq<Edge>)
    requires WellFormed(g) && NoIsolated(g) && Mirrors(list, g) && !IsDegenerate(g)
    ensures |list| > 0
  {
    NoIsolatedNotDegenerate(g);
  }

  /** On a graph without isolated nodes with its edge list mirrored, an EDGE
      step removes exactly one edge and leaves no isolated node; the graph
      becomes degenerate only once it is empty. */
  lemma EdgeStepCountsDown(g: Graph, list: seq<Edge>, k: nat)
    requires WellFormed(g) && NoIsolated(g) && Mirrors(list, g) && OrderedEntries(list) && k < |list|
    ensures var r := EdgePerturbation(g, list, k);
      && r.outcome == Done
      && NoIsolated(r.graph)
      && |EdgeSet(r.graph)| == |EdgeSet(g)| - 1
      && (IsDegenerate(r.graph) ==> r.graph == map[])
  {
    var e := list[k];
    assert e in Elements(list);
    EdgeSetMember(g, e.0, e.1);
    EdgeStepEdges(g, e.0, e.1);
    EdgeStepNoIsolated(g, e.0, e.1);
    EdgeStepWellFormed(g, e.0, e.1);
    var h := EdgeStep(g, e.0, e.1);
    if IsDegenerate(h) {
      DegenerateHasNoEdges(h);
      NoEdgesNoNodes(h);
    }
  }

  /** A NODE step keeps a graph free of isolated nodes. */
  lemma NodeStepKeepsNoIsolated(g: Graph, list: seq<Edge>, nodePick: int)
    requires WellFormed(g) && NoIsolated(g)
    requires !IsDegenerate(g) ==> nodePick in g
    ensures NoIsolated(PerturbationStep(Node, g, list, nodePick, 0).graph)
  {
    if !IsDegenerate(g) {
      NodeStepNoIsolated(g, nodePick);
    }
  }

  const IsolatedPair: Graph := map[0 := {}, 1 := {}]

  /** Two isolated nodes are not degenerate but have no edge to draw, so an
      EDGE step raises. */
  lemma IsolatedPairRaisesInEdgeMode()
    ensures WellFormed(IsolatedPair) && !IsDegenerate(IsolatedPair)
    ensures PerturbationStep(Edge, IsolatedPair, [], 0, 0).outcome == Raised(EmptyChoice)
  {
    assert IsolatedPair.Keys == {0, 1};
  }

  /** The two-node path has Laplacian spectrum [2, 0] (sorted descending):
      its bulk index is 0, so comparing it with itself gives RSS 0, not 1. */
  lemma PathTwoSelfRss(norm: seq<real> -> real)
    requires IsEuclideanNorm(norm)
    ensures IsBulkIndex([2.0, 0.0], 0)
    ensures GetRss([2.0, 0.0], [2.0, 0.0], 0, norm) == 0.0
  {
    PathTwoBulkIndex();
  }

  /** A non-empty graph without isolated nodes has an edge and at least two nodes. */
  lemma NoIsolatedNotDegenerate(g: Graph)
    requires WellFormed(g) && NoIsolated(g) && |g| > 0
    ensures EdgeSet(g) != {} && !IsDegenerate(g)
  {
    if EdgeSet(g) == {} {
      NoEdgesNoNodes(g);
    }
    if IsDegenerate(g) {
      DegenerateHasNoEdges(g);
    }
  }

  class GraphWrapper {
    /** The target graph `self.graph`. */
    const graph: Graph
    /** Its Laplacian spectrum, as the eigen-solver returned it. */
    const targetSpectrum: seq<real>
    const targetBulkIndex: nat
    const targetEigencentrality: seq<real>
    const targetSpectrumNorm: real
    /** numpy's vector norm. */
    const norm: seq<real> -> real

    var perturbedGraph: Graph
    var perturbedGraphIsDegenerate: bool
    var perturbedEdgeList: seq<Edge>
    var perturbedSpectraInfo: SpectraInfo
    /** The edge list holds exactly the perturbed graph's edges. True after
        `init_perturbed_graph` and across EDGE steps; a NODE step that removes
        an edge leaves the list stale. */
    ghost var edgeListInSync: bool

    /** What the constructor establishes about the target. */
    ghost predicate TargetValid() {
      && WellFormed(graph)
      && |targetSpectrum| == |graph|
      && IsEuclideanNorm(norm)
      && targetSpectrumNorm == norm(targetSpectrum)
      && targetSpectrumNorm > 0.0
      && IsBulkIndex(targetSpectrum, targetBulkIndex)
    }

    /** The perturbed graph is a subgraph-shaped graph on target nodes. */
    ghost predicate GraphValid()
      reads this`perturbedGraph
    {
      WellFormed(perturbedGraph) && perturbedGraph.Keys <= graph.Keys
    }

    /** Edge-list entries are ordered pairs; in sync, they are the edges. */
    ghost predicate EdgeListValid()
      reads this`perturbedGraph, this`perturbedEdgeList, this`edgeListInSync
    {
      && OrderedEntries(perturbedEdgeList)
      && (edgeListInSync ==> Mirrors(perturbedEdgeList, perturbedGraph))
    }

    /** The trace is non-empty, aligned and consistently scored. */
    ghost predicate TraceValid()
      reads this`perturbedSpectraInfo
    {
      Aligned(perturbedSpectraInfo) && Size(perturbedSpectraInfo) >= 1 && AllWellScored(perturbedSpectraInfo)
    }

    ghost predicate Valid()
      reads this
    {
      && TargetValid()
      && GraphValid()
      && EdgeListValid()
      && (perturbedGraphIsDegenerate ==> IsDegenerate(perturbedGraph))
      && TraceValid()
    }

    /** `__init__` after the graph has been built: the spectrum and raw
        centralities of `g` come from the eigen-solver. */
    constructor (g: Graph, spectrum: seq<real>, centralities: seq<real>, euclideanNorm: seq<real> -> real)
      requires WellFormed(g) && |spectrum| == |g|
      requires IsEuclideanNorm(euclideanNorm) && euclideanNorm(spectrum) > 0.0
      requires |EdgeSet(g)| >= 2 ==> Sum(centralities) != 0.0
      ensures Valid()
      ensures graph == g && targetSpectrum == spectrum && norm == euclideanNorm
      ensures IsBulkIndex(spectrum, targetBulkIndex)
      ensures targetEigencentrality == NormalizedEigencentrality(|EdgeSet(g)|, centralities)
      ensures GetNormalizedEigencentrality(Target, centralities) == Success(targetEigencentrality)
      ensures targetSpectrumNorm == euclideanNorm(spectrum)
      ensures perturbedGraph == g && !perturbedGraphIsDegenerate && edgeListInSync
      ensures perturbedSpectraInfo == SingleEntry(InitialSnapshot())
    {
      graph := g;
      targetSpectrum := spectrum;
      var b := GetBulkIndex(spectrum);
      targetBulkIndex := b;
      targetEigencentrality := NormalizedEigencentrality(|EdgeSet(g)|, centralities);
      targetSpectrumNorm := euclideanNorm(spectrum);
      norm := euclideanNorm;
      new;
      InitPerturbedGraph();
    }

    /** `return_valid_graph_choice`. */
    function ReturnValidGraphChoice(choice: GraphChoice): (r: Result<Graph>)
      reads this
      ensures r.Failure? <==> choice.OtherChoice?
      ensures r.Failure? ==> r.error == InvalidGraphChoice(choice.name)
      ensures r.Success? ==> r.value == (if choice == Target then graph else perturbedGraph)
      ensures Valid() && r.Success? ==> WellFormed(r.value) && r.value.Keys <= graph.Keys
    {
      match choice
      case Target => Success(graph)
      case Perturbed => Success(perturbedGraph)
      case OtherChoice(name) => Failure(InvalidGraphChoice(name))
    }

    /** `get_normalized_eigencentrality`: `raw` is what the eigen-solver
        returns for the chosen graph; it is used only when that graph has at
        least two edges. */
    function GetNormalizedEigencentrality(choice: GraphChoice, raw: seq<real>): (r: Result<seq<real>>)
      reads this
      requires (ReturnValidGraphChoice(choice).Success? &&
                |EdgeSet(ReturnValidGraphChoice(choice).value)| >= 2) ==> Sum(raw) != 0.0
      ensures r.Failure? <==> choice.OtherChoice?
      ensures r.Failure? ==> r.error == InvalidGraphChoice(choice.name)
      ensures r.Success? ==> Sum(r.value) == 1.0
      ensures r.Success? && |EdgeSet(ReturnValidGraphChoice(choice).value)| < 2 ==> r.value == [0.5, 0.5]
      ensures r.Success? ==>
        r.value == NormalizedEigencentrality(|EdgeSet(ReturnValidGraphChoice(choice).value)|, raw)
    {
      var chosen := ReturnValidGraphChoice(choice);
      if chosen.Failure? then Failure(chosen.error)
      else Success(NormalizedEigencentrality(|EdgeSet(chosen.value)|, raw))
    }

    /** `get_isd`: 1 - |T[:b]| / |T| on the TARGET spectrum held by the
        wrapper; both spectrum arguments are ignored. */
    function GetIsd(perturbedSpectrum: seq<real>, givenTarget: seq<real>, bulkIndex: int): (isd: real)
      requires TargetValid()
      ensures 0.0 <= isd <= 1.0
      ensures bulkIndex >= |targetSpectrum| ==> isd == 0.0
      ensures bulkIndex == 0 ==> isd == 1.0
      ensures bulkIndex == -1 && |targetSpectrum| > 0 && targetSpectrum[|targetSpectrum| - 1] == 0.0 ==> isd == 0.0
    {
      var remaining := PrefixSlice(targetSpectrum, bulkIndex);
      NormOfPrefix(norm, targetSpectrum, |remaining|);
      RatioBounds(norm(remaining), targetSpectrumNorm);
      NormZero(norm, []);
      DivSelf(targetSpectrumNorm);
      assert bulkIndex >= |targetSpectrum| ==> remaining == targetSpectrum;
      assert bulkIndex == 0 ==> remaining == [];
      assert bulkIndex == -1 && |targetSpectrum| > 0 && targetSpectrum[|targetSpectrum| - 1] == 0.0 ==>
        norm(remaining) == targetSpectrumNorm by {
        if bulkIndex == -1 && |targetSpectrum| > 0 && targetSpectrum[|targetSpectrum| - 1] == 0.0 {
          NormDropZero(norm, targetSpectrum);
        }
      }
      1.0 - norm(remaining) / targetSpectrumNorm
    }

    /** `get_isd` reads neither spectrum argument. */
    lemma IsdIgnoresSpectra(p1: seq<real>, t1: seq<real>, p2: seq<real>, t2: seq<real>, bulkIndex: int)
      requires TargetValid()
      ensures GetIsd(p1, t1, bulkIndex) == GetIsd(p2, t2, bulkIndex)
    {
    }

    /** The spectra-info entry `init_perturbed_graph` starts the trace with. */
    function InitialSnapshot(): (s: Snapshot)
      requires TargetValid()
      ensures s.spectrum == targetSpectrum && s.centrality == targetEigencentrality
      ensures s.bulk == BulkIndex(targetBulkIndex)
      ensures WellScored(s)
      ensures s.rss == (if norm(PrefixSlice(targetSpectrum, targetBulkIndex)) > 0.0 then 1.0 else 0.0)
      ensures |targetSpectrum| > 0 && targetSpectrum[|targetSpectrum| - 1] == 0.0 ==> s.isd == 0.0 && s.tss == s.rss
    {
      var rss := GetRss(targetSpectrum, targetSpectrum, targetBulkIndex, norm);
      var isd := GetIsd(targetSpectrum, targetSpectrum, -1);
      Snapshot(targetSpectrum, targetEigencentrality, BulkIndex(targetBulkIndex),
               rss, isd, TotalSpectralSimilarity(isd, rss))
    }

    /** What `assess_similarity` records for a non-degenerate perturbed graph
        whose spectrum has bulk index `bulk`. */
    function MeasuredSnapshot(perturbedSpectrum: seq<real>, bulk: nat, eigencentrality: seq<real>): (s: Snapshot)
      requires TargetValid() && bulk <= |perturbedSpectrum| <= |targetSpectrum|
      ensures s.spectrum == perturbedSpectrum && s.centrality == eigencentrality
      ensures s.bulk == BulkIndex(bulk)
      ensures WellScored(s)
      ensures bulk == 0 ==> s.rss == 0.0 && s.isd == 1.0 && s.tss == 0.0
      ensures norm(targetSpectrum[..bulk]) > 0.0 ==>
        (s.rss == 1.0 <==> perturbedSpectrum[..bulk] == targetSpectrum[..bulk])
    {
      var rss := GetRss(perturbedSpectrum, targetSpectrum, bulk, norm);
      var isd := GetIsd(perturbedSpectrum, targetSpectrum, bulk);
      Snapshot(perturbedSpectrum, eigencentrality, BulkIndex(bulk), rss, isd,
               TotalSpectralSimilarity(isd, rss))
    }

    /** `init_perturbed_graph`: the perturbed state is rebuilt from the target
        alone, so calling it twice leaves the same state (up to the order of
        the edge list). */
    method InitPerturbedGraph()
      requires TargetValid()
      modifies this
      ensures Valid()
      ensures perturbedGraph == graph && !perturbedGraphIsDegenerate && edgeListInSync
      ensures Elements(perturbedEdgeList) == EdgeSet(graph) && |perturbedEdgeList| == |EdgeSet(graph)|
      ensures perturbedSpectraInfo == SingleEntry(InitialSnapshot())
    {
      perturbedGraph := graph;
      perturbedGraphIsDegenerate := false;
      var es := EdgeListOf(graph);
      perturbedEdgeList := es;
      DistinctCard(es);
      edgeListInSync := true;
      perturbedSpectraInfo := SingleEntry(InitialSnapshot());
    }

    /** The NODE branch of `apply_perturbation`: remove `x`, then those of
        its neighbours left isolated. */
    method RemoveChosenNode(x: int)
      requires Valid() && x in perturbedGraph
      modifies this`perturbedGraph, this`edgeListInSync
      ensures Valid()
      ensures perturbedGraph == NodeStep(old(perturbedGraph), x)
      ensures edgeListInSync == (old(edgeListInSync) && EdgeSet(perturbedGraph) == old(EdgeSet(perturbedGraph)))
    {
      var g := perturbedGraph;
      var neighbours := g[x];
      NodeStepByRemovals(g, x);
      NodeStepWellFormed(g, x);
      NodeStepShrinks(g, x);
      var r := RemoveIsolated(WithoutNode(g, x), neighbours);
      perturbedGraph := r;
      edgeListInSync := edgeListInSync && EdgeSet(r) == EdgeSet(g);
    }

    /** The EDGE branch of `apply_perturbation` once an index is drawn: pop
        entry `k` of the edge list, remove that edge, then those of its
        endpoints left isolated. A stale entry makes networkx raise after the
        pop. */
    method RemoveChosenEdge(k: nat) returns (outcome: Outcome)
      requires Valid() && !IsDegenerate(perturbedGraph) && k < |perturbedEdgeList|
      modifies this`perturbedGraph, this`perturbedEdgeList
      ensures Valid()
      ensures StepResult(outcome, perturbedGraph, perturbedEdgeList) ==
              EdgePerturbation(old(perturbedGraph), old(perturbedEdgeList), k)
    {
      var g := perturbedGraph;
      var list := perturbedEdgeList;
      ghost var expected := EdgePerturbation(g, list, k);
      assert OrderedEntries(expected.edgeList);
      var e := list[k];
      if edgeListInSync {
        EdgeStepKeepsMirror(g, list, k);
      }
      perturbedEdgeList := Popped(list, k);
      if !IsEdge(g, e.0, e.1) {
        return Raised(EdgeNotInGraph(e.0, e.1));
      }
      EdgeStepByRemovals(g, e.0, e.1);
      var r := RemoveIsolated(WithoutEdge(g, e.0, e.1), {e.0, e.1});
      assert r == expected.graph;
      perturbedGraph := r;
      return Done;
    }

    /** `apply_perturbation`. `nodePick` and `edgePick` are the random
        choices: a node of the perturbed graph, an index into the edge list.
        A NODE step that removes an edge leaves the edge list stale. */
    method ApplyPerturbation(kind: PerturbationType, nodePick: int, edgePick: nat) returns (outcome: Outcome)
      requires Valid()
      requires kind == Node && !IsDegenerate(perturbedGraph) ==> nodePick in perturbedGraph
      requires kind == Edge && !IsDegenerate(perturbedGraph) && |perturbedEdgeList| > 0 ==>
        edgePick < |perturbedEdgeList|
      modifies this`perturbedGraph, this`perturbedEdgeList, this`edgeListInSync
      ensures Valid()
      ensures StepResult(outcome, perturbedGraph, perturbedEdgeList) ==
              PerturbationStep(kind, old(perturbedGraph), old(perturbedEdgeList), nodePick, edgePick)
      ensures edgeListInSync ==
              (old(edgeListInSync) && (kind == Node ==> EdgeSet(perturbedGraph) == old(EdgeSet(perturbedGraph))))
    {
      if IsDegenerate(perturbedGraph) {
        return Aborted;
      }
      match kind {
        case OtherPerturbation(name) =>
          return Raised(InvalidPerturbationType(name));
        case Node =>
          RemoveChosenNode(nodePick);
          return Done;
        case Edge =>
          if |perturbedEdgeList| == 0 {
            return Raised(EmptyChoice);
          }
          outcome := RemoveChosenEdge(edgePick);
      }
    }

    /** `update_perturbed_spectra_info`. */
    method UpdatePerturbedSpectraInfo(s: Snapshot)
      requires Aligned(perturbedSpectraInfo)
      modifies this`perturbedSpectraInfo
      ensures perturbedSpectraInfo == Appended(old(perturbedSpectraInfo), s)
    {
      perturbedSpectraInfo := Appended(perturbedSpectraInfo, s);
    }

    /** `assess_similarity`: `perturbedSpectrum` and `centralities` are what
        the eigen-solver returns for the perturbed graph; they are not used
        when the graph is degenerate. */
    method AssessSimilarity(perturbedSpectrum: seq<real>, centralities: seq<real>)
      requires Valid()
      requires !IsDegenerate(perturbedGraph) ==> |perturbedSpectrum| == |perturbedGraph|
      requires !IsDegenerate(perturbedGraph) && |EdgeSet(perturbedGraph)| >= 2 ==> Sum(centralities) != 0.0
      modifies this`perturbedGraphIsDegenerate, this`perturbedSpectraInfo
      ensures Valid()
      ensures perturbedGraphIsDegenerate == IsDegenerate(perturbedGraph)
      ensures Size(perturbedSpectraInfo) == Size(old(perturbedSpectraInfo)) + 1
      ensures forall i :: 0 <= i < Size(old(perturbedSpectraInfo)) ==>
        Entry(perturbedSpectraInfo, i) == Entry(old(perturbedSpectraInfo), i)
      ensures perturbedGraphIsDegenerate ==>
        perturbedSpectraInfo == Appended(old(perturbedSpectraInfo), DegenerateSnapshot)
      ensures !perturbedGraphIsDegenerate ==>
        exists bulk: nat ::
          && IsBulkIndex(perturbedSpectrum, bulk)
          && bulk <= |perturbedSpectrum| <= |targetSpectrum|
          && perturbedSpectraInfo == Appended(old(perturbedSpectraInfo),
               MeasuredSnapshot(perturbedSpectrum, bulk,
                                NormalizedEigencentrality(|EdgeSet(perturbedGraph)|, centralities)))
    {
      perturbedGraphIsDegenerate := IsDegenerate(perturbedGraph);
      var s: Snapshot;
      if perturbedGraphIsDegenerate {
        s := DegenerateSnapshot;
        DegenerateSnapshotWellScored();
      } else {
        var bulk := GetBulkIndex(perturbedSpectrum);
        SubsetCard(perturbedGraph.Keys, graph.Keys);
        var e := GetNormalizedEigencentrality(Perturbed, centralities).value;
        s := MeasuredSnapshot(perturbedSpectrum, bulk, e);
      }
      AppendedWellScored(perturbedSpectraInfo, s);
      UpdatePerturbedSpectraInfo(s);
    }

    /** One pass of the body of the loop in `apply_perturbation_sequence`:
        `apply_perturbation` with the given random choices, then
        `assess_similarity` unless the step raised. */
    method PerturbAndAssess(kind: PerturbationType, nodePick: int, edgePick: nat,
                            spectrumOf: Graph -> seq<real>, centralitiesOf: Graph -> seq<real>)
      returns (step: Outcome)
      requires Valid()
      requires kind == Node && !IsDegenerate(perturbedGraph) ==> nodePick in perturbedGraph
      requires kind == Edge && !IsDegenerate(perturbedGraph) && |perturbedEdgeList| > 0 ==>
        edgePick < |perturbedEdgeList|
      requires forall g :: |spectrumOf(g)| == |g|
      requires forall g {:trigger centralitiesOf(g)} :: |EdgeSet(g)| >= 2 ==> Sum(centralitiesOf(g)) != 0.0
      modifies this
      ensures Valid()
      ensures StepResult(step, perturbedGraph, perturbedEdgeList) ==
              PerturbationStep(kind, old(perturbedGraph), old(perturbedEdgeList), nodePick, edgePick)
      ensures edgeListInSync ==
              (old(edgeListInSync) && (kind == Node ==> EdgeSet(perturbedGraph) == old(EdgeSet(perturbedGraph))))
      ensures step.Raised? ==>
        perturbedSpectraInfo == old(perturbedSpectraInfo) &&
        perturbedGraphIsDegenerate == old(perturbedGraphIsDegenerate)
      ensures !step.Raised? ==>
        && perturbedGraphIsDegenerate == IsDegenerate(perturbedGraph)
        && Size(perturbedSpectraInfo) == Size(old(perturbedSpectraInfo)) + 1
        && (forall i :: 0 <= i < Size(old(perturbedSpectraInfo)) ==>
              Entry(perturbedSpectraInfo, i) == Entry(old(perturbedSpectraInfo), i))
        && (perturbedGraphIsDegenerate ==> EndsDegenerate(perturbedSpectraInfo))
      ensures !step.Raised? && perturbedGraphIsDegenerate ==>
        perturbedSpectraInfo == Appended(old(perturbedSpectraInfo), DegenerateSnapshot)
      ensures !step.Raised? && !perturbedGraphIsDegenerate ==>
        exists bulk: nat ::
          && IsBulkIndex(spectrumOf(perturbedGraph), bulk)
          && bulk <= |spectrumOf(perturbedGraph)| <= |targetSpectrum|
          && perturbedSpectraInfo == Appended(old(perturbedSpectraInfo),
               MeasuredSnapshot(spectrumOf(perturbedGraph), bulk,
                                NormalizedEigencentrality(|EdgeSet(perturbedGraph)|, centralitiesOf(perturbedGraph))))
    {
      step := ApplyPerturbation(kind, nodePick, edgePick);
      if step.Raised? {
        return;
      }
      SubsetCard(perturbedGraph.Keys, graph.Keys);
      AssessSimilarity(spectrumOf(perturbedGraph), centralitiesOf(perturbedGraph));
    }

    /** What holds between two passes of the loop in
        `apply_perturbation_sequence`; `edges` is the target's edge count. */
    ghost predicate SequenceInvariant(kind: PerturbationType, edges: nat)
      reads this
    {
      && Valid()
      && Entry(perturbedSpectraInfo, 0) == InitialSnapshot()
      && (Size(perturbedSpectraInfo) == 1 ==> perturbedGraph == graph)
      && (Size(perturbedSpectraInfo) > 1 ==> perturbedGraphIsDegenerate == IsDegenerate(perturbedGraph))
      && (perturbedGraphIsDegenerate ==> EndsDegenerate(perturbedSpectraInfo))
      && (kind == Edge ==> edgeListInSync)
      && (kind == Node && !perturbedGraphIsDegenerate ==>
            Size(perturbedSpectraInfo) - 1 + |perturbedGraph| <= |graph|)
      && (kind == Node && perturbedGraphIsDegenerate ==>
            Size(perturbedSpectraInfo) <= (if |graph| < 2 then 2 else |graph|))
      && (kind == Edge && NoIsolated(graph) ==>
            && NoIsolated(perturbedGraph)
            && !IsDegenerate(graph)
            && Size(perturbedSpectraInfo) - 1 + |EdgeSet(perturbedGraph)| == edges
            && (perturbedGraphIsDegenerate ==> perturbedGraph == map[]))
      && (kind.OtherPerturbation? ==> perturbedGraph == graph)
    }

    /** One pass of the loop in `apply_perturbation_sequence`, with the random
        choices drawn as arbitrary valid ones. */
    method PerturbOnce(kind: PerturbationType, ghost edges: nat, spectrumOf: Graph -> seq<real>,
                       centralitiesOf: Graph -> seq<real>) returns (step: Outcome)
      requires SequenceInvariant(kind, edges) && !perturbedGraphIsDegenerate
      requires forall g :: |spectrumOf(g)| == |g|
      requires forall g {:trigger centralitiesOf(g)} :: |EdgeSet(g)| >= 2 ==> Sum(centralitiesOf(g)) != 0.0
      modifies this
      ensures SequenceInvariant(kind, edges)
      ensures step.Raised? ==>
        || (kind.OtherPerturbation? && !IsDegenerate(graph) && step == Raised(InvalidPerturbationType(kind.name)))
        || (kind == Edge && !NoIsolated(graph) && step == Raised(EmptyChoice))
      ensures !step.Raised? ==>
        perturbedGraphIsDegenerate ||
        |perturbedGraph| + |perturbedEdgeList| < old(|perturbedGraph| + |perturbedEdgeList|)
      ensures exists nodePick: int, edgePick: nat ::
        && (kind == Node && !IsDegenerate(old(perturbedGraph)) ==> nodePick in old(perturbedGraph))
        && (kind == Edge && !IsDegenerate(old(perturbedGraph)) && |old(perturbedEdgeList)| > 0 ==>
              edgePick < |old(perturbedEdgeList)|)
        && StepResult(step, perturbedGraph, perturbedEdgeList) ==
           PerturbationStep(kind, old(perturbedGraph), old(perturbedEdgeList), nodePick, edgePick)
      ensures step.Raised? ==> perturbedSpectraInfo == old(perturbedSpectraInfo)
      ensures !step.Raised? && perturbedGraphIsDegenerate ==>
        perturbedSpectraInfo == Appended(old(perturbedSpectraInfo), DegenerateSnapshot)
      ensures !step.Raised? && !perturbedGraphIsDegenerate ==>
        exists bulk: nat ::
          && IsBulkIndex(spectrumOf(perturbedGraph), bulk)
          && bulk <= |spectrumOf(perturbedGraph)| <= |targetSpectrum|
          && perturbedSpectraInfo == Appended(old(perturbedSpectraInfo),
               MeasuredSnapshot(spectrumOf(perturbedGraph), bulk,
                                NormalizedEigencentrality(|EdgeSet(perturbedGraph)|, centralitiesOf(perturbedGraph))))
    {
      ghost var before := perturbedGraph;
      ghost var beforeList := perturbedEdgeList;
      var nodePick := 0;
      var edgePick := 0;
      if kind == Node && !IsDegenerate(perturbedGraph) {
        NonEmptyMap(perturbedGraph);
        nodePick :| nodePick in perturbedGraph;
      }
      if kind == Edge && |perturbedEdgeList| > 0 {
        edgePick :| 0 <= edgePick < |perturbedEdgeList|;
      }
      StepProgress(kind, before, beforeList, nodePick, edgePick);
      if kind == Edge && !IsDegenerate(before) {
        if NoIsolated(graph) {
          MirroredListNonEmpty(before, beforeList);
        }
        if |beforeList| > 0 {
          EdgeStepKeepsMirror(before, beforeList, edgePick);
          if NoIsolated(graph) {
            EdgeStepCountsDown(before, beforeList, edgePick);
          }
        }
      }
      step := PerturbAndAssess(kind, nodePick, edgePick, spectrumOf, centralitiesOf);
    }

    /** When the loop stops, the trace ends with the degenerate entry. */
    lemma FinishedSequence(kind: PerturbationType, edges: nat)
      requires SequenceInvariant(kind, edges) && perturbedGraphIsDegenerate
      ensures Valid() && IsDegenerate(perturbedGraph) && EndsDegenerate(perturbedSpectraInfo)
    {
    }

    /** `apply_perturbation_sequence`: restart from the target, then perturb
        and assess until the perturbed graph is degenerate. Each random node
        or edge choice is an arbitrary valid one; `spectrumOf` and
        `centralitiesOf` stand for the eigen-solver. */
    method ApplyPerturbationSequence(kind: PerturbationType, spectrumOf: Graph -> seq<real>,
                                     centralitiesOf: Graph -> seq<real>) returns (outcome: Outcome)
      requires Valid()
      requires forall g :: |spectrumOf(g)| == |g|
      requires forall g {:trigger centralitiesOf(g)} :: |EdgeSet(g)| >= 2 ==> Sum(centralitiesOf(g)) != 0.0
      modifies this
      ensures Valid()
      ensures outcome == Done || outcome.Raised?
      ensures Entry(perturbedSpectraInfo, 0) == InitialSnapshot()
      ensures outcome == Done ==>
        perturbedGraphIsDegenerate && IsDegenerate(perturbedGraph) && EndsDegenerate(perturbedSpectraInfo)
      ensures kind.OtherPerturbation? ==>
        outcome == (if IsDegenerate(graph) then Done else Raised(InvalidPerturbationType(kind.name)))
      ensures kind == Edge && outcome.Raised? ==> outcome.error == EmptyChoice
      ensures kind == Node ==>
        outcome == Done && Size(perturbedSpectraInfo) <= (if |graph| < 2 then 2 else |graph|)
      ensures kind == Edge && NoIsolated(graph) ==>
        outcome == Done && perturbedGraph == map[] &&
        Size(perturbedSpectraInfo) == |EdgeSet(graph)| + 1
    {
      InitPerturbedGraph();
      ghost var edges := |EdgeSet(graph)|;
      if kind == Edge && NoIsolated(graph) {
        TargetNotEmpty();
        NoIsolatedNotDegenerate(graph);
      }
      while !perturbedGraphIsDegenerate
        invariant SequenceInvariant(kind, edges)
        decreases (if perturbedGraphIsDegenerate then 0 else 1), |perturbedGraph| + |perturbedEdgeList|
      {
        var step := PerturbOnce(kind, edges, spectrumOf, centralitiesOf);
        if step.Raised? {
          return step;
        }
      }
      FinishedSequence(kind, edges);
      return Done;
    }

    /** The target has at least one node: its spectrum has a positive norm. */
    lemma TargetNotEmpty()
      requires TargetValid()
      ensures |graph| > 0
    {
      NormZero(norm, targetSpectrum);
    }
  }
}
