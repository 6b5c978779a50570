/** Undirected simple graphs as symmetric adjacency maps, the removals that
    networkx performs on them, and the two perturbation steps of the
    graph wrapper stated declaratively. */
module GraphModel {

  /** Node identifier -> set of neighbours. */
  type Graph = map<int, set<int>>

  /** An edge as stored in the wrapper's edge list. */
  type Edge = (int, int)

  /** Symmetric adjacency without self-loops. */
  ghost predicate WellFormed(g: Graph) {
    forall u :: u in g ==> u !in g[u] && forall v :: v in g[u] ==> v in g && u in g[v]
  }

  /** No node has degree 0. */
  ghost predicate NoIsolated(g: Graph) {
    forall n :: n in g ==> g[n] != {}
  }

  predicate IsEdge(g: Graph, u: int, v: int) {
    u in g && v in g[u]
  }

  function Degree(g: Graph, n: int): nat
    requires n in g
  {
    |g[n]|
  }

  /** The graph's edge set, each undirected edge once as (u, v) with u < v. */
  function EdgeSet(g: Graph): set<Edge> {
    set u, v | u in g && v in g[u] && u < v :: (u, v)
  }

  /** Fewer than two nodes. */
  predicate IsDegenerate(g: Graph) {
    |g| < 2
  }

  /** networkx remove_node: drop the node and every edge incident to it. */
  function WithoutNode(g: Graph, x: int): Graph {
    map n | n in g && n != x :: g[n] - {x}
  }

  /** networkx remove_edge on an existing edge. */
  function WithoutEdge(g: Graph, u: int, v: int): Graph
    requires IsEdge(g, u, v)
  {
    map n | n in g :: if n == u then g[n] - {v} else if n == v then g[n] - {u} else g[n]
  }

  /** The graph after removing every candidate whose degree is 0. */
  function WithoutIsolated(g: Graph, candidates: set<int>): Graph {
    map n | n in g && !(n in candidates && g[n] == {}) :: g[n]
  }

  /** A NODE step, stated directly: `x` goes, and so does every neighbour of
      `x` whose only neighbour was `x`; everyone else loses the edge to `x`. */
  function NodeStep(g: Graph, x: int): Graph
    requires x in g
  {
    map n | n in g && n != x && !(n in g[x] && g[n] == {x}) :: g[n] - {x}
  }

  /** An EDGE step, stated directly: the edge (u, v) goes, and so does an
      endpoint whose only neighbour was the other endpoint. */
  function EdgeStep(g: Graph, u: int, v: int): Graph
    requires IsEdge(g, u, v)
  {
    map n | n in g && !(n == u && g[u] == {v}) && !(n == v && g[v] == {u}) ::
      if n == u then g[n] - {v} else if n == v then g[n] - {u} else g[n]
  }

  // ---------------------------------------------------------------------------
  // Small facts about sets and sequences.

  lemma {:induction false} SubsetCard<T>(a: set<T>, b: set<T>)
    requires a <= b
    ensures |a| <= |b|
  {
    if a != {} {
      var x :| x in a;
      SubsetCard(a - {x}, b - {x});
    }
  }

  /** A non-empty set has a member. */
  lemma NonEmptySet(s: set<int>)
    ensures s != {} ==> exists x :: x in s
  {
    if forall x :: x !in s {
      assert forall x :: x in s <==> x in {};
    }
  }

  /** A non-empty map has a key. */
  lemma NonEmptyMap(m: Graph)
    ensures m != map[] ==> exists k :: k in m
  {
    if forall k :: k !in m {
      var empty: Graph := map[];
      assert m == empty;
    }
  }

  lemma SingletonDiff(s: set<int>, x: int)
    requires x in s
    ensures (s - {x} == {}) <==> (s == {x})
  {
    if s - {x} == {} {
      assert forall y :: y !in s - {x};
      assert s == {x};
    }
    if s == {x} {
      assert forall y :: y in s - {x} <==> y in {};
    }
  }

  lemma EdgeSetMember(g: Graph, a: int, b: int)
    ensures (a, b) in EdgeSet(g) <==> a in g && b in g[a] && a < b
  {
  }

  function Elements<T>(s: seq<T>): set<T> {
    set x | x in s
  }

  ghost predicate NoDuplicates<T>(s: seq<T>) {
    forall i, j :: 0 <= i < j < |s| ==> s[i] != s[j]
  }

  /** A list without duplicates has as many elements as its set. */
  lemma {:induction false} DistinctCard<T>(s: seq<T>)
    requires NoDuplicates(s)
    ensures |Elements(s)| == |s|
  {
    if s != [] {
      var t := s[..|s| - 1];
      var x := s[|s| - 1];
      assert NoDuplicates(t);
      DistinctCard(t);
      assert s == t + [x];
      assert Elements(s) == Elements(t) + {x};
      assert forall i :: 0 <= i < |t| ==> t[i] == s[i] && s[i] != s[|s| - 1];
      assert x !in Elements(t);
    }
  }

  /** `list.pop(k)`: the list without entry `k`, the others in their order. */
  function Popped<T>(s: seq<T>, k: nat): (r: seq<T>)
    requires k < |s|
    ensures |r| == |s| - 1
    ensures forall i :: 0 <= i < |r| ==> r[i] == s[if i < k then i else i + 1]
  {
    s[..k] + s[k + 1..]
  }

  /** Popping index k removes exactly that entry and keeps the list duplicate-free. */
  lemma PopElements<T>(s: seq<T>, k: nat)
    requires NoDuplicates(s) && k < |s|
    ensures NoDuplicates(Popped(s, k))
    ensures Elements(Popped(s, k)) == Elements(s) - {s[k]}
  {
    var r := Popped(s, k);
    forall x | x in Elements(s) - {s[k]} ensures x in Elements(r) {
      var i :| 0 <= i < |s| && s[i] == x;
      assert r[if i < k then i else i - 1] == x;
    }
    forall x | x in Elements(r) ensures x in Elements(s) - {s[k]} {
      var i :| 0 <= i < |r| && r[i] == x;
      assert s[if i < k then i else i + 1] == x;
    }
  }

  // ---------------------------------------------------------------------------
  // The edge list.

  /** Builds `list(graph.edges())`: every edge of `g` exactly once, as (u, v) with u < v. */
  method EdgeListOf(g: Graph) returns (es: seq<Edge>)
    requires WellFormed(g)
    ensures NoDuplicates(es)
    ensures Elements(es) == EdgeSet(g)
    ensures forall i :: 0 <= i < |es| ==> es[i].0 < es[i].1
  {
    es := [];
    var todo := g.Keys;
    while todo != {}
      invariant todo <= g.Keys
      invariant NoDuplicates(es)
      invariant forall i :: 0 <= i < |es| ==> es[i].0 < es[i].1
      invariant forall e :: e in es <==> e in EdgeSet(g) && e.0 !in todo
      decreases todo
    {
      NonEmptySet(todo);
      var u :| u in todo;
      var nbrs := g[u];
      while nbrs != {}
        invariant nbrs <= g[u]
        invariant NoDuplicates(es)
        invariant forall i :: 0 <= i < |es| ==> es[i].0 < es[i].1
        invariant forall e :: e in es <==> e in EdgeSet(g) && (e.0 !in todo || (e.0 == u && e.1 !in nbrs))
        decreases nbrs
      {
        NonEmptySet(nbrs);
        var v :| v in nbrs;
        if u < v {
          EdgeSetMember(g, u, v);
          es := es + [(u, v)];
        }
        nbrs := nbrs - {v};
      }
      todo := todo - {u};
    }
  }

  // ---------------------------------------------------------------------------
  // The isolated-node clean-up loop shared by both steps.

  /** The loop `for n in candidates: if degree(n) == 0: remove_node(n)`. */
  method RemoveIsolated(g: Graph, candidates: set<int>) returns (r: Graph)
    requires candidates <= g.Keys
    ensures r == WithoutIsolated(g, candidates)
  {
    r := g;
    var todo := candidates;
    while todo != {}
      invariant todo <= candidates
      invariant forall n :: n in r <==> n in g && !(n in candidates - todo && g[n] == {})
      invariant forall n :: n in r ==> r[n] == g[n]
      decreases todo
    {
      NonEmptySet(todo);
      var n :| n in todo;
      if Degree(r, n) == 0 {
        r := r - {n};
      }
      todo := todo - {n};
    }
    var w := WithoutIsolated(g, candidates);
    assert forall n :: n !in todo;
    assert forall n :: n in r <==> n in w;
    assert forall n :: n in r ==> r[n] == w[n];
    assert r == w;
  }

  // ---------------------------------------------------------------------------
  // NODE step.

  /** Removing the node with networkx and then its isolated neighbours is the NODE step. */
  lemma NodeStepByRemovals(g: Graph, x: int)
    requires WellFormed(g) && x in g
    ensures g[x] <= WithoutNode(g, x).Keys
    ensures WithoutIsolated(WithoutNode(g, x), g[x]) == NodeStep(g, x)
  {
    var h := WithoutNode(g, x);
    var lhs := WithoutIsolated(h, g[x]);
    var rhs := NodeStep(g, x);
    forall n | n in g[x] ensures (h[n] == {}) <==> (g[n] == {x}) {
      SingletonDiff(g[n], x);
    }
    assert forall n :: n in g[x] ==> n in h;
    assert forall n :: n in lhs <==> n in rhs;
    assert lhs == rhs;
  }

  lemma NodeStepWellFormed(g: Graph, x: int)
    requires WellFormed(g) && x in g
    ensures WellFormed(NodeStep(g, x))
    ensures NodeStep(g, x).Keys <= g.Keys - {x}
  {
    var h := NodeStep(g, x);
    forall u | u in h ensures u !in h[u] && forall v :: v in h[u] ==> v in h && u in h[v] {
      forall v | v in h[u] ensures v in h && u in h[v] {
        assert v in g[u] && v != x && u in g[v];
      }
    }
  }

  /** The node count strictly decreases. */
  lemma NodeStepShrinks(g: Graph, x: int)
    requires WellFormed(g) && x in g
    ensures |NodeStep(g, x)| < |g|
  {
    NodeStepWellFormed(g, x);
    SubsetCard(NodeStep(g, x).Keys, g.Keys - {x});
  }

  lemma NodeStepNoIsolated(g: Graph, x: int)
    requires WellFormed(g) && NoIsolated(g) && x in g
    ensures NoIsolated(NodeStep(g, x))
  {
    var h := NodeStep(g, x);
    forall n | n in h ensures h[n] != {} {
      if n in g[x] {
        assert x in g[n];
        SingletonDiff(g[n], x);
      } else {
        assert x !in g[n];
        assert h[n] == g[n];
      }
    }
  }

  /** The chosen node goes; a former neighbour goes iff its degree is now 0;
      every other node stays with its neighbours. */
  lemma NodeStepNodes(g: Graph, x: int)
    requires WellFormed(g) && x in g
    ensures x !in NodeStep(g, x)
    ensures forall n :: n in g[x] ==> (n !in NodeStep(g, x) <==> Degree(WithoutNode(g, x), n) == 0)
    ensures forall n :: n in g && n != x && n !in g[x] ==> n in NodeStep(g, x) && NodeStep(g, x)[n] == g[n]
  {
    forall n | n in g[x] ensures n !in NodeStep(g, x) <==> Degree(WithoutNode(g, x), n) == 0 {
      assert x in g[n];
      SingletonDiff(g[n], x);
    }
    forall n | n in g && n != x && n !in g[x] ensures n in NodeStep(g, x) && NodeStep(g, x)[n] == g[n] {
      assert x !in g[n];
    }
  }

  /** Exactly the edges not incident to the chosen node remain. */
  lemma NodeStepEdges(g: Graph, x: int)
    requires WellFormed(g) && x in g
    ensures EdgeSet(NodeStep(g, x)) == set e | e in EdgeSet(g) && e.0 != x && e.1 != x
  {
    var h := NodeStep(g, x);
    var kept := set e | e in EdgeSet(g) && e.0 != x && e.1 != x;
    forall e | e in EdgeSet(h) ensures e in kept {
      EdgeSetMember(h, e.0, e.1);
      EdgeSetMember(g, e.0, e.1);
    }
    forall e | e in kept ensures e in EdgeSet(h) {
      var a, b := e.0, e.1;
      EdgeSetMember(g, a, b);
      assert a in g[b];
      if a in g[x] && g[a] == {x} { assert b in g[a]; }
      if b in g[x] && g[b] == {x} { assert a in g[b]; }
      EdgeSetMember(h, a, b);
    }
  }

  // ---------------------------------------------------------------------------
  // EDGE step.

  /** Removing the edge with networkx and then its isolated endpoints is the EDGE step. */
  lemma EdgeStepByRemovals(g: Graph, u: int, v: int)
    requires WellFormed(g) && IsEdge(g, u, v)
    ensures {u, v} <= WithoutEdge(g, u, v).Keys
    ensures WithoutIsolated(WithoutEdge(g, u, v), {u, v}) == EdgeStep(g, u, v)
  {
    var h := WithoutEdge(g, u, v);
    assert u != v && u in g[v];
    SingletonDiff(g[u], v);
    SingletonDiff(g[v], u);
    assert WithoutIsolated(h, {u, v}).Keys == EdgeStep(g, u, v).Keys;
  }

  lemma EdgeStepWellFormed(g: Graph, u: int, v: int)
    requires WellFormed(g) && IsEdge(g, u, v)
    ensures WellFormed(EdgeStep(g, u, v))
    ensures EdgeStep(g, u, v).Keys <= g.Keys
  {
    var h := EdgeStep(g, u, v);
    assert u != v && u in g[v];
    forall a | a in h ensures a !in h[a] && forall b :: b in h[a] ==> b in h && a in h[b] {
      forall b | b in h[a] ensures b in h && a in h[b] {
        assert b in g[a] && a in g[b];
      }
    }
  }

  lemma EdgeStepNoIsolated(g: Graph, u: int, v: int)
    requires WellFormed(g) && NoIsolated(g) && IsEdge(g, u, v)
    ensures NoIsolated(EdgeStep(g, u, v))
  {
    assert u in g[v];
    SingletonDiff(g[u], v);
    SingletonDiff(g[v], u);
  }

  /** The edge goes and no other: the edge count drops by exactly one. */
  lemma EdgeStepEdges(g: Graph, u: int, v: int)
    requires WellFormed(g) && IsEdge(g, u, v) && u < v
    ensures EdgeSet(EdgeStep(g, u, v)) == EdgeSet(g) - {(u, v)}
    ensures |EdgeSet(EdgeStep(g, u, v))| == |EdgeSet(g)| - 1
  {
    var h := EdgeStep(g, u, v);
    assert u in g[v];
    forall e | e in EdgeSet(h) ensures e in EdgeSet(g) - {(u, v)} {
      EdgeSetMember(h, e.0, e.1);
      EdgeSetMember(g, e.0, e.1);
    }
    forall e | e in EdgeSet(g) - {(u, v)} ensures e in EdgeSet(h) {
      var a, b := e.0, e.1;
      EdgeSetMember(g, a, b);
      assert a in g[b];
      EdgeSetMember(h, a, b);
    }
    EdgeSetMember(g, u, v);
  }

  /** An endpoint goes iff its degree is now 0; every other node stays unchanged. */
  lemma EdgeStepNodes(g: Graph, u: int, v: int)
    requires WellFormed(g) && IsEdge(g, u, v)
    ensures u !in EdgeStep(g, u, v) <==> Degree(WithoutEdge(g, u, v), u) == 0
    ensures v !in EdgeStep(g, u, v) <==> Degree(WithoutEdge(g, u, v), v) == 0
    ensures forall n :: n in g && n != u && n != v ==> n in EdgeStep(g, u, v) && EdgeStep(g, u, v)[n] == g[n]
  {
    assert u != v && u in g[v];
    SingletonDiff(g[u], v);
    SingletonDiff(g[v], u);
  }

  // ---------------------------------------------------------------------------
  // Consequences used for termination.

  /** Without isolated nodes, a graph with no edges has no nodes. */
  lemma NoEdgesNoNodes(g: Graph)
    requires WellFormed(g) && NoIsolated(g) && EdgeSet(g) == {}
    ensures g == map[]
  {
    NonEmptyMap(g);
    if g != map[] {
      var n :| n in g;
      NonEmptySet(g[n]);
      var m :| m in g[n];
      assert n in g[m];
      if n < m { EdgeSetMember(g, n, m); } else { EdgeSetMember(g, m, n); }
      assert false;
    }
  }

  /** A degenerate graph has no edges. */
  lemma DegenerateHasNoEdges(g: Graph)
    requires WellFormed(g) && IsDegenerate(g)
    ensures EdgeSet(g) == {}
  {
    if EdgeSet(g) != {} {
      var e :| e in EdgeSet(g);
      EdgeSetMember(g, e.0, e.1);
      assert e.0 in g.Keys && e.1 in g.Keys && e.0 != e.1;
      assert {e.0, e.1} <= g.Keys;
      SubsetCard({e.0, e.1}, g.Keys);
    }
  }
}
