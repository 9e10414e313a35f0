/** Graphs, walks and cycles. */
module Graph {
  /*
   Directed graphs as the inspection code builds them: an adjacency map whose
   keys are the known nodes and whose values list the edge targets in edge order.
   */

  import opened Sequences

  const START := "__start__"
  const END := "__end__"
  /** Placeholder target of a conditional edge whose destinations are unknown. */
  const CONDITIONAL := "conditional"

  datatype EdgeKind = Static | Conditional

  datatype GraphEdge = GraphEdge(src: string, dst: string, kind: EdgeKind)

  type Adjacency = map<string, seq<string>>

  /** Edges to the placeholder carry no known target and are skipped. */
  predicate Known(e: GraphEdge) {
    e.dst != CONDITIONAL
  }

  function Targets(edges: seq<GraphEdge>, u: string): seq<string> {
    if edges == [] then []
    else
      var e := edges[|edges| - 1];
      Targets(edges[..|edges| - 1], u) + if Known(e) && e.src == u then [e.dst] else []
  }

  /** The graph the analysis works on: edges out of unknown nodes are ignored. */
  function AdjacencyOf(nodes: set<string>, edges: seq<GraphEdge>): Adjacency {
    map n | n in nodes :: Targets(edges, n)
  }

  lemma {:induction false} TargetsAreEdges(edges: seq<GraphEdge>, u: string, v: string)
    ensures v in Targets(edges, u) <==> exists e :: e in edges && Known(e) && e.src == u && e.dst == v
  {
    if edges != [] {
      TargetsAreEdges(edges[..|edges| - 1], u, v);
      assert edges == edges[..|edges| - 1] + [edges[|edges| - 1]];
    }
  }

  predicate Step(g: Adjacency, u: string, v: string) {
    u in g && v in g[u]
  }

  ghost predicate Walk(g: Adjacency, p: seq<string>) {
    forall i {:trigger p[i]} :: 0 <= i < |p| - 1 ==> Step(g, p[i], p[i + 1])
  }

  ghost predicate ClosedWalk(g: Adjacency, p: seq<string>) {
    |p| > 0 && Walk(g, p) && Step(g, p[|p| - 1], p[0])
  }

  /** Distinct nodes, each with an edge to the next and the last back to the first. */
  ghost predicate SimpleCycle(g: Adjacency, p: seq<string>) {
    ClosedWalk(g, p) && Distinct(p)
  }

  ghost predicate Acyclic(g: Adjacency) {
    forall p :: !ClosedWalk(g, p)
  }

  // ---- A ranking makes a graph acyclic ----

  /** Every edge out of a listed node leads to an earlier listed node. */
  ghost predicate Ranked(g: Adjacency, order: seq<string>) {
    order == [] ||
    var n := |order| - 1;
    Ranked(g, order[..n]) && forall v :: Step(g, order[n], v) ==> v in order[..n]
  }

  ghost function Rank(order: seq<string>, x: string): nat
    requires x in order
  {
    var n := |order| - 1;
    if x in order[..n] then Rank(order[..n], x) else n
  }

  lemma {:induction false} RankBound(order: seq<string>, x: string)
    requires x in order
    ensures Rank(order, x) < |order|
  {
    var n := |order| - 1;
    if x in order[..n] {
      RankBound(order[..n], x);
    }
  }

  lemma {:induction false} StepLowersRank(g: Adjacency, order: seq<string>, u: string, v: string)
    requires Ranked(g, order) && u in order && Step(g, u, v)
    ensures v in order && Rank(order, v) < Rank(order, u)
  {
    var n := |order| - 1;
    if u in order[..n] {
      StepLowersRank(g, order[..n], u, v);
    } else {
      RankBound(order[..n], v);
    }
  }

  lemma {:induction false} WalkLowersRank(g: Adjacency, order: seq<string>, p: seq<string>, k: nat)
    requires Ranked(g, order) && Walk(g, p) && k < |p| && p[0] in order
    ensures p[k] in order && Rank(order, p[k]) <= Rank(order, p[0])
  {
    if k > 0 {
      WalkLowersRank(g, order, p, k - 1);
      assert Step(g, p[k - 1], p[k - 1 + 1]);
      StepLowersRank(g, order, p[k - 1], p[k]);
    }
  }

  lemma {:induction false} FewerStepsStayRanked(g: Adjacency, h: Adjacency, order: seq<string>)
    requires Ranked(g, order) && forall u, v :: Step(h, u, v) ==> Step(g, u, v)
    ensures Ranked(h, order)
  {
    if order != [] {
      FewerStepsStayRanked(g, h, order[..|order| - 1]);
    }
  }

  lemma RankedIsAcyclic(g: Adjacency, order: seq<string>)
    requires Ranked(g, order) && forall u :: u in g ==> u in order
    ensures Acyclic(g)
  {
    forall p ensures !ClosedWalk(g, p) {
      if ClosedWalk(g, p) {
        assert p[0] in g by {
          if |p| > 1 {
            assert Step(g, p[0], p[0 + 1]);
          }
        }
        WalkLowersRank(g, order, p, |p| - 1);
        StepLowersRank(g, order, p[|p| - 1], p[0]);
      }
    }
  }

  // ---- Removing the edges that close given cycles ----

  ghost predicate ClosedBy(c: seq<string>, u: string, v: string) {
    c != [] && c[|c| - 1] == u && c[0] == v
  }

  /** The edge leads from the last node of a listed cycle back to its first. */
  ghost predicate Closes(cycles: seq<seq<string>>, u: string, v: string) {
    exists c :: c in Elements(cycles) && ClosedBy(c, u, v)
  }

  ghost function NotClosing(targets: seq<string>, cycles: seq<seq<string>>, u: string): seq<string> {
    if targets == [] then []
    else (if Closes(cycles, u, targets[0]) then [] else [targets[0]]) + NotClosing(targets[1..], cycles, u)
  }

  /** The graph without the edges that close the listed cycles. */
  ghost function Cut(g: Adjacency, cycles: seq<seq<string>>): Adjacency {
    map u | u in g :: NotClosing(g[u], cycles, u)
  }

  lemma {:induction false} NotClosingMembers(targets: seq<string>, cycles: seq<seq<string>>, u: string, v: string)
    ensures v in NotClosing(targets, cycles, u) <==> v in targets && !Closes(cycles, u, v)
  {
    if targets != [] {
      NotClosingMembers(targets[1..], cycles, u, v);
      assert targets == [targets[0]] + targets[1..];
    }
  }

  lemma CutSteps(g: Adjacency, cycles: seq<seq<string>>)
    ensures forall u, v :: Step(Cut(g, cycles), u, v) <==> Step(g, u, v) && !Closes(cycles, u, v)
  {
    forall u, v ensures Step(Cut(g, cycles), u, v) <==> Step(g, u, v) && !Closes(cycles, u, v) {
      if u in g {
        NotClosingMembers(g[u], cycles, u, v);
      }
    }
  }

  // ---- A set in which everybody has a predecessor contains a cycle ----

  ghost predicate HasPredecessorIn(g: Adjacency, s: set<string>, v: string) {
    exists u :: u in s && Step(g, u, v)
  }

  lemma PrependWalk(g: Adjacency, u: string, p: seq<string>)
    requires p != [] && Walk(g, p) && Distinct(p) && Step(g, u, p[0]) && u !in p
    ensures Walk(g, [u] + p) && Distinct([u] + p)
  {
    var q := [u] + p;
    forall i {:trigger q[i]} | 0 <= i < |q| - 1 ensures Step(g, q[i], q[i + 1]) {
      if i > 0 {
        assert Step(g, p[i - 1], p[i - 1 + 1]);
      }
    }
  }

  lemma ClosePrefix(g: Adjacency, p: seq<string>, k: nat)
    requires k < |p| && Walk(g, p) && Step(g, p[k], p[0])
    ensures ClosedWalk(g, p[..k + 1])
  {
    var c := p[..k + 1];
    forall i {:trigger c[i]} | 0 <= i < |c| - 1 ensures Step(g, c[i], c[i + 1]) {
      assert Step(g, p[i], p[i + 1]);
    }
  }

  /** A walk inside `s` without repetition. */
  ghost predicate PathIn(g: Adjacency, s: set<string>, p: seq<string>) {
    p != [] && Walk(g, p) && Distinct(p) && Elements(p) <= s
  }

  ghost predicate NoSource(g: Adjacency, s: set<string>) {
    forall v :: v in s ==> HasPredecessorIn(g, s, v)
  }

  lemma ExtendBack(g: Adjacency, s: set<string>, p: seq<string>, u: string)
    requires PathIn(g, s, p) && u in s && u !in p && Step(g, u, p[0])
    ensures PathIn(g, s, [u] + p) && Elements([u] + p) == Elements(p) + {u}
  {
    PrependWalk(g, u, p);
  }

  lemma RepeatCloses(g: Adjacency, p: seq<string>, u: string) returns (c: seq<string>)
    requires p != [] && Walk(g, p) && u in p && Step(g, u, p[0])
    ensures ClosedWalk(g, c)
  {
    var k :| 0 <= k < |p| && p[k] == u;
    ClosePrefix(g, p, k);
    c := p[..k + 1];
  }

  /** Walks backwards inside `s` until a node repeats. */
  lemma {:induction false} BackwardWalkCloses(g: Adjacency, s: set<string>, p: seq<string>) returns (c: seq<string>)
    requires NoSource(g, s) && PathIn(g, s, p)
    ensures ClosedWalk(g, c)
    decreases s - Elements(p)
  {
    assert p[0] in Elements(p);
    assert HasPredecessorIn(g, s, p[0]);
    var u :| u in s && Step(g, u, p[0]);
    if u in p {
      c := RepeatCloses(g, p, u);
    } else {
      ExtendBack(g, s, p, u);
      assert u in s - Elements(p);
      c := BackwardWalkCloses(g, s, [u] + p);
    }
  }

  lemma NoSourceMeansCycle(g: Adjacency, s: set<string>)
    requires s != {} && NoSource(g, s)
    ensures !Acyclic(g)
  {
    var v :| v in s;
    var c := BackwardWalkCloses(g, s, [v]);
  }

  // ---- What skipping the placeholder costs ----

  function AllTargets(edges: seq<GraphEdge>, u: string): seq<string> {
    if edges == [] then []
    else
      var e := edges[|edges| - 1];
      AllTargets(edges[..|edges| - 1], u) + if e.src == u then [e.dst] else []
  }

  /** The graph with every edge, including those to a node called "conditional". */
  function FullAdjacencyOf(nodes: set<string>, edges: seq<GraphEdge>): Adjacency {
    map n | n in nodes :: AllTargets(edges, n)
  }

  lemma {:induction false} TargetsWithinAll(edges: seq<GraphEdge>, u: string, v: string)
    ensures v in Targets(edges, u) <==> v in AllTargets(edges, u) && v != CONDITIONAL
  {
    if edges != [] {
      TargetsWithinAll(edges[..|edges| - 1], u, v);
    }
  }

  lemma SameClosedWalks(nodes: set<string>, edges: seq<GraphEdge>, p: seq<string>)
    requires CONDITIONAL !in nodes
    ensures ClosedWalk(AdjacencyOf(nodes, edges), p) <==> ClosedWalk(FullAdjacencyOf(nodes, edges), p)
  {
    var g, h := AdjacencyOf(nodes, edges), FullAdjacencyOf(nodes, edges);
    forall u, v ensures Step(g, u, v) <==> Step(h, u, v) && v != CONDITIONAL {
      TargetsWithinAll(edges, u, v);
    }
    if ClosedWalk(h, p) {
      forall i | 0 <= i < |p| ensures p[i] in nodes {
        if i < |p| - 1 {
          assert Step(h, p[i], p[i + 1]);
        }
      }
    }
  }

  lemma {:induction false} SelfLoopTargets()
    ensures var e := [GraphEdge(CONDITIONAL, CONDITIONAL, Static)];
            Targets(e, CONDITIONAL) == [] && AllTargets(e, CONDITIONAL) == [CONDITIONAL]
    ensures forall u :: Targets([GraphEdge(CONDITIONAL, CONDITIONAL, Static)], u) == []
  {
  }

  /**
   Skipping edges to "conditional" is harmless for a node set exactly when no
   node has that name; a self-loop on such a node is the cycle that is missed.
   */
  lemma PlaceholderIsExact(nodes: set<string>)
    ensures CONDITIONAL !in nodes <==>
            forall edges :: Acyclic(AdjacencyOf(nodes, edges)) <==> Acyclic(FullAdjacencyOf(nodes, edges))
  {
    if CONDITIONAL !in nodes {
      forall edges ensures Acyclic(AdjacencyOf(nodes, edges)) <==> Acyclic(FullAdjacencyOf(nodes, edges)) {
        forall p {
          SameClosedWalks(nodes, edges, p);
        }
      }
    } else {
      var edges := [GraphEdge(CONDITIONAL, CONDITIONAL, Static)];
      SelfLoopTargets();
      assert ClosedWalk(FullAdjacencyOf(nodes, edges), [CONDITIONAL]);
      forall p ensures !ClosedWalk(AdjacencyOf(nodes, edges), p) {
      }
      assert Acyclic(AdjacencyOf(nodes, edges)) && !Acyclic(FullAdjacencyOf(nodes, edges));
    }
  }
}
