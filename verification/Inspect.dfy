/** The graph descriptor: expanded edges, terminals, cycles and topological order. */
module Inspect {
  import opened Wrappers
  import opened Sequences
  import opened Graph
  import opened CycleDetection
  import opened TopoSort
  import opened StateGraphs

  datatype NodeType = StartNode | EndNode | PlainNode | SubgraphNode

  datatype GraphNode = GraphNode(id: string, kind: NodeType, hasRetry: bool, isSubgraph: bool)

  datatype GraphDescriptor = GraphDescriptor(
    nodes: seq<GraphNode>, edges: seq<GraphEdge>, terminals: seq<string>,
    cycles: seq<seq<string>>, topoOrder: Option<seq<string>>)

  function NodeOf(d: NodeDef): GraphNode {
    GraphNode(d.name, if d.isSubgraph then SubgraphNode else PlainNode, d.hasRetry, d.isSubgraph)
  }

  /** The node under its name, with its kind and its marks. */
  ghost predicate ShowsNode(g: GraphNode, d: NodeDef) {
    && g.id == d.name && g.hasRetry == d.hasRetry && g.isSubgraph == d.isSubgraph
    && (d.isSubgraph ==> g.kind == SubgraphNode) && (!d.isSubgraph ==> g.kind == PlainNode)
  }

  /** One known conditional edge per destination; without destinations, one edge to the placeholder. */
  function Expand(e: Edge): seq<GraphEdge> {
    match e
    case StaticEdge(src, dst) => [GraphEdge(src, dst, Static)]
    case ConditionalEdge(src, pathMap) =>
      if pathMap.Some? && pathMap.value != []
      then seq(|pathMap.value|, i requires 0 <= i < |pathMap.value| => GraphEdge(src, pathMap.value[i], Conditional))
      else [GraphEdge(src, CONDITIONAL, Conditional)]
  }

  function ExpandAll(edges: seq<Edge>): seq<GraphEdge> {
    if edges == [] then [] else ExpandAll(edges[..|edges| - 1]) + Expand(edges[|edges| - 1])
  }

  lemma {:induction false} ExpandAllElements(edges: seq<Edge>, g: GraphEdge)
    ensures g in ExpandAll(edges) <==> exists e :: e in edges && g in Expand(e)
  {
    if edges != [] {
      ExpandAllElements(edges[..|edges| - 1], g);
      assert edges == edges[..|edges| - 1] + [edges[|edges| - 1]];
    }
  }

  /** An expanded edge shows the kind of the edge it stems from, and one of its destinations or the placeholder. */
  lemma ExpansionShowsKinds(edges: seq<Edge>, g: GraphEdge)
    ensures g in ExpandAll(edges) <==>
            match g.kind
            case Static => StaticEdge(g.src, g.dst) in edges
            case Conditional =>
              exists e :: e in edges && e.ConditionalEdge? && e.src == g.src
                       && if Destinations(e) == [] then g.dst == CONDITIONAL else g.dst in Destinations(e)
  {
    ExpandAllElements(edges, g);
    forall e ensures g in Expand(e) <==> ExpandsInto(e, g) {
      if ExpandsInto(e, g) && e.ConditionalEdge? && Destinations(e) != [] {
        var i :| 0 <= i < |Destinations(e)| && Destinations(e)[i] == g.dst;
        assert Expand(e)[i] == g;
      }
    }
    if g.kind == Static && StaticEdge(g.src, g.dst) in edges {
      assert ExpandsInto(StaticEdge(g.src, g.dst), g);
    }
  }

  ghost predicate ExpandsInto(e: Edge, g: GraphEdge) {
    && e.src == g.src
    && match e
       case StaticEdge(_, dst) => g.kind == Static && g.dst == dst
       case ConditionalEdge(_, _) =>
         g.kind == Conditional && if Destinations(e) == [] then g.dst == CONDITIONAL else g.dst in Destinations(e)
  }

  /** The expansion follows the edges in order and, within an edge, its destinations in order. */
  lemma ExpansionInOrder(edges: seq<Edge>, e: Edge)
    ensures var added := ExpandAll(edges + [e])[|ExpandAll(edges)|..];
            && ExpandAll(edges) <= ExpandAll(edges + [e])
            && (if Destinations(e) == [] then |added| == 1 && added[0].dst == CONDITIONAL
                else |added| == |Destinations(e)|
                     && forall i :: 0 <= i < |added| ==> added[i].dst == Destinations(e)[i])
            && forall i :: 0 <= i < |added| ==> added[i].src == e.src
  {
    assert (edges + [e])[..|edges|] == edges;
    assert ExpandAll(edges + [e])[|ExpandAll(edges)|..] == Expand(e);
  }

  /** Some edge can route from `u` to `v`, as far as its destinations are declared. */
  ghost predicate Routes(edges: seq<Edge>, u: string, v: string) {
    exists e :: e in edges && e.src == u && v in Destinations(e)
  }

  lemma ExpansionIsRouting(edges: seq<Edge>, u: string, v: string)
    requires v != CONDITIONAL
    ensures Routes(edges, u, v) <==> exists g :: g in ExpandAll(edges) && Known(g) && g.src == u && g.dst == v
  {
    if Routes(edges, u, v) {
      var e :| e in edges && e.src == u && v in Destinations(e);
      var k :| 0 <= k < |Destinations(e)| && Destinations(e)[k] == v;
      assert Expand(e)[k].src == u && Expand(e)[k].dst == v;
      ExpandAllElements(edges, Expand(e)[k]);
    }
    if g :| g in ExpandAll(edges) && Known(g) && g.src == u && g.dst == v {
      ExpandAllElements(edges, g);
      var e :| e in edges && g in Expand(e);
    }
  }

  lemma WellFormedEnds(nodes: seq<NodeDef>, edges: seq<Edge>, g: GraphEdge)
    requires WellFormed(nodes, edges) && g in ExpandAll(edges) && Known(g)
    ensures g.src == START || HasNode(nodes, g.src)
    ensures g.dst == END || HasNode(nodes, g.dst)
  {
    ExpandAllElements(edges, g);
    var e :| e in edges && g in Expand(e);
    assert EdgeInPlace(nodes, e);
  }

  ghost function NodeIds(nodes: seq<NodeDef>): set<string> {
    {START, END} + set d | d in nodes :: d.name
  }

  /** The declared routes as a graph, whatever the destinations are called. */
  ghost predicate RouteCycle(edges: seq<Edge>, p: seq<string>) {
    && |p| > 0
    && (forall i {:trigger p[i]} :: 0 <= i < |p| - 1 ==> Routes(edges, p[i], p[i + 1]))
    && Routes(edges, p[|p| - 1], p[0])
  }

  /** A declared route starts at a known node and never leads to the placeholder. */
  lemma RouteEnds(nodes: seq<NodeDef>, edges: seq<Edge>, u: string, v: string)
    requires WellFormed(nodes, edges) && !HasNode(nodes, CONDITIONAL) && Routes(edges, u, v)
    ensures u in NodeIds(nodes) && v != CONDITIONAL
  {
    var e :| e in edges && e.src == u && v in Destinations(e);
    assert EdgeInPlace(nodes, e);
  }

  lemma RouteStep(nodes: seq<NodeDef>, edges: seq<Edge>, u: string, v: string)
    requires WellFormed(nodes, edges) && !HasNode(nodes, CONDITIONAL)
    ensures Routes(edges, u, v) <==> Step(AdjacencyOf(NodeIds(nodes), ExpandAll(edges)), u, v)
  {
    TargetsAreEdges(ExpandAll(edges), u, v);
    if Routes(edges, u, v) {
      RouteEnds(nodes, edges, u, v);
    }
    if v != CONDITIONAL {
      ExpansionIsRouting(edges, u, v);
    }
  }

  lemma RouteSteps(nodes: seq<NodeDef>, edges: seq<Edge>)
    requires WellFormed(nodes, edges) && !HasNode(nodes, CONDITIONAL)
    ensures forall u, v :: Routes(edges, u, v) <==> Step(AdjacencyOf(NodeIds(nodes), ExpandAll(edges)), u, v)
  {
    forall u, v ensures Routes(edges, u, v) <==> Step(AdjacencyOf(NodeIds(nodes), ExpandAll(edges)), u, v) {
      RouteStep(nodes, edges, u, v);
    }
  }

  lemma RouteCyclesAreClosedWalks(nodes: seq<NodeDef>, edges: seq<Edge>, p: seq<string>)
    requires WellFormed(nodes, edges) && !HasNode(nodes, CONDITIONAL)
    ensures RouteCycle(edges, p) <==> ClosedWalk(AdjacencyOf(NodeIds(nodes), ExpandAll(edges)), p)
  {
    RouteSteps(nodes, edges);
  }

  /** The order lists the nodes once each and every declared route goes forward in it. */
  ghost predicate OrdersRoutes(nodes: seq<NodeDef>, edges: seq<Edge>, order: seq<string>) {
    && Elements(order) == NodeIds(nodes) && Distinct(order)
    && forall u, v :: Routes(edges, u, v) ==> exists i, j :: 0 <= i < j < |order| && order[i] == u && order[j] == v
  }

  lemma CompleteOrder(nodes: seq<NodeDef>, edges: seq<Edge>, order: seq<string>)
    requires WellFormed(nodes, edges)
    requires Acyclic(AdjacencyOf(NodeIds(nodes), ExpandAll(edges)))
    requires Distinct(order) && RespectsEdges(NodeIds(nodes), ExpandAll(edges), order)
    requires Maximal(NodeIds(nodes), ExpandAll(edges), order)
    requires Elements(order) <= NodeDegrees(NodeIds(nodes), ExpandAll(edges)).Keys
    ensures TopologicalOrder(NodeIds(nodes), ExpandAll(edges), order)
  {
    var ids, known := NodeIds(nodes), ExpandAll(edges);
    forall e | e in known && Known(e) ensures e.src in ids && e.dst in ids {
      WellFormedEnds(nodes, edges, e);
    }
    AcyclicIsListed(ids, known, order);
    assert ids <= Elements(order);
    forall x | x in order ensures x in ids {
      assert x in Elements(order);
    }
  }

  lemma TopologicalOrdersRoutes(nodes: seq<NodeDef>, edges: seq<Edge>, order: seq<string>)
    requires WellFormed(nodes, edges) && !HasNode(nodes, CONDITIONAL)
    requires TopologicalOrder(NodeIds(nodes), ExpandAll(edges), order)
    ensures OrdersRoutes(nodes, edges, order)
  {
    forall u, v | Routes(edges, u, v)
      ensures exists i, j :: 0 <= i < j < |order| && order[i] == u && order[j] == v
    {
      var e :| e in edges && e.src == u && v in Destinations(e);
      assert EdgeInPlace(nodes, e);
      ExpansionIsRouting(edges, u, v);
      assert v in Elements(order);
      var j :| 0 <= j < |order| && order[j] == v;
      assert PredecessorsIn(ExpandAll(edges), order[j], Elements(order[..j]) * NodeIds(nodes));
      assert u in order[..j];
    }
  }

  method UniqueIds(nodes: seq<NodeDef>) returns (ids: seq<string>)
    ensures Distinct(ids) && Elements(ids) == NodeIds(nodes)
  {
    ids := [START, END];
    for i := 0 to |nodes|
      invariant Distinct(ids) && Elements(ids) == NodeIds(nodes[..i])
    {
      assert nodes[..i + 1] == nodes[..i] + [nodes[i]];
      assert NodeIds(nodes[..i + 1]) == NodeIds(nodes[..i]) + {nodes[i].name};
      if nodes[i].name !in ids {
        ids := ids + [nodes[i].name];
      }
    }
    assert nodes[..|nodes|] == nodes;
  }

  method ExpandEdges(edges: seq<Edge>) returns (out: seq<GraphEdge>)
    ensures out == ExpandAll(edges)
  {
    out := [];
    for i := 0 to |edges|
      invariant out == ExpandAll(edges[..i])
    {
      assert edges[..i + 1][..i] == edges[..i];
      out := out + Expand(edges[i]);
    }
    assert edges[..|edges|] == edges;
  }

  function Names(nodes: seq<NodeDef>): (names: seq<string>)
    ensures |names| == |nodes| && forall i :: 0 <= i < |nodes| ==> names[i] == nodes[i].name
  {
    seq(|nodes|, i requires 0 <= i < |nodes| => nodes[i].name)
  }

  ghost predicate IsTerminal(nodes: seq<NodeDef>, edges: seq<Edge>, x: string) {
    HasNode(nodes, x) && x != START && x != END && forall e :: e in edges ==> e.src != x
  }

  lemma OneMoreName(nodes: seq<NodeDef>, d: NodeDef, out: seq<string>)
    requires Subsequence(out, Names(nodes))
    ensures Names(nodes + [d]) == Names(nodes) + [d.name]
    ensures Subsequence(out, Names(nodes + [d])) && Subsequence(out + [d.name], Names(nodes + [d]))
  {
    assert Names(nodes + [d]) == Names(nodes) + [d.name];
    SubsequenceAppend(out, Names(nodes), [d.name]);
    assert (Names(nodes) + [d.name])[..|nodes|] == Names(nodes);
  }

  lemma MoreTerminals(nodes: seq<NodeDef>, d: NodeDef, edges: seq<Edge>)
    ensures forall x :: IsTerminal(nodes + [d], edges, x) <==>
                        || IsTerminal(nodes, edges, x)
                        || (x == d.name && x != START && x != END && forall e :: e in edges ==> e.src != x)
  {
    forall x ensures HasNode(nodes + [d], x) <==> HasNode(nodes, x) || x == d.name {
      HasNodeAppend(nodes, d, x);
    }
  }

  /** In the order of the nodes, those without outgoing edges, whether to other nodes or to the end. */
  method Terminals(nodes: seq<NodeDef>, edges: seq<Edge>) returns (out: seq<string>)
    ensures Subsequence(out, Names(nodes))
    ensures forall x :: x in out <==> IsTerminal(nodes, edges, x)
  {
    out := [];
    for i := 0 to |nodes|
      invariant Subsequence(out, Names(nodes[..i]))
      invariant forall x :: x in out <==> IsTerminal(nodes[..i], edges, x)
    {
      var name := nodes[i].name;
      assert nodes[..i + 1] == nodes[..i] + [nodes[i]];
      OneMoreName(nodes[..i], nodes[i], out);
      MoreTerminals(nodes[..i], nodes[i], edges);
      if name != START && name != END && !exists e :: e in edges && e.src == name {
        out := out + [name];
      }
    }
    assert nodes[..|nodes|] == nodes;
  }

  /**
   What the descriptor's documentation calls a terminal: no outgoing edge leads
   anywhere but to the end. An edge whose destinations are undeclared leads to
   the placeholder, and so does not.
   */
  ghost predicate IsDocumentedTerminal(nodes: seq<NodeDef>, edges: seq<Edge>, x: string) {
    && HasNode(nodes, x) && x != START && x != END
    && forall g :: g in ExpandAll(edges) && g.src == x ==> g.dst == END
  }

  /** The edge declares destinations, and the end is the only one. */
  predicate OnlyToEnd(e: Edge) {
    Destinations(e) != [] && forall i :: 0 <= i < |Destinations(e)| ==> Destinations(e)[i] == END
  }

  /** A node with outgoing edges, all of which can only go to the end. */
  ghost predicate EndsOnly(nodes: seq<NodeDef>, edges: seq<Edge>, x: string) {
    && HasNode(nodes, x) && x != START && x != END && (exists e :: e in edges && e.src == x)
    && forall e :: e in edges && e.src == x ==> OnlyToEnd(e)
  }

  lemma ExpandsToEnd(e: Edge)
    ensures (forall g :: g in Expand(e) ==> g.dst == END) <==> OnlyToEnd(e)
    ensures Expand(e) != [] && forall g :: g in Expand(e) ==> g.src == e.src
  {
    if OnlyToEnd(e) {
      assert forall i :: 0 <= i < |Expand(e)| ==> Expand(e)[i].dst == Destinations(e)[i];
    }
    if forall g :: g in Expand(e) ==> g.dst == END {
      assert Expand(e)[0] in Expand(e) && END != CONDITIONAL;
      forall i | 0 <= i < |Destinations(e)| ensures Destinations(e)[i] == END {
        assert Expand(e)[i] in Expand(e);
      }
    }
  }

  lemma ExpandedToEnd(edges: seq<Edge>, x: string)
    ensures (forall g :: g in ExpandAll(edges) && g.src == x ==> g.dst == END) <==>
            forall e :: e in edges && e.src == x ==> OnlyToEnd(e)
  {
    forall e | e in edges
      ensures (forall g :: g in Expand(e) ==> g.dst == END) <==> OnlyToEnd(e)
      ensures forall g :: g in Expand(e) ==> g.src == e.src
    {
      ExpandsToEnd(e);
    }
    if forall g :: g in ExpandAll(edges) && g.src == x ==> g.dst == END {
      forall e | e in edges && e.src == x ensures OnlyToEnd(e) {
        forall g | g in Expand(e) ensures g.dst == END {
          ExpandAllElements(edges, g);
        }
      }
    }
    if forall e :: e in edges && e.src == x ==> OnlyToEnd(e) {
      forall g | g in ExpandAll(edges) && g.src == x ensures g.dst == END {
        ExpandAllElements(edges, g);
      }
    }
  }

  /** The code's terminals are documented ones, and the only ones missing are the nodes that can only end. */
  lemma MissedTerminals(nodes: seq<NodeDef>, edges: seq<Edge>, x: string)
    ensures IsDocumentedTerminal(nodes, edges, x) <==> IsTerminal(nodes, edges, x) || EndsOnly(nodes, edges, x)
    ensures !(IsTerminal(nodes, edges, x) && EndsOnly(nodes, edges, x))
  {
    ExpandedToEnd(edges, x);
  }

  /** The code's terminals are those of the documentation exactly when no node can only end. */
  lemma TerminalsAgree(nodes: seq<NodeDef>, edges: seq<Edge>)
    ensures (forall x :: IsTerminal(nodes, edges, x) <==> IsDocumentedTerminal(nodes, edges, x)) <==>
            forall x :: !EndsOnly(nodes, edges, x)
  {
    forall x
      ensures IsDocumentedTerminal(nodes, edges, x) <==> IsTerminal(nodes, edges, x) || EndsOnly(nodes, edges, x)
      ensures !(IsTerminal(nodes, edges, x) && EndsOnly(nodes, edges, x))
    {
      MissedTerminals(nodes, edges, x);
    }
  }

  ghost predicate AsDocumented(nodes: seq<NodeDef>, edges: seq<Edge>, terminals: seq<string>) {
    forall x :: x in terminals <==> IsDocumentedTerminal(nodes, edges, x)
  }

  lemma TerminalsListed(nodes: seq<NodeDef>, edges: seq<Edge>, terminals: seq<string>)
    requires forall x :: x in terminals <==> IsTerminal(nodes, edges, x)
    ensures AsDocumented(nodes, edges, terminals) <==> forall x :: !EndsOnly(nodes, edges, x)
  {
    TerminalsAgree(nodes, edges);
  }

  /** The smallest graph that validates and has a documented terminal the code does not list. */
  lemma LastNodeIsMissed()
    ensures var nodes, edges := [NodeDef("a", false, false)], [StaticEdge(START, "a"), StaticEdge("a", END)];
            && WellFormed(nodes, edges)
            && IsDocumentedTerminal(nodes, edges, "a") && !IsTerminal(nodes, edges, "a")
  {
    var nodes, edges := [NodeDef("a", false, false)], [StaticEdge(START, "a"), StaticEdge("a", END)];
    assert nodes[0].name == "a" && edges[0] in edges && edges[1] in edges && edges[1].src == "a";
    assert "a"[0] != START[0] && "a"[0] != END[0];
    assert edges[0].src == START;
    forall e | e in edges ensures EdgeInPlace(nodes, e) {
    }
    MissedTerminals(nodes, edges, "a");
  }

  /**
   Every listed cycle is a simple cycle of the known edges, there is an order
   exactly when there is no cycle, and in a validated graph without a node
   named "conditional" these are the cycles and an order of the declared routes.
   */
  method BuildGraphDescriptor(nodes: seq<NodeDef>, edges: seq<Edge>) returns (d: GraphDescriptor)
    ensures |d.nodes| == |nodes| + 2
    ensures d.nodes[..2] == [GraphNode(START, StartNode, false, false), GraphNode(END, EndNode, false, false)]
    ensures forall i :: 0 <= i < |nodes| ==> ShowsNode(d.nodes[i + 2], nodes[i])
    ensures d.edges == ExpandAll(edges)
    ensures forall c :: c in d.cycles ==> SimpleCycle(AdjacencyOf(NodeIds(nodes), ExpandAll(edges)), c)
    ensures d.cycles == [] <==> Acyclic(AdjacencyOf(NodeIds(nodes), ExpandAll(edges)))
    ensures Acyclic(Cut(AdjacencyOf(NodeIds(nodes), ExpandAll(edges)), d.cycles))
    ensures d.topoOrder.Some? <==> d.cycles == []
    ensures d.topoOrder.Some? && WellFormed(nodes, edges) ==>
              TopologicalOrder(NodeIds(nodes), ExpandAll(edges), d.topoOrder.value)
    ensures WellFormed(nodes, edges) && !HasNode(nodes, CONDITIONAL) ==>
              && (d.topoOrder.Some? <==> forall p :: !RouteCycle(edges, p))
              && (d.topoOrder.Some? ==> OrdersRoutes(nodes, edges, d.topoOrder.value))
    ensures Subsequence(d.terminals, Names(nodes))
    ensures forall x :: x in d.terminals <==> IsTerminal(nodes, edges, x)
    ensures AsDocumented(nodes, edges, d.terminals) <==> forall x :: !EndsOnly(nodes, edges, x)
  {
    var ids := UniqueIds(nodes);
    var graphEdges := ExpandEdges(edges);
    var terminals := Terminals(nodes, edges);
    TerminalsListed(nodes, edges, terminals);
    var cycles := DetectCycles(ids, graphEdges);
    var topoOrder := None;
    if cycles == [] {
      var order := TopoSort.TopoSort(ids, graphEdges);
      topoOrder := Some(order);
    }
    d := GraphDescriptor([GraphNode(START, StartNode, false, false), GraphNode(END, EndNode, false, false)]
                         + seq(|nodes|, i requires 0 <= i < |nodes| => NodeOf(nodes[i])),
                         graphEdges, terminals, cycles, topoOrder);
    if WellFormed(nodes, edges) {
      if topoOrder.Some? {
        CompleteOrder(nodes, edges, topoOrder.value);
      }
      if !HasNode(nodes, CONDITIONAL) {
        forall p {
          RouteCyclesAreClosedWalks(nodes, edges, p);
        }
        if topoOrder.Some? {
          TopologicalOrdersRoutes(nodes, edges, topoOrder.value);
        }
      }
    }
  }
}
