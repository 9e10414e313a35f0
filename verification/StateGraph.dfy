/**
 The graph builder and its compile-time validation. The node map is a sequence
 of definitions in insertion order, with the lookup by name as a search; the
 functions that nodes run and the conditions that edges evaluate play no part
 in what is proved and are left out of the definitions.
 */
module StateGraphs {
  import opened Wrappers
  import opened Graph

  datatype NodeDef = NodeDef(name: string, hasRetry: bool, isSubgraph: bool)

  /** A conditional edge carries its possible destinations when it was given a path map. */
  datatype Edge =
    | StaticEdge(src: string, dst: string)
    | ConditionalEdge(src: string, pathMap: Option<seq<string>>)

  datatype GraphError =
    | Reserved(name: string)
    | AlreadyRegistered(name: string)
    | EdgeConflict(src: string, dst: string)
    | NodeNotFound(name: string)
    | NoStartEdge

  function Destinations(e: Edge): seq<string> {
    match e
    case StaticEdge(_, dst) => [dst]
    case ConditionalEdge(_, Some(targets)) => targets
    case ConditionalEdge(_, None) => []
  }

  predicate HasNode(nodes: seq<NodeDef>, name: string) {
    exists i :: 0 <= i < |nodes| && nodes[i].name == name
  }

  lemma HasNodeAppend(nodes: seq<NodeDef>, d: NodeDef, name: string)
    ensures HasNode(nodes + [d], name) <==> HasNode(nodes, name) || name == d.name
  {
    if HasNode(nodes, name) {
      var i :| 0 <= i < |nodes| && nodes[i].name == name;
      assert (nodes + [d])[i].name == name;
    }
    assert (nodes + [d])[|nodes|] == d;
  }

  ghost predicate DistinctNames(nodes: seq<NodeDef>) {
    forall i, j :: 0 <= i < j < |nodes| ==> nodes[i].name != nodes[j].name
  }

  predicate NoReserved(nodes: seq<NodeDef>) {
    forall i :: 0 <= i < |nodes| ==> nodes[i].name != START && nodes[i].name != END
  }

  ghost predicate DistinctStatic(edges: seq<Edge>) {
    forall i, j :: 0 <= i < j < |edges| && edges[i].StaticEdge? ==> edges[i] != edges[j]
  }

  ghost predicate EdgeInPlace(nodes: seq<NodeDef>, e: Edge) {
    && (e.src == START || HasNode(nodes, e.src))
    && forall d :: d in Destinations(e) ==> d == END || HasNode(nodes, d)
  }

  ghost predicate WellFormed(nodes: seq<NodeDef>, edges: seq<Edge>) {
    && (forall e :: e in edges ==> EdgeInPlace(nodes, e))
    && exists e :: e in edges && e.src == START
  }

  function StaticEdges(src: string, targets: seq<string>): seq<Edge> {
    if targets == [] then []
    else StaticEdges(src, targets[..|targets| - 1]) + [StaticEdge(src, targets[|targets| - 1])]
  }

  class StateGraph {
    var nodes: seq<NodeDef>
    var edges: seq<Edge>

    ghost predicate Valid()
      reads this
    {
      DistinctNames(nodes) && DistinctStatic(edges)
    }

    constructor ()
      ensures Valid() && nodes == [] && edges == []
    {
      nodes, edges := [], [];
    }

    method AddNode(name: string, hasRetry: bool) returns (r: Result<(), GraphError>)
      requires Valid()
      modifies this`nodes
      ensures Valid()
      ensures r.Ok? <==> name != START && name != END && !HasNode(old(nodes), name)
      ensures nodes == old(nodes) + if r.Ok? then [NodeDef(name, hasRetry, false)] else []
      ensures NoReserved(old(nodes)) ==> NoReserved(nodes)
    {
      if name == START || name == END {
        return Err(Reserved(name));
      }
      if HasNode(nodes, name) {
        return Err(AlreadyRegistered(name));
      }
      nodes := nodes + [NodeDef(name, hasRetry, false)];
      return Ok(());
    }

    /** Unlike `AddNode`, this keeps reserved names out only when its caller does. */
    method AddSubgraph(name: string, hasRetry: bool) returns (r: Result<(), GraphError>)
      requires Valid()
      modifies this`nodes
      ensures Valid()
      ensures r.Ok? <==> !HasNode(old(nodes), name)
      ensures nodes == old(nodes) + if r.Ok? then [NodeDef(name, hasRetry, true)] else []
      ensures NoReserved(old(nodes)) ==> (NoReserved(nodes) <==> name != START && name != END)
    {
      if HasNode(nodes, name) {
        return Err(AlreadyRegistered(name));
      }
      nodes := nodes + [NodeDef(name, hasRetry, true)];
      assert nodes[|nodes| - 1].name == name;
      return Ok(());
    }

    /** A failed call leaves the edges before the first duplicate, so it changes nothing only if that comes first. */
    method AddEdge(src: string, targets: seq<string>) returns (r: Result<(), GraphError>)
      requires Valid()
      modifies this`edges
      ensures Valid()
      ensures r.Ok? ==> edges == old(edges) + StaticEdges(src, targets)
      ensures r.Err? ==>
                exists k ::
                  && 0 <= k < |targets|
                  && r.error == EdgeConflict(src, targets[k])
                  && edges == old(edges) + StaticEdges(src, targets[..k])
                  && StaticEdge(src, targets[k]) in edges
      ensures r.Err? ==> (edges == old(edges) <==> StaticEdge(src, targets[0]) in old(edges))
    {
      for k := 0 to |targets|
        invariant Valid() && edges == old(edges) + StaticEdges(src, targets[..k]) && |edges| == |old(edges)| + k
        invariant k > 0 ==> StaticEdge(src, targets[0]) !in old(edges)
      {
        var e := StaticEdge(src, targets[k]);
        if e in edges {
          return Err(EdgeConflict(src, targets[k]));
        }
        assert targets[..k + 1][..k] == targets[..k];
        edges := edges + [e];
      }
      assert targets[..|targets|] == targets;
      return Ok(());
    }

    method AddConditionalEdges(src: string, pathMap: Option<seq<string>>)
      requires Valid()
      modifies this`edges
      ensures Valid() && edges == old(edges) + [ConditionalEdge(src, pathMap)]
    {
      edges := edges + [ConditionalEdge(src, pathMap)];
    }

    /** Accepts exactly the well-formed graphs; a rejection names a missing node, or there is no start edge. */
    method Validate() returns (r: Result<(), GraphError>)
      ensures r.Ok? <==> WellFormed(nodes, edges)
      ensures r.Err? && r.error.NodeNotFound? ==>
                && !HasNode(nodes, r.error.name)
                && exists e :: e in edges && (e.src == r.error.name || r.error.name in Destinations(e))
      ensures r.Err? && !r.error.NodeNotFound? ==>
                && r.error == NoStartEdge
                && forall e :: e in edges ==> EdgeInPlace(nodes, e) && e.src != START
    {
      var hasStartEdge := false;
      for i := 0 to |edges|
        invariant hasStartEdge <==> exists e :: e in edges[..i] && e.src == START
        invariant forall e :: e in edges[..i] ==> EdgeInPlace(nodes, e)
      {
        var e := edges[i];
        if e.src == START {
          hasStartEdge := true;
        }
        match e {
          case StaticEdge(src, dst) =>
            assert dst in Destinations(e) && e in edges;
            if dst != END && !HasNode(nodes, dst) {
              return Err(NodeNotFound(dst));
            }
            if src != START && !HasNode(nodes, src) {
              return Err(NodeNotFound(src));
            }
          case ConditionalEdge(src, pathMap) =>
            if src != START && !HasNode(nodes, src) {
              assert e in edges && !EdgeInPlace(nodes, e);
              return Err(NodeNotFound(src));
            }
            if pathMap.Some? {
              for j := 0 to |pathMap.value|
                invariant forall d :: d in pathMap.value[..j] ==> d == END || HasNode(nodes, d)
              {
                assert pathMap.value[j] in Destinations(e) && e in edges;
                if pathMap.value[j] != END && !HasNode(nodes, pathMap.value[j]) {
                  return Err(NodeNotFound(pathMap.value[j]));
                }
              }
            }
        }
        assert EdgeInPlace(nodes, e);
        assert edges[..i + 1] == edges[..i] + [e];
      }
      assert edges[..|edges|] == edges;
      if !hasStartEdge {
        return Err(NoStartEdge);
      }
      return Ok(());
    }
  }

  // ---- Calls that keep less than promised ----

  /** A subgraph may take the name that a node may not. */
  method ReservedNameGetsIn() returns (g: StateGraph, refused: bool)
    ensures fresh(g) && g.Valid() && refused
    ensures g.nodes == [NodeDef(START, false, true)] && !NoReserved(g.nodes)
  {
    g := new StateGraph();
    var node := g.AddNode(START, false);
    var subgraph := g.AddSubgraph(START, false);
    refused := node.Err?;
  }

  lemma OnceOnly(src: string, dst: string, edges: seq<Edge>)
    requires DistinctStatic(edges)
    ensures edges != StaticEdges(src, [dst, dst])
    ensures forall k :: 0 <= k < 2 && edges == StaticEdges(src, [dst, dst][..k]) && StaticEdge(src, dst) in edges ==>
              edges == [StaticEdge(src, dst)]
  {
    var targets, e := [dst, dst], StaticEdge(src, dst);
    assert targets[..0] == [] && targets[..1] == [dst] && [dst][..0] == [];
    assert StaticEdges(src, [dst]) == [e] && StaticEdges(src, targets) == [e, e];
    assert [e, e][0] == [e, e][1];
  }

  /** A call that fails at its second target leaves the edge to its first. */
  method HalfTheEdgesStay(src: string, dst: string) returns (g: StateGraph, r: Result<(), GraphError>)
    ensures fresh(g) && g.Valid()
    ensures r == Err(EdgeConflict(src, dst)) && g.edges == [StaticEdge(src, dst)]
  {
    g := new StateGraph();
    r := g.AddEdge(src, [dst, dst]);
    OnceOnly(src, dst, g.edges);
    assert forall s: seq<Edge> :: [] + s == s;
  }
}
