/** Depth-first cycle detection with its visited set, stack set and path. */
module CycleDetection {
  import opened Sequences
  import opened Graph

  class CycleFinder {
    const adj: Adjacency
    ghost const universe: set<string>

    var visited: set<string>
    var stack: set<string>
    var path: seq<string>
    var cycles: seq<seq<string>>
    /** Nodes whose search has returned, in the order in which it did. */
    ghost var finished: seq<string>

    ghost predicate Valid()
      reads this
    {
      Closed(adj, universe) && Consistent(adj, universe, visited, stack, path, cycles, finished)
    }

    constructor (adj: Adjacency, ghost universe: set<string>)
      requires Closed(adj, universe)
      ensures Valid() && this.adj == adj && this.universe == universe
      ensures visited == {} && path == [] && cycles == []
    {
      this.adj, this.universe := adj, universe;
      visited, stack, path, cycles, finished := {}, {}, [], [], [];
    }

    /**
     Searches from `node`, which the end of the path leads to. The path is as
     before, and the node's search has returned unless the edge that led to it
     was recorded as closing a cycle.
     */
    method Dfs(node: string)
      requires Valid() && node in universe
      requires path != [] ==> Step(adj, path[|path| - 1], node)
      modifies this
      ensures Valid() && path == old(path) && stack == old(stack)
      ensures old(visited) <= visited && node in visited
      ensures Elements(old(cycles)) <= Elements(cycles) && Elements(old(finished)) <= Elements(finished)
      ensures node in Elements(finished) || (path != [] && Closes(cycles, path[|path| - 1], node))
      decreases universe - visited
    {
      if node in stack {
        RecordCycle(node);
        return;
      }
      if node in visited {
        return;
      }

      Enter(node);
      var neighbors := if node in adj then adj[node] else [];
      for i := 0 to |neighbors|
        invariant Valid() && path == old(path) + [node] && stack == old(stack) + {node}
        invariant old(visited) + {node} <= visited
        invariant Elements(old(cycles)) <= Elements(cycles) && Elements(old(finished)) <= Elements(finished)
        invariant forall k :: 0 <= k < i ==> Dealt(cycles, finished, node, neighbors[k])
      {
        assert Step(adj, node, neighbors[i]);
        assert node in universe - old(visited);
        Dfs(neighbors[i]);
      }
      assert forall v :: Step(adj, node, v) ==> Dealt(cycles, finished, node, v);
      Leave(old(path), node);
    }

    method RecordCycle(node: string)
      requires Valid() && node in stack && Step(adj, path[|path| - 1], node)
      modifies this`cycles
      ensures Valid() && Elements(old(cycles)) <= Elements(cycles)
      ensures Closes(cycles, path[|path| - 1], node)
    {
      var cycleStart := IndexOf(path, node);
      Recorded(adj, universe, visited, stack, path, cycles, finished, cycleStart);
      cycles := cycles + [path[cycleStart..]];
    }

    method Enter(node: string)
      requires Valid() && node in universe && node !in visited
      requires path != [] ==> Step(adj, path[|path| - 1], node)
      modifies this`visited, this`stack, this`path
      ensures Valid() && visited == old(visited) + {node}
      ensures stack == old(stack) + {node} && path == old(path) + [node]
    {
      Entered(adj, universe, visited, stack, path, cycles, finished, node);
      visited := visited + {node};
      stack := stack + {node};
      path := path + [node];
    }

    method Leave(ghost before: seq<string>, node: string)
      requires Valid() && path == before + [node]
      requires forall v :: Step(adj, node, v) ==> Dealt(cycles, finished, node, v)
      modifies this`stack, this`path, this`finished
      ensures Valid() && path == before && stack == old(stack) - {node} && finished == old(finished) + [node]
    {
      Left(adj, universe, visited, stack, before, cycles, finished, node);
      assert (before + [node])[..|before|] == before;
      path := path[..|path| - 1];
      stack := stack - {node};
      finished := finished + [node];
    }
  }

  /** The edge leads to a node whose search has returned, or closes a recorded cycle. */
  ghost predicate Dealt(cycles: seq<seq<string>>, finished: seq<string>, u: string, v: string) {
    v in Elements(finished) || Closes(cycles, u, v)
  }

  ghost predicate Closed(adj: Adjacency, universe: set<string>) {
    adj.Keys <= universe && forall u, v :: Step(adj, u, v) ==> v in universe
  }

  /**
   The path is a walk over the nodes on the stack; every other visited node has
   finished; only simple cycles are recorded, and the finishing order ranks the
   finished nodes by all edges but those that close a recorded cycle.
   */
  ghost predicate Consistent(adj: Adjacency, universe: set<string>, visited: set<string>, stack: set<string>,
                             path: seq<string>, cycles: seq<seq<string>>, finished: seq<string>)
  {
    && visited <= universe
    && stack == Elements(path) && Distinct(path) && Walk(adj, path)
    && visited == stack + Elements(finished) && stack !! Elements(finished)
    && (forall c :: c in cycles ==> SimpleCycle(adj, c))
    && Ranked(Cut(adj, cycles), finished)
  }

  lemma Entered(adj: Adjacency, universe: set<string>, visited: set<string>, stack: set<string>,
                path: seq<string>, cycles: seq<seq<string>>, finished: seq<string>, node: string)
    requires Consistent(adj, universe, visited, stack, path, cycles, finished)
    requires node in universe && node !in visited
    requires path != [] ==> Step(adj, path[|path| - 1], node)
    ensures Consistent(adj, universe, visited + {node}, stack + {node}, path + [node], cycles, finished)
  {
    ExtendPath(adj, path, node);
  }

  lemma Left(adj: Adjacency, universe: set<string>, visited: set<string>, stack: set<string>,
             path: seq<string>, cycles: seq<seq<string>>, finished: seq<string>, node: string)
    requires Consistent(adj, universe, visited, stack, path + [node], cycles, finished)
    requires forall v :: Step(adj, node, v) ==> Dealt(cycles, finished, node, v)
    ensures Consistent(adj, universe, visited, stack - {node}, path, cycles, finished + [node])
  {
    var q := path + [node];
    assert q[|path|] == node;
    assert Distinct(path) by {
      forall i, j | 0 <= i < j < |path| ensures path[i] != path[j] {
        assert q[i] != q[j];
      }
    }
    assert node !in path by {
      forall k | 0 <= k < |path| ensures path[k] != node {
        assert q[k] != q[|path|];
      }
    }
    assert Elements(q) == Elements(path) + {node};
    assert Walk(adj, path) by {
      forall i {:trigger path[i]} | 0 <= i < |path| - 1 ensures Step(adj, path[i], path[i + 1]) {
        assert Step(adj, q[i], q[i + 1]);
      }
    }
    var f := finished + [node];
    assert f[..|f| - 1] == finished && f[|f| - 1] == node;
    assert Elements(f) == Elements(finished) + {node};
    CutSteps(adj, cycles);
  }

  lemma Recorded(adj: Adjacency, universe: set<string>, visited: set<string>, stack: set<string>,
                 path: seq<string>, cycles: seq<seq<string>>, finished: seq<string>, k: nat)
    requires Consistent(adj, universe, visited, stack, path, cycles, finished)
    requires k < |path| && Step(adj, path[|path| - 1], path[k])
    ensures var more := cycles + [path[k..]];
            && Consistent(adj, universe, visited, stack, path, more, finished)
            && Elements(cycles) <= Elements(more) && Closes(more, path[|path| - 1], path[k])
  {
    var c, more := path[k..], cycles + [path[k..]];
    RecordedCycle(adj, path, k);
    assert ClosedBy(c, path[|path| - 1], path[k]) && c in Elements(more);
    CutSteps(adj, cycles);
    CutSteps(adj, more);
    FewerStepsStayRanked(Cut(adj, cycles), Cut(adj, more), finished);
  }

  lemma ExtendPath(g: Adjacency, p: seq<string>, x: string)
    requires Walk(g, p) && Distinct(p) && x !in p && (p != [] ==> Step(g, p[|p| - 1], x))
    ensures Walk(g, p + [x]) && Distinct(p + [x]) && Elements(p + [x]) == Elements(p) + {x}
  {
    var q := p + [x];
    forall i {:trigger q[i]} | 0 <= i < |q| - 1 ensures Step(g, q[i], q[i + 1]) {
      if i < |p| - 1 {
        assert Step(g, p[i], p[i + 1]);
      }
    }
  }

  lemma RecordedCycle(g: Adjacency, p: seq<string>, k: nat)
    requires Walk(g, p) && Distinct(p) && k < |p| && Step(g, p[|p| - 1], p[k])
    ensures SimpleCycle(g, p[k..])
  {
    var c := p[k..];
    forall i {:trigger c[i]} | 0 <= i < |c| - 1 ensures Step(g, c[i], c[i + 1]) {
      assert Step(g, p[k + i], p[k + i + 1]);
    }
  }

  method IndexOf(s: seq<string>, x: string) returns (k: nat)
    requires x in s
    ensures k < |s| && s[k] == x && x !in s[..k]
  {
    k := 0;
    while s[k] != x
      invariant k < |s| && x !in s[..k]
      invariant x in s[k..]
      decreases |s| - k
    {
      k := k + 1;
    }
  }

  lemma AdjacencyTargets(nodes: set<string>, edges: seq<GraphEdge>)
    ensures forall u, v :: Step(AdjacencyOf(nodes, edges), u, v) ==> v in set e | e in edges :: e.dst
  {
    forall u, v | Step(AdjacencyOf(nodes, edges), u, v) ensures v in set e | e in edges :: e.dst {
      TargetsAreEdges(edges, u, v);
    }
  }

  /** Fills the adjacency lists edge by edge; an edge out of an unknown node is dropped. */
  method BuildAdjacency(nodes: seq<string>, edges: seq<GraphEdge>) returns (adj: Adjacency)
    ensures adj == AdjacencyOf(Elements(nodes), edges)
  {
    adj := map[];
    for i := 0 to |nodes|
      invariant adj == map n | n in nodes[..i] :: []
    {
      adj := adj[nodes[i] := []];
    }
    for i := 0 to |edges|
      invariant adj.Keys == Elements(nodes)
      invariant forall n :: n in adj ==> adj[n] == Targets(edges[..i], n)
    {
      var e := edges[i];
      assert edges[..i + 1][..i] == edges[..i];
      if Known(e) && e.src in adj {
        adj := adj[e.src := adj[e.src] + [e.dst]];
      }
    }
    assert edges[..|edges|] == edges;
  }

  /**
   No list is returned exactly when the graph of known edges is acyclic, every
   returned list is a simple cycle of that graph, and the lists account for all
   cycles: without the edges that close them the graph is acyclic.
   */
  method DetectCycles(nodes: seq<string>, edges: seq<GraphEdge>) returns (cycles: seq<seq<string>>)
    ensures cycles == [] <==> Acyclic(AdjacencyOf(Elements(nodes), edges))
    ensures forall c :: c in cycles ==> SimpleCycle(AdjacencyOf(Elements(nodes), edges), c)
    ensures Acyclic(Cut(AdjacencyOf(Elements(nodes), edges), cycles))
  {
    var adj := BuildAdjacency(nodes, edges);
    ghost var universe := Elements(nodes) + set e | e in edges :: e.dst;
    AdjacencyTargets(Elements(nodes), edges);
    var finder := new CycleFinder(adj, universe);
    for i := 0 to |nodes|
      invariant finder.Valid() && finder.path == [] && finder.adj == adj && finder.universe == universe
      invariant forall k :: 0 <= k < i ==> nodes[k] in Elements(finder.finished)
    {
      finder.Dfs(nodes[i]);
    }
    cycles := finder.cycles;
    RankedIsAcyclic(Cut(adj, cycles), finder.finished);
    if cycles == [] {
      CutSteps(adj, cycles);
      FewerStepsStayRanked(Cut(adj, cycles), adj, finder.finished);
      RankedIsAcyclic(adj, finder.finished);
    } else {
      assert cycles[0] in cycles;
    }
  }
}
