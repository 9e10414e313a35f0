/** Kahn's algorithm with in-degree counters, and when its result is a full topological order. */
module TopoSort {
  import opened Sequences
  import opened Graph
  import opened CycleDetection

  /** Known edges into `v` whose source has not been processed; parallel edges count separately. */
  function CountIn(edges: seq<GraphEdge>, v: string, done: set<string>): nat {
    if edges == [] then 0
    else
      var e := edges[|edges| - 1];
      CountIn(edges[..|edges| - 1], v, done) + if Known(e) && e.dst == v && e.src !in done then 1 else 0
  }

  function Occurrences(s: seq<string>, v: string): nat {
    if s == [] then 0
    else Occurrences(s[..|s| - 1], v) + if s[|s| - 1] == v then 1 else 0
  }

  lemma {:induction false} OccurrencesConcat(s: seq<string>, t: seq<string>, v: string)
    ensures Occurrences(s + t, v) == Occurrences(s, v) + Occurrences(t, v)
  {
    if t == [] {
      assert s + t == s;
    } else {
      assert (s + t)[..|s + t| - 1] == s + t[..|t| - 1];
      OccurrencesConcat(s, t[..|t| - 1], v);
    }
  }

  /** Processing a node removes exactly its listed targets from the counts. */
  lemma {:induction false} CountAfter(edges: seq<GraphEdge>, v: string, done: set<string>, u: string)
    requires u !in done
    ensures CountIn(edges, v, done) == CountIn(edges, v, done + {u}) + Occurrences(Targets(edges, u), v)
  {
    if edges != [] {
      var e := edges[|edges| - 1];
      CountAfter(edges[..|edges| - 1], v, done, u);
      OccurrencesConcat(Targets(edges[..|edges| - 1], u), if Known(e) && e.src == u then [e.dst] else [], v);
      assert Occurrences([e.dst], v) == if e.dst == v then 1 else 0;
    }
  }

  lemma {:induction false} CountZero(edges: seq<GraphEdge>, v: string, done: set<string>)
    ensures CountIn(edges, v, done) == 0 <==>
            forall e :: e in edges && Known(e) && e.dst == v ==> e.src in done
  {
    if edges != [] {
      CountZero(edges[..|edges| - 1], v, done);
      assert edges == edges[..|edges| - 1] + [edges[|edges| - 1]];
    }
  }

  ghost predicate PredecessorsIn(edges: seq<GraphEdge>, v: string, done: set<string>) {
    forall e :: e in edges && Known(e) && e.dst == v ==> e.src in done
  }

  /** Nothing is listed before one of its predecessors. */
  ghost predicate RespectsEdges(nodes: set<string>, edges: seq<GraphEdge>, order: seq<string>) {
    forall i :: 0 <= i < |order| ==> PredecessorsIn(edges, order[i], Elements(order[..i]) * nodes)
  }

  /** Each node exactly once, every known edge's source before its target. */
  ghost predicate TopologicalOrder(nodes: set<string>, edges: seq<GraphEdge>, order: seq<string>) {
    Elements(order) == nodes && Distinct(order) && RespectsEdges(nodes, edges, order)
  }

  /** What is left out is stuck: it still waits for an edge from something unprocessed. */
  ghost predicate Maximal(nodes: set<string>, edges: seq<GraphEdge>, order: seq<string>) {
    forall v :: v in nodes && v !in order ==> !PredecessorsIn(edges, v, Elements(order) * nodes)
  }

  function NodeDegrees(nodes: set<string>, edges: seq<GraphEdge>): map<string, int> {
    map v | v in nodes + KnownTargets(edges) :: CountIn(edges, v, {})
  }

  method CountDegrees(nodes: seq<string>, edges: seq<GraphEdge>) returns (inDegree: map<string, int>)
    ensures inDegree == NodeDegrees(Elements(nodes), edges)
  {
    inDegree := map[];
    for i := 0 to |nodes|
      invariant inDegree == map n | n in nodes[..i] :: 0
    {
      inDegree := inDegree[nodes[i] := 0];
    }
    for i := 0 to |edges|
      invariant inDegree.Keys == Elements(nodes) + KnownTargets(edges[..i])
      invariant forall v :: CountIn(edges[..i], v, {}) == if v in inDegree then inDegree[v] else 0
    {
      var e := edges[i];
      assert edges[..i + 1][..i] == edges[..i];
      OneMoreTarget(edges[..i], e);
      assert edges[..i + 1] == edges[..i] + [e];
      if Known(e) {
        inDegree := inDegree[e.dst := (if e.dst in inDegree then inDegree[e.dst] else 0) + 1];
      }
    }
    assert edges[..|edges|] == edges;
  }

  function KnownTargets(edges: seq<GraphEdge>): set<string> {
    set e | e in edges && Known(e) :: e.dst
  }

  lemma OneMoreTarget(edges: seq<GraphEdge>, e: GraphEdge)
    ensures KnownTargets(edges + [e]) == KnownTargets(edges) + if Known(e) then {e.dst} else {}
  {
  }

  /**
   Before each pass: counters count the edges from unprocessed sources, and a
   counter is zero exactly when its node is queued or already listed, once.
   */
  ghost predicate Invariant(nodes: set<string>, edges: seq<GraphEdge>, deg: map<string, int>,
                            pendingOut: seq<string>, result: seq<string>, queue: seq<string>)
  {
    && nodes <= deg.Keys
    && Distinct(result + queue) && (forall x :: x in result + queue ==> x in deg)
    && (forall v :: v in deg ==> (deg[v] == 0 <==> v in result + queue))
    && (forall v :: v in deg ==>
          deg[v] == CountIn(edges, v, Elements(result) * nodes) + Occurrences(pendingOut, v))
    && RespectsEdges(nodes, edges, result)
  }

  /** Moving the head of the queue to the result leaves its out-edges to be counted off. */
  lemma Dequeued(nodes: set<string>, edges: seq<GraphEdge>, deg: map<string, int>,
                 result: seq<string>, queue: seq<string>, out: seq<string>)
    requires queue != [] && Invariant(nodes, edges, deg, [], result, queue)
    requires out == if queue[0] in nodes then Targets(edges, queue[0]) else []
    ensures Invariant(nodes, edges, deg, out, result + [queue[0]], queue[1..])
  {
    var node := queue[0];
    var result' := result + [node];
    assert result' + queue[1..] == result + queue;
    assert node in result + queue && node in deg && deg[node] == 0;
    assert node !in result by {
      forall k | 0 <= k < |result| ensures result[k] != node {
        assert (result + queue)[k] != (result + queue)[|result|];
      }
    }
    var done := Elements(result) * nodes;
    assert Elements(result') * nodes == if node in nodes then done + {node} else done;
    forall v | v in deg ensures deg[v] == CountIn(edges, v, Elements(result') * nodes) + Occurrences(out, v) {
      CountAfter(edges, v, done, node);
    }
    CountZero(edges, node, done);
    forall i | 0 <= i < |result'|
      ensures PredecessorsIn(edges, result'[i], Elements(result'[..i]) * nodes)
    {
      assert result'[..i] == result[..i];
      assert i == |result| ==> result[..i] == result;
    }
  }

  /** Counting off one out-edge enqueues its target exactly when nothing else is left to wait for. */
  lemma CountedOff(nodes: set<string>, edges: seq<GraphEdge>, deg: map<string, int>,
                   out: seq<string>, result: seq<string>, queue: seq<string>)
    requires out != [] && Invariant(nodes, edges, deg, out, result, queue) && out[0] in deg
    ensures var v := out[0];
            var queue' := if deg[v] - 1 == 0 then queue + [v] else queue;
            Invariant(nodes, edges, deg[v := deg[v] - 1], out[1..], result, queue')
  {
    var v := out[0];
    assert out == [v] + out[1..];
    forall x ensures Occurrences(out, x) == Occurrences(out[1..], x) + if x == v then 1 else 0 {
      OccurrencesConcat([v], out[1..], x);
    }
    assert deg[v] > 0 && v !in result + queue;
    var all := result + queue;
    assert result + (queue + [v]) == all + [v];
    assert Distinct(all + [v]);
  }

  function Filter(s: seq<string>, deg: map<string, int>): seq<string>
    requires forall x :: x in s ==> x in deg
  {
    if s == [] then []
    else (if deg[s[0]] == 0 then [s[0]] else []) + Filter(s[1..], deg)
  }

  lemma {:induction false} FilterKeeps(s: seq<string>, deg: map<string, int>)
    requires Distinct(s) && forall x :: x in s ==> x in deg
    ensures Distinct(Filter(s, deg))
    ensures forall x :: x in Filter(s, deg) <==> x in s && deg[x] == 0
  {
    if s != [] {
      assert forall x :: x in s[1..] ==> x in s;
      FilterKeeps(s[1..], deg);
      assert s == [s[0]] + s[1..];
      forall i | 0 <= i < |s[1..]| ensures s[1..][i] != s[0] {
        assert s[1..][i] == s[i + 1];
      }
    }
  }

  /** A node that is only an edge's target waits for that edge, so the queue need only hold declared nodes. */
  lemma InitialQueue(nodes: seq<string>, edges: seq<GraphEdge>, deg: map<string, int>, v: string)
    requires deg == NodeDegrees(Elements(nodes), edges) && Distinct(nodes) && v in deg
    ensures deg[v] == 0 <==> v in Filter(nodes, deg)
  {
    FilterKeeps(nodes, deg);
    CountZero(edges, v, {});
  }

  lemma InitialInvariant(nodes: seq<string>, edges: seq<GraphEdge>, queue: seq<string>)
    requires Distinct(nodes) && queue == Filter(nodes, NodeDegrees(Elements(nodes), edges))
    ensures Invariant(Elements(nodes), edges, NodeDegrees(Elements(nodes), edges), [], [], queue)
  {
    var deg, none := NodeDegrees(Elements(nodes), edges), [];
    FilterKeeps(nodes, deg);
    assert none + queue == queue;
    var done := Elements(none) * Elements(nodes);
    assert done == {};
    forall v | v in deg
      ensures deg[v] == 0 <==> v in queue
      ensures deg[v] == CountIn(edges, v, done) + Occurrences([], v)
    {
      InitialQueue(nodes, edges, deg, v);
    }
  }

  lemma FinalInvariant(nodes: set<string>, edges: seq<GraphEdge>, deg: map<string, int>, result: seq<string>)
    requires Invariant(nodes, edges, deg, [], result, [])
    ensures Distinct(result) && RespectsEdges(nodes, edges, result) && Maximal(nodes, edges, result)
    ensures Elements(result) <= deg.Keys
  {
    assert result + [] == result;
    forall v | v in nodes && v !in result ensures !PredecessorsIn(edges, v, Elements(result) * nodes) {
      CountZero(edges, v, Elements(result) * nodes);
    }
  }

  lemma OutputBound(deg: map<string, int>, result: seq<string>)
    requires Distinct(result) && Elements(result) <= deg.Keys
    ensures |result| <= |deg.Keys|
  {
    DistinctSize(result);
    SubsetSize(Elements(result), deg.Keys);
  }

  lemma {:induction false} DistinctSize(s: seq<string>)
    requires Distinct(s)
    ensures |Elements(s)| == |s|
  {
    if s != [] {
      var n := |s| - 1;
      DistinctSize(s[..n]);
      assert Elements(s) == Elements(s[..n]) + {s[n]};
      assert s[n] !in s[..n];
    }
  }

  lemma {:induction false} SubsetSize<T>(a: set<T>, b: set<T>)
    requires a <= b
    ensures |a| <= |b|
  {
    if a != {} {
      var x :| x in a;
      SubsetSize(a - {x}, b - {x});
    }
  }

  /** The inner loop: counts the neighbours off one by one, enqueuing each that reaches zero. */
  method CountOff(ghost known: set<string>, ghost edges: seq<GraphEdge>, inDegree: map<string, int>,
                  neighbors: seq<string>, ghost result: seq<string>, queue: seq<string>)
    returns (inDegree': map<string, int>, queue': seq<string>)
    requires Invariant(known, edges, inDegree, neighbors, result, queue)
    requires forall v :: v in neighbors ==> v in inDegree
    ensures Invariant(known, edges, inDegree', [], result, queue') && inDegree'.Keys == inDegree.Keys
  {
    inDegree', queue' := inDegree, queue;
    assert neighbors[0..] == neighbors;
    for i := 0 to |neighbors|
      invariant Invariant(known, edges, inDegree', neighbors[i..], result, queue')
      invariant inDegree'.Keys == inDegree.Keys
    {
      CountedOff(known, edges, inDegree', neighbors[i..], result, queue');
      assert neighbors[i..][1..] == neighbors[i + 1..];
      var deg := inDegree'[neighbors[i]] - 1;
      inDegree' := inDegree'[neighbors[i] := deg];
      if deg == 0 {
        queue' := queue' + [neighbors[i]];
      }
    }
  }

  lemma NeighborsCounted(nodes: set<string>, edges: seq<GraphEdge>, u: string)
    ensures forall v :: v in Targets(edges, u) ==> v in NodeDegrees(nodes, edges).Keys
  {
    forall v | v in Targets(edges, u) ensures v in NodeDegrees(nodes, edges).Keys {
      TargetsAreEdges(edges, u, v);
    }
  }

  /**
   For every edge list, cyclic or not: no node twice, none before one of its
   predecessors, and a node is left out only if it waits for one that is.
   */
  method TopoSort(nodes: seq<string>, edges: seq<GraphEdge>) returns (result: seq<string>)
    requires Distinct(nodes)
    ensures Distinct(result) && RespectsEdges(Elements(nodes), edges, result)
    ensures Maximal(Elements(nodes), edges, result)
    ensures Elements(result) <= NodeDegrees(Elements(nodes), edges).Keys
  {
    ghost var known := Elements(nodes);
    var inDegree := CountDegrees(nodes, edges);
    var adj := BuildAdjacency(nodes, edges);
    var queue := Filter(nodes, inDegree);
    result := [];
    InitialInvariant(nodes, edges, queue);
    while queue != []
      invariant inDegree.Keys == NodeDegrees(known, edges).Keys
      invariant Invariant(known, edges, inDegree, [], result, queue)
      decreases |inDegree.Keys| - |result|
    {
      var node := queue[0];
      var neighbors := if node in adj then adj[node] else [];
      Dequeued(known, edges, inDegree, result, queue, neighbors);
      queue := queue[1..];
      result := result + [node];
      ResultDistinct(result, queue, inDegree);
      NeighborsCounted(known, edges, node);
      inDegree, queue := CountOff(known, edges, inDegree, neighbors, result, queue);
    }
    FinalInvariant(known, edges, inDegree, result);
  }

  lemma ResultDistinct(result: seq<string>, queue: seq<string>, deg: map<string, int>)
    requires Distinct(result + queue) && forall x :: x in result + queue ==> x in deg
    ensures |result| <= |deg.Keys|
  {
    forall i, j | 0 <= i < j < |result| ensures result[i] != result[j] {
      assert (result + queue)[i] != (result + queue)[j];
    }
    forall x | x in result ensures x in deg {
      assert x in result + queue;
    }
    OutputBound(deg, result);
  }

  /** When every edge comes from a node, an acyclic graph is listed completely. */
  lemma AcyclicIsListed(nodes: set<string>, edges: seq<GraphEdge>, order: seq<string>)
    requires Acyclic(AdjacencyOf(nodes, edges))
    requires forall e :: e in edges && Known(e) ==> e.src in nodes
    requires Maximal(nodes, edges, order)
    ensures forall v :: v in nodes ==> v in order
  {
    var g := AdjacencyOf(nodes, edges);
    var left := nodes - Elements(order);
    if left != {} {
      forall v | v in left ensures HasPredecessorIn(g, left, v) {
        var e :| e in edges && Known(e) && e.dst == v && e.src !in Elements(order) * nodes;
        TargetsAreEdges(edges, e.src, v);
        assert Step(g, e.src, v);
      }
      NoSourceMeansCycle(g, left);
    }
    forall v | v in nodes ensures v in order {
      assert v !in left;
    }
  }
}
