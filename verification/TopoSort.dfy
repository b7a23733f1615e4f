/**
 Kahn's algorithm with ties broken by original position. The loop is proved to build a greedy order,
 and a greedy order over all nodes is the lexicographically least schedule.
 */
module TopoSort {
  import opened Sequences
  import opened DependencyGraph

  /** The successor list of `u`: one entry per edge, in edge order. */
  function Successors(nodes: seq<RequestId>, edges: seq<DependencyEdge>, u: RequestId): seq<RequestId> {
    if edges == [] then []
    else
      var front := Successors(nodes, edges[..|edges| - 1], u);
      var e := edges[|edges| - 1];
      if e.from == u && e.from in nodes && e.to in nodes then front + [e.to] else front
  }

  /** How many edges into `v` start at a node outside `done`. */
  ghost function InDegree(nodes: seq<RequestId>, edges: seq<DependencyEdge>, done: set<RequestId>, v: RequestId): nat {
    if edges == [] then 0
    else
      var front := InDegree(nodes, edges[..|edges| - 1], done, v);
      var e := edges[|edges| - 1];
      if e.to == v && e.from in nodes && e.to in nodes && e.from !in done then front + 1 else front
  }

  lemma {:induction false} SuccessorsAreEdgeTargets(g: Graph, u: RequestId, v: RequestId)
    ensures v in Successors(g.nodes, g.edges, u) <==> HasEdge(g, u, v)
    decreases |g.edges|
  {
    if g.edges != [] {
      var e := g.edges[|g.edges| - 1];
      var front := Graph(g.nodes, g.edges[..|g.edges| - 1]);
      assert g.edges == front.edges + [e];
      SuccessorsAreEdgeTargets(front, u, v);
    }
  }

  /** The count is zero exactly when every predecessor is done. */
  lemma {:induction false} InDegreeZero(g: Graph, done: set<RequestId>, v: RequestId)
    ensures InDegree(g.nodes, g.edges, done, v) == 0 <==> forall u :: HasEdge(g, u, v) ==> u in done
    decreases |g.edges|
  {
    if g.edges != [] {
      var e := g.edges[|g.edges| - 1];
      var front := Graph(g.nodes, g.edges[..|g.edges| - 1]);
      assert g.edges == front.edges + [e];
      InDegreeZero(front, done, v);
      forall u
        ensures HasEdge(g, u, v) <==> HasEdge(front, u, v) || (u == e.from && v == e.to && u in g.nodes && v in g.nodes)
      {
      }
    }
  }

  /** Running `u` lowers the count of `v` by the number of edges from `u` to `v`. */
  lemma {:induction false} RunningLowersInDegree(
      nodes: seq<RequestId>, edges: seq<DependencyEdge>, done: set<RequestId>, u: RequestId, v: RequestId)
    requires u !in done
    ensures InDegree(nodes, edges, done, v)
         == InDegree(nodes, edges, done + {u}, v) + multiset(Successors(nodes, edges, u))[v]
  {
    if edges != [] {
      RunningLowersInDegree(nodes, edges[..|edges| - 1], done, u, v);
    }
  }

  /** The position each node had originally. */
  ghost predicate OrdinalsOf(ordinals: map<RequestId, nat>, nodes: seq<RequestId>) {
    && ordinals.Keys == Elements(nodes)
    && forall n :: n in ordinals ==> ordinals[n] < |nodes| && nodes[ordinals[n]] == n
  }

  lemma OrdinalIsIndex(ordinals: map<RequestId, nat>, nodes: seq<RequestId>, x: RequestId)
    requires Distinct(nodes) && OrdinalsOf(ordinals, nodes) && x in nodes
    ensures x in ordinals && ordinals[x] == IndexOf(nodes, x)
  {
    assert x in Elements(nodes);
  }

  ghost predicate Ascending(ordinals: map<RequestId, nat>, s: seq<RequestId>) {
    && (forall x :: x in s ==> x in ordinals)
    && forall i, j :: 0 <= i < j < |s| ==> ordinals[s[i]] < ordinals[s[j]]
  }

  /** Filtering the nodes leaves them in ascending order, so the source's sort of the first ready list moves nothing. */
  lemma {:induction false} FilteredNodesAscend(
      ordinals: map<RequestId, nat>, nodes: seq<RequestId>, n: nat, p: RequestId -> bool)
    requires Distinct(nodes) && OrdinalsOf(ordinals, nodes) && n <= |nodes|
    ensures Ascending(ordinals, Filter(nodes[..n], p))
  {
    if n > 0 {
      FilteredNodesAscend(ordinals, nodes, n - 1, p);
      assert nodes[..n][..n - 1] == nodes[..n - 1];
      assert nodes[n - 1] in ordinals;
      assert ordinals[nodes[n - 1]] == n - 1;
      forall x | x in Filter(nodes[..n - 1], p)
        ensures x in ordinals && ordinals[x] < n - 1
      {
        var i :| 0 <= i < n - 1 && nodes[i] == x;
        assert nodes[i] in Elements(nodes);
      }
    }
  }

  /** Backwards scan for the insertion point, then `list.splice(index, 0, value)`. */
  method InsertSorted(list: seq<RequestId>, value: RequestId, ordinals: map<RequestId, nat>) returns (r: seq<RequestId>)
    requires Ascending(ordinals, list) && value in ordinals
    requires forall x :: x in list ==> ordinals[x] != ordinals[value]
    ensures Ascending(ordinals, r)
    ensures forall x :: x in r <==> x in list || x == value
  {
    var index := |list|;
    while index > 0 && ordinals[list[index - 1]] > ordinals[value]
      invariant 0 <= index <= |list|
      invariant index < |list| ==> ordinals[list[index]] > ordinals[value]
    {
      index := index - 1;
    }
    r := list[..index] + [value] + list[index..];
    AscendingConcat(list[..index], [value], ordinals);
    AscendingConcat(list[..index] + [value], list[index..], ordinals);
    assert list == list[..index] + list[index..];
  }

  lemma AscendingConcat(a: seq<RequestId>, b: seq<RequestId>, ordinals: map<RequestId, nat>)
    requires Ascending(ordinals, a) && Ascending(ordinals, b)
    requires a != [] && b != [] ==> ordinals[a[|a| - 1]] < ordinals[b[0]]
    ensures Ascending(ordinals, a + b)
  {
    forall i, j | 0 <= i < j < |a + b|
      ensures (a + b)[i] in ordinals && (a + b)[j] in ordinals && ordinals[(a + b)[i]] < ordinals[(a + b)[j]]
    {
      if i < |a| <= j {
        assert i == |a| - 1 || ordinals[a[i]] < ordinals[a[|a| - 1]];
        assert j == |a| || ordinals[b[0]] < ordinals[b[j - |a|]];
      }
    }
  }

  /** What the main loop keeps: `remaining` counts unscheduled predecessors and `ready` lists the enabled nodes. */
  ghost predicate KahnInvariant(
      g: Graph, ordinals: map<RequestId, nat>, remaining: map<RequestId, int>,
      ready: seq<RequestId>, order: seq<RequestId>)
  {
    && Greedy(g, order)
    && Counted(g, remaining, order, [])
    && Ascending(ordinals, ready)
    && ReadyIsEnabled(g, remaining, ready, order)
  }

  /** Every count is right once the successors still to be visited are taken off. */
  ghost predicate Counted(g: Graph, remaining: map<RequestId, int>, order: seq<RequestId>, pending: seq<RequestId>) {
    && remaining.Keys == Elements(g.nodes)
    && (forall n :: n in remaining ==>
          remaining[n] == InDegree(g.nodes, g.edges, Elements(order), n) + multiset(pending)[n])
    && (forall n :: n in order ==> n in remaining && remaining[n] == 0)
  }

  ghost predicate ReadyIsEnabled(
      g: Graph, remaining: map<RequestId, int>, ready: seq<RequestId>, order: seq<RequestId>)
  {
    forall n :: n in ready <==> n in remaining && n !in order && remaining[n] == 0
  }

  /** The nodes the main loop never reached, in original order. */
  function Leftover(nodes: seq<RequestId>, scheduled: seq<RequestId>): seq<RequestId> {
    Filter(nodes, n => n !in scheduled)
  }

  /** What the sort returns on any graph: a greedy part, then the nodes it could not schedule in original order. */
  ghost predicate GreedyThenRest(g: Graph, order: seq<RequestId>, k: nat) {
    && k <= |order|
    && Greedy(g, order[..k])
    && Stuck(g, order[..k])
    && order[k..] == Leftover(g.nodes, order[..k])
  }

  lemma {:induction false} GreedyIsDistinct(g: Graph, order: seq<RequestId>)
    requires Greedy(g, order)
    ensures Distinct(order) && Elements(order) <= Elements(g.nodes)
  {
    GreedyIsRunnable(g, order);
    RunnableIsDistinct(g, order);
  }

  lemma GreedyFits(g: Graph, order: seq<RequestId>)
    requires Distinct(g.nodes) && Greedy(g, order)
    ensures |order| <= |g.nodes|
    ensures |order| == |g.nodes| ==> Elements(order) == Elements(g.nodes)
  {
    GreedyIsDistinct(g, order);
    DistinctCardinality(order);
    DistinctCardinality(g.nodes);
    SubsetCardinality(Elements(order), Elements(g.nodes));
  }

  /** Taking the first ready node extends a greedy order. */
  lemma {:induction false} FirstReadyIsGreedy(
      g: Graph, ordinals: map<RequestId, nat>, remaining: map<RequestId, int>,
      ready: seq<RequestId>, order: seq<RequestId>)
    requires Distinct(g.nodes) && OrdinalsOf(ordinals, g.nodes)
    requires KahnInvariant(g, ordinals, remaining, ready, order)
    requires ready != []
    ensures Greedy(g, order + [ready[0]])
  {
    var longer := order + [ready[0]];
    forall i | 0 <= i < |longer|
      ensures GreedyAt(g, longer, i)
    {
      if i < |order| {
        assert GreedyAt(g, order, i);
        assert longer[..i] == order[..i];
      } else {
        assert longer[..i] == order;
        assert ready[0] in Elements(g.nodes);
        InDegreeZero(g, Elements(order), ready[0]);
        forall y | Enabled(g, Elements(order), y)
          ensures IndexOf(g.nodes, ready[0]) <= IndexOf(g.nodes, y)
        {
          assert y in Elements(g.nodes);
          InDegreeZero(g, Elements(order), y);
          assert y in ready;
          OrdinalIsIndex(ordinals, g.nodes, y);
          OrdinalIsIndex(ordinals, g.nodes, ready[0]);
        }
      }
    }
  }

  /** Once the run queue is empty nothing is enabled. */
  lemma EmptyReadyIsStuck(
      g: Graph, ordinals: map<RequestId, nat>, remaining: map<RequestId, int>, order: seq<RequestId>)
    requires KahnInvariant(g, ordinals, remaining, [], order)
    ensures Stuck(g, order)
  {
    forall x
      ensures !Enabled(g, Elements(order), x)
    {
      assert x in g.nodes ==> x in remaining;
      InDegreeZero(g, Elements(order), x);
    }
  }

  /** The loop that gives every node its ordinal and an empty entry in both maps. */
  method IndexNodes(nodes: seq<RequestId>)
    returns (ordinals: map<RequestId, nat>, adjacency: map<RequestId, seq<RequestId>>, inDegree: map<RequestId, int>)
    requires Distinct(nodes)
    ensures OrdinalsOf(ordinals, nodes)
    ensures adjacency.Keys == inDegree.Keys == Elements(nodes)
    ensures forall n :: n in adjacency ==> adjacency[n] == [] && inDegree[n] == 0
  {
    ordinals, adjacency, inDegree := map[], map[], map[];
    for i := 0 to |nodes|
      invariant ordinals.Keys == adjacency.Keys == inDegree.Keys == Elements(nodes[..i])
      invariant forall n :: n in ordinals ==> ordinals[n] < i && nodes[ordinals[n]] == n
      invariant forall n :: n in adjacency ==> adjacency[n] == [] && inDegree[n] == 0
    {
      assert Elements(nodes[..i + 1]) == Elements(nodes[..i]) + {nodes[i]};
      ordinals := ordinals[nodes[i] := i];
      adjacency := adjacency[nodes[i] := []];
      inDegree := inDegree[nodes[i] := 0];
    }
    assert nodes[..|nodes|] == nodes;
  }

  /** The loop that adds each edge between two nodes to both maps. */
  method CountEdges(
      nodes: seq<RequestId>, edges: seq<DependencyEdge>,
      adjacency0: map<RequestId, seq<RequestId>>, inDegree0: map<RequestId, int>)
    returns (adjacency: map<RequestId, seq<RequestId>>, inDegree: map<RequestId, int>)
    requires adjacency0.Keys == inDegree0.Keys == Elements(nodes)
    requires forall n :: n in adjacency0 ==> adjacency0[n] == [] && inDegree0[n] == 0
    ensures adjacency.Keys == inDegree.Keys == Elements(nodes)
    ensures forall n :: n in adjacency ==> adjacency[n] == Successors(nodes, edges, n)
    ensures forall n :: n in inDegree ==> inDegree[n] == InDegree(nodes, edges, {}, n)
  {
    adjacency, inDegree := adjacency0, inDegree0;
    for i := 0 to |edges|
      invariant adjacency.Keys == inDegree.Keys == Elements(nodes)
      invariant forall n :: n in adjacency ==> adjacency[n] == Successors(nodes, edges[..i], n)
      invariant forall n :: n in inDegree ==> inDegree[n] == InDegree(nodes, edges[..i], {}, n)
    {
      var edge := edges[i];
      assert edges[..i + 1][..i] == edges[..i];
      if edge.from in adjacency && edge.to in inDegree {
        adjacency := adjacency[edge.from := adjacency[edge.from] + [edge.to]];
        inDegree := inDegree[edge.to := inDegree[edge.to] + 1];
      }
    }
    assert edges[..|edges|] == edges;
  }

  /** Takes one off each successor's count and queues those that reach zero. */
  method VisitSuccessors(
      ghost g: Graph, ordinals: map<RequestId, nat>, successors: seq<RequestId>, ghost order: seq<RequestId>,
      remaining0: map<RequestId, int>, ready0: seq<RequestId>)
    returns (remaining: map<RequestId, int>, ready: seq<RequestId>)
    requires OrdinalsOf(ordinals, g.nodes)
    requires Counted(g, remaining0, order, successors)
    requires Ascending(ordinals, ready0) && ReadyIsEnabled(g, remaining0, ready0, order)
    requires forall x :: x in successors ==> x in ordinals
    ensures Counted(g, remaining, order, [])
    ensures Ascending(ordinals, ready) && ReadyIsEnabled(g, remaining, ready, order)
  {
    remaining, ready := remaining0, ready0;
    for i := 0 to |successors|
      invariant Counted(g, remaining, order, successors[i..])
      invariant Ascending(ordinals, ready)
      invariant ReadyIsEnabled(g, remaining, ready, order)
    {
      var successor := successors[i];
      assert successors[i..] == [successor] + successors[i + 1..];
      assert successor in ordinals;
      var degree := remaining[successor] - 1;
      remaining := remaining[successor := degree];
      if degree == 0 {
        ready := InsertSorted(ready, successor, ordinals);
      }
    }
  }

  lemma FirstCounts(g: Graph, inDegree: map<RequestId, int>, ready: seq<RequestId>)
    requires inDegree.Keys == Elements(g.nodes)
    requires forall n :: n in inDegree ==> inDegree[n] == InDegree(g.nodes, g.edges, {}, n)
    requires ready == Filter(g.nodes, n => n in inDegree && inDegree[n] == 0)
    ensures Counted(g, inDegree, [], []) && ReadyIsEnabled(g, inDegree, ready, [])
  {
    assert Elements<RequestId>([]) == {};
  }

  /** Moving the first ready node to the order leaves its successors to be visited. */
  lemma TakeFirstReady(
      g: Graph, ordinals: map<RequestId, nat>, remaining: map<RequestId, int>,
      ready: seq<RequestId>, order: seq<RequestId>)
    requires OrdinalsOf(ordinals, g.nodes)
    requires KahnInvariant(g, ordinals, remaining, ready, order)
    requires ready != []
    ensures ready[0] in ordinals
    ensures forall x :: x in Successors(g.nodes, g.edges, ready[0]) ==> x in ordinals
    ensures Counted(g, remaining, order + [ready[0]], Successors(g.nodes, g.edges, ready[0]))
    ensures Ascending(ordinals, ready[1..]) && ReadyIsEnabled(g, remaining, ready[1..], order + [ready[0]])
  {
    var next := ready[0];
    assert Elements(order + [next]) == Elements(order) + {next};
    forall x | x in Successors(g.nodes, g.edges, next)
      ensures x in ordinals
    {
      SuccessorsAreEdgeTargets(g, next, x);
      assert x in Elements(g.nodes);
    }
    forall n | n in remaining
      ensures remaining[n] == InDegree(g.nodes, g.edges, Elements(order + [next]), n)
                           + multiset(Successors(g.nodes, g.edges, next))[n]
    {
      RunningLowersInDegree(g.nodes, g.edges, Elements(order), next, n);
    }
    forall n
      ensures n in ready[1..] <==> n in ready && n != next
    {
      assert ready == [next] + ready[1..];
    }
  }

  method TopoSort(nodes: seq<RequestId>, edges: seq<DependencyEdge>) returns (order: seq<RequestId>, reordered: bool)
    requires Distinct(nodes)
    ensures multiset(order) == multiset(nodes)
    ensures reordered <==> order != nodes
    ensures Acyclic(Graph(nodes, edges)) ==> LeastSchedule(Graph(nodes, edges), order)
    ensures Acyclic(Graph(nodes, edges)) && Forward(Graph(nodes, edges), nodes) ==> !reordered
    ensures exists k :: GreedyThenRest(Graph(nodes, edges), order, k)
  {
    ghost var g := Graph(nodes, edges);
    var ordinals, adjacency, inDegree := IndexNodes(nodes);
    adjacency, inDegree := CountEdges(nodes, edges, adjacency, inDegree);
    var ready := Filter(nodes, n => n in inDegree && inDegree[n] == 0);
    FirstCounts(g, inDegree, ready);
    // Already ascending, so sorting by ordinal leaves it alone.
    assert Ascending(ordinals, ready) by {
      assert nodes[..|nodes|] == nodes;
      FilteredNodesAscend(ordinals, nodes, |nodes|, n => n in inDegree && inDegree[n] == 0);
    }
    var remaining := inDegree;
    order := [];
    while ready != []
      invariant KahnInvariant(g, ordinals, remaining, ready, order)
      decreases |nodes| - |order|
    {
      FirstReadyIsGreedy(g, ordinals, remaining, ready, order);
      TakeFirstReady(g, ordinals, remaining, ready, order);
      var next := ready[0];
      order := order + [next];
      GreedyFits(g, order);
      remaining, ready := VisitSuccessors(g, ordinals, adjacency[next], order, remaining, ready[1..]);
    }
    EmptyReadyIsStuck(g, ordinals, remaining, order);
    ghost var scheduled := order;
    if |order| != |nodes| {
      order := order + Leftover(nodes, order);
    }
    FinishOrder(g, scheduled, order);
    reordered := order != nodes;
  }

  /** Appending what is left completes the permutation, and nothing is left when the graph is acyclic. */
  lemma FinishOrder(g: Graph, scheduled: seq<RequestId>, order: seq<RequestId>)
    requires Distinct(g.nodes) && Greedy(g, scheduled) && Stuck(g, scheduled)
    requires order == if |scheduled| != |g.nodes| then scheduled + Leftover(g.nodes, scheduled) else scheduled
    ensures multiset(order) == multiset(g.nodes)
    ensures Acyclic(g) ==> LeastSchedule(g, order)
    ensures Acyclic(g) && Forward(g, g.nodes) ==> order == g.nodes
    ensures GreedyThenRest(g, order, |scheduled|)
  {
    GreedyIsDistinct(g, scheduled);
    GreedyFits(g, scheduled);
    assert order[..|scheduled|] == scheduled;
    var rest := Leftover(g.nodes, scheduled);
    assert |scheduled| != |g.nodes| ==> order[|scheduled|..] == rest;
    if |scheduled| != |g.nodes| {
      FilterKeepsDistinct(g.nodes, n => n !in scheduled);
      DisjointConcatIsDistinct(scheduled, rest);
      assert Elements(order) == Elements(g.nodes);
      SameElementsArePermutation(order, g.nodes);
      var x := rest[0];
      StuckMeansCyclic(g, scheduled, x);
    } else {
      assert forall n :: n in g.nodes ==> n in Elements(scheduled);
      FilterNothing(g.nodes, n => n !in scheduled);
      assert rest == order[|scheduled|..];
      SameElementsArePermutation(order, g.nodes);
      GreedyIsLeast(g, order);
      ValidOrderIsLeast(g, order);
    }
  }
}
