/**
 Depth-first search for back edges. The detector's fields are the variables that the recursive `visit`
 closes over; `finished` is a ghost record of the order in which nodes become done.
 */
module CycleDetection {
  import opened Sequences
  import opened DependencyGraph
  import TopoSort

  datatype VisitState = InStack | Done

  function Interior(cycle: seq<RequestId>): seq<RequestId> {
    if cycle == [] then [] else cycle[..|cycle| - 1]
  }

  /** The node set of a cycle: the source sorts the interior nodes and joins them. */
  function CycleKey(cycle: seq<RequestId>): set<RequestId> {
    set n | n in Interior(cycle)
  }

  /** A closed walk that repeats nothing but its end. */
  ghost predicate SimpleCycle(g: Graph, cycle: seq<RequestId>) {
    ClosedWalk(g, cycle) && Distinct(Interior(cycle))
  }

  ghost predicate DistinctKeys(cycles: seq<seq<RequestId>>) {
    forall i, j :: 0 <= i < j < |cycles| ==> CycleKey(cycles[i]) != CycleKey(cycles[j])
  }

  /** Each finished node finished after all of its successors. */
  ghost predicate SinksFirst(g: Graph, finished: seq<RequestId>) {
    forall i, v :: 0 <= i < |finished| && HasEdge(g, finished[i], v) ==> v in finished[..i]
  }

  lemma SinksFirstExtends(g: Graph, finished: seq<RequestId>, node: RequestId)
    requires SinksFirst(g, finished)
    requires forall v :: HasEdge(g, node, v) ==> v in finished
    ensures SinksFirst(g, finished + [node])
  {
    var longer := finished + [node];
    forall i, v | 0 <= i < |longer| && HasEdge(g, longer[i], v)
      ensures v in longer[..i]
    {
      assert longer[..i] == finished[..i];
      assert i == |finished| ==> longer[..i] == finished;
    }
  }

  /** Finishing every node after its successors leaves no room for a closed walk. */
  lemma SinksFirstIsAcyclic(g: Graph, finished: seq<RequestId>)
    requires SinksFirst(g, finished)
    requires forall n :: n in g.nodes ==> n in finished
    ensures Acyclic(g)
  {
    forall w
      ensures !ClosedWalk(g, w)
    {
      if ClosedWalk(g, w) {
        assert HasEdge(g, w[0], w[1]);
        FinishedEarlier(g, finished, w, |w| - 1);
      }
    }
  }

  lemma {:induction false} FinishedEarlier(g: Graph, finished: seq<RequestId>, w: seq<RequestId>, k: nat)
    requires SinksFirst(g, finished)
    requires Walk(g, w) && 1 <= k < |w| && w[0] in finished
    ensures w[k] in finished && IndexOf(finished, w[k]) < IndexOf(finished, w[0])
  {
    if k > 1 {
      FinishedEarlier(g, finished, w, k - 1);
    }
    assert HasEdge(g, w[k - 1], w[k]);
    assert w[k] in finished[..IndexOf(finished, w[k - 1])];
  }

  /** The loops that fill the adjacency map. */
  method BuildAdjacency(g: Graph) returns (adjacency: map<RequestId, seq<RequestId>>)
    ensures adjacency.Keys == Elements(g.nodes)
    ensures forall n :: n in adjacency ==> adjacency[n] == TopoSort.Successors(g.nodes, g.edges, n)
  {
    adjacency := map[];
    for i := 0 to |g.nodes|
      invariant adjacency.Keys == Elements(g.nodes[..i])
      invariant forall n :: n in adjacency ==> adjacency[n] == []
    {
      adjacency := adjacency[g.nodes[i] := []];
    }
    assert g.nodes[..|g.nodes|] == g.nodes;
    for i := 0 to |g.edges|
      invariant adjacency.Keys == Elements(g.nodes)
      invariant forall n :: n in adjacency ==> adjacency[n] == TopoSort.Successors(g.nodes, g.edges[..i], n)
    {
      var edge := g.edges[i];
      assert g.edges[..i + 1][..i] == g.edges[..i];
      if edge.from in adjacency && edge.to in adjacency {
        adjacency := adjacency[edge.from := adjacency[edge.from] + [edge.to]];
      }
    }
    assert g.edges[..|g.edges|] == g.edges;
  }

  class CycleDetector {
    ghost const g: Graph
    const adjacency: map<RequestId, seq<RequestId>>
    var state: map<RequestId, VisitState>
    var stack: seq<RequestId>
    var cycles: seq<seq<RequestId>>
    var seenCycleKeys: set<set<RequestId>>
    ghost var finished: seq<RequestId>

    ghost predicate Valid()
      reads this
    {
      && adjacency.Keys == Elements(g.nodes)
      && (forall n :: n in adjacency ==> adjacency[n] == TopoSort.Successors(g.nodes, g.edges, n))
      && StatesTracked()
      && CyclesRecorded()
      && (cycles == [] ==> SinksFirst(g, finished))
    }

    ghost predicate StatesTracked()
      reads this
    {
      && state.Keys <= adjacency.Keys
      && Distinct(stack) && Walk(g, stack)
      && (forall n :: n in stack <==> n in state && state[n] == InStack)
      && (forall n :: n in finished <==> n in state && state[n] == Done)
    }

    ghost predicate CyclesRecorded()
      reads this
    {
      && (forall i :: 0 <= i < |cycles| ==> SimpleCycle(g, cycles[i]) && CycleKey(cycles[i]) in seenCycleKeys)
      && DistinctKeys(cycles)
      && (seenCycleKeys != {} ==> cycles != [])
    }

    constructor (graph: Graph, adjacency: map<RequestId, seq<RequestId>>)
      requires adjacency.Keys == Elements(graph.nodes)
      requires forall n :: n in adjacency ==> adjacency[n] == TopoSort.Successors(graph.nodes, graph.edges, n)
      ensures Valid() && g == graph && stack == [] && state == map[]
    {
      g, this.adjacency := graph, adjacency;
      state, stack, cycles, seenCycleKeys, finished := map[], [], [], {}, [];
    }

    /** A successor found on the stack closes a cycle; it is recorded unless its node set was seen before. */
    method RecordCycle(next: RequestId)
      requires Valid() && next in stack && HasEdge(g, stack[|stack| - 1], next)
      modifies this`cycles, this`seenCycleKeys
      ensures Valid() && cycles != [] && old(cycles) <= cycles
    {
      var startIndex := IndexOf(stack, next);
      var cyclePath := stack[startIndex..] + [next];
      StackSuffixIsCycle(g, stack, startIndex, next);
      var key := CycleKey(cyclePath);
      if key !in seenCycleKeys {
        seenCycleKeys := seenCycleKeys + {key};
        cycles := cycles + [cyclePath];
      }
    }

    method Enter(node: RequestId)
      requires Valid()
      requires node in adjacency && node !in state
      requires stack == [] || HasEdge(g, stack[|stack| - 1], node)
      modifies this`state, this`stack
      ensures Valid() && state == old(state)[node := InStack] && stack == old(stack) + [node]
    {
      state := state[node := InStack];
      stack := stack + [node];
    }

    method Leave(node: RequestId)
      requires Valid() && stack != [] && stack[|stack| - 1] == node
      requires cycles == [] ==> forall v :: HasEdge(g, node, v) ==> v in finished
      modifies this`state, this`stack, this`finished
      ensures Valid() && state == old(state)[node := Done] && stack == old(stack)[..|old(stack)| - 1]
    {
      if cycles == [] {
        SinksFirstExtends(g, finished, node);
      }
      assert stack == stack[..|stack| - 1] + [node];
      stack := stack[..|stack| - 1];
      state := state[node := Done];
      finished := finished + [node];
    }

    /** One iteration over the successors of the node on top of the stack. */
    method Follow(next: RequestId)
      requires Valid()
      requires stack != [] && HasEdge(g, stack[|stack| - 1], next)
      modifies this
      ensures Valid() && stack == old(stack) && old(cycles) <= cycles
      ensures OnlyFinishes(old(state), state, {})
      ensures forall n :: n in old(finished) ==> n in finished
      ensures cycles == [] ==> next in finished
      decreases adjacency.Keys - state.Keys, 1
    {
      assert next in Elements(g.nodes);
      if next !in state {
        Visit(next);
      } else if state[next] == InStack {
        RecordCycle(next);
      }
    }

    method FollowAll(node: RequestId, successors: seq<RequestId>)
      requires Valid() && stack != [] && stack[|stack| - 1] == node
      requires successors == TopoSort.Successors(g.nodes, g.edges, node)
      modifies this
      ensures Valid() && stack == old(stack) && old(cycles) <= cycles
      ensures OnlyFinishes(old(state), state, {})
      ensures cycles == [] ==> forall v :: HasEdge(g, node, v) ==> v in finished
      decreases adjacency.Keys - state.Keys, 2
    {
      for i := 0 to |successors|
        invariant Valid() && stack == old(stack) && old(cycles) <= cycles
        invariant OnlyFinishes(old(state), state, {})
        invariant cycles == [] ==> forall j :: 0 <= j < i ==> successors[j] in finished
      {
        TopoSort.SuccessorsAreEdgeTargets(g, node, successors[i]);
        Follow(successors[i]);
      }
      forall v | HasEdge(g, node, v)
        ensures v in successors
      {
        TopoSort.SuccessorsAreEdgeTargets(g, node, v);
      }
    }

    method Visit(node: RequestId)
      requires Valid()
      requires node in adjacency && node !in state
      requires stack == [] || HasEdge(g, stack[|stack| - 1], node)
      modifies this
      ensures Valid() && stack == old(stack) && old(cycles) <= cycles
      ensures node in finished && OnlyFinishes(old(state), state, {})
      decreases adjacency.Keys - state.Keys, 0
    {
      Enter(node);
      assert adjacency.Keys - state.Keys == old(adjacency.Keys - state.Keys) - {node};
      FollowAll(node, adjacency[node]);
      Leave(node);
    }
  }

  /** No state already assigned changes, and what was added outside `open` is done. */
  ghost predicate OnlyFinishes(
      before: map<RequestId, VisitState>, after: map<RequestId, VisitState>, open: set<RequestId>)
  {
    && (forall n :: n in before ==> n in after && after[n] == before[n])
    && (forall n :: n in after && n !in before && n !in open ==> after[n] == Done)
  }

  lemma StackSuffixIsCycle(g: Graph, stack: seq<RequestId>, start: nat, next: RequestId)
    requires Distinct(stack) && Walk(g, stack) && start < |stack| && stack[start] == next
    requires HasEdge(g, stack[|stack| - 1], next)
    ensures SimpleCycle(g, stack[start..] + [next])
  {
    var cycle := stack[start..] + [next];
    assert Interior(cycle) == stack[start..];
    forall i | 0 <= i < |cycle| - 1
      ensures HasEdge(g, cycle[i], cycle[i + 1])
    {
      if i < |cycle| - 2 {
        assert HasEdge(g, stack[start + i], stack[start + i + 1]);
      }
    }
  }

  method DetectCycles(graph: Graph) returns (hasCycle: bool, cycles: seq<seq<RequestId>>)
    ensures hasCycle <==> !Acyclic(graph)
    ensures hasCycle <==> cycles != []
    ensures forall i :: 0 <= i < |cycles| ==> SimpleCycle(graph, cycles[i])
    ensures DistinctKeys(cycles)
  {
    var adjacency := BuildAdjacency(graph);
    var detector := new CycleDetector(graph, adjacency);
    for i := 0 to |graph.nodes|
      invariant detector.Valid() && detector.g == graph && detector.stack == []
      invariant forall j :: 0 <= j < i ==> graph.nodes[j] in detector.state
    {
      if graph.nodes[i] !in detector.state {
        assert graph.nodes[i] in Elements(graph.nodes);
        detector.Visit(graph.nodes[i]);
      }
    }
    cycles := detector.cycles;
    hasCycle := |cycles| > 0;
    if cycles == [] {
      SinksFirstIsAcyclic(graph, detector.finished);
    } else {
      assert SimpleCycle(graph, cycles[0]);
    }
  }
}
