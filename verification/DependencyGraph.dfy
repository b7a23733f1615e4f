/** Dependency graphs over request ids, and what it means to order or to close a loop in one. */
module DependencyGraph {
  import opened Sequences
  import opened Wrappers

  type RequestId(==, !new)

  datatype EdgeKind = Implicit | Explicit

  /** `from` must run before `to`; implicit edges carry the variable that links them. */
  datatype DependencyEdge = DependencyEdge(from: RequestId, to: RequestId, kind: EdgeKind, variable: Option<string>)

  datatype Graph = Graph(nodes: seq<RequestId>, edges: seq<DependencyEdge>)

  /** Some edge of the graph leads from `u` to `v`, both being nodes of it. */
  ghost predicate HasEdge(g: Graph, u: RequestId, v: RequestId) {
    u in g.nodes && v in g.nodes && exists e :: e in g.edges && e.from == u && e.to == v
  }

  ghost predicate Walk(g: Graph, w: seq<RequestId>) {
    forall i :: 0 <= i < |w| - 1 ==> HasEdge(g, w[i], w[i + 1])
  }

  ghost predicate ClosedWalk(g: Graph, w: seq<RequestId>) {
    |w| >= 2 && w[0] == w[|w| - 1] && Walk(g, w)
  }

  ghost predicate Acyclic(g: Graph) {
    forall w :: !ClosedWalk(g, w)
  }

  /** Every edge between two members of `p` goes forward in `p`. */
  ghost predicate Forward(g: Graph, p: seq<RequestId>) {
    forall i, j :: 0 <= i < |p| && 0 <= j < |p| && HasEdge(g, p[i], p[j]) ==> i < j
  }

  /** An order in which every node can run: a permutation of the nodes with all edges forward. */
  ghost predicate Schedule(g: Graph, p: seq<RequestId>) {
    multiset(p) == multiset(g.nodes) && Forward(g, p)
  }

  /** `a` comes before `b` when nodes are compared by their original position. */
  ghost predicate LexLess(nodes: seq<RequestId>, a: seq<RequestId>, b: seq<RequestId>) {
    exists k :: 0 <= k < |a| && k < |b| && FirstDifference(nodes, a, b, k)
  }

  ghost predicate FirstDifference(nodes: seq<RequestId>, a: seq<RequestId>, b: seq<RequestId>, k: nat)
    requires k < |a| && k < |b|
  {
    && a[..k] == b[..k]
    && a[k] in nodes && b[k] in nodes && IndexOf(nodes, a[k]) < IndexOf(nodes, b[k])
  }

  /** The lexicographically least schedule. */
  ghost predicate LeastSchedule(g: Graph, p: seq<RequestId>) {
    Schedule(g, p) && forall q :: Schedule(g, q) ==> p == q || LexLess(g.nodes, p, q)
  }

  /** `x` may run next once exactly the nodes of `done` have run. */
  ghost predicate Enabled(g: Graph, done: set<RequestId>, x: RequestId) {
    x in g.nodes && x !in done && forall u :: HasEdge(g, u, x) ==> u in done
  }

  /** Each entry of `p` is the earliest node that was enabled at its turn. */
  ghost predicate Greedy(g: Graph, p: seq<RequestId>) {
    forall i :: 0 <= i < |p| ==> GreedyAt(g, p, i)
  }

  ghost predicate GreedyAt(g: Graph, p: seq<RequestId>, i: nat)
    requires i < |p|
  {
    && Enabled(g, Elements(p[..i]), p[i])
    && forall y :: Enabled(g, Elements(p[..i]), y) ==> IndexOf(g.nodes, p[i]) <= IndexOf(g.nodes, y)
  }

  /** A schedule rules every closed walk out: positions rise along a walk. */
  lemma {:induction false} ScheduleImpliesAcyclic(g: Graph, p: seq<RequestId>)
    requires Distinct(g.nodes)
    requires Schedule(g, p)
    ensures Acyclic(g)
  {
    PermutationKeepsDistinct(g.nodes, p);
    forall w
      ensures !ClosedWalk(g, w)
    {
      if ClosedWalk(g, w) {
        assert forall x :: x in p <==> x in Elements(g.nodes);
        assert HasEdge(g, w[0], w[1]);
        RanksRise(g, p, w, |w| - 1);
      }
    }
  }

  lemma {:induction false} RanksRise(g: Graph, p: seq<RequestId>, w: seq<RequestId>, k: nat)
    requires Forward(g, p) && Elements(p) == Elements(g.nodes)
    requires Walk(g, w) && 1 <= k < |w|
    ensures w[0] in p && w[k] in p && IndexOf(p, w[0]) < IndexOf(p, w[k])
  {
    assert HasEdge(g, w[k - 1], w[k]);
    assert w[k - 1] in Elements(p) && w[k] in Elements(p);
    if k > 1 {
      RanksRise(g, p, w, k - 1);
    }
  }

  lemma WalkExtends(g: Graph, u: RequestId, w: seq<RequestId>)
    requires |w| >= 1 && Walk(g, w) && HasEdge(g, u, w[0])
    ensures Walk(g, [u] + w)
  {
    var longer := [u] + w;
    forall i | 0 <= i < |longer| - 1
      ensures HasEdge(g, longer[i], longer[i + 1])
    {
      if i > 0 { assert HasEdge(g, w[i - 1], w[i - 1 + 1]); }
    }
  }

  lemma RevisitClosesAWalk(g: Graph, w: seq<RequestId>, k: nat)
    requires Walk(g, w) && 1 <= k < |w| && w[k] == w[0]
    ensures !Acyclic(g)
  {
    assert ClosedWalk(g, w[..k + 1]);
  }

  /** If every node of a non-empty set has a predecessor inside the set, the graph has a closed walk. */
  lemma {:induction false} StuckNodesCloseAWalk(
      g: Graph, stuck: set<RequestId>, pred: map<RequestId, RequestId>, w: seq<RequestId>)
    requires stuck <= pred.Keys
    requires forall x {:trigger pred[x]} :: x in stuck ==> pred[x] in stuck && HasEdge(g, pred[x], x)
    requires |w| >= 1 && Walk(g, w) && Distinct(w) && forall x :: x in w ==> x in stuck
    ensures !Acyclic(g)
    decreases |stuck| - |w|
  {
    assert w[0] in w;
    var u := pred[w[0]];
    var longer := [u] + w;
    WalkExtends(g, u, w);
    if u in w {
      var i := IndexOf(w, u);
      RevisitClosesAWalk(g, longer, i + 1);
    } else {
      DistinctPrepend(u, w);
      DistinctWithin(longer, stuck);
      StuckNodesCloseAWalk(g, stuck, pred, longer);
    }
  }

  /** Nothing outside `order` can run any more. */
  ghost predicate Stuck(g: Graph, order: seq<RequestId>) {
    forall x :: !Enabled(g, Elements(order), x)
  }

  ghost function BlockingPredecessor(g: Graph, order: seq<RequestId>, x: RequestId): (u: RequestId)
    requires x in g.nodes && x !in order && !Enabled(g, Elements(order), x)
    ensures HasEdge(g, u, x) && u !in order
  {
    var u :| HasEdge(g, u, x) && u !in Elements(order); u
  }

  lemma StuckMeansCyclic(g: Graph, order: seq<RequestId>, x: RequestId)
    requires Stuck(g, order)
    requires x in g.nodes && x !in order
    ensures !Acyclic(g)
  {
    var stuck := Elements(g.nodes) - Elements(order);
    var pred := map y | y in stuck :: BlockingPredecessor(g, order, y);
    StuckNodesCloseAWalk(g, stuck, pred, [x]);
  }

  /** Every entry could run when its turn came. */
  ghost predicate Runnable(g: Graph, order: seq<RequestId>) {
    forall i :: 0 <= i < |order| ==> Enabled(g, Elements(order[..i]), order[i])
  }

  /** As long as the graph is acyclic a runnable order can be extended to a schedule. */
  lemma {:induction false} RunnableExtends(g: Graph, order: seq<RequestId>) returns (p: seq<RequestId>)
    requires Distinct(g.nodes) && Acyclic(g) && Runnable(g, order)
    ensures Schedule(g, p)
    decreases |g.nodes| - |order|
  {
    RunnableIsDistinct(g, order);
    DistinctCardinality(order);
    DistinctCardinality(g.nodes);
    SubsetCardinality(Elements(order), Elements(g.nodes));
    if x :| Enabled(g, Elements(order), x) {
      var longer := order + [x];
      assert longer[..|order|] == order;
      assert forall i :: 0 <= i < |order| ==> longer[..i] == order[..i];
      RunnableIsDistinct(g, longer);
      DistinctCardinality(longer);
      SubsetCardinality(Elements(longer), Elements(g.nodes));
      p := RunnableExtends(g, longer);
    } else {
      p := order;
      forall x | x in g.nodes
        ensures x in order
      {
        if x !in order {
          StuckMeansCyclic(g, order, x);
        }
      }
      assert Elements(order) == Elements(g.nodes);
      SameElementsArePermutation(order, g.nodes);
      RunnableIsForward(g, order);
    }
  }

  lemma {:induction false} RunnableIsDistinct(g: Graph, order: seq<RequestId>)
    requires Runnable(g, order)
    ensures Distinct(order) && Elements(order) <= Elements(g.nodes)
  {
    forall i, j | 0 <= i < j < |order|
      ensures order[i] != order[j]
    {
      assert order[i] in Elements(order[..j]);
    }
  }

  lemma {:induction false} RunnableIsForward(g: Graph, p: seq<RequestId>)
    requires Runnable(g, p)
    ensures Forward(g, p)
  {
    RunnableIsDistinct(g, p);
    forall i, j | 0 <= i < |p| && 0 <= j < |p| && HasEdge(g, p[i], p[j])
      ensures i < j
    {
      assert p[i] in p[..j];
    }
  }

  /** A graph can be scheduled exactly when no closed walk runs through it. */
  lemma {:induction false} AcyclicIffSchedulable(g: Graph)
    requires Distinct(g.nodes)
    ensures Acyclic(g) <==> exists p :: Schedule(g, p)
  {
    if Acyclic(g) {
      var p := RunnableExtends(g, []);
    } else if p :| Schedule(g, p) {
      ScheduleImpliesAcyclic(g, p);
    }
  }

  lemma GreedyIsRunnable(g: Graph, p: seq<RequestId>)
    requires Greedy(g, p)
    ensures Runnable(g, p)
  {
    forall i | 0 <= i < |p|
      ensures Enabled(g, Elements(p[..i]), p[i])
    {
      assert GreedyAt(g, p, i);
    }
  }

  /** A greedy order over all nodes is the lexicographically least schedule. */
  lemma {:induction false} GreedyIsLeast(g: Graph, p: seq<RequestId>)
    requires Distinct(g.nodes)
    requires multiset(p) == multiset(g.nodes)
    requires Greedy(g, p)
    ensures LeastSchedule(g, p)
  {
    PermutationKeepsDistinct(g.nodes, p);
    GreedyIsRunnable(g, p);
    RunnableIsForward(g, p);
    forall q | Schedule(g, q) && p != q
      ensures LexLess(g.nodes, p, q)
    {
      PermutationKeepsDistinct(g.nodes, q);
      var k := FirstDifferenceAt(p, q);
      ScheduleEntryIsEnabled(g, q, k);
      assert GreedyAt(g, p, k);
      assert p[k] in g.nodes && q[k] in g.nodes;
      assert FirstDifference(g.nodes, p, q, k);
    }
  }

  lemma {:induction false} FirstDifferenceAt<T>(a: seq<T>, b: seq<T>) returns (k: nat)
    requires |a| == |b| && a != b
    ensures k < |a| && a[..k] == b[..k] && a[k] != b[k]
  {
    if a[0] != b[0] {
      k := 0;
    } else {
      assert a == [a[0]] + a[1..] && b == [b[0]] + b[1..];
      var rest := FirstDifferenceAt(a[1..], b[1..]);
      k := rest + 1;
      assert a[..k] == [a[0]] + a[1..][..rest] && b[..k] == [b[0]] + b[1..][..rest];
    }
  }

  lemma ScheduleEntryIsEnabled(g: Graph, q: seq<RequestId>, k: nat)
    requires Distinct(g.nodes) && Schedule(g, q) && k < |q|
    ensures Enabled(g, Elements(q[..k]), q[k])
  {
    PermutationKeepsDistinct(g.nodes, q);
    assert q[k] in Elements(g.nodes);
    forall u | HasEdge(g, u, q[k])
      ensures u in Elements(q[..k])
    {
      assert u in Elements(q);
      var i := IndexOf(q, u);
      assert HasEdge(g, q[i], q[k]);
    }
  }

  lemma AfterCommonPrefix(nodes: seq<RequestId>, p: seq<RequestId>, k: nat)
    requires Distinct(nodes) && Distinct(p) && k < |p| && k < |nodes|
    requires p[..k] == nodes[..k] && p[k] in nodes
    ensures IndexOf(nodes, nodes[k]) <= IndexOf(nodes, p[k])
  {
    forall i | 0 <= i < k
      ensures nodes[i] != p[k]
    {
      assert nodes[..k][i] == p[..k][i];
    }
  }

  /** The original order is the least schedule as soon as it is a schedule at all. */
  lemma {:induction false} ValidOrderIsLeast(g: Graph, p: seq<RequestId>)
    requires Distinct(g.nodes)
    requires LeastSchedule(g, p)
    ensures Forward(g, g.nodes) ==> p == g.nodes
  {
    if Forward(g, g.nodes) && p != g.nodes {
      assert Schedule(g, g.nodes);
      PermutationKeepsDistinct(g.nodes, p);
      var k :| 0 <= k < |p| && k < |g.nodes| && FirstDifference(g.nodes, p, g.nodes, k);
      AfterCommonPrefix(g.nodes, p, k);
    }
  }
}
