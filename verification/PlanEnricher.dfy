/** Turning a membership plan into a dependency-ordered plan, or refusing to. */
module PlanEnricher {
  import opened Sequences
  import opened Wrappers
  import opened DependencyGraph
  import opened DependRef
  import opened GraphBuilder
  import opened RunPlans
  import CycleDetection
  import TopoSort

  datatype Enrichment =
    | Enriched(plan: RunPlan, graph: Graph)
    | TokenRejected(code: BuildError)
    | DependencyCycle(cycles: seq<seq<RequestId>>)
    | UnknownRequest(requestId: RequestId)

  /** The sources of the explicit edges into `id`, in edge order. */
  function ExplicitTargets(edges: seq<DependencyEdge>, id: RequestId): seq<RequestId> {
    if edges == [] then []
    else
      var front, e := ExplicitTargets(edges[..|edges| - 1], id), edges[|edges| - 1];
      if e.kind == Explicit && e.to == id then front + [e.from] else front
  }

  function RequestOf(requests: seq<PlannedRequest>, id: RequestId): (r: PlannedRequest)
    requires id in RequestIds(requests)
    ensures r in requests && r.requestId == id
  {
    requests[IndexOf(RequestIds(requests), id)]
  }

  function AnalysisOf(analyses: seq<Analysis>, id: RequestId): (a: Analysis)
    requires id in Ids(analyses)
    ensures a in analyses && a.requestId == id
  {
    analyses[IndexOf(Ids(analyses), id)]
  }

  /** A planned request with its place, its analysis and its resolved `@depends-on` ids filled in. */
  function WithDependencies(
      planned: PlannedRequest, place: nat, analysis: Analysis, targets: seq<RequestId>): PlannedRequest {
    planned.(ordinal := place, produces := Some(analysis.produces), consumes := Some(analysis.consumes),
             dependsOnRequestIds := if targets == [] then planned.dependsOnRequestIds else Some(targets))
  }

  /** Request `i` of the enriched plan is the `i`-th scheduled member with its dependencies filled in. */
  ghost predicate EnrichedInOrder(
      members: seq<PlannedRequest>, analyses: seq<Analysis>, graph: Graph, order: seq<RequestId>,
      out: seq<PlannedRequest>)
  {
    && |out| == |order|
    && forall i :: 0 <= i < |out| ==> EnrichedAt(members, analyses, graph, order[i], i, out[i])
  }

  ghost predicate EnrichedAt(
      members: seq<PlannedRequest>, analyses: seq<Analysis>, graph: Graph, id: RequestId, i: nat, r: PlannedRequest)
  {
    && id in RequestIds(members) && id in Ids(analyses)
    && r == WithDependencies(RequestOf(members, id), i, AnalysisOf(analyses, id), ExplicitTargets(graph.edges, id))
  }

  ghost predicate IsEnrichment(membership: RunPlan, analyses: seq<Analysis>, autoReorder: bool, plan: RunPlan) {
    var index := MemberIndex(membership.requests);
    && EveryTokenResolves(analyses, index)
    && ExplicitEdges(analyses, index).Ok?
    && var graph := GraphOf(analyses, index);
    && Acyclic(graph)
    && plan.dependencies.Some?
    && var d := plan.dependencies.value;
    && (if autoReorder then LeastSchedule(graph, d.executionOrder) else d.executionOrder == graph.nodes)
    && EnrichedInOrder(membership.requests, analyses, graph, d.executionOrder, plan.requests)
    && d == Dependencies(analyses, graph.edges, d.executionOrder != RequestIds(membership.requests),
                         RequestIds(membership.requests), d.executionOrder, Unresolved(analyses, analyses))
  }

  /** What each outcome of enrichment says about the plan and its analyses. */
  ghost predicate Decided(membership: RunPlan, analyses: seq<Analysis>, autoReorder: bool, r: Enrichment) {
    var index := MemberIndex(membership.requests);
    match r
    case TokenRejected(code) =>
      ExplicitEdges(analyses, index) == Err(code)
    case DependencyCycle(cycles) =>
      && ExplicitEdges(analyses, index).Ok? && cycles != []
      && forall i :: 0 <= i < |cycles| ==> CycleDetection.SimpleCycle(GraphOf(analyses, index), cycles[i])
    case UnknownRequest(id) =>
      && ExplicitEdges(analyses, index).Ok? && Acyclic(GraphOf(analyses, index))
      && id in Ids(analyses) && id !in RequestIds(membership.requests)
    case Enriched(plan, graph) =>
      && ExplicitEdges(analyses, index).Ok? && graph == GraphOf(analyses, index)
      && IsEnrichment(membership, analyses, autoReorder, plan)
  }

  method IndexRequests(requests: seq<PlannedRequest>) returns (plannedById: map<RequestId, PlannedRequest>)
    requires Distinct(RequestIds(requests))
    ensures plannedById.Keys == Elements(RequestIds(requests))
    ensures forall id :: id in plannedById ==> plannedById[id] == RequestOf(requests, id)
  {
    plannedById := map[];
    var ids := RequestIds(requests);
    for i := 0 to |requests|
      invariant plannedById.Keys == Elements(ids[..i])
      invariant forall j :: 0 <= j < i ==> plannedById[ids[j]] == requests[j]
    {
      assert ids[..i + 1] == ids[..i] + [ids[i]];
      plannedById := plannedById[requests[i].requestId := requests[i]];
    }
    assert ids[..|requests|] == ids;
  }

  method IndexAnalyses(analyses: seq<Analysis>) returns (analysisById: map<RequestId, Analysis>)
    requires Distinct(Ids(analyses))
    ensures analysisById.Keys == Elements(Ids(analyses))
    ensures forall id :: id in analysisById ==> analysisById[id] == AnalysisOf(analyses, id)
  {
    analysisById := map[];
    var ids := Ids(analyses);
    for i := 0 to |analyses|
      invariant analysisById.Keys == Elements(ids[..i])
      invariant forall j :: 0 <= j < i ==> analysisById[ids[j]] == analyses[j]
    {
      assert ids[..i + 1] == ids[..i] + [ids[i]];
      analysisById := analysisById[analyses[i].requestId := analyses[i]];
    }
    assert ids[..|analyses|] == ids;
  }

  method CollectExplicitTargets(edges: seq<DependencyEdge>) returns (targetsById: map<RequestId, seq<RequestId>>)
    ensures forall id :: (if id in targetsById then targetsById[id] else []) == ExplicitTargets(edges, id)
  {
    targetsById := map[];
    for i := 0 to |edges|
      invariant forall id :: (if id in targetsById then targetsById[id] else []) == ExplicitTargets(edges[..i], id)
    {
      assert edges[..i + 1][..i] == edges[..i];
      var edge := edges[i];
      if edge.kind != Explicit {
        continue;
      }
      var list := if edge.to in targetsById then targetsById[edge.to] else [];
      targetsById := targetsById[edge.to := list + [edge.from]];
    }
    assert edges[..|edges|] == edges;
  }

  /** One planned request of the execution order, or the id when the plan does not list it. */
  method RebuildOne(
      ghost members: seq<PlannedRequest>, ghost analyses: seq<Analysis>, ghost graph: Graph, id: RequestId, place: nat,
      plannedById: map<RequestId, PlannedRequest>, analysisById: map<RequestId, Analysis>,
      targetsById: map<RequestId, seq<RequestId>>)
    returns (r: Result<PlannedRequest, RequestId>)
    requires Indexed(members, analyses, graph, plannedById, analysisById, targetsById)
    requires id in Ids(analyses)
    ensures r.Ok? <==> id in RequestIds(members)
    ensures r.Ok? ==> EnrichedAt(members, analyses, graph, id, place, r.value)
    ensures r.Err? ==> r.error == id
  {
    assert id in Elements(Ids(analyses));
    assert id in RequestIds(members) <==> id in Elements(RequestIds(members));
    if id !in plannedById {
      return Err(id);
    }
    var targets := if id in targetsById then targetsById[id] else [];
    r := Ok(WithDependencies(plannedById[id], place, analysisById[id], targets));
  }

  ghost predicate Indexed(
      members: seq<PlannedRequest>, analyses: seq<Analysis>, graph: Graph,
      plannedById: map<RequestId, PlannedRequest>, analysisById: map<RequestId, Analysis>,
      targetsById: map<RequestId, seq<RequestId>>)
  {
    && plannedById.Keys == Elements(RequestIds(members))
    && (forall id :: id in plannedById ==> plannedById[id] == RequestOf(members, id))
    && analysisById.Keys == Elements(Ids(analyses))
    && (forall id :: id in analysisById ==> analysisById[id] == AnalysisOf(analyses, id))
    && (forall id :: (if id in targetsById then targetsById[id] else []) == ExplicitTargets(graph.edges, id))
  }

  /** The mapping over the execution order; it stops at the first id the plan does not list. */
  method Rebuild(members: seq<PlannedRequest>, analyses: seq<Analysis>, graph: Graph, order: seq<RequestId>)
    returns (r: Result<seq<PlannedRequest>, RequestId>)
    requires Distinct(RequestIds(members)) && Distinct(Ids(analyses))
    requires forall id :: id in order ==> id in Ids(analyses)
    ensures r.Ok? ==> EnrichedInOrder(members, analyses, graph, order, r.value)
    ensures r.Err? ==> r.error in order && r.error !in RequestIds(members)
  {
    var plannedById := IndexRequests(members);
    var analysisById := IndexAnalyses(analyses);
    var targetsById := CollectExplicitTargets(graph.edges);
    r := RebuildInOrder(members, analyses, graph, order, plannedById, analysisById, targetsById);
  }

  method RebuildInOrder(
      ghost members: seq<PlannedRequest>, ghost analyses: seq<Analysis>, ghost graph: Graph, order: seq<RequestId>,
      plannedById: map<RequestId, PlannedRequest>, analysisById: map<RequestId, Analysis>,
      targetsById: map<RequestId, seq<RequestId>>)
    returns (r: Result<seq<PlannedRequest>, RequestId>)
    requires Indexed(members, analyses, graph, plannedById, analysisById, targetsById)
    requires forall id :: id in order ==> id in Ids(analyses)
    ensures r.Ok? ==> EnrichedInOrder(members, analyses, graph, order, r.value)
    ensures r.Err? ==> r.error in order && r.error !in RequestIds(members)
  {
    var requests := [];
    for i := 0 to |order|
      invariant |requests| == i && BuiltSoFar(members, analyses, graph, order, requests)
    {
      var next := RebuildOne(members, analyses, graph, order[i], i, plannedById, analysisById, targetsById);
      if next.Err? {
        return Err(next.error);
      }
      OneMoreBuilt(members, analyses, graph, order, requests, next.value);
      requests := requests + [next.value];
    }
    r := Ok(requests);
  }

  ghost predicate BuiltSoFar(
      members: seq<PlannedRequest>, analyses: seq<Analysis>, graph: Graph, order: seq<RequestId>,
      out: seq<PlannedRequest>)
  {
    |out| <= |order| && forall i :: 0 <= i < |out| ==> EnrichedAt(members, analyses, graph, order[i], i, out[i])
  }

  lemma OneMoreBuilt(
      members: seq<PlannedRequest>, analyses: seq<Analysis>, graph: Graph, order: seq<RequestId>,
      out: seq<PlannedRequest>,
      next: PlannedRequest)
    requires BuiltSoFar(members, analyses, graph, order, out) && |out| < |order|
    requires EnrichedAt(members, analyses, graph, order[|out|], |out|, next)
    ensures BuiltSoFar(members, analyses, graph, order, out + [next])
  {
    forall i | 0 <= i < |out|
      ensures EnrichedAt(members, analyses, graph, order[i], i, (out + [next])[i])
    {
      assert EnrichedAt(members, analyses, graph, order[i], i, out[i]);
    }
  }

  method EnrichRunPlan(membership: RunPlan, analyses: seq<Analysis>, autoReorder: bool) returns (r: Enrichment)
    requires Distinct(RequestIds(membership.requests)) && Distinct(Ids(analyses))
    ensures Decided(membership, analyses, autoReorder, r)
  {
    var index := MemberIndex(membership.requests);
    var originalOrder := RequestIds(membership.requests);
    TokensDecide(analyses, index);
    var built := BuildDependencyGraph(analyses, index);
    if built.Err? {
      return TokenRejected(built.error);
    }
    var graph := built.value.graph;
    var hasCycle, cycles := CycleDetection.DetectCycles(graph);
    if hasCycle {
      return DependencyCycle(cycles);
    }
    var executionOrder, reordered := graph.nodes, false;
    if autoReorder {
      executionOrder, reordered := TopoSort.TopoSort(graph.nodes, graph.edges);
      PermutationKeepsDistinct(graph.nodes, executionOrder);
    }
    assert forall id :: id in executionOrder <==> id in Elements(executionOrder);
    var requests := Rebuild(membership.requests, analyses, graph, executionOrder);
    if requests.Err? {
      return UnknownRequest(requests.error);
    }
    var dependencies := Dependencies(analyses, graph.edges, executionOrder != originalOrder,
                                     originalOrder, executionOrder, built.value.unresolvedConsumes);
    r := Enriched(RunPlan(requests.value, Some(dependencies)), graph);
  }

  /** The analyses describe exactly the plan's requests, in any order. */
  ghost predicate Aligned(membership: RunPlan, analyses: seq<Analysis>) {
    multiset(Ids(analyses)) == multiset(RequestIds(membership.requests))
  }

  /** The plan lists every analysed request. */
  ghost predicate AllListed(membership: RunPlan, analyses: seq<Analysis>) {
    forall id :: id in Ids(analyses) ==> id in RequestIds(membership.requests)
  }

  /**
   Enrichment succeeds exactly when every token resolves to one request, nothing depends on itself and the plan lists
   whatever was analysed; for analyses of the plan's own requests the unknown-id failure is unreachable.
   */
  lemma {:induction false} EnrichedIff(membership: RunPlan, analyses: seq<Analysis>, autoReorder: bool, r: Enrichment)
    requires Decided(membership, analyses, autoReorder, r)
    ensures var index := MemberIndex(membership.requests);
      r.Enriched? <==> EveryTokenResolves(analyses, index) && ExplicitEdges(analyses, index).Ok?
                       && Acyclic(GraphOf(analyses, index)) && AllListed(membership, analyses)
    ensures r.TokenRejected? <==> !EveryTokenResolves(analyses, MemberIndex(membership.requests))
    ensures r.UnknownRequest? ==> !AllListed(membership, analyses)
    ensures Aligned(membership, analyses) ==> !r.UnknownRequest?
  {
    TokensDecide(analyses, MemberIndex(membership.requests));
    if r.DependencyCycle? {
      assert CycleDetection.SimpleCycle(GraphOf(analyses, MemberIndex(membership.requests)), r.cycles[0]);
    }
    if r.Enriched? {
      EnrichedIsListed(membership, analyses, autoReorder, r.plan);
    }
    if Aligned(membership, analyses) {
      AlignedIsListed(membership, analyses);
    }
  }

  lemma AlignedIsListed(membership: RunPlan, analyses: seq<Analysis>)
    requires Aligned(membership, analyses)
    ensures AllListed(membership, analyses)
  {
    forall id | id in Ids(analyses)
      ensures id in RequestIds(membership.requests)
    {
      assert id in multiset(Ids(analyses));
    }
  }

  lemma EnrichedIsListed(membership: RunPlan, analyses: seq<Analysis>, autoReorder: bool, plan: RunPlan)
    requires IsEnrichment(membership, analyses, autoReorder, plan)
    ensures AllListed(membership, analyses)
  {
    var graph := GraphOf(analyses, MemberIndex(membership.requests));
    var order := plan.dependencies.value.executionOrder;
    assert multiset(order) == multiset(Ids(analyses));
    forall id | id in Ids(analyses)
      ensures id in RequestIds(membership.requests)
    {
      assert id in multiset(order);
      var i :| 0 <= i < |order| && order[i] == id;
      assert EnrichedAt(membership.requests, analyses, graph, order[i], i, plan.requests[i]);
    }
  }

  /** Whatever must precede a listed request stands before it. */
  ghost predicate DependenciesFirst(analyses: seq<Analysis>, index: seq<IndexEntry>, ids: seq<RequestId>) {
    forall i, j {:trigger MustPrecede(analyses, index, ids[i], ids[j])} ::
      0 <= i < |ids| && 0 <= j < |ids| && MustPrecede(analyses, index, ids[i], ids[j]) ==> i < j
  }

  lemma ForwardOrderRunsDependenciesFirst(analyses: seq<Analysis>, index: seq<IndexEntry>, order: seq<RequestId>)
    requires EveryTokenResolves(analyses, index) && ExplicitEdges(analyses, index).Ok?
    requires Forward(GraphOf(analyses, index), order)
    requires forall i :: 0 <= i < |order| ==> order[i] in Ids(analyses)
    ensures DependenciesFirst(analyses, index, order)
  {
    forall i, j | 0 <= i < |order| && 0 <= j < |order| && MustPrecede(analyses, index, order[i], order[j])
      ensures i < j
    {
      GraphMeaning(analyses, index, order[i], order[j]);
    }
  }

  /**
   The enriched plan lists the analysed requests, numbers them by place and runs dependencies first; it is a
   permutation of the membership plan exactly when the analyses describe that plan's requests.
   */
  lemma {:induction false} EnrichedPlanIsOrdered(membership: RunPlan, analyses: seq<Analysis>, plan: RunPlan)
    requires IsEnrichment(membership, analyses, true, plan)
    ensures RequestIds(plan.requests) == plan.dependencies.value.executionOrder
    ensures multiset(RequestIds(plan.requests)) == multiset(Ids(analyses))
    ensures multiset(RequestIds(plan.requests)) == multiset(RequestIds(membership.requests))
        <==> Aligned(membership, analyses)
    ensures DependenciesFirst(analyses, MemberIndex(membership.requests), RequestIds(plan.requests))
    ensures forall i :: 0 <= i < |plan.requests| ==>
      plan.requests[i].ordinal == i && KeepsMember(membership, plan.requests[i])
  {
    var index := MemberIndex(membership.requests);
    var order := plan.dependencies.value.executionOrder;
    var graph := GraphOf(analyses, index);
    assert Schedule(graph, order);
    EntriesKeepMembers(membership, analyses, graph, order, plan.requests);
    IdsOfEntries(plan.requests, order);
    ForwardOrderRunsDependenciesFirst(analyses, index, order);
  }

  lemma {:induction false} ExplicitTargetsMeaning(edges: seq<DependencyEdge>, id: RequestId, u: RequestId)
    ensures u in ExplicitTargets(edges, id) <==>
      exists e :: e in edges && e.kind == Explicit && e.to == id && e.from == u
  {
    if edges != [] {
      var front, last := edges[..|edges| - 1], edges[|edges| - 1];
      assert edges == front + [last];
      ExplicitTargetsMeaning(front, id, u);
    }
  }

  /** The analysis names `u` in one of its tokens, and `u` is not the request itself. */
  ghost predicate DependsOn(a: Analysis, index: seq<IndexEntry>, u: RequestId) {
    u != a.requestId && exists token :: token in a.dependsOnNames && ResolveDependsOnToken(token, index) == Ok(u)
  }

  lemma TargetsIffDependsOn(analyses: seq<Analysis>, index: seq<IndexEntry>, a: Analysis, u: RequestId)
    requires EveryTokenResolves(analyses, index) && ExplicitEdges(analyses, index).Ok?
    requires Distinct(Ids(analyses)) && a in analyses
    ensures u in ExplicitTargets(GraphOf(analyses, index).edges, a.requestId) <==> DependsOn(a, index, u)
  {
    var g, e := GraphOf(analyses, index), DependencyEdge(u, a.requestId, Explicit, None);
    ExplicitTargetsMeaning(g.edges, a.requestId, u);
    ExplicitEdgesMeaning(analyses, index, e);
    NamesIffDependsOn(analyses, index, a, u);
    if x :| x in g.edges && x.kind == Explicit && x.to == a.requestId && x.from == u {
      EdgeMeaning(analyses, index, x);
    }
    assert e in ExplicitEdges(analyses, index).value ==> e in g.edges;
  }

  lemma NamesIffDependsOn(analyses: seq<Analysis>, index: seq<IndexEntry>, a: Analysis, u: RequestId)
    requires Distinct(Ids(analyses)) && a in analyses
    ensures u != a.requestId && Names(analyses, index, u, a.requestId) <==> DependsOn(a, index, u)
  {
    OnlyItsAnalysis(analyses, a);
  }

  lemma OnlyItsAnalysis(analyses: seq<Analysis>, a: Analysis)
    requires Distinct(Ids(analyses)) && a in analyses
    ensures forall c :: c in analyses && c.requestId == a.requestId ==> c == a
  {
    forall c | c in analyses && c.requestId == a.requestId
      ensures c == a
    {
      var i :| 0 <= i < |analyses| && analyses[i] == a;
      var j :| 0 <= j < |analyses| && analyses[j] == c;
      assert Ids(analyses)[i] == Ids(analyses)[j];
    }
  }

  /**
   Each request of the enriched plan carries what its own analysis says it produces and consumes, and the ids of the
   requests its tokens name; where they name none but itself, what the membership plan had.
   */
  lemma {:induction false} EnrichedFields(
      membership: RunPlan, analyses: seq<Analysis>, plan: RunPlan, i: nat, a: Analysis)
    requires IsEnrichment(membership, analyses, true, plan) && Distinct(Ids(analyses))
    requires i < |plan.requests| && a in analyses && a.requestId == plan.requests[i].requestId
    ensures plan.requests[i].produces == Some(a.produces) && plan.requests[i].consumes == Some(a.consumes)
    ensures var index := MemberIndex(membership.requests);
      if exists u :: DependsOn(a, index, u) then
        && plan.requests[i].dependsOnRequestIds.Some?
        && forall u :: u in plan.requests[i].dependsOnRequestIds.value <==> DependsOn(a, index, u)
      else
        exists m :: m in membership.requests && m.requestId == a.requestId
                 && plan.requests[i].dependsOnRequestIds == m.dependsOnRequestIds
  {
    var index := MemberIndex(membership.requests);
    var graph, order := GraphOf(analyses, index), plan.dependencies.value.executionOrder;
    assert EnrichedAt(membership.requests, analyses, graph, order[i], i, plan.requests[i]);
    OnlyItsAnalysis(analyses, a);
    var targets := ExplicitTargets(graph.edges, a.requestId);
    forall u
      ensures u in targets <==> DependsOn(a, index, u)
    {
      TargetsIffDependsOn(analyses, index, a, u);
    }
    if targets != [] {
      assert targets[0] in targets;
    }
  }

  lemma IdsOfEntries(requests: seq<PlannedRequest>, order: seq<RequestId>)
    requires |requests| == |order|
    requires forall i :: 0 <= i < |requests| ==> requests[i].requestId == order[i]
    ensures RequestIds(requests) == order
  {
  }

  lemma EntriesKeepMembers(
      membership: RunPlan, analyses: seq<Analysis>, graph: Graph, order: seq<RequestId>, out: seq<PlannedRequest>)
    requires EnrichedInOrder(membership.requests, analyses, graph, order, out)
    ensures |out| == |order|
    ensures forall i :: 0 <= i < |out| ==>
      && out[i].requestId == order[i] && order[i] in Ids(analyses)
      && out[i].ordinal == i && KeepsMember(membership, out[i])
  {
    forall i | 0 <= i < |out|
      ensures && out[i].requestId == order[i] && order[i] in Ids(analyses)
              && out[i].ordinal == i && KeepsMember(membership, out[i])
    {
      assert EnrichedAt(membership.requests, analyses, graph, order[i], i, out[i]);
    }
  }

  /** Apart from its place and dependency fields the request is the membership plan's. */
  ghost predicate KeepsMember(membership: RunPlan, r: PlannedRequest) {
    exists m :: m in membership.requests
             && r == m.(ordinal := r.ordinal, produces := r.produces, consumes := r.consumes,
                        dependsOnRequestIds := r.dependsOnRequestIds)
  }
}
