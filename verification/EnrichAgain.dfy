/** Enriching an enriched plan again, with its analyses listed in the new order, changes none of its requests. */
module EnrichAgain {
  import opened Sequences
  import opened Wrappers
  import opened DependencyGraph
  import opened DependRef
  import opened GraphBuilder
  import opened RunPlans
  import opened PlanEnricher

  // ---- Resolution does not depend on the order of the index ----

  lemma {:induction false} FilterMultiplicity<T(!new)>(s: seq<T>, p: T -> bool, x: T)
    ensures multiset(Filter(s, p))[x] == if p(x) then multiset(s)[x] else 0
  {
    if s != [] {
      FilterMultiplicity(s[..|s| - 1], p, x);
      assert s == s[..|s| - 1] + [s[|s| - 1]];
    }
  }

  lemma {:induction false} ResolutionIgnoresOrder(ref: DependRef, a: seq<IndexEntry>, b: seq<IndexEntry>)
    requires multiset(a) == multiset(b)
    ensures ResolveDependRef(ref, a).Found? <==> ResolveDependRef(ref, b).Found?
    ensures ResolveDependRef(ref, a).Found? ==> ResolveDependRef(ref, a) == ResolveDependRef(ref, b)
  {
    var p := (entry: IndexEntry) => Denotes(ref, entry);
    var inA, inB := Filter(a, p), Filter(b, p);
    forall x
      ensures multiset(inA)[x] == multiset(inB)[x]
    {
      FilterMultiplicity(a, p, x);
      FilterMultiplicity(b, p, x);
    }
    assert multiset(inA) == multiset(inB);
    assert |multiset(inA)| == |inA| && |multiset(inB)| == |inB|;
    if |inA| == 1 {
      assert inA[0] in multiset(inB);
      assert inB == [inB[0]];
    }
  }

  lemma TokenResolutionIgnoresOrder(token: string, a: seq<IndexEntry>, b: seq<IndexEntry>)
    requires multiset(a) == multiset(b)
    ensures ResolveDependsOnToken(token, a).Ok? <==> ResolveDependsOnToken(token, b).Ok?
    ensures ResolveDependsOnToken(token, a).Ok? ==> ResolveDependsOnToken(token, a) == ResolveDependsOnToken(token, b)
  {
    var ref := ParseDependRef(token);
    if ref.Some? {
      ResolutionIgnoresOrder(ref.value, a, b);
    }
  }

  // ---- The explicit edges into a request come from its own tokens ----

  function TokenTargets(id: RequestId, tokens: seq<string>, index: seq<IndexEntry>): seq<RequestId> {
    if tokens == [] then []
    else
      var front := TokenTargets(id, tokens[..|tokens| - 1], index);
      match ResolveDependsOnToken(tokens[|tokens| - 1], index)
      case Err(_) => front
      case Ok(target) => if target == id then front else front + [target]
  }

  lemma {:induction false} TargetsOfConcat(a: seq<DependencyEdge>, b: seq<DependencyEdge>, id: RequestId)
    ensures ExplicitTargets(a + b, id) == ExplicitTargets(a, id) + ExplicitTargets(b, id)
  {
    if b == [] {
      assert a + b == a;
    } else {
      assert (a + b)[..|a + b| - 1] == a + b[..|b| - 1];
      TargetsOfConcat(a, b[..|b| - 1], id);
    }
  }

  lemma {:induction false} NoTargets(edges: seq<DependencyEdge>, id: RequestId)
    requires forall e :: e in edges ==> e.kind == Implicit || e.to != id
    ensures ExplicitTargets(edges, id) == []
  {
    if edges != [] {
      assert edges[|edges| - 1] in edges;
      NoTargets(edges[..|edges| - 1], id);
    }
  }

  lemma {:induction false} TargetsOfTokens(id: RequestId, tokens: seq<string>, index: seq<IndexEntry>)
    requires TokenEdges(id, tokens, index).Ok?
    ensures ExplicitTargets(TokenEdges(id, tokens, index).value, id) == TokenTargets(id, tokens, index)
    ensures forall e :: e in TokenEdges(id, tokens, index).value ==> e.to == id
  {
    if tokens != [] {
      TargetsOfTokens(id, tokens[..|tokens| - 1], index);
    }
  }

  lemma {:induction false} NoTargetsOfOthers(analyses: seq<Analysis>, index: seq<IndexEntry>, id: RequestId)
    requires ExplicitEdges(analyses, index).Ok? && id !in Ids(analyses)
    ensures ExplicitTargets(ExplicitEdges(analyses, index).value, id) == []
  {
    if analyses != [] {
      var front, last := analyses[..|analyses| - 1], analyses[|analyses| - 1];
      assert Ids(analyses) == Ids(front) + [last.requestId];
      NoTargetsOfOthers(front, index, id);
      TargetsOfTokens(last.requestId, last.dependsOnNames, index);
      var more := TokenEdges(last.requestId, last.dependsOnNames, index).value;
      NoTargets(more, id);
      TargetsOfConcat(ExplicitEdges(front, index).value, more, id);
    }
  }

  lemma {:induction false} TargetsOfAnalyses(analyses: seq<Analysis>, index: seq<IndexEntry>, a: Analysis)
    requires ExplicitEdges(analyses, index).Ok? && Distinct(Ids(analyses)) && a in analyses
    ensures ExplicitTargets(ExplicitEdges(analyses, index).value, a.requestId)
         == TokenTargets(a.requestId, a.dependsOnNames, index)
  {
    var front, last := analyses[..|analyses| - 1], analyses[|analyses| - 1];
    assert analyses == front + [last] && Ids(analyses) == Ids(front) + [last.requestId];
    assert Ids(front) == Ids(analyses)[..|front|];
    LastIsNew(Ids(analyses));
    var more := TokenEdges(last.requestId, last.dependsOnNames, index).value;
    TargetsOfTokens(last.requestId, last.dependsOnNames, index);
    TargetsOfConcat(ExplicitEdges(front, index).value, more, a.requestId);
    if a == last {
      NoTargetsOfOthers(front, index, a.requestId);
    } else {
      IdsMember(front, a);
      TargetsOfAnalyses(front, index, a);
      NoTargets(more, a.requestId);
    }
  }

  lemma TargetsOfGraph(analyses: seq<Analysis>, index: seq<IndexEntry>, a: Analysis)
    requires ExplicitEdges(analyses, index).Ok? && Distinct(Ids(analyses)) && a in analyses
    ensures ExplicitTargets(GraphOf(analyses, index).edges, a.requestId)
         == TokenTargets(a.requestId, a.dependsOnNames, index)
  {
    var implicit := ImplicitEdges(analyses, analyses);
    forall e | e in implicit
      ensures e.kind == Implicit
    {
      ImplicitEdgesMeaning(analyses, analyses, e);
    }
    NoTargets(implicit, a.requestId);
    TargetsOfConcat(implicit, ExplicitEdges(analyses, index).value, a.requestId);
    TargetsOfAnalyses(analyses, index, a);
  }

  lemma {:induction false} TokenTargetsIgnoreOrder(
      id: RequestId, tokens: seq<string>, a: seq<IndexEntry>, b: seq<IndexEntry>)
    requires multiset(a) == multiset(b)
    ensures TokenTargets(id, tokens, a) == TokenTargets(id, tokens, b)
  {
    if tokens != [] {
      TokenTargetsIgnoreOrder(id, tokens[..|tokens| - 1], a, b);
      TokenResolutionIgnoresOrder(tokens[|tokens| - 1], a, b);
    }
  }

  // ---- The second enrichment ----

  /** The same analyses and the same index, each listed in another order. */
  ghost predicate Reshuffled(
      analyses: seq<Analysis>, index: seq<IndexEntry>, analyses': seq<Analysis>, index': seq<IndexEntry>)
  {
    multiset(index) == multiset(index') && forall a :: a in analyses <==> a in analyses'
  }

  lemma {:induction false} SameDependencies(
      analyses: seq<Analysis>, index: seq<IndexEntry>, analyses': seq<Analysis>, index': seq<IndexEntry>)
    requires Reshuffled(analyses, index, analyses', index')
    requires EveryTokenResolves(analyses, index)
    ensures EveryTokenResolves(analyses', index')
    ensures forall u, v :: MustPrecede(analyses, index, u, v) <==> MustPrecede(analyses', index', u, v)
  {
    forall t
      ensures ResolveDependsOnToken(t, index).Ok? <==> ResolveDependsOnToken(t, index').Ok?
      ensures ResolveDependsOnToken(t, index).Ok? ==>
        ResolveDependsOnToken(t, index) == ResolveDependsOnToken(t, index')
    {
      TokenResolutionIgnoresOrder(t, index, index');
    }
    forall u, v
      ensures Names(analyses, index, u, v) <==> Names(analyses', index', u, v)
      ensures Feeds(analyses, u, v) <==> Feeds(analyses', u, v)
    {
    }
  }

  /** Reshuffling keeps the graph's edges as a relation, so a valid order stays valid. */
  lemma SameSchedules(
      analyses: seq<Analysis>, index: seq<IndexEntry>, analyses': seq<Analysis>, index': seq<IndexEntry>,
      order: seq<RequestId>)
    requires Reshuffled(analyses, index, analyses', index')
    requires EveryTokenResolves(analyses, index) && ExplicitEdges(analyses, index).Ok?
    requires multiset(Ids(analyses)) == multiset(Ids(analyses'))
    requires Schedule(GraphOf(analyses, index), order)
    ensures EveryTokenResolves(analyses', index') && ExplicitEdges(analyses', index').Ok?
    ensures Schedule(GraphOf(analyses', index'), order)
  {
    SameDependencies(analyses, index, analyses', index');
    TokensDecide(analyses', index');
    var g, g' := GraphOf(analyses, index), GraphOf(analyses', index');
    assert forall x :: x in Ids(analyses) <==> x in multiset(Ids(analyses));
    assert forall x :: x in Ids(analyses') <==> x in multiset(Ids(analyses'));
    forall u, v
      ensures HasEdge(g, u, v) <==> HasEdge(g', u, v)
    {
      GraphMeaning(analyses, index, u, v);
      GraphMeaning(analyses', index', u, v);
    }
    assert Forward(g', order);
  }

  /** The members of an enriched plan resolve like the members it was built from. */
  lemma SameMembers(membership: RunPlan, analyses: seq<Analysis>, plan: RunPlan)
    requires Distinct(RequestIds(membership.requests)) && Aligned(membership, analyses)
    requires IsEnrichment(membership, analyses, true, plan)
    ensures multiset(MemberIndex(membership.requests)) == multiset(MemberIndex(plan.requests))
  {
    EnrichedPlanIsOrdered(membership, analyses, plan);
    PermutationKeepsDistinct(RequestIds(membership.requests), RequestIds(plan.requests));
    var before, after := MemberIndex(membership.requests), MemberIndex(plan.requests);
    DistinctMembers(membership.requests);
    DistinctMembers(plan.requests);
    forall e | e in after
      ensures e in before
    {
      var i :| 0 <= i < |after| && after[i] == e;
      KeptMemberIsListed(membership, plan.requests[i]);
    }
    DistinctCardinality(before);
    DistinctCardinality(after);
    SubsetCardinality(Elements(after), Elements(before));
    SameElementsArePermutation(before, after);
  }

  lemma DistinctMembers(requests: seq<PlannedRequest>)
    requires Distinct(RequestIds(requests))
    ensures Distinct(MemberIndex(requests))
  {
    var ids, members := RequestIds(requests), MemberIndex(requests);
    assert forall i :: 0 <= i < |members| ==> members[i].requestId == ids[i];
  }

  lemma KeptMemberIsListed(membership: RunPlan, r: PlannedRequest)
    requires KeepsMember(membership, r)
    ensures MemberEntry(r) in MemberIndex(membership.requests)
  {
    var m :| m in membership.requests
          && r == m.(ordinal := r.ordinal, produces := r.produces, consumes := r.consumes,
                     dependsOnRequestIds := r.dependsOnRequestIds);
    var k :| 0 <= k < |membership.requests| && membership.requests[k] == m;
    assert MemberIndex(membership.requests)[k] == MemberEntry(r);
  }

  /** Two schedules cannot both come before each other. */
  lemma {:induction false} LexLessIsAsymmetric(nodes: seq<RequestId>, a: seq<RequestId>, b: seq<RequestId>)
    requires LexLess(nodes, a, b)
    ensures !LexLess(nodes, b, a)
  {
    var j :| 0 <= j < |a| && j < |b| && FirstDifference(nodes, a, b, j);
    forall k | 0 <= k < |b| && k < |a|
      ensures !FirstDifference(nodes, b, a, k)
    {
      if j < k {
        assert b[..k][j] == b[j] && a[..k][j] == a[j];
      } else if k < j {
        assert b[..j][k] == b[k] && a[..j][k] == a[k];
      }
    }
  }

  /** The analyses given again: the very same list, or the same analyses in the enriched order. */
  ghost predicate GivenAgain(analyses: seq<Analysis>, plan: RunPlan, analyses': seq<Analysis>) {
    && (forall a :: a in analyses <==> a in analyses')
    && (Ids(analyses') == Ids(analyses) || Ids(analyses') == RequestIds(plan.requests))
  }

  /** On the reshuffled graph the order found first is again the least one. */
  lemma {:induction false} FirstOrderIsLeastAgain(
      analyses: seq<Analysis>, index: seq<IndexEntry>, analyses': seq<Analysis>, index': seq<IndexEntry>,
      order: seq<RequestId>, order': seq<RequestId>)
    requires Reshuffled(analyses, index, analyses', index') && Distinct(Ids(analyses))
    requires EveryTokenResolves(analyses, index) && ExplicitEdges(analyses, index).Ok?
    requires Ids(analyses') == Ids(analyses) || Ids(analyses') == order
    requires LeastSchedule(GraphOf(analyses, index), order)
    requires ExplicitEdges(analyses', index').Ok? && LeastSchedule(GraphOf(analyses', index'), order')
    ensures order' == order
  {
    var g, g' := GraphOf(analyses, index), GraphOf(analyses', index');
    PermutationKeepsDistinct(Ids(analyses), order);
    SameSchedules(analyses, index, analyses', index', order);
    if Ids(analyses') == order {
      ValidOrderIsLeast(g', order');
    } else {
      SameSchedules(analyses', index', analyses, index, order');
      if order' != order {
        LexLessIsAsymmetric(g.nodes, order, order');
      }
    }
  }

  /**
   Enriching the enriched plan again, with the same analyses as they were or in the enriched order, is never refused,
   and whatever plan it yields lists the very same requests and reports no reordering.
   */
  lemma {:induction false} EnrichingAgainChangesNothing(
      membership: RunPlan, analyses: seq<Analysis>, plan: RunPlan, analyses': seq<Analysis>, r: Enrichment)
    requires Distinct(RequestIds(membership.requests)) && Aligned(membership, analyses)
    requires IsEnrichment(membership, analyses, true, plan)
    requires GivenAgain(analyses, plan, analyses')
    requires Decided(plan, analyses', true, r)
    ensures r.Enriched? && r.plan.requests == plan.requests && !r.plan.dependencies.value.reordered
  {
    SecondPassIsReshuffled(membership, analyses, plan, analyses');
    SecondPassSucceeds(membership, analyses, plan, analyses', r);
    FirstOrderIsLeastAgain(
      analyses, MemberIndex(membership.requests), analyses', MemberIndex(plan.requests),
      plan.dependencies.value.executionOrder, r.plan.dependencies.value.executionOrder);
    forall i | 0 <= i < |plan.requests|
      ensures r.plan.requests[i] == plan.requests[i]
    {
      SameEntry(membership, analyses, plan, analyses', r.plan, i);
    }
  }

  lemma SecondPassIsReshuffled(membership: RunPlan, analyses: seq<Analysis>, plan: RunPlan, analyses': seq<Analysis>)
    requires Distinct(RequestIds(membership.requests)) && Aligned(membership, analyses)
    requires IsEnrichment(membership, analyses, true, plan) && GivenAgain(analyses, plan, analyses')
    ensures Reshuffled(analyses, MemberIndex(membership.requests), analyses', MemberIndex(plan.requests))
    ensures Distinct(Ids(analyses)) && Distinct(Ids(analyses')) && Distinct(RequestIds(plan.requests))
    ensures multiset(Ids(analyses')) == multiset(Ids(analyses)) && Aligned(plan, analyses')
    ensures RequestIds(plan.requests) == plan.dependencies.value.executionOrder
  {
    SameMembers(membership, analyses, plan);
    EnrichedPlanIsOrdered(membership, analyses, plan);
    PermutationKeepsDistinct(RequestIds(membership.requests), RequestIds(plan.requests));
    PermutationKeepsDistinct(RequestIds(plan.requests), Ids(analyses));
  }

  lemma SecondPassSucceeds(
      membership: RunPlan, analyses: seq<Analysis>, plan: RunPlan, analyses': seq<Analysis>, r: Enrichment)
    requires Distinct(RequestIds(membership.requests)) && Aligned(membership, analyses)
    requires IsEnrichment(membership, analyses, true, plan) && GivenAgain(analyses, plan, analyses')
    requires Decided(plan, analyses', true, r)
    ensures r.Enriched?
  {
    var index, index' := MemberIndex(membership.requests), MemberIndex(plan.requests);
    var order := plan.dependencies.value.executionOrder;
    SecondPassIsReshuffled(membership, analyses, plan, analyses');
    SameSchedules(analyses, index, analyses', index', order);
    ScheduleImpliesAcyclic(GraphOf(analyses', index'), order);
    AlignedIsListed(plan, analyses');
    EnrichedIff(plan, analyses', true, r);
  }

  lemma SameEntry(
      membership: RunPlan, analyses: seq<Analysis>, plan: RunPlan, analyses': seq<Analysis>, plan': RunPlan, i: nat)
    requires Distinct(RequestIds(membership.requests)) && Aligned(membership, analyses)
    requires IsEnrichment(membership, analyses, true, plan)
    requires Aligned(plan, analyses') && forall a :: a in analyses <==> a in analyses'
    requires Distinct(RequestIds(plan.requests)) && Distinct(Ids(analyses)) && Distinct(Ids(analyses'))
    requires IsEnrichment(plan, analyses', true, plan')
    requires plan'.dependencies.value.executionOrder == RequestIds(plan.requests)
    requires i < |plan.requests|
    ensures |plan'.requests| == |plan.requests| && plan'.requests[i] == plan.requests[i]
  {
    var index, index' := MemberIndex(membership.requests), MemberIndex(plan.requests);
    var id := RequestIds(plan.requests)[i];
    EnrichedPlanIsOrdered(membership, analyses, plan);
    assert EnrichedAt(membership.requests, analyses, GraphOf(analyses, index), id, i, plan.requests[i]);
    assert EnrichedAt(plan.requests, analyses', GraphOf(analyses', index'), id, i, plan'.requests[i]);
    var a, a' := AnalysisOf(analyses, id), AnalysisOf(analyses', id);
    SameAnalysis(analyses, a, a');
    SameMembers(membership, analyses, plan);
    TargetsOfGraph(analyses, index, a);
    TargetsOfGraph(analyses', index', a);
    TokenTargetsIgnoreOrder(id, a.dependsOnNames, index, index');
  }

  lemma SameAnalysis(analyses: seq<Analysis>, a: Analysis, b: Analysis)
    requires Distinct(Ids(analyses)) && a in analyses && b in analyses && a.requestId == b.requestId
    ensures a == b
  {
    var i :| 0 <= i < |analyses| && analyses[i] == a;
    var j :| 0 <= j < |analyses| && analyses[j] == b;
    assert Ids(analyses)[i] == Ids(analyses)[j];
  }
}
