/** Building the dependency graph from produces/consumes analyses and `@depends-on` tokens. */
module GraphBuilder {
  import opened Sequences
  import opened Wrappers
  import opened DependencyGraph
  import opened DependRef
  import TopoSort

  datatype Analysis = Analysis(
    requestId: RequestId, produces: seq<string>, consumes: seq<string>, dependsOnNames: seq<string>)

  datatype BuildError = AmbiguousDependsOn | UnknownDependsOnTarget

  datatype UnresolvedConsume = UnresolvedConsume(requestId: RequestId, variable: string)

  datatype Built = Built(graph: Graph, unresolvedConsumes: seq<UnresolvedConsume>)

  function ResolveDependsOnToken(token: string, index: seq<IndexEntry>): Result<RequestId, BuildError> {
    match ParseDependRef(token)
    case None => Err(UnknownDependsOnTarget)
    case Some(ref) =>
      match ResolveDependRef(ref, index)
      case Found(requestId) => Ok(requestId)
      case Ambiguous(_) => Err(AmbiguousDependsOn)
      case Unknown => Err(UnknownDependsOnTarget)
  }

  /** The token parses to a reference that denotes entry `k`. */
  ghost predicate RefersTo(token: string, index: seq<IndexEntry>, k: nat) {
    k < |index| && ParseDependRef(token).Some? && Denotes(ParseDependRef(token).value, index[k])
  }

  /** A token resolves to the one entry it refers to, is ambiguous with several, and is unknown with none. */
  lemma {:induction false} TokenResolvesIff(token: string, index: seq<IndexEntry>)
    ensures var r := ResolveDependsOnToken(token, index);
      && (r == Err(UnknownDependsOnTarget) <==> forall k :: 0 <= k < |index| ==> !RefersTo(token, index, k))
      && (r == Err(AmbiguousDependsOn) <==> exists j, k ::
            0 <= j < k < |index| && RefersTo(token, index, j) && RefersTo(token, index, k))
      && (r.Ok? ==> exists k :: 0 <= k < |index| && RefersTo(token, index, k) && r == Ok(index[k].requestId))
  {
    if ParseDependRef(token).Some? {
      var ref := ParseDependRef(token).value;
      FoundIffDenotesOne(ref, index);
      UnknownIffNothing(ref, index);
      AmbiguousIffSeveral(ref, index);
      assert forall k :: 0 <= k < |index| ==> (RefersTo(token, index, k) <==> Denotes(ref, index[k]));
    }
  }

  function Ids(analyses: seq<Analysis>): seq<RequestId> {
    seq(|analyses|, i requires 0 <= i < |analyses| => analyses[i].requestId)
  }

  // ---- What the loops compute, one element at a time from the left ----

  /** The entry of the producers map for `variable`: one id per occurrence, in analysis order. */
  function Producers(analyses: seq<Analysis>, variable: string): seq<RequestId> {
    if analyses == [] then []
    else
      var last := analyses[|analyses| - 1];
      Producers(analyses[..|analyses| - 1], variable) + ProducedBy(last.requestId, last.produces, variable)
  }

  function ProducedBy(id: RequestId, produces: seq<string>, variable: string): seq<RequestId> {
    if produces == [] then []
    else
      var front := ProducedBy(id, produces[..|produces| - 1], variable);
      if produces[|produces| - 1] == variable then front + [id] else front
  }

  function OtherProducers(analyses: seq<Analysis>, consumer: RequestId, variable: string): seq<RequestId> {
    OtherThan(Producers(analyses, variable), consumer)
  }

  function OtherThan(ids: seq<RequestId>, consumer: RequestId): seq<RequestId> {
    Filter(ids, id => id != consumer)
  }

  function EdgesFrom(producers: seq<RequestId>, consumer: RequestId, variable: string): seq<DependencyEdge> {
    seq(|producers|, i requires 0 <= i < |producers| =>
      DependencyEdge(producers[i], consumer, Implicit, Some(variable)))
  }

  function ConsumerEdges(analyses: seq<Analysis>, consumer: RequestId, consumes: seq<string>): seq<DependencyEdge> {
    if consumes == [] then []
    else
      var variable := consumes[|consumes| - 1];
      ConsumerEdges(analyses, consumer, consumes[..|consumes| - 1])
        + EdgesFrom(OtherProducers(analyses, consumer, variable), consumer, variable)
  }

  function ImplicitEdges(analyses: seq<Analysis>, consumers: seq<Analysis>): seq<DependencyEdge> {
    if consumers == [] then []
    else
      var last := consumers[|consumers| - 1];
      ImplicitEdges(analyses, consumers[..|consumers| - 1]) + ConsumerEdges(analyses, last.requestId, last.consumes)
  }

  function UnresolvedOf(analyses: seq<Analysis>, consumer: RequestId, consumes: seq<string>): seq<UnresolvedConsume> {
    if consumes == [] then []
    else
      var variable := consumes[|consumes| - 1];
      var front := UnresolvedOf(analyses, consumer, consumes[..|consumes| - 1]);
      if OtherProducers(analyses, consumer, variable) == [] then front + [UnresolvedConsume(consumer, variable)]
      else front
  }

  function Unresolved(analyses: seq<Analysis>, consumers: seq<Analysis>): seq<UnresolvedConsume> {
    if consumers == [] then []
    else
      var last := consumers[|consumers| - 1];
      Unresolved(analyses, consumers[..|consumers| - 1]) + UnresolvedOf(analyses, last.requestId, last.consumes)
  }

  function TokenEdges(
      id: RequestId, tokens: seq<string>, index: seq<IndexEntry>): Result<seq<DependencyEdge>, BuildError> {
    if tokens == [] then Ok([])
    else
      match TokenEdges(id, tokens[..|tokens| - 1], index)
      case Err(code) => Err(code)
      case Ok(front) =>
        match ResolveDependsOnToken(tokens[|tokens| - 1], index)
        case Err(code) => Err(code)
        case Ok(target) => Ok(if target == id then front else front + [DependencyEdge(target, id, Explicit, None)])
  }

  function ExplicitEdges(analyses: seq<Analysis>, index: seq<IndexEntry>): Result<seq<DependencyEdge>, BuildError> {
    if analyses == [] then Ok([])
    else
      match ExplicitEdges(analyses[..|analyses| - 1], index)
      case Err(code) => Err(code)
      case Ok(front) =>
        var last := analyses[|analyses| - 1];
        match TokenEdges(last.requestId, last.dependsOnNames, index)
        case Err(code) => Err(code)
        case Ok(edges) => Ok(front + edges)
  }

  // ---- What the graph means ----

  /** `u` must run before `v`: it produces something `v` consumes, or `v` names it. */
  ghost predicate MustPrecede(analyses: seq<Analysis>, index: seq<IndexEntry>, u: RequestId, v: RequestId) {
    && u != v
    && (Feeds(analyses, u, v) || Names(analyses, index, u, v))
  }

  ghost predicate Feeds(analyses: seq<Analysis>, u: RequestId, v: RequestId) {
    exists p, c, variable ::
      && p in analyses && c in analyses && p.requestId == u && c.requestId == v
      && variable in p.produces && variable in c.consumes
  }

  ghost predicate Names(analyses: seq<Analysis>, index: seq<IndexEntry>, u: RequestId, v: RequestId) {
    exists c, token ::
      c in analyses && c.requestId == v && token in c.dependsOnNames && ResolveDependsOnToken(token, index) == Ok(u)
  }

  ghost predicate EveryTokenResolves(analyses: seq<Analysis>, index: seq<IndexEntry>) {
    forall a, token :: a in analyses && token in a.dependsOnNames ==> ResolveDependsOnToken(token, index).Ok?
  }

  lemma {:induction false} ProducedByMeaning(id: RequestId, produces: seq<string>, variable: string)
    ensures forall u :: u in ProducedBy(id, produces, variable) <==> u == id && variable in produces
  {
    if produces != [] {
      ProducedByMeaning(id, produces[..|produces| - 1], variable);
      assert produces == produces[..|produces| - 1] + [produces[|produces| - 1]];
    }
  }

  lemma {:induction false} ProducersMeaning(analyses: seq<Analysis>, variable: string, u: RequestId)
    ensures u in Producers(analyses, variable)
       <==> exists p :: p in analyses && p.requestId == u && variable in p.produces
  {
    if analyses != [] {
      var front, last := analyses[..|analyses| - 1], analyses[|analyses| - 1];
      assert analyses == front + [last];
      ProducersMeaning(front, variable, u);
      ProducedByMeaning(last.requestId, last.produces, variable);
    }
  }

  lemma {:induction false} ConsumerEdgesMeaning(
      analyses: seq<Analysis>, consumer: RequestId, consumes: seq<string>, e: DependencyEdge)
    ensures e in ConsumerEdges(analyses, consumer, consumes)
       <==> && e.kind == Implicit && e.to == consumer && e.from != consumer
            && e.variable.Some? && e.variable.value in consumes && e.from in Producers(analyses, e.variable.value)
  {
    if consumes != [] {
      var front, variable := consumes[..|consumes| - 1], consumes[|consumes| - 1];
      assert consumes == front + [variable];
      ConsumerEdgesMeaning(analyses, consumer, front, e);
      var producers := OtherProducers(analyses, consumer, variable);
      EdgesFromMeaning(producers, consumer, variable, e);
    }
  }

  lemma EdgesFromMeaning(producers: seq<RequestId>, consumer: RequestId, variable: string, e: DependencyEdge)
    ensures e in EdgesFrom(producers, consumer, variable)
       <==> e == DependencyEdge(e.from, consumer, Implicit, Some(variable)) && e.from in producers
  {
    if e == DependencyEdge(e.from, consumer, Implicit, Some(variable)) && e.from in producers {
      var i :| 0 <= i < |producers| && producers[i] == e.from;
      assert EdgesFrom(producers, consumer, variable)[i] == e;
    }
  }

  lemma {:induction false} ImplicitEdgesMeaning(analyses: seq<Analysis>, consumers: seq<Analysis>, e: DependencyEdge)
    ensures e in ImplicitEdges(analyses, consumers)
       <==> && e.kind == Implicit && e.variable.Some? && e.from != e.to
            && e.from in Producers(analyses, e.variable.value)
            && exists c :: c in consumers && c.requestId == e.to && e.variable.value in c.consumes
  {
    if consumers != [] {
      var front, last := consumers[..|consumers| - 1], consumers[|consumers| - 1];
      assert consumers == front + [last];
      ImplicitEdgesMeaning(analyses, front, e);
      ConsumerEdgesMeaning(analyses, last.requestId, last.consumes, e);
    }
  }

  /** Nobody but perhaps the consumer itself produces the variable. */
  ghost predicate NobodyElseProduces(analyses: seq<Analysis>, consumer: RequestId, variable: string) {
    forall p :: p in analyses && variable in p.produces ==> p.requestId == consumer
  }

  lemma {:induction false} OtherProducersMeaning(analyses: seq<Analysis>, consumer: RequestId, variable: string)
    ensures OtherProducers(analyses, consumer, variable) == [] <==> NobodyElseProduces(analyses, consumer, variable)
  {
    var others := OtherProducers(analyses, consumer, variable);
    if others != [] {
      assert others[0] in others;
      ProducersMeaning(analyses, variable, others[0]);
    } else {
      forall p | p in analyses && variable in p.produces
        ensures p.requestId == consumer
      {
        ProducersMeaning(analyses, variable, p.requestId);
      }
    }
  }

  lemma {:induction false} UnresolvedOfMeaning(
      analyses: seq<Analysis>, consumer: RequestId, consumes: seq<string>, u: UnresolvedConsume)
    ensures u in UnresolvedOf(analyses, consumer, consumes)
       <==> u.requestId == consumer && u.variable in consumes && NobodyElseProduces(analyses, consumer, u.variable)
  {
    if consumes != [] {
      var front, variable := consumes[..|consumes| - 1], consumes[|consumes| - 1];
      assert consumes == front + [variable];
      UnresolvedOfMeaning(analyses, consumer, front, u);
      OtherProducersMeaning(analyses, consumer, variable);
    }
  }

  /** A consumed variable is reported unresolved exactly when no other request produces it. */
  lemma {:induction false} UnresolvedMeaning(analyses: seq<Analysis>, consumers: seq<Analysis>, u: UnresolvedConsume)
    ensures u in Unresolved(analyses, consumers)
       <==> && NobodyElseProduces(analyses, u.requestId, u.variable)
            && exists c :: c in consumers && c.requestId == u.requestId && u.variable in c.consumes
  {
    if consumers != [] {
      var front, last := consumers[..|consumers| - 1], consumers[|consumers| - 1];
      assert consumers == front + [last];
      UnresolvedMeaning(analyses, front, u);
      UnresolvedOfMeaning(analyses, last.requestId, last.consumes, u);
    }
  }

  lemma {:induction false} TokenEdgesMeaning(
      id: RequestId, tokens: seq<string>, index: seq<IndexEntry>, e: DependencyEdge)
    ensures TokenEdges(id, tokens, index).Ok? <==> forall t :: t in tokens ==> ResolveDependsOnToken(t, index).Ok?
    ensures TokenEdges(id, tokens, index).Ok? ==>
      (e in TokenEdges(id, tokens, index).value
       <==> && e == DependencyEdge(e.from, id, Explicit, None) && e.from != id
            && exists t :: t in tokens && ResolveDependsOnToken(t, index) == Ok(e.from))
  {
    if tokens != [] {
      var front, last := tokens[..|tokens| - 1], tokens[|tokens| - 1];
      assert tokens == front + [last];
      TokenEdgesMeaning(id, front, index, e);
    }
  }

  lemma {:induction false} ExplicitEdgesMeaning(analyses: seq<Analysis>, index: seq<IndexEntry>, e: DependencyEdge)
    ensures ExplicitEdges(analyses, index).Ok? <==> EveryTokenResolves(analyses, index)
    ensures ExplicitEdges(analyses, index).Ok? ==>
      (e in ExplicitEdges(analyses, index).value
       <==> e == DependencyEdge(e.from, e.to, Explicit, None) && e.from != e.to && Names(analyses, index, e.from, e.to))
  {
    if analyses != [] {
      var front, last := analyses[..|analyses| - 1], analyses[|analyses| - 1];
      assert analyses == front + [last];
      ExplicitEdgesMeaning(front, index, e);
      TokenEdgesMeaning(last.requestId, last.dependsOnNames, index, e);
      assert e.to == last.requestId ==>
        (Names(analyses, index, e.from, e.to) <==>
          Names(front, index, e.from, e.to) ||
          exists t :: t in last.dependsOnNames && ResolveDependsOnToken(t, index) == Ok(e.from));
    }
  }

  lemma TokensDecide(analyses: seq<Analysis>, index: seq<IndexEntry>)
    ensures ExplicitEdges(analyses, index).Ok? <==> EveryTokenResolves(analyses, index)
  {
    if analyses != [] {
      var id := analyses[0].requestId;
      ExplicitEdgesMeaning(analyses, index, DependencyEdge(id, id, Explicit, None));
    }
  }

  /** The graph built from the analyses when every token resolves. */
  function GraphOf(analyses: seq<Analysis>, index: seq<IndexEntry>): Graph
    requires ExplicitEdges(analyses, index).Ok?
  {
    Graph(Ids(analyses), ImplicitEdges(analyses, analyses) + ExplicitEdges(analyses, index).value)
  }

  /** Its edges are exactly the pairs of planned requests of which one must precede the other. */
  lemma {:induction false} GraphMeaning(analyses: seq<Analysis>, index: seq<IndexEntry>, u: RequestId, v: RequestId)
    requires EveryTokenResolves(analyses, index)
    ensures ExplicitEdges(analyses, index).Ok?
    ensures HasEdge(GraphOf(analyses, index), u, v)
       <==> u in Ids(analyses) && v in Ids(analyses) && MustPrecede(analyses, index, u, v)
  {
    ExplicitEdgesMeaning(analyses, index, DependencyEdge(u, v, Explicit, None));
    var g := GraphOf(analyses, index);
    var explicit := ExplicitEdges(analyses, index).value;
    if u in Ids(analyses) && v in Ids(analyses) && MustPrecede(analyses, index, u, v) {
      if Feeds(analyses, u, v) {
        var p, c, variable :| && p in analyses && c in analyses && p.requestId == u && c.requestId == v
                              && variable in p.produces && variable in c.consumes;
        var e := DependencyEdge(u, v, Implicit, Some(variable));
        ProducersMeaning(analyses, variable, u);
        ImplicitEdgesMeaning(analyses, analyses, e);
        assert e in g.edges;
      } else {
        var e := DependencyEdge(u, v, Explicit, None);
        assert e in g.edges;
      }
    }
    if HasEdge(g, u, v) {
      var e :| e in g.edges && e.from == u && e.to == v;
      EdgeMeaning(analyses, index, e);
    }
  }

  lemma EdgeMeaning(analyses: seq<Analysis>, index: seq<IndexEntry>, e: DependencyEdge)
    requires ExplicitEdges(analyses, index).Ok?
    requires e in GraphOf(analyses, index).edges
    ensures MustPrecede(analyses, index, e.from, e.to)
    ensures e.kind == Implicit ==>
      && e.variable.Some? && e.from != e.to && e.from in Ids(analyses) && e.to in Ids(analyses)
      && exists p, c :: p in analyses && c in analyses && p.requestId == e.from && c.requestId == e.to
                     && e.variable.value in p.produces && e.variable.value in c.consumes
    ensures e.kind == Explicit ==> e.variable == None && e.from != e.to && Names(analyses, index, e.from, e.to)
  {
    if e in ImplicitEdges(analyses, analyses) {
      ImplicitEdgesMeaning(analyses, analyses, e);
      ProducersMeaning(analyses, e.variable.value, e.from);
      var p :| p in analyses && p.requestId == e.from && e.variable.value in p.produces;
      var c :| c in analyses && c.requestId == e.to && e.variable.value in c.consumes;
      IdsMember(analyses, p);
      IdsMember(analyses, c);
    } else {
      ExplicitEdgesMeaning(analyses, index, e);
    }
  }

  lemma IdsMember(analyses: seq<Analysis>, a: Analysis)
    requires a in analyses
    ensures a.requestId in Ids(analyses)
  {
    var i :| 0 <= i < |analyses| && analyses[i] == a;
    assert Ids(analyses)[i] == a.requestId;
  }

  // ---- The loops ----

  /** `map.get(variable) ?? []`. */
  function Entry(producersByVariable: map<string, seq<RequestId>>, variable: string): seq<RequestId> {
    if variable in producersByVariable then producersByVariable[variable] else []
  }

  method IndexProducers(analyses: seq<Analysis>) returns (producersByVariable: map<string, seq<RequestId>>)
    ensures forall v :: Entry(producersByVariable, v) == Producers(analyses, v)
  {
    producersByVariable := map[];
    for i := 0 to |analyses|
      invariant forall v :: Entry(producersByVariable, v) == Producers(analyses[..i], v)
    {
      assert analyses[..i + 1][..i] == analyses[..i];
      producersByVariable := AddProducer(analyses[i], producersByVariable);
    }
    assert analyses[..|analyses|] == analyses;
  }

  method AddProducer(analysis: Analysis, before: map<string, seq<RequestId>>)
    returns (producersByVariable: map<string, seq<RequestId>>)
    ensures forall v ::
      Entry(producersByVariable, v) == Entry(before, v) + ProducedBy(analysis.requestId, analysis.produces, v)
  {
    producersByVariable := before;
    for i := 0 to |analysis.produces|
      invariant forall v ::
        Entry(producersByVariable, v) == Entry(before, v) + ProducedBy(analysis.requestId, analysis.produces[..i], v)
    {
      var variable := analysis.produces[i];
      var list := Entry(producersByVariable, variable);
      PushedEntry(before, producersByVariable, analysis.requestId, analysis.produces[..i], variable);
      producersByVariable := producersByVariable[variable := list + [analysis.requestId]];
      assert analysis.produces[..i + 1] == analysis.produces[..i] + [variable];
    }
    assert analysis.produces[..|analysis.produces|] == analysis.produces;
  }

  lemma PushedEntry(
      before: map<string, seq<RequestId>>, m: map<string, seq<RequestId>>, id: RequestId, done: seq<string>,
      variable: string)
    requires forall v :: Entry(m, v) == Entry(before, v) + ProducedBy(id, done, v)
    ensures forall v :: Entry(m[variable := Entry(m, variable) + [id]], v)
                     == Entry(before, v) + ProducedBy(id, done + [variable], v)
  {
    forall v
      ensures Entry(m[variable := Entry(m, variable) + [id]], v)
           == Entry(before, v) + ProducedBy(id, done + [variable], v)
    {
      assert (done + [variable])[..|done|] == done;
      assert Entry(m, v) == Entry(before, v) + ProducedBy(id, done, v);
    }
  }

  method LinkConsumers(analyses: seq<Analysis>, producersByVariable: map<string, seq<RequestId>>)
    returns (edges: seq<DependencyEdge>, unresolvedConsumes: seq<UnresolvedConsume>)
    requires forall v :: Entry(producersByVariable, v) == Producers(analyses, v)
    ensures edges == ImplicitEdges(analyses, analyses)
    ensures unresolvedConsumes == Unresolved(analyses, analyses)
  {
    edges, unresolvedConsumes := [], [];
    for i := 0 to |analyses|
      invariant edges == ImplicitEdges(analyses, analyses[..i])
      invariant unresolvedConsumes == Unresolved(analyses, analyses[..i])
    {
      var consumer := analyses[i];
      var own, missing := LinkConsumer(analyses, consumer, producersByVariable);
      edges, unresolvedConsumes := edges + own, unresolvedConsumes + missing;
      assert analyses[..i + 1][..i] == analyses[..i];
    }
    assert analyses[..|analyses|] == analyses;
  }

  method LinkConsumer(analyses: seq<Analysis>, consumer: Analysis, producersByVariable: map<string, seq<RequestId>>)
    returns (edges: seq<DependencyEdge>, unresolvedConsumes: seq<UnresolvedConsume>)
    requires forall v :: Entry(producersByVariable, v) == Producers(analyses, v)
    ensures edges == ConsumerEdges(analyses, consumer.requestId, consumer.consumes)
    ensures unresolvedConsumes == UnresolvedOf(analyses, consumer.requestId, consumer.consumes)
  {
    edges, unresolvedConsumes := [], [];
    for i := 0 to |consumer.consumes|
      invariant edges == ConsumerEdges(analyses, consumer.requestId, consumer.consumes[..i])
      invariant unresolvedConsumes == UnresolvedOf(analyses, consumer.requestId, consumer.consumes[..i])
    {
      var variable := consumer.consumes[i];
      assert consumer.consumes[..i + 1][..i] == consumer.consumes[..i];
      var producers := Entry(producersByVariable, variable);
      assert producers == Producers(analyses, variable);
      var inPlanProducers := OtherThan(producers, consumer.requestId);
      if |inPlanProducers| == 0 {
        unresolvedConsumes := unresolvedConsumes + [UnresolvedConsume(consumer.requestId, variable)];
        continue;
      }
      edges := edges + EdgesFrom(inPlanProducers, consumer.requestId, variable);
    }
    assert consumer.consumes[..|consumer.consumes|] == consumer.consumes;
  }

  method BuildDependencyGraph(analyses: seq<Analysis>, index: seq<IndexEntry>) returns (r: Result<Built, BuildError>)
    ensures r.Ok? <==> EveryTokenResolves(analyses, index)
    ensures r.Ok? ==> ExplicitEdges(analyses, index).Ok? && r.value.graph == GraphOf(analyses, index)
    ensures r.Ok? ==> r.value.unresolvedConsumes == Unresolved(analyses, analyses)
    ensures r.Err? ==> ExplicitEdges(analyses, index) == Err(r.error)
  {
    var nodes := Ids(analyses);
    var producersByVariable := IndexProducers(analyses);
    var edges, unresolvedConsumes := LinkConsumers(analyses, producersByVariable);
    TokensDecide(analyses, index);
    var explicit := LinkExplicit(analyses, index);
    match explicit {
      case Err(code) => r := Err(code);
      case Ok(more) => r := Ok(Built(Graph(nodes, edges + more), unresolvedConsumes));
    }
  }

  method LinkExplicit(
      analyses: seq<Analysis>, index: seq<IndexEntry>) returns (r: Result<seq<DependencyEdge>, BuildError>)
    ensures r == ExplicitEdges(analyses, index)
  {
    var edges := [];
    for i := 0 to |analyses|
      invariant ExplicitEdges(analyses[..i], index) == Ok(edges)
    {
      assert analyses[..i + 1][..i] == analyses[..i];
      var resolved := ResolveTokens(analyses[i], index);
      if resolved.Err? {
        ExplicitEdgesStop(analyses, index, i + 1);
        return Err(resolved.error);
      }
      edges := edges + resolved.value;
    }
    assert analyses[..|analyses|] == analyses;
    r := Ok(edges);
  }

  method ResolveTokens(analysis: Analysis, index: seq<IndexEntry>) returns (r: Result<seq<DependencyEdge>, BuildError>)
    ensures r == TokenEdges(analysis.requestId, analysis.dependsOnNames, index)
  {
    var edges := [];
    for i := 0 to |analysis.dependsOnNames|
      invariant TokenEdges(analysis.requestId, analysis.dependsOnNames[..i], index) == Ok(edges)
    {
      assert analysis.dependsOnNames[..i + 1][..i] == analysis.dependsOnNames[..i];
      var resolved := ResolveDependsOnToken(analysis.dependsOnNames[i], index);
      if resolved.Err? {
        TokenEdgesStop(analysis.requestId, analysis.dependsOnNames, index, i + 1);
        return Err(resolved.error);
      }
      var target := resolved.value;
      if target == analysis.requestId {
        continue;
      }
      edges := edges + [DependencyEdge(target, analysis.requestId, Explicit, None)];
    }
    assert analysis.dependsOnNames[..|analysis.dependsOnNames|] == analysis.dependsOnNames;
    r := Ok(edges);
  }

  /** The first failing token decides the error. */
  lemma {:induction false} TokenEdgesStop(id: RequestId, tokens: seq<string>, index: seq<IndexEntry>, n: nat)
    requires n <= |tokens| && TokenEdges(id, tokens[..n], index).Err?
    ensures TokenEdges(id, tokens, index) == TokenEdges(id, tokens[..n], index)
  {
    if n < |tokens| {
      assert tokens[..|tokens| - 1][..n] == tokens[..n];
      TokenEdgesStop(id, tokens[..|tokens| - 1], index, n);
    } else {
      assert tokens[..n] == tokens;
    }
  }

  lemma {:induction false} ExplicitEdgesStop(analyses: seq<Analysis>, index: seq<IndexEntry>, n: nat)
    requires n <= |analyses| && ExplicitEdges(analyses[..n], index).Err?
    ensures ExplicitEdges(analyses, index) == ExplicitEdges(analyses[..n], index)
  {
    if n < |analyses| {
      assert analyses[..|analyses| - 1][..n] == analyses[..n];
      ExplicitEdgesStop(analyses[..|analyses| - 1], index, n);
    } else {
      assert analyses[..n] == analyses;
    }
  }
}
