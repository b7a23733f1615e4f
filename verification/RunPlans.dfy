/** Planned requests, run plans and the dependency bag an enriched plan carries. */
module RunPlans {
  import opened Wrappers
  import opened DependencyGraph
  import opened GraphBuilder
  import opened DependRef

  datatype PlannedRequest = PlannedRequest(
    requestId: RequestId,
    filePath: string,
    displayLabel: string,
    httpMethod: string,
    folderRelativePath: Option<string>,
    ordinal: nat,
    produces: Option<seq<string>>,
    consumes: Option<seq<string>>,
    dependsOnRequestIds: Option<seq<RequestId>>)

  datatype Dependencies = Dependencies(
    nodes: seq<Analysis>,
    edges: seq<DependencyEdge>,
    reordered: bool,
    originalOrder: seq<RequestId>,
    executionOrder: seq<RequestId>,
    unresolvedConsumes: seq<UnresolvedConsume>)

  datatype RunPlan = RunPlan(requests: seq<PlannedRequest>, dependencies: Option<Dependencies>)

  function RequestIds(requests: seq<PlannedRequest>): seq<RequestId> {
    seq(|requests|, i requires 0 <= i < |requests| => requests[i].requestId)
  }

  /** The label/folder index against which `@depends-on` tokens resolve. */
  function MemberIndex(requests: seq<PlannedRequest>): seq<IndexEntry> {
    seq(|requests|, i requires 0 <= i < |requests| => MemberEntry(requests[i]))
  }

  function MemberEntry(request: PlannedRequest): IndexEntry {
    IndexEntry(request.requestId, request.displayLabel,
               if request.folderRelativePath.Some? then request.folderRelativePath.value else "")
  }
}
