/** The Collections explorer: the children it projects for a node, and the depth-first walk a run's order must match. */
module TreeProjection {
  import opened Wrappers
  import opened DependencyGraph
  import opened Collections
  import opened PlanBuilder

  datatype TreeNode =
    | CollectionNode(id: string)
    | FolderNode(collectionId: string, folderId: FolderId)
    | RequestNode(requestId: RequestId)

  /** The listed folders that exist, each projected from its own record. */
  function FolderNodes(c: Collection, keys: seq<FolderId>): seq<TreeNode> {
    if keys == [] then []
    else
      var last := keys[|keys| - 1];
      FolderNodes(c, keys[..|keys| - 1])
        + if last in c.folders then [FolderNode(c.folders[last].collectionId, c.folders[last].id)] else []
  }

  function RequestNodes(c: Collection, ids: seq<RequestId>): seq<TreeNode> {
    if ids == [] then []
    else
      var last := ids[|ids| - 1];
      RequestNodes(c, ids[..|ids| - 1]) + if last in c.requests then [RequestNode(c.requests[last].id)] else []
  }

  /** Unknown nodes and requests have no children. */
  function GetTreeChildren(aggregate: Aggregate, parent: TreeNode): seq<TreeNode> {
    match parent
    case CollectionNode(id) =>
      if id !in aggregate then []
      else
        FolderNodes(aggregate[id], aggregate[id].rootFolderIds)
          + RequestNodes(aggregate[id], aggregate[id].rootRequestIds)
    case FolderNode(collectionId, folderId) =>
      if collectionId !in aggregate || folderId !in aggregate[collectionId].folders then []
      else
        var c := aggregate[collectionId];
        FolderNodes(c, c.folders[folderId].folderIds) + RequestNodes(c, c.folders[folderId].requestIds)
    case RequestNode(_) => []
  }

  // ---- Walking it ----

  ghost predicate WalkableCollection(aggregate: Aggregate, id: string, rank: Rank) {
    id in aggregate && Keyed(id, aggregate[id]) && Ranked(aggregate[id], rank)
  }

  /** The node is of this collection, and its walk is bounded by `bound`. */
  ghost predicate Bounded(aggregate: Aggregate, id: string, node: TreeNode, rank: Rank, bound: nat)
    requires id in aggregate
  {
    match node
    case RequestNode(_) => true
    case FolderNode(collectionId, f) => collectionId == id && f in aggregate[id].folders && f in rank && rank[f] < bound
    case CollectionNode(_) => false
  }

  ghost predicate AllBounded(aggregate: Aggregate, id: string, nodes: seq<TreeNode>, rank: Rank, bound: nat)
    requires id in aggregate
  {
    forall i :: 0 <= i < |nodes| ==> Bounded(aggregate, id, nodes[i], rank, bound)
  }

  lemma {:induction false} FolderNodesAreBounded(
      aggregate: Aggregate, id: string, keys: seq<FolderId>, rank: Rank, bound: nat)
    requires WalkableCollection(aggregate, id, rank)
    requires forall k :: k in keys && k in aggregate[id].folders ==> k in rank && rank[k] < bound
    ensures AllBounded(aggregate, id, FolderNodes(aggregate[id], keys), rank, bound)
  {
    if keys != [] {
      FolderNodesAreBounded(aggregate, id, keys[..|keys| - 1], rank, bound);
    }
  }

  lemma {:induction false} RequestNodesAreBounded(
      aggregate: Aggregate, id: string, ids: seq<RequestId>, rank: Rank, bound: nat)
    requires id in aggregate
    ensures AllBounded(aggregate, id, RequestNodes(aggregate[id], ids), rank, bound)
  {
    if ids != [] {
      RequestNodesAreBounded(aggregate, id, ids[..|ids| - 1], rank, bound);
    }
  }

  lemma FolderChildrenAreBounded(aggregate: Aggregate, id: string, f: FolderId, rank: Rank)
    requires WalkableCollection(aggregate, id, rank) && f in aggregate[id].folders && f in rank
    ensures AllBounded(aggregate, id, GetTreeChildren(aggregate, FolderNode(id, f)), rank, rank[f])
  {
    var c := aggregate[id];
    assert RankedAt(c, rank, f);
    FolderNodesAreBounded(aggregate, id, c.folders[f].folderIds, rank, rank[f]);
    RequestNodesAreBounded(aggregate, id, c.folders[f].requestIds, rank, rank[f]);
  }

  /** Expanding every node from the top: the requests in the order the explorer shows them. */
  ghost function Walk(aggregate: Aggregate, id: string, nodes: seq<TreeNode>, rank: Rank, bound: nat): seq<RequestId>
    requires WalkableCollection(aggregate, id, rank) && AllBounded(aggregate, id, nodes, rank, bound)
    decreases bound, 1, |nodes|
  {
    if nodes == [] then []
    else
      assert Bounded(aggregate, id, nodes[|nodes| - 1], rank, bound);
      Walk(aggregate, id, nodes[..|nodes| - 1], rank, bound) + Expand(aggregate, id, nodes[|nodes| - 1], rank, bound)
  }

  ghost function Expand(aggregate: Aggregate, id: string, node: TreeNode, rank: Rank, bound: nat): seq<RequestId>
    requires WalkableCollection(aggregate, id, rank) && Bounded(aggregate, id, node, rank, bound)
    decreases bound, 0, 0
  {
    match node
    case RequestNode(requestId) => [requestId]
    case FolderNode(_, f) =>
      FolderChildrenAreBounded(aggregate, id, f, rank);
      Walk(aggregate, id, GetTreeChildren(aggregate, node), rank, rank[f])
  }

  lemma WalkOneMore(aggregate: Aggregate, id: string, nodes: seq<TreeNode>, node: TreeNode, rank: Rank, bound: nat)
    requires WalkableCollection(aggregate, id, rank)
    requires AllBounded(aggregate, id, nodes, rank, bound) && Bounded(aggregate, id, node, rank, bound)
    ensures AllBounded(aggregate, id, nodes + [node], rank, bound)
    ensures Walk(aggregate, id, nodes + [node], rank, bound)
         == Walk(aggregate, id, nodes, rank, bound) + Expand(aggregate, id, node, rank, bound)
  {
    assert (nodes + [node])[..|nodes|] == nodes;
  }

  lemma {:induction false} WalkOfConcat(
      aggregate: Aggregate, id: string, a: seq<TreeNode>, b: seq<TreeNode>, rank: Rank, bound: nat)
    requires WalkableCollection(aggregate, id, rank)
    requires AllBounded(aggregate, id, a, rank, bound) && AllBounded(aggregate, id, b, rank, bound)
    ensures AllBounded(aggregate, id, a + b, rank, bound)
    ensures Walk(aggregate, id, a + b, rank, bound)
         == Walk(aggregate, id, a, rank, bound) + Walk(aggregate, id, b, rank, bound)
    decreases |b|
  {
    if b == [] {
      assert a + b == a;
    } else {
      var front, last := b[..|b| - 1], b[|b| - 1];
      assert Bounded(aggregate, id, last, rank, bound);
      WalkOfConcat(aggregate, id, a, front, rank, bound);
      WalkOneMore(aggregate, id, a + front, last, rank, bound);
      assert a + b == (a + front) + [last];
    }
  }

  lemma {:induction false} RequestsWalkInOrder(
      aggregate: Aggregate, id: string, ids: seq<RequestId>, rank: Rank, bound: nat)
    requires WalkableCollection(aggregate, id, rank)
    ensures AllBounded(aggregate, id, RequestNodes(aggregate[id], ids), rank, bound)
    ensures Walk(aggregate, id, RequestNodes(aggregate[id], ids), rank, bound)
         == ReferenceIds(Present(aggregate[id], ids))
  {
    RequestNodesAreBounded(aggregate, id, ids, rank, bound);
    if ids != [] {
      var c := aggregate[id];
      var front, last := ids[..|ids| - 1], ids[|ids| - 1];
      RequestsWalkInOrder(aggregate, id, front, rank, bound);
      var nodes := RequestNodes(c, front);
      if last in c.requests {
        assert (nodes + [RequestNode(c.requests[last].id)])[..|nodes|] == nodes;
      } else {
        assert nodes + [] == nodes;
      }
    }
  }

  lemma {:induction false} FoldersWalkInOrder(
      aggregate: Aggregate, id: string, keys: seq<FolderId>, rank: Rank, bound: nat)
    requires WalkableCollection(aggregate, id, rank)
    requires forall k :: k in keys && k in aggregate[id].folders ==> k in rank && rank[k] < bound
    ensures AllBounded(aggregate, id, FolderNodes(aggregate[id], keys), rank, bound)
    ensures Walk(aggregate, id, FolderNodes(aggregate[id], keys), rank, bound)
         == ReferenceIds(FolderListRequests(aggregate[id], keys, rank, bound))
    decreases bound, 0, |keys|
  {
    FolderNodesAreBounded(aggregate, id, keys, rank, bound);
    if keys != [] {
      var c := aggregate[id];
      var front, last := keys[..|keys| - 1], keys[|keys| - 1];
      FoldersWalkInOrder(aggregate, id, front, rank, bound);
      if last in c.folders {
        FolderWalksInOrder(aggregate, id, last, rank);
        WalkOneMore(aggregate, id, FolderNodes(c, front), FolderNode(id, last), rank, bound);
        ReferenceIdsOfConcat(FolderListRequests(c, front, rank, bound), FolderRequests(c, last, rank));
      } else {
        NothingAdded(FolderNodes(c, front), FolderListRequests(c, front, rank, bound));
      }
    }
  }

  lemma NothingAdded(nodes: seq<TreeNode>, requests: seq<RequestReference>)
    ensures nodes + [] == nodes && requests + [] == requests
  {
  }

  lemma {:induction false} ChildrenWalkInOrder(
      aggregate: Aggregate, id: string, keys: seq<FolderId>, ids: seq<RequestId>, rank: Rank, bound: nat)
    requires WalkableCollection(aggregate, id, rank)
    requires forall k :: k in keys && k in aggregate[id].folders ==> k in rank && rank[k] < bound
    ensures var nodes := FolderNodes(aggregate[id], keys) + RequestNodes(aggregate[id], ids);
      && AllBounded(aggregate, id, nodes, rank, bound)
      && Walk(aggregate, id, nodes, rank, bound)
           == ReferenceIds(FolderListRequests(aggregate[id], keys, rank, bound) + Present(aggregate[id], ids))
    decreases bound, 1, 0
  {
    var c := aggregate[id];
    FoldersWalkInOrder(aggregate, id, keys, rank, bound);
    RequestsWalkInOrder(aggregate, id, ids, rank, bound);
    WalkOfConcat(aggregate, id, FolderNodes(c, keys), RequestNodes(c, ids), rank, bound);
    ReferenceIdsOfConcat(FolderListRequests(c, keys, rank, bound), Present(c, ids));
  }

  /** Below a folder the explorer shows the requests in the order a run of the folder takes them. */
  lemma {:induction false} FolderWalksInOrder(aggregate: Aggregate, id: string, f: FolderId, rank: Rank)
    requires WalkableCollection(aggregate, id, rank) && f in aggregate[id].folders && f in rank
    ensures AllBounded(aggregate, id, GetTreeChildren(aggregate, FolderNode(id, f)), rank, rank[f])
    ensures Walk(aggregate, id, GetTreeChildren(aggregate, FolderNode(id, f)), rank, rank[f])
         == ReferenceIds(FolderRequests(aggregate[id], f, rank))
    decreases rank[f], 2, 0
  {
    var folder := aggregate[id].folders[f];
    assert RankedAt(aggregate[id], rank, f);
    ChildrenWalkInOrder(aggregate, id, folder.folderIds, folder.requestIds, rank, rank[f]);
  }

  /** Below a collection the explorer shows the requests in the order a run of the collection takes them. */
  lemma {:induction false} CollectionWalksInOrder(aggregate: Aggregate, id: string, rank: Rank)
    requires WalkableCollection(aggregate, id, rank)
    ensures var bound := RankBound(aggregate[id].rootFolderIds, rank);
      && AllBounded(aggregate, id, GetTreeChildren(aggregate, CollectionNode(id)), rank, bound)
      && Walk(aggregate, id, GetTreeChildren(aggregate, CollectionNode(id)), rank, bound)
           == ReferenceIds(CollectionRequests(aggregate[id], rank))
  {
    var c := aggregate[id];
    RootsAreRanked(c, rank);
    ChildrenWalkInOrder(aggregate, id, c.rootFolderIds, c.rootRequestIds, rank, RankBound(c.rootFolderIds, rank));
  }
}
