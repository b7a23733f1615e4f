/** The Setup screen of a collection run: its request list, its tree, and the target its selection stands for. */
module RunSetup {
  import opened Wrappers
  import opened Sequences
  import opened DependencyGraph
  import opened Collections
  import opened RunPlans
  import opened PlanBuilder

  // ---- The list and the selection ----

  /** Targets that no longer exist list nothing. */
  function SetupRequestIds(aggregate: Aggregate, target: Target, ghost rank: Rank): seq<RequestId>
    requires TargetRanked(aggregate, target, rank)
  {
    match TargetRequests(aggregate, target, rank)
    case Ok(requests) => ReferenceIds(requests)
    case Err(_) => []
  }

  /** `ids.filter((id) => chosen.has(id))`. */
  function Chosen(ids: seq<RequestId>, chosen: set<RequestId>): (r: seq<RequestId>)
    ensures |r| <= |ids|
  {
    if ids == [] then []
    else
      var last := ids[|ids| - 1];
      Chosen(ids[..|ids| - 1], chosen) + if last in chosen then [last] else []
  }

  lemma {:induction false} ChosenIff(ids: seq<RequestId>, chosen: set<RequestId>, id: RequestId)
    ensures id in Chosen(ids, chosen) <==> id in ids && id in chosen
  {
    if ids != [] {
      ChosenIff(ids[..|ids| - 1], chosen, id);
      assert ids == ids[..|ids| - 1] + [ids[|ids| - 1]];
    }
  }

  lemma {:induction false} ChosenIsWhole(ids: seq<RequestId>, chosen: set<RequestId>)
    requires |Chosen(ids, chosen)| == |ids|
    ensures Chosen(ids, chosen) == ids && forall id :: id in ids ==> id in chosen
  {
    if ids != [] {
      var front, last := ids[..|ids| - 1], ids[|ids| - 1];
      ChosenIsWhole(front, chosen);
      assert ids == front + [last];
    }
  }

  lemma {:induction false} WholeIsChosen(ids: seq<RequestId>, chosen: set<RequestId>)
    requires forall id :: id in ids ==> id in chosen
    ensures Chosen(ids, chosen) == ids
  {
    if ids != [] {
      assert forall id :: id in ids[..|ids| - 1] ==> id in ids;
      WholeIsChosen(ids[..|ids| - 1], chosen);
      assert ids[|ids| - 1] in ids;
    }
  }

  lemma {:induction false} ChosenAll(ids: seq<RequestId>, chosen: set<RequestId>)
    ensures |Chosen(ids, chosen)| == |ids| <==> forall id :: id in ids ==> id in chosen
    ensures |Chosen(ids, chosen)| == |ids| ==> Chosen(ids, chosen) == ids
  {
    if |Chosen(ids, chosen)| == |ids| {
      ChosenIsWhole(ids, chosen);
    }
    if forall id :: id in ids ==> id in chosen {
      WholeIsChosen(ids, chosen);
    }
  }

  lemma {:induction false} ChosenOfConcat(a: seq<RequestId>, b: seq<RequestId>, chosen: set<RequestId>)
    ensures Chosen(a + b, chosen) == Chosen(a, chosen) + Chosen(b, chosen)
    decreases |b|
  {
    if b == [] {
      assert a + b == a;
    } else {
      var front, last := b[..|b| - 1], b[|b| - 1];
      ChosenOfConcat(a, front, chosen);
      ChosenSnoc(a + front, last, chosen);
      ChosenSnoc(front, last, chosen);
      assert a + b == (a + front) + [last] && b == front + [last];
    }
  }

  lemma ChosenSnoc(ids: seq<RequestId>, last: RequestId, chosen: set<RequestId>)
    ensures Chosen(ids + [last], chosen) == Chosen(ids, chosen) + if last in chosen then [last] else []
  {
    assert (ids + [last])[..|ids|] == ids;
  }

  /**
   The target that runs a selection: the original when everything in it is selected, else the selected ids in order.
   */
  function MapSelection(aggregate: Aggregate, original: Target, selected: set<RequestId>, ghost rank: Rank): Target
    requires TargetRanked(aggregate, original, rank)
  {
    if original.collectionId !in aggregate then original
    else
      var ordered := SetupRequestIds(aggregate, original, rank);
      var inOrder := Chosen(ordered, selected);
      if !original.SelectedTarget? && |ordered| > 0 && |inOrder| == |ordered| then original
      else SelectedTarget(original.collectionId, inOrder)
  }

  lemma {:induction false} PresentOfPresentIds(c: Collection, ids: seq<RequestId>)
    requires forall id :: id in ids ==> id in c.requests && c.requests[id].id == id
    ensures ReferenceIds(Present(c, ids)) == ids
  {
    if ids != [] {
      PresentOfPresentIds(c, ids[..|ids| - 1]);
      assert ids[|ids| - 1] in ids;
      assert ids == ids[..|ids| - 1] + [ids[|ids| - 1]];
    }
  }

  lemma {:induction false} ListedIdsArePresent(aggregate: Aggregate, target: Target, rank: Rank, id: RequestId)
    requires TargetRanked(aggregate, target, rank) && id in SetupRequestIds(aggregate, target, rank)
    requires Keyed(target.collectionId, aggregate[target.collectionId])
    ensures var c := aggregate[target.collectionId]; id in c.requests && c.requests[id].id == id
  {
    var c := aggregate[target.collectionId];
    var requests := TargetRequests(aggregate, target, rank).value;
    var i :| 0 <= i < |requests| && ReferenceIds(requests)[i] == id;
    var r := requests[i];
    match target
    case CollectionTarget(_) => CollectionWalkIsPresent(target.collectionId, c, rank, r);
    case FolderTarget(_, folderId) =>
      assert RankedAt(c, rank, folderId);
      FolderWalkIsPresent(target.collectionId, c, folderId, rank, r);
    case SelectedTarget(_, requestIds) => PresentIff(c, requestIds, r);
  }

  /** For every target, running a selection plans exactly the selected requests, in the target's own order. */
  lemma {:induction false} SelectionPlansSelected(
      aggregate: Aggregate, original: Target, selected: set<RequestId>, rank: Rank)
    requires TargetRanked(aggregate, original, rank) && original.collectionId in aggregate
    requires Keyed(original.collectionId, aggregate[original.collectionId])
    ensures var mapped := MapSelection(aggregate, original, selected, rank);
      && TargetRanked(aggregate, mapped, rank)
      && TargetRequests(aggregate, mapped, rank).Ok?
      && ReferenceIds(TargetRequests(aggregate, mapped, rank).value)
           == Chosen(SetupRequestIds(aggregate, original, rank), selected)
  {
    var ordered := SetupRequestIds(aggregate, original, rank);
    ChosenAll(ordered, selected);
    forall id | id in Chosen(ordered, selected)
      ensures var c := aggregate[original.collectionId]; id in c.requests && c.requests[id].id == id
    {
      ChosenIff(ordered, selected, id);
      ListedIdsArePresent(aggregate, original, rank, id);
    }
    PresentOfPresentIds(aggregate[original.collectionId], Chosen(ordered, selected));
  }

  lemma {:induction false} ChosenIsDistinct(ids: seq<RequestId>, chosen: set<RequestId>)
    requires Distinct(ids)
    ensures Distinct(Chosen(ids, chosen))
  {
    if ids != [] {
      var front, last := ids[..|ids| - 1], ids[|ids| - 1];
      ChosenIsDistinct(front, chosen);
      ChosenIff(front, chosen, last);
      assert last !in front;
    }
  }

  /** The Setup screen never selects a request twice. */
  lemma {:induction false} SelectionNamesEachOnce(
      aggregate: Aggregate, original: Target, selected: set<RequestId>, rank: Rank)
    requires TargetRanked(aggregate, original, rank) && original.collectionId in aggregate
    requires Keyed(original.collectionId, aggregate[original.collectionId])
    requires LinkedToParents(aggregate[original.collectionId]) && NamesEachOnce(original)
    ensures NamesEachOnce(MapSelection(aggregate, original, selected, rank))
  {
    if TargetRequests(aggregate, original, rank).Ok? {
      PlannedIdsAreDistinct(aggregate, original, rank);
      ChosenIsDistinct(SetupRequestIds(aggregate, original, rank), selected);
    }
  }

  /** The selection is the whole list again exactly when every listed request is selected. */
  lemma {:induction false} WholeSelectionKeepsTarget(
      aggregate: Aggregate, original: Target, selected: set<RequestId>, rank: Rank)
    requires TargetRanked(aggregate, original, rank) && !original.SelectedTarget?
    requires SetupRequestIds(aggregate, original, rank) != []
    ensures MapSelection(aggregate, original, selected, rank) == original <==>
      forall id :: id in SetupRequestIds(aggregate, original, rank) ==> id in selected
  {
    ChosenAll(SetupRequestIds(aggregate, original, rank), selected);
  }

  // ---- The tree ----

  datatype SetupNode =
    | RequestNode(id: RequestId, selected: bool)
    | FolderNode(folderId: FolderId, selected: bool, children: seq<SetupNode>)

  /** collectTreeRequestIds(): the requests of the nodes, in tree order. */
  function TreeRequestIds(nodes: seq<SetupNode>): seq<RequestId>
    decreases nodes
  {
    if nodes == [] then []
    else TreeRequestIds(nodes[..|nodes| - 1]) + NodeRequestIds(nodes[|nodes| - 1])
  }

  function NodeRequestIds(node: SetupNode): seq<RequestId>
    decreases node
  {
    match node
    case RequestNode(id, _) => [id]
    case FolderNode(_, _, children) => TreeRequestIds(children)
  }

  /** A request is ticked when selected, a folder when it holds requests and all of them are. */
  ghost predicate Ticked(nodes: seq<SetupNode>, selected: set<RequestId>)
    decreases nodes
  {
    forall i :: 0 <= i < |nodes| ==> NodeTicked(nodes[i], selected)
  }

  ghost predicate NodeTicked(node: SetupNode, selected: set<RequestId>)
    decreases node
  {
    match node
    case RequestNode(id, ticked) => ticked <==> id in selected
    case FolderNode(_, ticked, children) =>
      && Ticked(children, selected)
      && var ids := TreeRequestIds(children);
      (ticked <==> ids != [] && forall id :: id in ids ==> id in selected)
  }

  /** What the tree shows of a walk: everything, or only the allowed ids. */
  function Allowed(ids: seq<RequestId>, allowed: Option<set<RequestId>>): seq<RequestId> {
    if allowed.Some? then Chosen(ids, allowed.value) else ids
  }

  lemma AllowedOfConcat(a: seq<RequestReference>, b: seq<RequestReference>, allowed: Option<set<RequestId>>)
    ensures Allowed(ReferenceIds(a + b), allowed)
         == Allowed(ReferenceIds(a), allowed) + Allowed(ReferenceIds(b), allowed)
  {
    ReferenceIdsOfConcat(a, b);
    if allowed.Some? {
      ChosenOfConcat(ReferenceIds(a), ReferenceIds(b), allowed.value);
    }
  }

  lemma TreeOfConcat(a: seq<SetupNode>, b: seq<SetupNode>)
    ensures TreeRequestIds(a + b) == TreeRequestIds(a) + TreeRequestIds(b)
    decreases |b|
  {
    if b == [] {
      assert a + b == a;
    } else {
      TreeOfConcat(a, b[..|b| - 1]);
      assert (a + b)[..|a + b| - 1] == a + b[..|b| - 1];
    }
  }

  /** No node is without a request. */
  predicate NoneEmpty(nodes: seq<SetupNode>) {
    forall i :: 0 <= i < |nodes| ==> NodeRequestIds(nodes[i]) != []
  }

  lemma NoneEmptyHasRequests(nodes: seq<SetupNode>)
    requires NoneEmpty(nodes)
    ensures nodes != [] <==> TreeRequestIds(nodes) != []
  {
  }

  /** The nodes show these requests, ticked as selected. */
  ghost predicate Shows(
      nodes: seq<SetupNode>, requests: seq<RequestReference>, selected: set<RequestId>,
      allowed: Option<set<RequestId>>) {
    TreeRequestIds(nodes) == Allowed(ReferenceIds(requests), allowed) && Ticked(nodes, selected)
  }

  /** The listed folders that the tree shows: those that exist and, when it is narrowed, hold an allowed request. */
  ghost function ShownFolders(
      c: Collection, keys: seq<FolderId>, allowed: Option<set<RequestId>>, rank: Rank): (r: seq<FolderId>)
    requires Ranked(c, rank)
    ensures forall i :: 0 <= i < |r| ==> r[i] in keys && r[i] in c.folders
  {
    if keys == [] then []
    else
      var last := keys[|keys| - 1];
      var front := ShownFolders(c, keys[..|keys| - 1], allowed, rank);
      if last in c.folders && IsShown(c, last, allowed, rank) then front + [last] else front
  }

  ghost predicate IsShown(c: Collection, key: FolderId, allowed: Option<set<RequestId>>, rank: Rank)
    requires Ranked(c, rank) && key in c.folders
  {
    allowed.None? || Allowed(ReferenceIds(FolderRequests(c, key, rank)), allowed) != []
  }

  /** The node stands for the folder, holds its requests, and nests as the folder does. */
  ghost predicate FolderNests(
      c: Collection, key: FolderId, node: SetupNode, selected: set<RequestId>, allowed: Option<set<RequestId>>,
      rank: Rank)
    requires Ranked(c, rank) && key in c.folders
    decreases rank[key], 1
  {
    && RankedAt(c, rank, key)
    && node.FolderNode? && node.folderId == c.folders[key].id
    && Shows(node.children, FolderRequests(c, key, rank), selected, allowed)
    && Nests(c, c.folders[key].folderIds, node.children, selected, allowed, rank, rank[key])
  }

  /** The shown ones of the listed folders come first, in the listed order, and requests after them. */
  ghost predicate Nests(
      c: Collection, keys: seq<FolderId>, nodes: seq<SetupNode>, selected: set<RequestId>,
      allowed: Option<set<RequestId>>, rank: Rank, bound: nat)
    requires Ranked(c, rank)
    requires forall k :: k in keys && k in c.folders ==> k in rank && rank[k] < bound
    decreases bound, 0
  {
    var shown := ShownFolders(c, keys, allowed, rank);
    && |shown| <= |nodes|
    && (forall i :: 0 <= i < |shown| ==> FolderNests(c, shown[i], nodes[i], selected, allowed, rank))
    && OnlyRequests(nodes[|shown|..])
  }

  predicate OnlyRequests(nodes: seq<SetupNode>) {
    forall i :: 0 <= i < |nodes| ==> nodes[i].RequestNode?
  }

  /** The nodes are the shown ones of the listed folders. */
  ghost predicate FoldersNest(
      c: Collection, keys: seq<FolderId>, nodes: seq<SetupNode>, selected: set<RequestId>,
      allowed: Option<set<RequestId>>, rank: Rank)
    requires Ranked(c, rank)
  {
    var shown := ShownFolders(c, keys, allowed, rank);
    && |nodes| == |shown|
    && forall i :: 0 <= i < |shown| ==> FolderNests(c, shown[i], nodes[i], selected, allowed, rank)
  }

  lemma FoldersNestOneMore(
      c: Collection, keys: seq<FolderId>, i: nat, nodes: seq<SetupNode>, node: Option<SetupNode>,
      selected: set<RequestId>, allowed: Option<set<RequestId>>, rank: Rank)
    requires Ranked(c, rank) && i < |keys| && keys[i] in c.folders
    requires FoldersNest(c, keys[..i], nodes, selected, allowed, rank)
    requires node.Some? <==> IsShown(c, keys[i], allowed, rank)
    requires node.Some? ==> FolderNests(c, keys[i], node.value, selected, allowed, rank)
    ensures FoldersNest(
      c, keys[..i + 1], nodes + if node.Some? then [node.value] else [], selected, allowed, rank)
  {
    assert keys[..i + 1][..i] == keys[..i];
  }

  lemma FoldersThenRequestsNest(
      c: Collection, keys: seq<FolderId>, folders: seq<SetupNode>, requests: seq<SetupNode>,
      selected: set<RequestId>, allowed: Option<set<RequestId>>, rank: Rank, bound: nat)
    requires Ranked(c, rank)
    requires forall k :: k in keys && k in c.folders ==> k in rank && rank[k] < bound
    requires FoldersNest(c, keys, folders, selected, allowed, rank) && OnlyRequests(requests)
    ensures Nests(c, keys, folders + requests, selected, allowed, rank, bound)
  {
    assert (folders + requests)[|folders|..] == requests;
  }

  lemma ShowsOneMore(
      nodes: seq<SetupNode>, requests: seq<RequestReference>, node: seq<SetupNode>, more: seq<RequestReference>,
                     selected: set<RequestId>, allowed: Option<set<RequestId>>)
    requires Shows(nodes, requests, selected, allowed) && Shows(node, more, selected, allowed)
    ensures Shows(nodes + node, requests + more, selected, allowed)
  {
    AllowedOfConcat(requests, more, allowed);
    TreeOfConcat(nodes, node);
  }

  lemma ShowsRequest(request: RequestReference, selected: set<RequestId>, allowed: Option<set<RequestId>>)
    ensures var shown := allowed.None? || request.id in allowed.value;
      Shows(if shown then [RequestNode(request.id, request.id in selected)] else [], [request], selected, allowed)
  {
    var node := RequestNode(request.id, request.id in selected);
    assert [node][..0] == [] && NodeTicked(node, selected);
    assert TreeRequestIds([node]) == [] + NodeRequestIds(node);
    assert ReferenceIds([request]) == [request.id] && [request.id][..0] == [];
    if allowed.Some? {
      assert Chosen([request.id], allowed.value) == [] + if request.id in allowed.value then [request.id] else [];
    }
  }

  method ProjectRequests(c: Collection, ids: seq<RequestId>, selected: set<RequestId>, allowed: Option<set<RequestId>>)
    returns (nodes: seq<SetupNode>)
    ensures Shows(nodes, Present(c, ids), selected, allowed) && NoneEmpty(nodes) && OnlyRequests(nodes)
  {
    nodes := [];
    for i := 0 to |ids|
      invariant Shows(nodes, Present(c, ids[..i]), selected, allowed) && NoneEmpty(nodes) && OnlyRequests(nodes)
    {
      PresentStep(c, ids, i);
      if ids[i] in c.requests {
        var request := c.requests[ids[i]];
        var shown :=
          if allowed.None? || request.id in allowed.value then [RequestNode(request.id, request.id in selected)]
          else [];
        ShowsRequest(request, selected, allowed);
        ShowsOneMore(nodes, Present(c, ids[..i]), shown, [request], selected, allowed);
        nodes := nodes + shown;
      }
    }
    assert ids[..|ids|] == ids;
  }

  lemma PresentStep(c: Collection, ids: seq<RequestId>, i: nat)
    requires i < |ids|
    ensures Present(c, ids[..i + 1]) ==
      if ids[i] in c.requests then Present(c, ids[..i]) + [c.requests[ids[i]]] else Present(c, ids[..i])
  {
    assert ids[..i + 1][..i] == ids[..i];
    assert Present(c, ids[..i]) + [] == Present(c, ids[..i]);
  }

  /** A folder without an allowed request is left out when the tree is narrowed. */
  method ProjectFolder(
      c: Collection, key: FolderId, selected: set<RequestId>, allowed: Option<set<RequestId>>, ghost rank: Rank)
    returns (node: Option<SetupNode>)
    requires Ranked(c, rank) && key in c.folders && key in rank
    ensures Shows(if node.Some? then [node.value] else [], FolderRequests(c, key, rank), selected, allowed)
    ensures node.Some? <==> IsShown(c, key, allowed, rank)
    ensures node.Some? && allowed.Some? ==> NodeRequestIds(node.value) != []
    ensures node.Some? ==> FolderNests(c, key, node.value, selected, allowed, rank)
    decreases rank[key], 1, 0
  {
    assert RankedAt(c, rank, key);
    var nested := ProjectFolders(c, c.folders[key].folderIds, selected, allowed, rank, rank[key]);
    var own := ProjectRequests(c, c.folders[key].requestIds, selected, allowed);
    var children := nested + own;
    ShowsOneMore(nested, FolderListRequests(c, c.folders[key].folderIds, rank, rank[key]), own,
                 Present(c, c.folders[key].requestIds), selected, allowed);
    ghost var requests := FolderRequests(c, key, rank);
    assert Shows(children, requests, selected, allowed);
    FoldersThenRequestsNest(c, c.folders[key].folderIds, nested, own, selected, allowed, rank, rank[key]);
    if allowed.Some? {
      NoneEmptyHasRequests(children);
      if |children| == 0 {
        return None;
      }
    }
    var descendants := TreeRequestIds(children);
    var ticked := |descendants| > 0 && |Chosen(descendants, selected)| == |descendants|;
    ChosenAll(descendants, selected);
    node := Some(FolderNode(c.folders[key].id, ticked, children));
    FolderShowsChildren(c.folders[key].id, ticked, children, requests, selected, allowed);
  }

  lemma FolderShowsChildren(id: FolderId, ticked: bool, children: seq<SetupNode>, requests: seq<RequestReference>,
                            selected: set<RequestId>, allowed: Option<set<RequestId>>)
    requires Shows(children, requests, selected, allowed)
    requires ticked <==> TreeRequestIds(children) != [] && forall r :: r in TreeRequestIds(children) ==> r in selected
    ensures Shows([FolderNode(id, ticked, children)], requests, selected, allowed)
  {
    var node := FolderNode(id, ticked, children);
    assert [node][..0] == [];
    assert TreeRequestIds([node]) == [] + NodeRequestIds(node);
  }

  method ProjectFolders(
      c: Collection, keys: seq<FolderId>, selected: set<RequestId>, allowed: Option<set<RequestId>>,
      ghost rank: Rank, ghost bound: nat)
    returns (nodes: seq<SetupNode>)
    requires Ranked(c, rank)
    requires forall k :: k in keys && k in c.folders ==> k in rank && rank[k] < bound
    ensures Shows(nodes, FolderListRequests(c, keys, rank, bound), selected, allowed)
    ensures allowed.Some? ==> NoneEmpty(nodes)
    ensures FoldersNest(c, keys, nodes, selected, allowed, rank)
    decreases bound, 0, 0
  {
    nodes := [];
    for i := 0 to |keys|
      invariant Shows(nodes, FolderListRequests(c, keys[..i], rank, bound), selected, allowed)
      invariant allowed.Some? ==> NoneEmpty(nodes)
      invariant FoldersNest(c, keys[..i], nodes, selected, allowed, rank)
    {
      assert keys[..i + 1][..i] == keys[..i];
      if keys[i] in c.folders {
        var node := ProjectFolder(c, keys[i], selected, allowed, rank);
        var shown := if node.Some? then [node.value] else [];
        FoldersNestOneMore(c, keys, i, nodes, node, selected, allowed, rank);
        ShowsOneMore(nodes, FolderListRequests(c, keys[..i], rank, bound),
                     shown, FolderRequests(c, keys[i], rank), selected, allowed);
        nodes := nodes + shown;
      } else {
        assert FolderListRequests(c, keys[..i], rank, bound) + [] == FolderListRequests(c, keys[..i], rank, bound);
      }
    }
    assert keys[..|keys|] == keys;
  }

  /**
   What the tree of a target shows: for a selection, the whole collection narrowed to the selected ids, in tree
   order.
   */
  function TreeRequests(
      c: Collection, target: Target, ghost rank: Rank): (r: (seq<RequestReference>, Option<set<RequestId>>))
    requires Ranked(c, rank)
  {
    match target
    case FolderTarget(_, folderId) => (if folderId in c.folders then FolderRequests(c, folderId, rank) else [], None)
    case CollectionTarget(_) => (CollectionRequests(c, rank), None)
    case SelectedTarget(_, requestIds) => (CollectionRequests(c, rank), Some(set id | id in requestIds))
  }

  /** The tree's folders are those of the target that it shows, nested and ordered as in the collection. */
  ghost predicate TreeNests(c: Collection, target: Target, nodes: seq<SetupNode>, selected: set<RequestId>, rank: Rank)
    requires Ranked(c, rank)
  {
    match target
    case FolderTarget(_, folderId) =>
      if folderId in c.folders then |nodes| == 1 && FolderNests(c, folderId, nodes[0], selected, None, rank)
      else nodes == []
    case _ => RootsNest(c, nodes, selected, TreeRequests(c, target, rank).1, rank)
  }

  ghost predicate RootsNest(
      c: Collection, nodes: seq<SetupNode>, selected: set<RequestId>, allowed: Option<set<RequestId>>, rank: Rank)
    requires Ranked(c, rank)
  {
    RootsAreRanked(c, rank);
    Nests(c, c.rootFolderIds, nodes, selected, allowed, rank, RankBound(c.rootFolderIds, rank))
  }

  method BuildRequestTree(
      c: Collection, target: Target, selected: set<RequestId>, ghost rank: Rank) returns (nodes: seq<SetupNode>)
    requires Ranked(c, rank)
    ensures var (requests, allowed) := TreeRequests(c, target, rank); Shows(nodes, requests, selected, allowed)
    ensures TreeNests(c, target, nodes, selected, rank)
  {
    if target.FolderTarget? {
      if target.folderId !in c.folders {
        return [];
      }
      assert RankedAt(c, rank, target.folderId);
      var node := ProjectFolder(c, target.folderId, selected, None, rank);
      return [node.value];
    }
    var allowed := if target.SelectedTarget? then Some(set id | id in target.requestIds) else None;
    nodes := ProjectRoots(c, selected, allowed, rank);
  }

  method ProjectRoots(c: Collection, selected: set<RequestId>, allowed: Option<set<RequestId>>, ghost rank: Rank)
    returns (nodes: seq<SetupNode>)
    requires Ranked(c, rank)
    ensures Shows(nodes, CollectionRequests(c, rank), selected, allowed)
    ensures RootsNest(c, nodes, selected, allowed, rank)
  {
    RootsAreRanked(c, rank);
    ghost var bound := RankBound(c.rootFolderIds, rank);
    var folders := ProjectFolders(c, c.rootFolderIds, selected, allowed, rank, bound);
    var own := ProjectRequests(c, c.rootRequestIds, selected, allowed);
    nodes := folders + own;
    FoldersThenRequestsNest(c, c.rootFolderIds, folders, own, selected, allowed, rank, bound);
    ShowsOneMore(folders, FolderListRequests(c, c.rootFolderIds, rank, bound),
                 own, Present(c, c.rootRequestIds), selected, allowed);
  }

  /** For a whole collection or a folder, the tree lists what the Setup list does, in the same order. */
  lemma {:induction false} TreeListsSetupIds(
      aggregate: Aggregate, target: Target, selected: set<RequestId>, rank: Rank, nodes: seq<SetupNode>)
    requires target.collectionId in aggregate && Ranked(aggregate[target.collectionId], rank)
    requires var (requests, allowed) := TreeRequests(aggregate[target.collectionId], target, rank);
      Shows(nodes, requests, selected, allowed)
    ensures !target.SelectedTarget? ==> TreeRequestIds(nodes) == SetupRequestIds(aggregate, target, rank)
    ensures target.SelectedTarget? ==>
      forall id :: id in TreeRequestIds(nodes) <==>
        id in target.requestIds && id in ReferenceIds(CollectionRequests(aggregate[target.collectionId], rank))
  {
    if target.SelectedTarget? {
      var ids := ReferenceIds(CollectionRequests(aggregate[target.collectionId], rank));
      forall id
        ensures id in TreeRequestIds(nodes) <==> id in target.requestIds && id in ids
      {
        ChosenIff(ids, (set x | x in target.requestIds), id);
      }
    }
  }
}
