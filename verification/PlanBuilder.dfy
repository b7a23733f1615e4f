/**
 Building a run plan from a discovered collection: depth first, at each folder the child folders and then the
 requests. The Setup screen's own copies of the collecting functions have the same text and are not repeated.
 */
module PlanBuilder {
  import opened Wrappers
  import opened Sequences
  import opened DependencyGraph
  import opened Collections
  import opened RunPlans

  datatype Target =
    | CollectionTarget(collectionId: string)
    | FolderTarget(collectionId: string, folderId: FolderId)
    | SelectedTarget(collectionId: string, requestIds: seq<RequestId>)

  datatype RunPlanError = CollectionNotFound | FolderNotFound

  /** The listed requests that exist. */
  function Present(c: Collection, ids: seq<RequestId>): seq<RequestReference> {
    if ids == [] then []
    else
      var last := ids[|ids| - 1];
      Present(c, ids[..|ids| - 1]) + if last in c.requests then [c.requests[last]] else []
  }

  function FolderRequests(c: Collection, key: FolderId, ghost rank: Rank): seq<RequestReference>
    requires Ranked(c, rank) && key in c.folders
    decreases rank[key], 1, 0
  {
    assert RankedAt(c, rank, key);
    FolderListRequests(c, c.folders[key].folderIds, rank, rank[key]) + Present(c, c.folders[key].requestIds)
  }

  function FolderListRequests(
      c: Collection, keys: seq<FolderId>, ghost rank: Rank, ghost bound: nat): seq<RequestReference>
    requires Ranked(c, rank)
    requires forall k :: k in keys && k in c.folders ==> k in rank && rank[k] < bound
    decreases bound, 0, |keys|
  {
    if keys == [] then []
    else
      var last := keys[|keys| - 1];
      FolderListRequests(c, keys[..|keys| - 1], rank, bound)
        + if last in c.folders then FolderRequests(c, last, rank) else []
  }

  /** A bound on the ranks of the listed folders. */
  ghost function RankBound(keys: seq<FolderId>, rank: Rank): (b: nat)
    ensures forall k :: k in keys && k in rank ==> rank[k] < b
  {
    if keys == [] then 0
    else
      var rest := RankBound(keys[1..], rank);
      if keys[0] in rank && rest <= rank[keys[0]] then rank[keys[0]] + 1 else rest
  }

  function CollectionRequests(c: Collection, ghost rank: Rank): seq<RequestReference>
    requires Ranked(c, rank)
  {
    RootsAreRanked(c, rank);
    FolderListRequests(c, c.rootFolderIds, rank, RankBound(c.rootFolderIds, rank)) + Present(c, c.rootRequestIds)
  }

  lemma RootsAreRanked(c: Collection, rank: Rank)
    requires Ranked(c, rank)
    ensures forall k :: k in c.rootFolderIds && k in c.folders ==>
      k in rank && rank[k] < RankBound(c.rootFolderIds, rank)
  {
    forall k | k in c.rootFolderIds && k in c.folders
      ensures k in rank && rank[k] < RankBound(c.rootFolderIds, rank)
    {
      assert RankedAt(c, rank, k);
    }
  }

  ghost predicate TargetRanked(aggregate: Aggregate, target: Target, rank: Rank) {
    target.collectionId in aggregate ==> Ranked(aggregate[target.collectionId], rank)
  }

  /** What a target stands for. */
  function TargetRequests(
      aggregate: Aggregate, target: Target, ghost rank: Rank): Result<seq<RequestReference>, RunPlanError>
    requires TargetRanked(aggregate, target, rank)
  {
    if target.collectionId !in aggregate then Err(CollectionNotFound)
    else
      var c := aggregate[target.collectionId];
      match target
      case CollectionTarget(_) => Ok(CollectionRequests(c, rank))
      case FolderTarget(_, folderId) =>
        if folderId in c.folders then Ok(FolderRequests(c, folderId, rank)) else Err(FolderNotFound)
      case SelectedTarget(_, requestIds) => Ok(Present(c, requestIds))
  }

  function ReferenceIds(requests: seq<RequestReference>): (r: seq<RequestId>)
    ensures |r| == |requests|
  {
    seq(|requests|, i requires 0 <= i < |requests| => requests[i].id)
  }

  lemma ReferenceIdsOfConcat(a: seq<RequestReference>, b: seq<RequestReference>)
    ensures ReferenceIds(a + b) == ReferenceIds(a) + ReferenceIds(b)
  {
  }

  function ToPlannedRequest(request: RequestReference, ordinal: nat, c: Collection): PlannedRequest {
    var path :=
      if request.folderId.Some? && request.folderId.value in c.folders
      then c.folders[request.folderId.value].relativePath
      else "";
    PlannedRequest(
      request.id, request.filePath, request.displayLabel, request.httpMethod, Some(path), ordinal, None, None, None)
  }

  // ---- The builder ----

  method SelectRequests(c: Collection, ids: seq<RequestId>) returns (out: seq<RequestReference>)
    ensures out == Present(c, ids)
  {
    out := [];
    for i := 0 to |ids|
      invariant out == Present(c, ids[..i])
    {
      assert ids[..i + 1][..i] == ids[..i];
      if ids[i] in c.requests {
        out := out + [c.requests[ids[i]]];
      }
    }
    assert ids[..|ids|] == ids;
  }

  method CollectFolderRequests(c: Collection, key: FolderId, ghost rank: Rank) returns (out: seq<RequestReference>)
    requires Ranked(c, rank) && key in c.folders && key in rank
    ensures out == FolderRequests(c, key, rank)
    decreases rank[key], 1, 0
  {
    assert RankedAt(c, rank, key);
    var children := CollectFolders(c, c.folders[key].folderIds, rank, rank[key]);
    var own := SelectRequests(c, c.folders[key].requestIds);
    out := children + own;
  }

  method CollectFolders(
      c: Collection, keys: seq<FolderId>, ghost rank: Rank, ghost bound: nat) returns (out: seq<RequestReference>)
    requires Ranked(c, rank)
    requires forall k :: k in keys && k in c.folders ==> k in rank && rank[k] < bound
    ensures out == FolderListRequests(c, keys, rank, bound)
    decreases bound, 0, 0
  {
    out := [];
    for i := 0 to |keys|
      invariant out == FolderListRequests(c, keys[..i], rank, bound)
    {
      assert keys[..i + 1][..i] == keys[..i];
      if keys[i] in c.folders {
        var nested := CollectFolderRequests(c, keys[i], rank);
        out := out + nested;
      }
    }
    assert keys[..|keys|] == keys;
  }

  method CollectCollectionRequests(c: Collection, ghost rank: Rank) returns (out: seq<RequestReference>)
    requires Ranked(c, rank)
    ensures out == CollectionRequests(c, rank)
  {
    RootsAreRanked(c, rank);
    var folders := CollectFolders(c, c.rootFolderIds, rank, RankBound(c.rootFolderIds, rank));
    var own := SelectRequests(c, c.rootRequestIds);
    out := folders + own;
  }

  method BuildRunPlan(aggregate: Aggregate, target: Target, ghost rank: Rank) returns (r: Result<RunPlan, RunPlanError>)
    requires TargetRanked(aggregate, target, rank)
    ensures r.Ok? <==> TargetRequests(aggregate, target, rank).Ok?
    ensures r.Err? ==> TargetRequests(aggregate, target, rank) == Err(r.error)
    ensures r.Ok? ==> IsPlanOf(aggregate[target.collectionId], TargetRequests(aggregate, target, rank).value, r.value)
  {
    if target.collectionId !in aggregate {
      return Err(CollectionNotFound);
    }
    var c := aggregate[target.collectionId];
    var requests: seq<RequestReference>;
    match target {
      case CollectionTarget(_) => requests := CollectCollectionRequests(c, rank);
      case FolderTarget(_, folderId) =>
        if folderId !in c.folders {
          return Err(FolderNotFound);
        }
        assert RankedAt(c, rank, folderId);
        requests := CollectFolderRequests(c, folderId, rank);
      case SelectedTarget(_, requestIds) => requests := SelectRequests(c, requestIds);
    }
    var planned := seq(|requests|, i requires 0 <= i < |requests| => ToPlannedRequest(requests[i], i, c));
    r := Ok(RunPlan(planned, None));
  }

  /** A plan lists these requests in order, numbered from 0, without dependencies. */
  ghost predicate IsPlanOf(c: Collection, requests: seq<RequestReference>, plan: RunPlan) {
    && RequestIds(plan.requests) == ReferenceIds(requests)
    && plan.dependencies.None?
    && forall i :: 0 <= i < |plan.requests| ==> plan.requests[i] == ToPlannedRequest(requests[i], i, c)
  }

  /** What a plan takes from each listed request, and where it says the request lies. */
  lemma PlannedInFull(c: Collection, requests: seq<RequestReference>, plan: RunPlan, i: nat)
    requires IsPlanOf(c, requests, plan) && i < |requests|
    ensures |plan.requests| == |requests|
    ensures var planned, request := plan.requests[i], requests[i];
      && planned.requestId == request.id && planned.filePath == request.filePath
      && planned.displayLabel == request.displayLabel && planned.httpMethod == request.httpMethod
      && planned.ordinal == i
      && planned.produces == None && planned.consumes == None && planned.dependsOnRequestIds == None
      && planned.folderRelativePath == Some(
           match request.folderId
           case None => ""
           case Some(id) => if id in c.folders then c.folders[id].relativePath else "")
  {
    assert |RequestIds(plan.requests)| == |ReferenceIds(requests)|;
  }

  /** A target is refused only for a collection or a folder that is not there. */
  lemma RefusedIff(aggregate: Aggregate, target: Target, rank: Rank)
    requires TargetRanked(aggregate, target, rank)
    ensures var r := TargetRequests(aggregate, target, rank);
      && (r == Err(CollectionNotFound) <==> target.collectionId !in aggregate)
      && (r == Err(FolderNotFound) <==>
            target.collectionId in aggregate && target.FolderTarget?
            && target.folderId !in aggregate[target.collectionId].folders)
  {
  }

  // ---- What the walk visits ----

  lemma {:induction false} PresentIff(c: Collection, ids: seq<RequestId>, r: RequestReference)
    ensures r in Present(c, ids) <==> exists id :: id in ids && id in c.requests && c.requests[id] == r
  {
    if ids != [] {
      var front, last := ids[..|ids| - 1], ids[|ids| - 1];
      PresentIff(c, front, r);
      assert forall id :: id in ids <==> id in front || id == last;
    }
  }

  /** The folders at or below `key`. */
  ghost function Below(c: Collection, key: FolderId, rank: Rank): set<FolderId>
    requires Ranked(c, rank) && key in c.folders
    decreases rank[key], 1, 0
  {
    assert RankedAt(c, rank, key);
    {key} + BelowAny(c, c.folders[key].folderIds, rank, rank[key])
  }

  ghost function BelowAny(c: Collection, keys: seq<FolderId>, rank: Rank, bound: nat): set<FolderId>
    requires Ranked(c, rank)
    requires forall k :: k in keys && k in c.folders ==> k in rank && rank[k] < bound
    decreases bound, 0, |keys|
  {
    if keys == [] then {}
    else
      var last := keys[|keys| - 1];
      BelowAny(c, keys[..|keys| - 1], rank, bound) + if last in c.folders then Below(c, last, rank) else {}
  }

  lemma {:induction false} BelowAnyIff(c: Collection, keys: seq<FolderId>, rank: Rank, bound: nat, f: FolderId)
    requires Ranked(c, rank)
    requires forall k :: k in keys && k in c.folders ==> k in rank && rank[k] < bound
    ensures f in BelowAny(c, keys, rank, bound) <==> exists k :: k in keys && k in c.folders && f in Below(c, k, rank)
    decreases |keys|
  {
    if keys != [] {
      var front, last := keys[..|keys| - 1], keys[|keys| - 1];
      BelowAnyIff(c, front, rank, bound, f);
      assert forall k :: k in keys <==> k in front || k == last;
    }
  }

  /** Everything below a folder exists and ranks no higher; all but the folder itself is listed by a folder below it. */
  lemma {:induction false} BelowIsRanked(c: Collection, key: FolderId, rank: Rank, f: FolderId)
    requires Ranked(c, rank) && key in c.folders && key in rank && f in Below(c, key, rank)
    ensures f in c.folders && f in rank && rank[f] <= rank[key]
    ensures f != key ==> exists p :: p in c.folders && p in Below(c, key, rank) && f in c.folders[p].folderIds
    decreases rank[key]
  {
    assert RankedAt(c, rank, key);
    if f != key {
      var keys := c.folders[key].folderIds;
      BelowAnyIff(c, keys, rank, rank[key], f);
      var child :| child in keys && child in c.folders && f in Below(c, child, rank);
      BelowIsRanked(c, child, rank, f);
      BelowIsClosed(c, key, child, rank);
      if f == child {
        assert key in Below(c, key, rank);
      }
    }
  }

  /** What lies below a listed child lies below the folder. */
  lemma {:induction false} BelowIsClosed(c: Collection, key: FolderId, child: FolderId, rank: Rank)
    requires Ranked(c, rank) && key in c.folders && key in rank
    requires child in c.folders[key].folderIds && child in c.folders
    ensures Below(c, child, rank) <= Below(c, key, rank)
  {
    assert RankedAt(c, rank, key);
    forall f | f in Below(c, child, rank)
      ensures f in Below(c, key, rank)
    {
      BelowAnyIff(c, c.folders[key].folderIds, rank, rank[key], f);
    }
  }

  ghost predicate ListedIn(c: Collection, f: FolderId, r: RequestReference) {
    f in c.folders && exists id :: id in c.folders[f].requestIds && id in c.requests && c.requests[id] == r
  }

  /** The walk of a folder visits exactly the requests listed in the folders at or below it. */
  lemma {:induction false} FolderWalkIff(c: Collection, key: FolderId, rank: Rank, r: RequestReference)
    requires Ranked(c, rank) && key in c.folders && key in rank
    ensures r in FolderRequests(c, key, rank) <==> exists f :: f in Below(c, key, rank) && ListedIn(c, f, r)
    decreases rank[key], 1, 0
  {
    assert RankedAt(c, rank, key);
    var keys := c.folders[key].folderIds;
    FolderListWalkIff(c, keys, rank, rank[key], r);
    PresentIff(c, c.folders[key].requestIds, r);
    assert ListedIn(c, key, r) <==> r in Present(c, c.folders[key].requestIds);
    assert key in Below(c, key, rank);
    assert forall f :: f in Below(c, key, rank) <==> f == key || f in BelowAny(c, keys, rank, rank[key]);
  }

  lemma {:induction false} FolderListWalkIff(
      c: Collection, keys: seq<FolderId>, rank: Rank, bound: nat, r: RequestReference)
    requires Ranked(c, rank)
    requires forall k :: k in keys && k in c.folders ==> k in rank && rank[k] < bound
    ensures r in FolderListRequests(c, keys, rank, bound) <==>
      exists f :: f in BelowAny(c, keys, rank, bound) && ListedIn(c, f, r)
    decreases bound, 0, |keys|
  {
    if keys != [] {
      var front, last := keys[..|keys| - 1], keys[|keys| - 1];
      FolderListWalkIff(c, front, rank, bound, r);
      if last in c.folders {
        FolderWalkIff(c, last, rank, r);
      }
    }
  }

  // ---- Each request once ----

  /** Two folders under the same parent have nothing in common below them. */
  lemma {:induction false} SiblingsAreDisjoint(c: Collection, a: FolderId, b: FolderId, rank: Rank, f: FolderId)
    requires Ranked(c, rank) && LinkedToParents(c) && a in c.folders && b in c.folders && a in rank && b in rank
    requires c.folders[a].parentId == c.folders[b].parentId && a != b
    requires c.folders[a].parentId.Some? ==>
      var p := c.folders[a].parentId.value; p in c.folders && p in rank && rank[a] < rank[p] && rank[b] < rank[p]
    requires f in Below(c, a, rank)
    ensures f !in Below(c, b, rank)
    decreases if f in rank && rank[f] <= rank[a] then rank[a] - rank[f] else 0
  {
    BelowIsRanked(c, a, rank, f);
    if f in Below(c, b, rank) {
      BelowIsRanked(c, b, rank, f);
      if f == a || f == b {
        OnlyItsOwn(c, a, b, rank);
        OnlyItsOwn(c, b, a, rank);
      } else {
        var p :| p in c.folders && p in Below(c, a, rank) && f in c.folders[p].folderIds;
        var q :| q in c.folders && q in Below(c, b, rank) && f in c.folders[q].folderIds;
        assert LinkedAt(c, p) && LinkedAt(c, q) && p == q;
        assert RankedAt(c, rank, p);
        BelowIsRanked(c, a, rank, p);
        SiblingsAreDisjoint(c, a, b, rank, p);
      }
    }
  }

  /** A folder is not below its sibling. */
  lemma {:induction false} OnlyItsOwn(c: Collection, a: FolderId, b: FolderId, rank: Rank)
    requires Ranked(c, rank) && LinkedToParents(c) && a in c.folders && b in c.folders && a in rank && b in rank
    requires c.folders[a].parentId == c.folders[b].parentId && a != b
    requires c.folders[a].parentId.Some? ==>
      var p := c.folders[a].parentId.value; p in c.folders && p in rank && rank[b] < rank[p]
    ensures a !in Below(c, b, rank)
  {
    if a in Below(c, b, rank) {
      BelowIsRanked(c, b, rank, a);
      var p :| p in c.folders && p in Below(c, b, rank) && a in c.folders[p].folderIds;
      assert LinkedAt(c, p);
      BelowIsRanked(c, b, rank, p);
    }
  }

  lemma {:induction false} PresentIsDistinct(c: Collection, id: string, ids: seq<RequestId>)
    requires Keyed(id, c) && Distinct(ids)
    ensures Distinct(Present(c, ids))
  {
    if ids != [] {
      var front, last := ids[..|ids| - 1], ids[|ids| - 1];
      PresentIsDistinct(c, id, front);
      if last in c.requests {
        PresentIff(c, front, c.requests[last]);
        assert last !in front;
      }
    }
  }

  /** A request listed in a folder names that folder. */
  lemma ListedNamesFolder(c: Collection, f: FolderId, r: RequestReference)
    requires LinkedToParents(c) && ListedIn(c, f, r)
    ensures r.folderId == Some(f)
  {
    assert LinkedAt(c, f);
  }

  /** Folders that hang under one parent, or are all roots. */
  ghost predicate Siblings(c: Collection, keys: seq<FolderId>, parent: Option<FolderId>, rank: Rank) {
    && Distinct(keys)
    && (parent.Some? ==> parent.value in c.folders && parent.value in rank)
    && forall k :: k in keys && k in c.folders ==>
         && c.folders[k].parentId == parent && k in rank
         && (parent.Some? ==> rank[k] < rank[parent.value])
  }

  lemma {:induction false} FolderWalkIsDistinct(id: string, c: Collection, key: FolderId, rank: Rank)
    requires Keyed(id, c) && Ranked(c, rank) && LinkedToParents(c) && key in c.folders && key in rank
    ensures Distinct(FolderRequests(c, key, rank))
    decreases rank[key], 1, 0
  {
    assert RankedAt(c, rank, key) && LinkedAt(c, key);
    var keys, own := c.folders[key].folderIds, c.folders[key].requestIds;
    FolderListWalkIsDistinct(id, c, keys, Some(key), rank, rank[key]);
    PresentIsDistinct(c, id, own);
    forall r | r in FolderListRequests(c, keys, rank, rank[key])
      ensures r !in Present(c, own)
    {
      OwnRequestIsNotBelow(c, keys, rank, key, r);
    }
    DisjointConcatIsDistinct(FolderListRequests(c, keys, rank, rank[key]), Present(c, own));
  }

  lemma {:induction false} OwnRequestIsNotBelow(
      c: Collection, keys: seq<FolderId>, rank: Rank, key: FolderId, r: RequestReference)
    requires Ranked(c, rank) && LinkedToParents(c) && key in c.folders && key in rank
    requires keys == c.folders[key].folderIds
    requires forall k :: k in keys && k in c.folders ==> k in rank && rank[k] < rank[key]
    requires r in FolderListRequests(c, keys, rank, rank[key])
    ensures r !in Present(c, c.folders[key].requestIds)
  {
    FolderListWalkIff(c, keys, rank, rank[key], r);
    var f :| f in BelowAny(c, keys, rank, rank[key]) && ListedIn(c, f, r);
    ListedNamesFolder(c, f, r);
    BelowAnyIff(c, keys, rank, rank[key], f);
    var k :| k in keys && k in c.folders && f in Below(c, k, rank);
    BelowIsRanked(c, k, rank, f);
    PresentIff(c, c.folders[key].requestIds, r);
    assert LinkedAt(c, key);
  }

  lemma {:induction false} FolderListWalkIsDistinct(
      id: string, c: Collection, keys: seq<FolderId>, parent: Option<FolderId>, rank: Rank, bound: nat)
    requires Keyed(id, c) && Ranked(c, rank) && LinkedToParents(c) && Siblings(c, keys, parent, rank)
    requires forall k :: k in keys && k in c.folders ==> k in rank && rank[k] < bound
    ensures Distinct(FolderListRequests(c, keys, rank, bound))
    decreases bound, 0, |keys|
  {
    if keys != [] {
      var front, last := keys[..|keys| - 1], keys[|keys| - 1];
      FolderListWalkIsDistinct(id, c, front, parent, rank, bound);
      if last in c.folders {
        FolderWalkIsDistinct(id, c, last, rank);
        forall r | r in FolderListRequests(c, front, rank, bound)
          ensures r !in FolderRequests(c, last, rank)
        {
          EarlierSiblingHasOthers(c, front, last, parent, rank, bound, r);
        }
        DisjointConcatIsDistinct(FolderListRequests(c, front, rank, bound), FolderRequests(c, last, rank));
      }
    }
  }

  lemma {:induction false} EarlierSiblingHasOthers(
      c: Collection, front: seq<FolderId>, last: FolderId, parent: Option<FolderId>, rank: Rank, bound: nat,
      r: RequestReference)
    requires Ranked(c, rank) && LinkedToParents(c) && Siblings(c, front + [last], parent, rank) && last in c.folders
    requires forall k :: k in front && k in c.folders ==> k in rank && rank[k] < bound
    requires r in FolderListRequests(c, front, rank, bound)
    ensures r !in FolderRequests(c, last, rank)
  {
    assert last in front + [last];
    FolderListWalkIff(c, front, rank, bound, r);
    var f :| f in BelowAny(c, front, rank, bound) && ListedIn(c, f, r);
    ListedNamesFolder(c, f, r);
    BelowAnyIff(c, front, rank, bound, f);
    var k :| k in front && k in c.folders && f in Below(c, k, rank);
    assert k in front + [last] && k != last by {
      var i :| 0 <= i < |front| && front[i] == k;
      assert (front + [last])[i] == k && (front + [last])[|front|] == last;
    }
    SiblingsAreDisjoint(c, k, last, rank, f);
    if r in FolderRequests(c, last, rank) {
      FolderWalkIff(c, last, rank, r);
      var g :| g in Below(c, last, rank) && ListedIn(c, g, r);
      ListedNamesFolder(c, g, r);
    }
  }

  /** In a collection whose listings agree with the parents named, a whole run visits each request once. */
  lemma {:induction false} CollectionWalkIsDistinct(id: string, c: Collection, rank: Rank)
    requires Keyed(id, c) && Ranked(c, rank) && LinkedToParents(c)
    ensures Distinct(CollectionRequests(c, rank))
  {
    RootsAreRanked(c, rank);
    var bound := RankBound(c.rootFolderIds, rank);
    FolderListWalkIsDistinct(id, c, c.rootFolderIds, None, rank, bound);
    PresentIsDistinct(c, id, c.rootRequestIds);
    forall r | r in FolderListRequests(c, c.rootFolderIds, rank, bound)
      ensures r !in Present(c, c.rootRequestIds)
    {
      FolderListWalkIff(c, c.rootFolderIds, rank, bound, r);
      var f :| f in BelowAny(c, c.rootFolderIds, rank, bound) && ListedIn(c, f, r);
      ListedNamesFolder(c, f, r);
      PresentIff(c, c.rootRequestIds, r);
    }
    DisjointConcatIsDistinct(FolderListRequests(c, c.rootFolderIds, rank, bound), Present(c, c.rootRequestIds));
  }

  lemma {:induction false} WalkKeepsKeys(c: Collection, id: string, requests: seq<RequestReference>)
    requires Keyed(id, c) && Distinct(requests)
    requires forall r :: r in requests ==> r.id in c.requests && c.requests[r.id] == r
    ensures Distinct(ReferenceIds(requests))
  {
    forall i, j | 0 <= i < j < |requests|
      ensures ReferenceIds(requests)[i] != ReferenceIds(requests)[j]
    {
      assert requests[i] in requests && requests[j] in requests;
    }
  }

  lemma {:induction false} CollectionWalkIsPresent(id: string, c: Collection, rank: Rank, r: RequestReference)
    requires Keyed(id, c) && Ranked(c, rank) && r in CollectionRequests(c, rank)
    ensures r.id in c.requests && c.requests[r.id] == r
  {
    RootsAreRanked(c, rank);
    var bound := RankBound(c.rootFolderIds, rank);
    PresentIff(c, c.rootRequestIds, r);
    FolderListWalkIff(c, c.rootFolderIds, rank, bound, r);
  }

  lemma {:induction false} FolderWalkIsPresent(
      id: string, c: Collection, key: FolderId, rank: Rank, r: RequestReference)
    requires Keyed(id, c) && Ranked(c, rank) && key in c.folders && key in rank && r in FolderRequests(c, key, rank)
    ensures r.id in c.requests && c.requests[r.id] == r
  {
    FolderWalkIff(c, key, rank, r);
  }

  /** No id is selected twice. */
  ghost predicate NamesEachOnce(target: Target) {
    target.SelectedTarget? ==> Distinct(target.requestIds)
  }

  /** The plan names each request once, as dependency enrichment asks, unless the caller selects one twice. */
  lemma {:induction false} PlannedIdsAreDistinct(aggregate: Aggregate, target: Target, rank: Rank)
    requires TargetRanked(aggregate, target, rank) && TargetRequests(aggregate, target, rank).Ok?
    requires Keyed(target.collectionId, aggregate[target.collectionId])
    requires LinkedToParents(aggregate[target.collectionId])
    requires NamesEachOnce(target)
    ensures Distinct(ReferenceIds(TargetRequests(aggregate, target, rank).value))
  {
    var id := target.collectionId;
    var c := aggregate[id];
    var requests := TargetRequests(aggregate, target, rank).value;
    if target.CollectionTarget? {
      CollectionWalkIsDistinct(id, c, rank);
      forall r | r in requests
        ensures r.id in c.requests && c.requests[r.id] == r
      {
        CollectionWalkIsPresent(id, c, rank, r);
      }
    } else if target.SelectedTarget? {
      PresentIsDistinct(c, id, target.requestIds);
      forall r | r in requests
        ensures r.id in c.requests && c.requests[r.id] == r
      {
        PresentIff(c, target.requestIds, r);
      }
    } else {
      assert RankedAt(c, rank, target.folderId);
      FolderWalkIsDistinct(id, c, target.folderId, rank);
      forall r | r in requests
        ensures r.id in c.requests && c.requests[r.id] == r
      {
        FolderWalkIsPresent(id, c, target.folderId, rank, r);
      }
    }
    WalkKeepsKeys(c, id, requests);
  }
}
