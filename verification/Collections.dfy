/** Discovered collections: folders and requests under their identifiers, each folder listing its children in order. */
module Collections {
  import opened Wrappers
  import opened Sequences
  import opened DependencyGraph

  /** A folder identifier is its collection's prefix and its relative path; the path is what tells folders apart. */
  type FolderId = seq<string>

  datatype Folder = Folder(
    id: FolderId,
    collectionId: string,
    parentId: Option<FolderId>,
    relativePath: string,
    folderIds: seq<FolderId>,
    requestIds: seq<RequestId>)

  datatype RequestReference = RequestReference(
    id: RequestId,
    folderId: Option<FolderId>,
    filePath: string,
    displayLabel: string,
    httpMethod: string)

  datatype Collection = Collection(
    id: string,
    rootFolderIds: seq<FolderId>,
    rootRequestIds: seq<RequestId>,
    folders: map<FolderId, Folder>,
    requests: map<RequestId, RequestReference>)

  type Aggregate = map<string, Collection>

  type Rank = map<FolderId, nat>

  /** The folder graph is well-founded: a rank falls from every folder to the folders it lists. */
  ghost predicate Ranked(c: Collection, rank: Rank) {
    forall k :: k in c.folders ==> RankedAt(c, rank, k)
  }

  ghost predicate RankedAt(c: Collection, rank: Rank, k: FolderId)
    requires k in c.folders
  {
    && k in rank
    && forall child :: child in c.folders[k].folderIds && child in c.folders ==> child in rank && rank[child] < rank[k]
  }

  /** Every folder and request is kept under its own identifier. */
  ghost predicate Keyed(id: string, c: Collection) {
    && c.id == id
    && (forall k :: k in c.folders ==> c.folders[k].id == k && c.folders[k].collectionId == id)
    && (forall k :: k in c.requests ==> c.requests[k].id == k)
  }

  /** Every listing agrees with the parent its entries name, and lists each once. */
  ghost predicate LinkedToParents(c: Collection) {
    && Distinct(c.rootFolderIds) && Distinct(c.rootRequestIds)
    && (forall f :: f in c.rootFolderIds && f in c.folders ==> c.folders[f].parentId == None)
    && (forall r :: r in c.rootRequestIds && r in c.requests ==> c.requests[r].folderId == None)
    && forall k :: k in c.folders ==> LinkedAt(c, k)
  }

  ghost predicate LinkedAt(c: Collection, k: FolderId)
    requires k in c.folders
  {
    && Distinct(c.folders[k].folderIds) && Distinct(c.folders[k].requestIds)
    && (forall f :: f in c.folders[k].folderIds && f in c.folders ==> c.folders[f].parentId == Some(k))
    && (forall r :: r in c.folders[k].requestIds && r in c.requests ==> c.requests[r].folderId == Some(k))
  }
}
