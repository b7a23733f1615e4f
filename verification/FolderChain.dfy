/** How discovery makes folders: the chain of a relative path, parents first, each listed once by its parent. */
module FolderChain {
  import opened Wrappers
  import opened Sequences
  import opened Collections

  /** The folders made so far and the roots among them, in the order they were first seen. */
  datatype Forest = Forest(folders: map<FolderId, Folder>, rootFolderIds: seq<FolderId>)

  /**
   Each folder is kept under its path, names the path one segment up as its parent, and is listed there exactly
   once.
   */
  ghost predicate WellLinked(t: Forest, collectionId: string) {
    && (forall k {:trigger LinkedFolder(t, collectionId, k)} :: k in t.folders ==> LinkedFolder(t, collectionId, k))
    && Distinct(t.rootFolderIds)
    && forall k :: k in t.rootFolderIds <==> k in t.folders && |k| == 1
  }

  ghost predicate LinkedFolder(t: Forest, collectionId: string, k: FolderId)
    requires k in t.folders
  {
    var f := t.folders[k];
    && k != [] && f.id == k && f.collectionId == collectionId
    && f.parentId == ParentOf(k) && f.relativePath == JoinPath(k)
    && (f.parentId.Some? ==> f.parentId.value in t.folders)
    && Distinct(f.folderIds)
    && forall child :: child in f.folderIds <==> child in t.folders && IsChildOf(child, k)
  }

  predicate IsChildOf(child: FolderId, k: FolderId) {
    |child| == |k| + 1 && child[..|k|] == k
  }

  function ParentOf(k: FolderId): Option<FolderId> {
    if |k| <= 1 then None else Some(k[..|k| - 1])
  }

  /** A path's segments as the relative path writes them, which is what qualified references name. */
  function JoinPath(k: seq<string>): string {
    if k == [] then ""
    else if |k| == 1 then k[0]
    else JoinPath(k[..|k| - 1]) + "/" + k[|k| - 1]
  }

  predicate IsSegment(s: string) {
    s != "" && '/' !in s
  }

  ghost predicate AllSegments(segments: seq<string>) {
    forall s :: s in segments ==> IsSegment(s)
  }

  lemma {:induction false} SlashMeansDeeper(k: seq<string>)
    requires AllSegments(k)
    ensures '/' in JoinPath(k) <==> |k| > 1
    ensures JoinPath(k) == "" <==> k == []
  {
    if |k| == 1 {
      assert IsSegment(k[0]);
    } else if |k| > 1 {
      assert JoinPath(k)[|JoinPath(k[..|k| - 1])|] == '/';
    }
  }

  /** The last segment is what stands behind the last slash. */
  lemma TailHasNoSlash(p: string, x: string)
    requires |x| <= |p| && p[|p| - |x|..] == x && '/' !in x
    ensures forall i :: |p| - |x| <= i < |p| ==> p[i] != '/'
  {
    forall i | |p| - |x| <= i < |p|
      ensures p[i] != '/'
    {
      assert p[i] == x[i - (|p| - |x|)];
    }
  }

  lemma LastSegmentStands(k: seq<string>)
    requires |k| > 1 && IsSegment(k[|k| - 1])
    ensures var p, x := JoinPath(k), k[|k| - 1];
      && |x| < |p| && p[|p| - |x| - 1] == '/' && p[..|p| - |x| - 1] == JoinPath(k[..|k| - 1]) && p[|p| - |x|..] == x
      && forall i :: |p| - |x| <= i < |p| ==> p[i] != '/'
  {
    TailHasNoSlash(JoinPath(k), k[|k| - 1]);
  }

  /** Relative paths tell folders apart: two lists of segments joined alike are the same list. */
  lemma {:induction false} JoinPathIsInjective(a: seq<string>, b: seq<string>)
    requires AllSegments(a) && AllSegments(b)
    requires JoinPath(a) == JoinPath(b)
    ensures a == b
    decreases |a|
  {
    SlashMeansDeeper(a);
    SlashMeansDeeper(b);
    if |a| > 1 {
      var x, y := a[|a| - 1], b[|b| - 1];
      LastSegmentStands(a);
      LastSegmentStands(b);
      var p := JoinPath(a);
      assert |x| == |y|;
      JoinPathIsInjective(a[..|a| - 1], b[..|b| - 1]);
      assert a == a[..|a| - 1] + [x] && b == b[..|b| - 1] + [y];
    }
  }

  lemma JoinNext(segments: seq<string>, i: nat)
    requires AllSegments(segments) && i < |segments|
    ensures var before := JoinPath(segments[..i]);
      JoinPath(segments[..i + 1]) == if before == "" then segments[i] else before + "/" + segments[i]
  {
    assert forall s :: s in segments[..i] ==> s in segments;
    SlashMeansDeeper(segments[..i]);
    assert segments[..i + 1][..i] == segments[..i];
  }

  predicate IsPrefix(k: FolderId, path: seq<string>) {
    0 < |k| <= |path| && path[..|k|] == k
  }

  /** One missing folder, its parent in place. */
  method AddFolder(t: Forest, collectionId: string, id: FolderId, relativePath: string) returns (r: Forest)
    requires WellLinked(t, collectionId) && id != [] && id !in t.folders
    requires |id| > 1 ==> id[..|id| - 1] in t.folders
    requires relativePath == JoinPath(id)
    ensures WellLinked(r, collectionId)
    ensures r.folders.Keys == t.folders.Keys + {id}
    ensures forall k :: k in t.folders ==> r.folders[k].requestIds == t.folders[k].requestIds
  {
    var folder := Folder(id, collectionId, ParentOf(id), relativePath, [], []);
    if |id| == 1 {
      r := Forest(t.folders[id := folder], t.rootFolderIds + [id]);
      RootIsLinked(t, collectionId, id, folder);
    } else {
      var parent := id[..|id| - 1];
      var listed := t.folders[parent].(folderIds := t.folders[parent].folderIds + [id]);
      r := Forest(t.folders[id := folder][parent := listed], t.rootFolderIds);
      ChildIsLinked(t, collectionId, id, folder, parent);
    }
  }

  /** No folder lists or names a folder that does not exist yet. */
  lemma NothingBelowMissing(t: Forest, collectionId: string, id: FolderId, k: FolderId)
    requires WellLinked(t, collectionId) && id != [] && id !in t.folders && k in t.folders
    ensures !IsChildOf(k, id)
  {
    assert LinkedFolder(t, collectionId, k);
  }

  lemma RootIsLinked(t: Forest, collectionId: string, id: FolderId, folder: Folder)
    requires WellLinked(t, collectionId) && |id| == 1 && id !in t.folders
    requires folder.id == id && folder.collectionId == collectionId && folder.parentId == None && folder.folderIds == []
    requires folder.relativePath == JoinPath(id)
    ensures WellLinked(Forest(t.folders[id := folder], t.rootFolderIds + [id]), collectionId)
  {
    var r := Forest(t.folders[id := folder], t.rootFolderIds + [id]);
    forall k | k in r.folders
      ensures LinkedFolder(r, collectionId, k)
    {
      if k == id {
        forall child | child in t.folders
          ensures !IsChildOf(child, id)
        {
          NothingBelowMissing(t, collectionId, id, child);
        }
      } else {
        assert LinkedFolder(t, collectionId, k);
      }
    }
  }

  lemma ChildIsLinked(t: Forest, collectionId: string, id: FolderId, folder: Folder, parent: FolderId)
    requires WellLinked(t, collectionId) && |id| > 1 && id !in t.folders
    requires parent == id[..|id| - 1] && parent in t.folders
    requires folder.id == id && folder.collectionId == collectionId
    requires folder.parentId == Some(parent) && folder.folderIds == []
    requires folder.relativePath == JoinPath(id)
    ensures var listed := t.folders[parent].(folderIds := t.folders[parent].folderIds + [id]);
      WellLinked(Forest(t.folders[id := folder][parent := listed], t.rootFolderIds), collectionId)
  {
    var listed := t.folders[parent].(folderIds := t.folders[parent].folderIds + [id]);
    var r := Forest(t.folders[id := folder][parent := listed], t.rootFolderIds);
    forall k | k in r.folders
      ensures LinkedFolder(r, collectionId, k)
    {
      if k == id {
        forall child | child in t.folders
          ensures !IsChildOf(child, id)
        {
          NothingBelowMissing(t, collectionId, id, child);
        }
      } else {
        assert LinkedFolder(t, collectionId, k);
      }
    }
  }

  lemma FoldersNameTheirPath(t: Forest, collectionId: string)
    requires WellLinked(t, collectionId)
    ensures forall k :: k in t.folders ==> t.folders[k].relativePath == JoinPath(k)
  {
    forall k | k in t.folders
      ensures t.folders[k].relativePath == JoinPath(k)
    {
      assert LinkedFolder(t, collectionId, k);
    }
  }

  lemma PrefixSteps(segments: seq<string>, i: nat)
    requires i < |segments|
    ensures segments[..i] + [segments[i]] == segments[..i + 1] && segments[..i + 1][..i] == segments[..i]
  {
  }

  /** Of the path's folders, those of the first `i` segments are there, and no request has moved. */
  ghost predicate ChainUpTo(t: Forest, r: Forest, segments: seq<string>, i: nat) {
    && (forall k :: k in r.folders <==> k in t.folders || (IsPrefix(k, segments) && |k| <= i))
    && forall k :: k in t.folders ==> r.folders[k].requestIds == t.folders[k].requestIds
  }

  lemma ChainGrows(t: Forest, r: Forest, r': Forest, segments: seq<string>, i: nat)
    requires i < |segments| && ChainUpTo(t, r, segments, i)
    requires r'.folders.Keys == r.folders.Keys + {segments[..i + 1]}
    requires forall k :: k in r.folders ==> r'.folders[k].requestIds == r.folders[k].requestIds
    ensures ChainUpTo(t, r', segments, i + 1)
  {
    assert forall k :: IsPrefix(k, segments) && |k| == i + 1 ==> k == segments[..i + 1];
    assert forall k :: k in r'.folders <==> k in r'.folders.Keys;
  }

  /** `segments` is the normalized path, split; the empty path makes no folder. */
  method EnsureFolderChain(t: Forest, collectionId: string, segments: seq<string>) returns (id: FolderId, r: Forest)
    requires WellLinked(t, collectionId) && AllSegments(segments)
    ensures id == segments && WellLinked(r, collectionId)
    ensures ChainUpTo(t, r, segments, |segments|)
    ensures forall k :: k in r.folders ==> r.folders[k].relativePath == JoinPath(k)
  {
    r := t;
    var current: seq<string> := [];
    var relative := "";
    for i := 0 to |segments|
      invariant current == segments[..i] && relative == JoinPath(current)
      invariant WellLinked(r, collectionId) && ChainUpTo(t, r, segments, i)
      invariant i > 0 ==> current in r.folders
    {
      ghost var before := r;
      JoinNext(segments, i);
      relative := if relative == "" then segments[i] else relative + "/" + segments[i];
      current := current + [segments[i]];
      PrefixSteps(segments, i);
      if current !in r.folders {
        r := AddFolder(r, collectionId, current, relative);
      }
      ChainGrows(t, before, r, segments, i);
    }
    id := segments;
    FoldersNameTheirPath(r, collectionId);
  }

  lemma {:induction false} DepthBound(keys: set<FolderId>) returns (depth: nat)
    ensures forall k :: k in keys ==> |k| <= depth
    decreases |keys|
  {
    if keys == {} {
      return 0;
    }
    var k :| k in keys;
    depth := DepthBound(keys - {k});
    if depth < |k| {
      depth := |k|;
    }
  }

  /** A forest made of folder chains is well-founded: depth bounds the walk. */
  lemma {:induction false} ForestIsRanked(c: Collection, t: Forest) returns (rank: Rank)
    requires WellLinked(t, c.id) && c.folders == t.folders
    ensures Ranked(c, rank)
  {
    var depth := DepthBound(t.folders.Keys);
    assert forall k :: k in t.folders ==> |k| <= depth;
    rank := map k | k in c.folders :: depth - |k|;
    forall k | k in c.folders
      ensures RankedAt(c, rank, k)
    {
      assert LinkedFolder(t, c.id, k);
    }
  }

  /** Such a forest lists every folder where its parent is named, and each once. */
  lemma {:induction false} ForestListsByParent(c: Collection, t: Forest, k: FolderId, f: FolderId)
    requires WellLinked(t, c.id) && c.folders == t.folders && c.rootFolderIds == t.rootFolderIds
    requires k in c.folders && f in c.folders
    ensures f in c.folders[k].folderIds <==> c.folders[f].parentId == Some(k)
    ensures f in c.rootFolderIds <==> c.folders[f].parentId == None
    ensures Distinct(c.folders[k].folderIds) && Distinct(c.rootFolderIds)
  {
    assert LinkedFolder(t, c.id, k) && LinkedFolder(t, c.id, f);
    if |f| > 1 && f[..|f| - 1] == k {
      assert IsChildOf(f, k);
    }
  }
}
