/** The rename cascade: rewriting the `@depends-on` tokens that pointed at a renamed request. */
module RenameDependRefs {
  import opened Sequences
  import opened Wrappers
  import opened DependencyGraph
  import opened DependRef

  datatype Identity = Identity(requestId: RequestId, oldName: string, oldFolderPath: string, newName: string)

  datatype Document = Document(filePath: string, requestId: Option<RequestId>, dependsOn: seq<string>)

  /** The entry that carries the renamed id, if the catalog lists it. */
  function FindEntry(catalog: seq<IndexEntry>, id: RequestId): Option<IndexEntry> {
    if catalog == [] then None
    else if catalog[0].requestId == id then Some(catalog[0])
    else FindEntry(catalog[1..], id)
  }

  /** Whether `token` uniquely identified the request before it was renamed. */
  predicate TokenTargetsRenamedRequest(token: string, identity: Identity, catalogBefore: seq<IndexEntry>) {
    match ParseDependRef(token)
    case None => false
    case Some(Bare(name)) =>
      && name == identity.oldName
      && var matches := Filter(catalogBefore, (entry: IndexEntry) => entry.name == identity.oldName);
         |matches| == 1 && matches[0].requestId == identity.requestId
    case Some(Qualified(folderPath, name)) =>
      folderPath == identity.oldFolderPath && name == identity.oldName
  }

  function RewriteToken(
      token: string, replacement: string, identity: Identity, catalogBefore: seq<IndexEntry>): string
  {
    if TokenTargetsRenamedRequest(token, identity, catalogBefore) then replacement else token
  }

  function RewriteDependsOnTokens(
      tokens: seq<string>, identity: Identity, catalogBefore: seq<IndexEntry>, catalogAfter: seq<IndexEntry>)
    : seq<string>
  {
    match FindEntry(catalogAfter, identity.requestId)
    case None => tokens
    case Some(renamed) =>
      var replacement := FormatDependRef(MinimalDependRefFor(renamed, catalogAfter));
      seq(|tokens|, i requires 0 <= i < |tokens| => RewriteToken(tokens[i], replacement, identity, catalogBefore))
  }

  /** What a token means against a catalog. */
  function ResolveToken(token: string, catalog: seq<IndexEntry>): Resolution {
    match ParseDependRef(token)
    case None => Unknown
    case Some(ref) => ResolveDependRef(ref, catalog)
  }

  /** The catalog once entry `k` carries its new name. */
  function Renamed(catalog: seq<IndexEntry>, k: nat, newName: string): seq<IndexEntry>
    requires k < |catalog|
  {
    catalog[k := catalog[k].(name := newName)]
  }

  ghost predicate DistinctIds(catalog: seq<IndexEntry>) {
    forall i, j :: 0 <= i < j < |catalog| ==> catalog[i].requestId != catalog[j].requestId
  }

  /** A rename of entry `k` that leaves the catalog well formed. */
  ghost predicate ValidRename(identity: Identity, before: seq<IndexEntry>, k: nat) {
    && k < |before|
    && before[k] == IndexEntry(identity.requestId, identity.oldName, identity.oldFolderPath)
    && DistinctIds(before) && UniquePlaces(before) && UniquePlaces(Renamed(before, k, identity.newName))
    && WellFormedName(identity.newName) && WellFormedFolder(identity.oldFolderPath)
  }

  /** The bare new name is the one spelling that a rename can make ambiguous. */
  predicate CollidesWithNewName(token: string, identity: Identity) {
    identity.newName != identity.oldName && ParseDependRef(token) == Some(Bare(identity.newName))
  }

  lemma {:induction false} FindEntryAt(catalog: seq<IndexEntry>, k: nat)
    requires DistinctIds(catalog) && k < |catalog|
    ensures FindEntry(catalog, catalog[k].requestId) == Some(catalog[k])
  {
    if k > 0 {
      FindEntryAt(catalog[1..], k - 1);
    }
  }

  /** The replacement text resolves to the renamed request in the new catalog. */
  lemma ReplacementResolves(identity: Identity, before: seq<IndexEntry>, k: nat)
    requires ValidRename(identity, before, k)
    ensures var after := Renamed(before, k, identity.newName);
      ResolveToken(FormatDependRef(MinimalDependRefFor(after[k], after)), after) == Found(identity.requestId)
  {
    var after := Renamed(before, k, identity.newName);
    RoundTrip(MinimalDependRefFor(after[k], after));
    MinimalRefResolves(after, k);
  }

  /** On tokens that resolved at all, targeting the renamed request is the same as resolving to it. */
  lemma TargetsIffResolvesToIt(token: string, identity: Identity, before: seq<IndexEntry>, k: nat)
    requires ValidRename(identity, before, k)
    requires ResolveToken(token, before).Found?
    ensures TokenTargetsRenamedRequest(token, identity, before)
       <==> ResolveToken(token, before) == Found(identity.requestId)
  {
    var ref := ParseDependRef(token).value;
    FoundIffDenotesOne(ref, before);
    var m :| 0 <= m < |before| && DenotesOnly(ref, before, m);
    if ref.Bare? {
      assert Denotes(ref, before[k]) <==> ref.name == identity.oldName;
      if ref.name == identity.oldName {
        FilterUnique(before, (entry: IndexEntry) => entry.name == identity.oldName, m);
      }
    } else {
      assert Denotes(ref, before[k]) <==> ref == Qualified(identity.oldFolderPath, identity.oldName);
    }
  }

  /** A token that targets the renamed request resolves to it. */
  lemma TargetedResolves(token: string, identity: Identity, before: seq<IndexEntry>, k: nat)
    requires ValidRename(identity, before, k) && TokenTargetsRenamedRequest(token, identity, before)
    ensures ResolveToken(token, before) == Found(identity.requestId)
  {
    var ref := ParseDependRef(token).value;
    FoundIffDenotesOne(ref, before);
    if ref.Bare? {
      var p := (entry: IndexEntry) => entry.name == identity.oldName;
      var u := UniqueOfFilter(before, p);
      assert Filter(before, p)[0] in Filter(before, p);
      assert DenotesOnly(ref, before, u);
    } else {
      assert DenotesOnly(ref, before, k);
    }
  }

  /** A token is respelled exactly when it resolves to the renamed request and is not spelled so already. */
  lemma {:induction false} RewrittenIff(
      token: string, replacement: string, identity: Identity, before: seq<IndexEntry>, k: nat)
    requires ValidRename(identity, before, k)
    ensures RewriteToken(token, replacement, identity, before) != token <==>
      ResolveToken(token, before) == Found(identity.requestId) && token != replacement
  {
    if ResolveToken(token, before).Found? {
      TargetsIffResolvesToIt(token, identity, before, k);
    }
    if TokenTargetsRenamedRequest(token, identity, before) {
      TargetedResolves(token, identity, before, k);
    }
  }

  /** A token that meant another request keeps its meaning unless it is the bare new name. */
  lemma OtherTokenKeepsMeaning(ref: DependRef, identity: Identity, before: seq<IndexEntry>, k: nat, m: nat)
    requires ValidRename(identity, before, k)
    requires m < |before| && m != k && DenotesOnly(ref, before, m)
    ensures ResolveDependRef(ref, Renamed(before, k, identity.newName)) == Found(before[m].requestId)
       <==> ref != Bare(identity.newName)
  {
    var after := Renamed(before, k, identity.newName);
    FoundIffDenotesOne(ref, after);
    assert forall j :: 0 <= j < |after| && j != k ==> after[j] == before[j];
    if ref == Bare(identity.newName) {
      assert Denotes(ref, after[k]) && Denotes(ref, after[m]);
      assert forall j :: 0 <= j < |after| ==> !DenotesOnly(ref, after, j);
    } else {
      assert !Denotes(ref, after[k]) by {
        assert Denotes(ref, after[m]);
      }
      assert DenotesOnly(ref, after, m);
    }
  }

  lemma {:induction false} TokenKeepsMeaning(token: string, identity: Identity, before: seq<IndexEntry>, k: nat)
    requires ValidRename(identity, before, k)
    requires ResolveToken(token, before).Found?
    ensures var after := Renamed(before, k, identity.newName);
      var replacement := FormatDependRef(MinimalDependRefFor(after[k], after));
      ResolveToken(RewriteToken(token, replacement, identity, before), after) == ResolveToken(token, before)
      <==> !CollidesWithNewName(token, identity)
  {
    var ref := ParseDependRef(token).value;
    FoundIffDenotesOne(ref, before);
    var m :| 0 <= m < |before| && DenotesOnly(ref, before, m);
    TargetsIffResolvesToIt(token, identity, before, k);
    if TokenTargetsRenamedRequest(token, identity, before) {
      ReplacementResolves(identity, before, k);
    } else {
      OtherTokenKeepsMeaning(ref, identity, before, k, m);
    }
  }

  /** A document once the cascade has run; the renamed request's own list is not rewritten. */
  function AfterCascade(
      document: Document, identity: Identity, catalogBefore: seq<IndexEntry>, catalogAfter: seq<IndexEntry>): Document
  {
    if document.requestId == Some(identity.requestId) then document
    else document.(dependsOn := RewriteDependsOnTokens(document.dependsOn, identity, catalogBefore, catalogAfter))
  }

  /** The documents the cascade changes, in their new form and original order. */
  function ChangedDocuments(
      documents: seq<Document>, identity: Identity,
      catalogBefore: seq<IndexEntry>, catalogAfter: seq<IndexEntry>): seq<Document>
  {
    if documents == [] then []
    else
      var front := ChangedDocuments(documents[..|documents| - 1], identity, catalogBefore, catalogAfter);
      var last := documents[|documents| - 1];
      var next := AfterCascade(last, identity, catalogBefore, catalogAfter);
      if next == last then front else front + [next]
  }

  method PlanDependRefRewrites(
      identity: Identity, catalogBefore: seq<IndexEntry>, catalogAfter: seq<IndexEntry>, documents: seq<Document>)
    returns (out: seq<Document>)
    ensures out == ChangedDocuments(documents, identity, catalogBefore, catalogAfter)
  {
    out := [];
    for i := 0 to |documents|
      invariant out == ChangedDocuments(documents[..i], identity, catalogBefore, catalogAfter)
    {
      var document := documents[i];
      assert documents[..i + 1][..i] == documents[..i];
      if document.requestId.Some? && document.requestId.value == identity.requestId {
        continue;
      }
      var next := RewriteDependsOnTokens(document.dependsOn, identity, catalogBefore, catalogAfter);
      if document.dependsOn == next {
        continue;
      }
      out := out + [Document(document.filePath, document.requestId, next)];
    }
    assert documents[..|documents|] == documents;
  }

  /** `out` is what has become of the documents at `places`, which are all those that changed, in order. */
  ghost predicate PicksChanged(before: seq<Document>, after: seq<Document>, out: seq<Document>, places: seq<nat>) {
    && |before| == |after| && |places| == |out|
    && (forall n :: 0 <= n < |out| ==> places[n] < |after| && out[n] == after[places[n]])
    && (forall m, n :: 0 <= m < n < |places| ==> places[m] < places[n])
    && (forall i :: 0 <= i < |before| ==> (i in places <==> after[i] != before[i]))
  }

  lemma OneMoreUnchanged(
      before: seq<Document>, after: seq<Document>, document: Document, out: seq<Document>, places: seq<nat>)
    requires PicksChanged(before, after, out, places)
    ensures PicksChanged(before + [document], after + [document], out, places)
  {
    PlacesAreWithin(before, after, out, places);
  }

  lemma OneMoreChanged(
      before: seq<Document>, after: seq<Document>, document: Document, next: Document, out: seq<Document>,
      places: seq<nat>)
    requires PicksChanged(before, after, out, places) && next != document
    ensures PicksChanged(before + [document], after + [next], out + [next], places + [|before|])
  {
    PlacesAreWithin(before, after, out, places);
  }

  lemma PlacesAreWithin(before: seq<Document>, after: seq<Document>, out: seq<Document>, places: seq<nat>)
    requires PicksChanged(before, after, out, places)
    ensures forall p :: p in places ==> p < |before|
  {
    forall p | p in places
      ensures p < |before|
    {
      var n :| 0 <= n < |places| && places[n] == p;
    }
  }

  function AllAfterCascade(
      documents: seq<Document>, identity: Identity, catalogBefore: seq<IndexEntry>, catalogAfter: seq<IndexEntry>)
    : seq<Document>
  {
    seq(|documents|, i requires 0 <= i < |documents| =>
      AfterCascade(documents[i], identity, catalogBefore, catalogAfter))
  }

  /** The listed rewrites are, in order, exactly the documents that the cascade changes, in their new form. */
  lemma {:induction false} ListedIffChanged(
      documents: seq<Document>, identity: Identity, catalogBefore: seq<IndexEntry>, catalogAfter: seq<IndexEntry>)
    returns (places: seq<nat>)
    ensures PicksChanged(documents, AllAfterCascade(documents, identity, catalogBefore, catalogAfter),
                         ChangedDocuments(documents, identity, catalogBefore, catalogAfter), places)
  {
    places := [];
    if documents != [] {
      var front, last := documents[..|documents| - 1], documents[|documents| - 1];
      var next := AfterCascade(last, identity, catalogBefore, catalogAfter);
      var after := AllAfterCascade(front, identity, catalogBefore, catalogAfter);
      var out := ChangedDocuments(front, identity, catalogBefore, catalogAfter);
      places := ListedIffChanged(front, identity, catalogBefore, catalogAfter);
      assert documents == front + [last];
      assert AllAfterCascade(documents, identity, catalogBefore, catalogAfter) == after + [next];
      if next == last {
        OneMoreUnchanged(front, after, last, out, places);
      } else {
        OneMoreChanged(front, after, last, next, out, places);
        places := places + [|front|];
      }
    }
  }

  /** Some token resolves to the renamed request and is spelled otherwise than its minimal reference now is. */
  ghost predicate HasStaleToken(
      tokens: seq<string>, replacement: string, identity: Identity, before: seq<IndexEntry>)
  {
    exists t :: t in tokens && ResolveToken(t, before) == Found(identity.requestId) && t != replacement
  }

  lemma RespelledIff(
      tokens: seq<string>, next: seq<string>, replacement: string, identity: Identity, before: seq<IndexEntry>, k: nat)
    requires ValidRename(identity, before, k) && |next| == |tokens|
    requires forall i :: 0 <= i < |tokens| ==> next[i] == RewriteToken(tokens[i], replacement, identity, before)
    ensures next != tokens <==> HasStaleToken(tokens, replacement, identity, before)
  {
    forall i | 0 <= i < |tokens|
      ensures next[i] != tokens[i] <==>
        ResolveToken(tokens[i], before) == Found(identity.requestId) && tokens[i] != replacement
    {
      RewrittenIff(tokens[i], replacement, identity, before, k);
    }
    if HasStaleToken(tokens, replacement, identity, before) {
      var t :| t in tokens && ResolveToken(t, before) == Found(identity.requestId) && t != replacement;
      var i :| 0 <= i < |tokens| && tokens[i] == t;
      assert next[i] != tokens[i];
    }
    if next != tokens {
      var i :| 0 <= i < |tokens| && next[i] != tokens[i];
      assert tokens[i] in tokens;
    }
  }

  /** Another document is changed exactly when a token of it that names the renamed request is spelled otherwise now. */
  lemma {:induction false} ChangesIff(document: Document, identity: Identity, before: seq<IndexEntry>, k: nat)
    requires ValidRename(identity, before, k)
    ensures var after := Renamed(before, k, identity.newName);
      AfterCascade(document, identity, before, after) != document <==>
        && document.requestId != Some(identity.requestId)
        && HasStaleToken(
             document.dependsOn, FormatDependRef(MinimalDependRefFor(after[k], after)), identity, before)
  {
    var after := Renamed(before, k, identity.newName);
    FindEntryAt(after, k);
    RespelledIff(document.dependsOn, RewriteDependsOnTokens(document.dependsOn, identity, before, after),
                 FormatDependRef(MinimalDependRefFor(after[k], after)), identity, before, k);
  }

  /**
   In every other document a token that resolved before the rename resolves to the same request afterwards
   exactly when it is not the bare new name.
   */
  lemma {:induction false} RenameKeepsMeaning(
      document: Document, i: nat, identity: Identity, before: seq<IndexEntry>, k: nat)
    requires ValidRename(identity, before, k)
    requires document.requestId != Some(identity.requestId)
    requires i < |document.dependsOn| && ResolveToken(document.dependsOn[i], before).Found?
    ensures var after := Renamed(before, k, identity.newName);
      var next := AfterCascade(document, identity, before, after);
      && |next.dependsOn| == |document.dependsOn|
      && (ResolveToken(next.dependsOn[i], after) == ResolveToken(document.dependsOn[i], before)
          <==> !CollidesWithNewName(document.dependsOn[i], identity))
  {
    FindEntryAt(Renamed(before, k, identity.newName), k);
    TokenKeepsMeaning(document.dependsOn[i], identity, before, k);
  }

  /** What becomes of the one exception: the bare new name that resolved to another request is ambiguous afterwards. */
  lemma {:induction false} CollidingTokenIsAmbiguous(
      token: string, identity: Identity, before: seq<IndexEntry>, k: nat)
    requires ValidRename(identity, before, k)
    requires ResolveToken(token, before).Found? && CollidesWithNewName(token, identity)
    ensures ResolveToken(token, before) != Found(identity.requestId)
    ensures ResolveToken(token, Renamed(before, k, identity.newName)).Ambiguous?
  {
    var ref := Bare(identity.newName);
    var after := Renamed(before, k, identity.newName);
    FoundIffDenotesOne(ref, before);
    FoundIffDenotesOne(ref, after);
    var m :| 0 <= m < |before| && DenotesOnly(ref, before, m);
    assert Denotes(ref, after[k]) && Denotes(ref, after[m]) && after[k] in after;
    assert after[k] in Filter(after, entry => Denotes(ref, entry));
  }

  /** `p` named A and `q` named B; once `p` is renamed to B, the token "B" that meant `q` is ambiguous. */
  lemma RenameCanBreakAToken(p: RequestId, q: RequestId)
    requires p != q
    ensures var before := [IndexEntry(p, "A", "f"), IndexEntry(q, "B", "g")];
      var identity := Identity(p, "A", "f", "B");
      && ValidRename(identity, before, 0) && CollidesWithNewName("B", identity)
      && ResolveToken("B", before) == Found(q)
      && ResolveToken("B", Renamed(before, 0, "B")).Ambiguous?
  {
    var before := [IndexEntry(p, "A", "f"), IndexEntry(q, "B", "g")];
    var identity := Identity(p, "A", "f", "B");
    assert ParseDependRef("B") == Some(Bare("B")) by {
      RoundTrip(Bare("B"));
    }
    assert ResolveDependRef(Bare("B"), before) == Found(q) by {
      FoundIffDenotesOne(Bare("B"), before);
      assert DenotesOnly(Bare("B"), before, 1);
    }
    assert Renamed(before, 0, "B") == [IndexEntry(p, "B", "f"), IndexEntry(q, "B", "g")];
    CollidingTokenIsAmbiguous("B", identity, before, 0);
  }
}
