/** Human-readable `@depends-on` refs: parsing, formatting, minimal spelling and fail-closed resolution. */
module DependRef {
  import opened Sequences
  import opened Wrappers
  import opened DependencyGraph

  datatype DependRef = Bare(name: string) | Qualified(folderPath: string, name: string)

  /** One request as the resolver sees it; an empty folder path means the collection root. */
  datatype IndexEntry = IndexEntry(requestId: RequestId, name: string, folderPath: string)

  datatype Resolution = Found(requestId: RequestId) | Unknown | Ambiguous(candidates: seq<IndexEntry>)

  /** The characters `String.prototype.trim` removes. */
  predicate IsBlank(c: char) {
    || c == ' ' || '\t' <= c <= '\r' || c == '\U{00A0}' || c == '\U{1680}' || '\U{2000}' <= c <= '\U{200A}'
    || c == '\U{2028}' || c == '\U{2029}' || c == '\U{202F}' || c == '\U{205F}' || c == '\U{3000}' || c == '\U{FEFF}'
  }

  function TrimStart(s: string): string {
    if s != [] && IsBlank(s[0]) then TrimStart(s[1..]) else s
  }

  function TrimEnd(s: string): string {
    if s != [] && IsBlank(s[|s| - 1]) then TrimEnd(s[..|s| - 1]) else s
  }

  function Trim(s: string): string {
    TrimEnd(TrimStart(s))
  }

  predicate Trimmed(s: string) {
    s == [] || (!IsBlank(s[0]) && !IsBlank(s[|s| - 1]))
  }

  function LastSlash(s: string): (i: int)
    ensures -1 <= i < |s|
    ensures i >= 0 ==> s[i] == '/'
    ensures forall j :: i < j < |s| ==> s[j] != '/'
  {
    if s == [] then -1
    else if s[|s| - 1] == '/' then |s| - 1
    else LastSlash(s[..|s| - 1])
  }

  function ParseDependRef(token: string): Option<DependRef> {
    var trimmed := Trim(token);
    if trimmed == [] then None
    else
      var slash := LastSlash(trimmed);
      if slash < 0 then Some(Bare(trimmed))
      else
        var folderRaw := Trim(trimmed[..slash]);
        var name := Trim(trimmed[slash + 1..]);
        if name == [] then None
        else if folderRaw == "." then Some(Qualified("", name))
        else if folderRaw == [] then None
        else Some(Qualified(folderRaw, name))
  }

  function FormatDependRef(ref: DependRef): string {
    match ref
    case Bare(name) => name
    case Qualified(folderPath, name) =>
      if folderPath == [] then "./" + name else folderPath + "/" + name
  }

  predicate WellFormedName(name: string) {
    name != [] && Trimmed(name) && '/' !in name
  }

  predicate WellFormedFolder(folderPath: string) {
    Trimmed(folderPath) && folderPath != "."
  }

  predicate WellFormedRef(ref: DependRef) {
    WellFormedName(ref.name) && (ref.Qualified? ==> WellFormedFolder(ref.folderPath))
  }

  lemma {:induction false} TrimStartYieldsSuffix(s: string)
    ensures TrimStart(s) == [] || !IsBlank(TrimStart(s)[0])
    ensures |TrimStart(s)| <= |s| && TrimStart(s) == s[|s| - |TrimStart(s)|..]
  {
    if s != [] && IsBlank(s[0]) {
      TrimStartYieldsSuffix(s[1..]);
    }
  }

  lemma {:induction false} TrimEndYieldsPrefix(s: string)
    ensures TrimEnd(s) == [] || !IsBlank(TrimEnd(s)[|TrimEnd(s)| - 1])
    ensures TrimEnd(s) <= s
  {
    if s != [] && IsBlank(s[|s| - 1]) {
      TrimEndYieldsPrefix(s[..|s| - 1]);
    }
  }

  /** Trimming yields a trimmed string and leaves exactly those alone. */
  lemma {:induction false} TrimIsIdentityOnTrimmed(s: string)
    ensures Trimmed(Trim(s))
    ensures Trim(s) == s <==> Trimmed(s)
  {
    TrimStartYieldsSuffix(s);
    TrimEndYieldsPrefix(TrimStart(s));
    if Trim(s) != [] {
      assert Trim(s)[0] == TrimStart(s)[0];
    }
    if s != [] && Trimmed(s) {
      assert TrimStart(s) == s;
    }
  }

  /** The blanks by code point. */
  lemma BlankIff(c: char)
    ensures IsBlank(c) <==>
      || 9 <= c as int <= 13 || c as int in {32, 160, 5760, 8232, 8233, 8239, 8287, 12288, 65279}
      || 8192 <= c as int <= 8202
  {
  }

  /** Trimming takes blanks off both ends and nothing else. */
  lemma {:induction false} TrimTakesBlanks(s: string) returns (front: string, back: string)
    ensures s == front + Trim(s) + back && Trimmed(Trim(s))
    ensures forall c :: c in front || c in back ==> IsBlank(c)
  {
    TrimIsIdentityOnTrimmed(s);
    front := StartTakesBlanks(s);
    back := EndTakesBlanks(TrimStart(s));
    assert s == front + (Trim(s) + back);
  }

  lemma {:induction false} StartTakesBlanks(s: string) returns (front: string)
    ensures s == front + TrimStart(s) && forall c :: c in front ==> IsBlank(c)
  {
    front := [];
    if s != [] && IsBlank(s[0]) {
      front := StartTakesBlanks(s[1..]);
      front := [s[0]] + front;
      assert s == [s[0]] + s[1..];
    }
  }

  lemma {:induction false} EndTakesBlanks(s: string) returns (back: string)
    ensures s == TrimEnd(s) + back && forall c :: c in back ==> IsBlank(c)
  {
    back := [];
    if s != [] && IsBlank(s[|s| - 1]) {
      back := EndTakesBlanks(s[..|s| - 1]);
      back := back + [s[|s| - 1]];
      assert s == s[..|s| - 1] + [s[|s| - 1]];
    }
  }

  lemma {:induction false} LastSlashAt(s: string, i: nat)
    requires i < |s| && s[i] == '/' && forall j :: i < j < |s| ==> s[j] != '/'
    ensures LastSlash(s) == i
  {
  }

  /** Formatting then parsing gives a ref back exactly when it is well formed. */
  lemma {:induction false} RoundTrip(ref: DependRef)
    ensures ParseDependRef(FormatDependRef(ref)) == Some(ref) <==> WellFormedRef(ref)
  {
    match ref
    case Bare(name) =>
      TrimIsIdentityOnTrimmed(name);
      assert '/' in name ==> exists i :: 0 <= i < |name| && name[i] == '/';
    case Qualified(folderPath, name) =>
      if WellFormedRef(ref) {
        WellFormedQualifiedRoundTrips(folderPath, name);
      } else if ParseDependRef(FormatDependRef(ref)) == Some(ref) {
        ParsedRefIsWellFormed(FormatDependRef(ref));
      }
  }

  lemma WellFormedQualifiedRoundTrips(folderPath: string, name: string)
    requires WellFormedRef(Qualified(folderPath, name))
    ensures ParseDependRef(FormatDependRef(Qualified(folderPath, name))) == Some(Qualified(folderPath, name))
  {
    var folder := if folderPath == [] then "." else folderPath;
    var text := folder + "/" + name;
    assert FormatDependRef(Qualified(folderPath, name)) == text;
    assert Trimmed(text);
    TrimIsIdentityOnTrimmed(text);
    LastSlashAt(text, |folder|);
    assert text[..|folder|] == folder && text[|folder| + 1..] == name;
    TrimIsIdentityOnTrimmed(folder);
    TrimIsIdentityOnTrimmed(name);
  }

  /** Whatever the parser accepts has a trimmed, non-empty, slash-free name and a trimmed folder other than `.`. */
  lemma ParsedRefIsWellFormed(token: string)
    ensures ParseDependRef(token).Some? ==> WellFormedRef(ParseDependRef(token).value)
  {
    var trimmed := Trim(token);
    TrimIsIdentityOnTrimmed(token);
    if trimmed != [] {
      var slash := LastSlash(trimmed);
      if slash < 0 {
        assert '/' !in trimmed;
      } else {
        SplitIsWellFormed(trimmed[..slash], trimmed[slash + 1..]);
      }
    }
  }

  lemma SplitIsWellFormed(folderRaw: string, nameRaw: string)
    requires forall j :: 0 <= j < |nameRaw| ==> nameRaw[j] != '/'
    ensures Trim(nameRaw) != [] ==> WellFormedName(Trim(nameRaw))
    ensures Trimmed(Trim(folderRaw))
  {
    TrimIsIdentityOnTrimmed(folderRaw);
    TrimIsIdentityOnTrimmed(nameRaw);
    TrimKeepsElements(nameRaw);
  }

  lemma TrimKeepsElements(s: string)
    ensures forall c :: c in Trim(s) ==> c in s
  {
    TrimStartYieldsSuffix(s);
    TrimEndYieldsPrefix(TrimStart(s));
    forall c | c in Trim(s)
      ensures c in s
    {
      assert c in TrimStart(s);
    }
  }

  predicate Denotes(ref: DependRef, entry: IndexEntry) {
    entry.name == ref.name && (ref.Qualified? ==> entry.folderPath == ref.folderPath)
  }

  function ResolveDependRef(ref: DependRef, index: seq<IndexEntry>): Resolution {
    var matches := Filter(index, entry => Denotes(ref, entry));
    if |matches| == 0 then Unknown
    else if |matches| > 1 then Ambiguous(matches)
    else Found(matches[0].requestId)
  }

  /** Bare when no other entry shares the name, qualified otherwise. */
  function MinimalDependRefFor(request: IndexEntry, catalog: seq<IndexEntry>): DependRef {
    if |Filter(catalog, (entry: IndexEntry) => entry.name == request.name)| <= 1 then Bare(request.name)
    else Qualified(request.folderPath, request.name)
  }

  /** No two entries share both folder and name. */
  ghost predicate UniquePlaces(catalog: seq<IndexEntry>) {
    forall i, j :: 0 <= i < j < |catalog| ==>
      catalog[i].name != catalog[j].name || catalog[i].folderPath != catalog[j].folderPath
  }

  /** Entry `k` and no other is denoted. */
  ghost predicate DenotesOnly(ref: DependRef, index: seq<IndexEntry>, k: nat)
    requires k < |index|
  {
    Denotes(ref, index[k]) && forall j :: 0 <= j < |index| && Denotes(ref, index[j]) ==> j == k
  }

  /** Resolution succeeds exactly on refs that denote one entry. */
  lemma {:induction false} FoundIffDenotesOne(ref: DependRef, index: seq<IndexEntry>)
    ensures ResolveDependRef(ref, index).Found? <==> exists k :: 0 <= k < |index| && DenotesOnly(ref, index, k)
    ensures forall k :: 0 <= k < |index| && DenotesOnly(ref, index, k) ==>
              ResolveDependRef(ref, index) == Found(index[k].requestId)
  {
    var p := (entry: IndexEntry) => Denotes(ref, entry);
    forall k | 0 <= k < |index| && DenotesOnly(ref, index, k)
      ensures Filter(index, p) == [index[k]]
    {
      FilterUnique(index, p, k);
    }
    if |Filter(index, p)| == 1 {
      var k := UniqueOfFilter(index, p);
      assert DenotesOnly(ref, index, k);
    }
  }

  lemma {:induction false} UnknownIffNothing(ref: DependRef, index: seq<IndexEntry>)
    ensures ResolveDependRef(ref, index) == Unknown <==> forall k :: 0 <= k < |index| ==> !Denotes(ref, index[k])
  {
    var matches := Filter(index, entry => Denotes(ref, entry));
    if matches != [] {
      assert matches[0] in matches;
      var k :| 0 <= k < |index| && index[k] == matches[0];
    }
    if k :| 0 <= k < |index| && Denotes(ref, index[k]) {
      assert index[k] in matches;
    }
  }

  /** Nothing denoted is unknown, and two different entries denoted are ambiguous. */
  lemma {:induction false} AmbiguousIffSeveral(ref: DependRef, index: seq<IndexEntry>)
    ensures ResolveDependRef(ref, index).Ambiguous? <==>
      exists j, k :: 0 <= j < k < |index| && Denotes(ref, index[j]) && Denotes(ref, index[k])
  {
    FoundIffDenotesOne(ref, index);
    UnknownIffNothing(ref, index);
    if ResolveDependRef(ref, index).Ambiguous? {
      var j :| 0 <= j < |index| && Denotes(ref, index[j]);
      assert !DenotesOnly(ref, index, j);
      var k :| 0 <= k < |index| && Denotes(ref, index[k]) && k != j;
      assert j < k || k < j;
    }
  }

  /** The minimal ref is the bare name exactly when no other entry has it. */
  lemma {:induction false} MinimalIsBareIff(catalog: seq<IndexEntry>, k: nat)
    requires k < |catalog|
    ensures MinimalDependRefFor(catalog[k], catalog) == Bare(catalog[k].name)
         || MinimalDependRefFor(catalog[k], catalog) == Qualified(catalog[k].folderPath, catalog[k].name)
    ensures MinimalDependRefFor(catalog[k], catalog).Bare? <==>
      forall j :: 0 <= j < |catalog| && j != k ==> catalog[j].name != catalog[k].name
  {
    var p := (entry: IndexEntry) => entry.name == catalog[k].name;
    assert catalog[k] in Filter(catalog, p);
    if |Filter(catalog, p)| == 1 {
      var u := UniqueOfFilter(catalog, p);
      assert p(catalog[k]);
    }
    if forall j :: 0 <= j < |catalog| && j != k ==> catalog[j].name != catalog[k].name {
      FilterUnique(catalog, p, k);
    }
  }

  /** With unique places the minimal ref of a listed entry resolves to that entry. */
  lemma {:induction false} MinimalRefResolves(catalog: seq<IndexEntry>, k: nat)
    requires UniquePlaces(catalog) && k < |catalog|
    ensures ResolveDependRef(MinimalDependRefFor(catalog[k], catalog), catalog) == Found(catalog[k].requestId)
  {
    var p := (entry: IndexEntry) => entry.name == catalog[k].name;
    if |Filter(catalog, p)| <= 1 {
      assert p(catalog[k]);
      assert catalog[k] in Filter(catalog, p);
      var u := UniqueOfFilter(catalog, p);
      assert u == k;
    }
    assert DenotesOnly(MinimalDependRefFor(catalog[k], catalog), catalog, k);
    FoundIffDenotesOne(MinimalDependRefFor(catalog[k], catalog), catalog);
  }
}
