/**
 The declarations a generated file emits: the root type still admits the sampled value and no name is declared
 twice.
 */
module TypeDeclarations {
  import opened Sequences
  import opened Wrappers
  import opened JsonTypes
  import opened TypeInference

  function RenameReferences(t: InferredType, from: string, to: string): InferredType
    decreases t
  {
    match t
    case Primitive(_) => t
    case ArrayOf(element) => ArrayOf(RenameReferences(element, from, to))
    case UnionOf(members) =>
      UnionOf(seq(|members|, i requires 0 <= i < |members| => RenameReferences(members[i], from, to)))
    case ObjectOf(name, properties) =>
      ObjectOf(if name == from then to else name, RenameProperties(properties, from, to))
  }

  function RenameProperties(properties: seq<Property>, from: string, to: string): seq<Property>
    decreases properties
  {
    seq(|properties|, i requires 0 <= i < |properties| =>
      Property(properties[i].key, RenameReferences(properties[i].ptype, from, to), properties[i].optional))
  }

  /** Renaming references changes no type's inhabitants. */
  lemma {:induction false} RenamingKeepsValues(t: InferredType, from: string, to: string, v: Json)
    ensures Inhabits(v, RenameReferences(t, from, to)) <==> Inhabits(v, t)
    decreases t
  {
    match t
    case Primitive(_) =>
    case ArrayOf(element) =>
      if v.JArray? {
        forall i | 0 <= i < |v.items|
          ensures Inhabits(v.items[i], RenameReferences(element, from, to)) <==> Inhabits(v.items[i], element)
        {
          RenamingKeepsValues(element, from, to, v.items[i]);
        }
      }
    case UnionOf(members) =>
      var renamed := RenameReferences(t, from, to).members;
      forall i | 0 <= i < |members|
        ensures Inhabits(v, renamed[i]) <==> Inhabits(v, members[i])
      {
        RenamingKeepsValues(members[i], from, to, v);
      }
    case ObjectOf(_, properties) =>
      if v.JObject? {
        RenamingKeepsFields(properties, from, to, v.fields);
      }
  }

  lemma {:induction false} RenamingKeepsFields(properties: seq<Property>, from: string, to: string, fields: seq<Field>)
    ensures InhabitsProperties(fields, RenameProperties(properties, from, to))
        <==> InhabitsProperties(fields, properties)
    decreases properties
  {
    var renamed := RenameProperties(properties, from, to);
    forall i | 0 <= i < |fields|
      ensures FieldFits(fields[i], renamed) <==> FieldFits(fields[i], properties)
    {
      forall p | 0 <= p < |properties|
        ensures Inhabits(fields[i].value, renamed[p].ptype) <==> Inhabits(fields[i].value, properties[p].ptype)
      {
        RenamingKeepsValues(properties[p].ptype, from, to, fields[i].value);
      }
      FitsAlike(fields[i], renamed, properties);
    }
    assert forall p :: 0 <= p < |properties| ==>
      renamed[p].key == properties[p].key && renamed[p].optional == properties[p].optional;
  }

  lemma FitsAlike(f: Field, a: seq<Property>, b: seq<Property>)
    requires |a| == |b|
    requires forall p :: 0 <= p < |a| ==>
      a[p].key == b[p].key && (Inhabits(f.value, a[p].ptype) <==> Inhabits(f.value, b[p].ptype))
    ensures FieldFits(f, a) <==> FieldFits(f, b)
  {
  }

  /** Renaming changes no comparison of structure. */
  lemma {:induction false} RenamingKeepsComparison(a: InferredType, b: InferredType, from: string, to: string)
    ensures SameType(RenameReferences(a, from, to), RenameReferences(b, from, to)) <==> SameType(a, b)
    decreases a
  {
    match a
    case Primitive(_) =>
    case ArrayOf(element) =>
      if b.ArrayOf? {
        RenamingKeepsComparison(element, b.element, from, to);
      }
    case ObjectOf(_, properties) =>
      if b.ObjectOf? {
        RenamingKeepsShape(properties, b.properties, from, to);
      }
    case UnionOf(members) =>
      if b.UnionOf? && |members| == |b.members| {
        var left, right := RenameReferences(a, from, to).members, RenameReferences(b, from, to).members;
        forall i | 0 <= i < |members|
          ensures SameType(left[i], right[i]) <==> SameType(members[i], b.members[i])
        {
          RenamingKeepsComparison(members[i], b.members[i], from, to);
        }
      }
  }

  lemma {:induction false} RenamingKeepsShape(left: seq<Property>, right: seq<Property>, from: string, to: string)
    ensures SamePropertyShape(RenameProperties(left, from, to), RenameProperties(right, from, to))
        <==> SamePropertyShape(left, right)
    decreases left
  {
    var left', right' := RenameProperties(left, from, to), RenameProperties(right, from, to);
    forall i | 0 <= i < |left|
      ensures SameProperty(left'[i], FindProperty(right', left'[i].key))
          <==> SameProperty(left[i], FindProperty(right, left[i].key))
    {
      FindRenamed(right, left[i].key, from, to);
      var found := FindProperty(right, left[i].key);
      if found.Some? {
        RenamingKeepsComparison(left[i].ptype, found.value.ptype, from, to);
      }
    }
  }

  lemma {:induction false} FindRenamed(properties: seq<Property>, key: string, from: string, to: string)
    ensures var found := FindProperty(properties, key);
      FindProperty(RenameProperties(properties, from, to), key) ==
        if found.None? then None
        else Some(Property(key, RenameReferences(found.value.ptype, from, to), found.value.optional))
  {
    if properties != [] {
      FindRenamed(properties[1..], key, from, to);
      assert RenameProperties(properties, from, to)[1..] == RenameProperties(properties[1..], from, to);
    }
  }

  /** A renamed type is the same type. */
  lemma {:induction false} RenamedIsSame(t: InferredType, from: string, to: string)
    requires ProperType(t)
    ensures SameType(t, RenameReferences(t, from, to))
    decreases t
  {
    match t
    case Primitive(_) =>
    case ArrayOf(element) => RenamedIsSame(element, from, to);
    case ObjectOf(_, properties) =>
      var renamed := RenameProperties(properties, from, to);
      forall i | 0 <= i < |properties|
        ensures SameProperty(properties[i], FindProperty(renamed, properties[i].key))
      {
        FindIsUnique(properties, i);
        FindRenamed(properties, properties[i].key, from, to);
        RenamedIsSame(properties[i].ptype, from, to);
      }
    case UnionOf(members) =>
      var renamed := RenameReferences(t, from, to).members;
      forall i | 0 <= i < |members|
        ensures SameType(members[i], renamed[i])
      {
        RenamedIsSame(members[i], from, to);
      }
  }

  lemma RenamingKeepsNormal(members: seq<InferredType>, from: string, to: string)
    requires NormalUnion(members)
    ensures NormalUnion(RenameReferences(UnionOf(members), from, to).members)
  {
    var renamed := RenameReferences(UnionOf(members), from, to).members;
    forall i, j | 0 <= i < j < |renamed|
      ensures MayStandTogether(renamed[i], renamed[j])
    {
      assert MayStandTogether(members[i], members[j]);
      RenamingKeepsComparison(members[i], members[j], from, to);
    }
  }

  lemma {:induction false} RenamingKeepsProper(t: InferredType, from: string, to: string)
    requires ProperType(t)
    ensures ProperType(RenameReferences(t, from, to))
    decreases t
  {
    match t
    case Primitive(_) =>
    case ArrayOf(element) => RenamingKeepsProper(element, from, to);
    case UnionOf(members) =>
      RenamingKeepsNormal(members, from, to);
      forall i | 0 <= i < |members|
        ensures ProperType(RenameReferences(members[i], from, to))
      {
        RenamingKeepsProper(members[i], from, to);
      }
    case ObjectOf(_, properties) =>
      assert Keys(RenameProperties(properties, from, to)) == Keys(properties);
      forall i | 0 <= i < |properties|
        ensures ProperType(RenameReferences(properties[i].ptype, from, to))
      {
        RenamingKeepsProper(properties[i].ptype, from, to);
      }
  }

  /** A renamed type is as tight as it was: every part of it is exhibited by the samples. */
  lemma {:induction false} RenamingKeepsTight(
      t: InferredType, from: string, to: string, samples: iset<Json>, open: bool, room: int)
    requires Tight(t, samples, open, room)
    ensures Tight(RenameReferences(t, from, to), samples, open, room)
    decreases t
  {
    match t
    case Primitive(_) =>
    case ArrayOf(element) =>
      RenamingKeepsTight(element, from, to, ItemsOf(samples), HasEmptyArray(samples), room - 1);
    case UnionOf(members) =>
      forall i | 0 <= i < |members|
        ensures Tight(RenameReferences(members[i], from, to), samples, open, room)
      {
        RenamingKeepsTight(members[i], from, to, samples, open, room);
      }
    case ObjectOf(_, properties) =>
      var renamed := RenameProperties(properties, from, to);
      assert Keys(renamed) == Keys(properties);
      forall i | 0 <= i < |properties|
        ensures TightProperty(renamed[i], samples, room)
      {
        assert TightProperty(properties[i], samples, room);
        RenamingKeepsTight(
          properties[i].ptype, from, to, ValuesAt(samples, properties[i].key), false, room - 1);
      }
  }

  // ---- Referenced object names, in the order a Set keeps them ----

  function AddName(names: seq<string>, name: string): seq<string> {
    if name in names then names else names + [name]
  }

  function Visit(t: InferredType, names: seq<string>): (r: seq<string>)
    requires Distinct(names)
    ensures Distinct(r) && names <= r
    decreases t
  {
    match t
    case Primitive(_) => names
    case ArrayOf(element) => Visit(element, names)
    case UnionOf(members) => VisitMembers(members, names)
    case ObjectOf(name, properties) => VisitProperties(properties, AddName(names, name))
  }

  function VisitMembers(members: seq<InferredType>, names: seq<string>): (r: seq<string>)
    requires Distinct(names)
    ensures Distinct(r) && names <= r
    decreases members
  {
    if members == [] then names
    else VisitMembers(members[1..], Visit(members[0], names))
  }

  function VisitProperties(properties: seq<Property>, names: seq<string>): (r: seq<string>)
    requires Distinct(names)
    ensures Distinct(r) && names <= r
    decreases properties
  {
    if properties == [] then names
    else VisitProperties(properties[1..], Visit(properties[0].ptype, names))
  }

  /** References to `from` go to a name that was not registered before and takes its place. */
  ghost predicate IsRenamed(
      r: InferredType, inferred: InferredType, from: string, after: seq<string>, before: seq<string>)
  {
    exists to: string ::
      && r == RenameReferences(inferred, from, to) && to !in before
      && from in before && after == before[IndexOf(before, from) := to]
  }

  /** Some object in the type carries this name. */
  ghost predicate Refers(t: InferredType, name: string)
    decreases t
  {
    match t
    case Primitive(_) => false
    case ArrayOf(element) => Refers(element, name)
    case UnionOf(members) => exists i :: 0 <= i < |members| && Refers(members[i], name)
    case ObjectOf(own, properties) => own == name || ReferredBy(properties, name)
  }

  ghost predicate ReferredBy(properties: seq<Property>, name: string)
    decreases properties
  {
    exists i :: 0 <= i < |properties| && Refers(properties[i].ptype, name)
  }

  /** Visiting a type collects exactly the names it refers to. */
  lemma {:induction false} VisitMeans(t: InferredType, names: seq<string>, name: string)
    requires Distinct(names)
    ensures name in Visit(t, names) <==> name in names || Refers(t, name)
    decreases t
  {
    match t
    case Primitive(_) =>
    case ArrayOf(element) => VisitMeans(element, names, name);
    case UnionOf(members) => VisitMembersMeans(members, names, name);
    case ObjectOf(own, properties) => VisitPropertiesMeans(properties, AddName(names, own), name);
  }

  lemma {:induction false} VisitMembersMeans(members: seq<InferredType>, names: seq<string>, name: string)
    requires Distinct(names)
    ensures name in VisitMembers(members, names) <==>
      name in names || exists i :: 0 <= i < |members| && Refers(members[i], name)
    decreases members
  {
    if members != [] {
      VisitMeans(members[0], names, name);
      VisitMembersMeans(members[1..], Visit(members[0], names), name);
      assert forall i :: 0 < i < |members| ==> members[i] == members[1..][i - 1];
    }
  }

  lemma {:induction false} VisitPropertiesMeans(properties: seq<Property>, names: seq<string>, name: string)
    requires Distinct(names)
    ensures name in VisitProperties(properties, names) <==> name in names || ReferredBy(properties, name)
    decreases properties
  {
    if properties != [] {
      VisitMeans(properties[0].ptype, names, name);
      VisitPropertiesMeans(properties[1..], Visit(properties[0].ptype, names), name);
      assert forall i :: 0 < i < |properties| ==> properties[i] == properties[1..][i - 1];
    }
  }

  /** Renaming replaces the one name, wherever it stands, and leaves the others. */
  lemma {:induction false} RenamingReplacesName(t: InferredType, from: string, to: string, name: string)
    ensures Refers(RenameReferences(t, from, to), name) <==>
      (name != from && Refers(t, name)) || (name == to && Refers(t, from))
    decreases t
  {
    match t
    case Primitive(_) =>
    case ArrayOf(element) => RenamingReplacesName(element, from, to, name);
    case UnionOf(members) =>
      var renamed := RenameReferences(t, from, to).members;
      forall i | 0 <= i < |members|
        ensures Refers(renamed[i], name) <==>
          (name != from && Refers(members[i], name)) || (name == to && Refers(members[i], from))
      {
        RenamingReplacesName(members[i], from, to, name);
      }
    case ObjectOf(_, properties) =>
      var renamed := RenameProperties(properties, from, to);
      forall i | 0 <= i < |properties|
        ensures Refers(renamed[i].ptype, name) <==>
          (name != from && Refers(properties[i].ptype, name)) || (name == to && Refers(properties[i].ptype, from))
      {
        RenamingReplacesName(properties[i].ptype, from, to, name);
      }
  }

  /** Frees the root's alias name when a nested object claimed it first. */
  method RenameConflictingObjectName(
      ctx: InferContext, inferred: InferredType, rootName: string) returns (r: InferredType)
    requires ctx.Valid()
    modifies ctx
    ensures ctx.Valid()
    ensures rootName !in Names(ctx.namedObjects)
    ensures forall v :: Inhabits(v, r) <==> Inhabits(v, inferred)
    ensures if rootName !in old(Names(ctx.namedObjects)) then r == inferred && ctx.namedObjects == old(ctx.namedObjects)
      else IsRenamed(r, inferred, rootName, Names(ctx.namedObjects), old(Names(ctx.namedObjects)))
  {
    if rootName !in Names(ctx.namedObjects) {
      return inferred;
    }
    var index := IndexOf(Names(ctx.namedObjects), rootName);
    ghost var before := ctx.namedObjects;
    var replacement := ctx.AllocateName(rootName + "Item");
    ctx.usedNames := ctx.usedNames - {rootName};
    ctx.namedObjects := ctx.namedObjects[index := NamedObject(replacement, ctx.namedObjects[index].properties)];
    RenamedEntryIsFresh(before, index, replacement);
    r := RenameReferences(inferred, rootName, replacement);
    assert Names(ctx.namedObjects) == Names(before)[index := replacement];
    forall v
      ensures Inhabits(v, r) <==> Inhabits(v, inferred)
    {
      RenamingKeepsValues(inferred, rootName, replacement, v);
    }
  }

  lemma RenamedEntryIsFresh(before: seq<NamedObject>, index: nat, replacement: string)
    requires Distinct(Names(before)) && index < |before| && replacement !in Names(before)
    ensures var after := before[index := NamedObject(replacement, before[index].properties)];
      Distinct(Names(after)) && Names(before)[index] !in Names(after)
      && forall i :: 0 <= i < |after| && i != index ==> after[i].name != before[index].name
  {
    var after := before[index := NamedObject(replacement, before[index].properties)];
    assert forall i :: 0 <= i < |after| ==> Names(after)[i] == if i == index then replacement else Names(before)[i];
    assert replacement != Names(before)[index];
    forall i | 0 <= i < |after| && i != index
      ensures after[i].name != before[index].name
    {
      assert Names(before)[i] == before[i].name && Names(before)[index] == before[index].name;
    }
  }

  /** Infers the root type and lists the declarations in emission order. */
  method GenerateDeclarations(ctx: InferContext, value: Json, rootName: string, maxDepth: nat)
    returns (root: InferredType, declarationNames: seq<string>)
    requires ctx.Valid() && ProperJson(value)
    modifies ctx
    ensures ctx.Valid() && ProperType(root) && Inhabits(value, root)
    ensures Tight(root, iset{value}, false, maxDepth)
    ensures Distinct(declarationNames)
    ensures declarationNames == NestedNames(Visit(root, []), root, Names(ctx.namedObjects)) + [
        if root.ObjectOf? then root.name else rootName]
  {
    var inferred := ctx.InferType(value, rootName, 0, maxDepth);
    assert maxDepth - 0 == maxDepth;
    assert Tight(inferred, iset{value}, false, maxDepth);
    root := inferred;
    if !inferred.ObjectOf? {
      ghost var before := Names(ctx.namedObjects);
      root := RenameConflictingObjectName(ctx, inferred, rootName);
      if root != inferred {
        RenamedIsAsTight(root, inferred, rootName, Names(ctx.namedObjects), before, value, maxDepth);
      }
    }
    var referenced := Visit(root, []);
    var last := if root.ObjectOf? then root.name else rootName;
    var nestedNames := NestedNames(referenced, root, Names(ctx.namedObjects));
    NestedNamesExclude(referenced, root, Names(ctx.namedObjects), last);
    declarationNames := nestedNames + [last];
  }

  lemma RenamedIsAsTight(
      root: InferredType, inferred: InferredType, from: string, after: seq<string>, before: seq<string>, value: Json,
      maxDepth: nat)
    requires ProperType(inferred) && Tight(inferred, iset{value}, false, maxDepth)
    requires IsRenamed(root, inferred, from, after, before)
    ensures ProperType(root) && Tight(root, iset{value}, false, maxDepth)
  {
    var to: string :| root == RenameReferences(inferred, from, to);
    RenamingKeepsProper(inferred, from, to);
    RenamingKeepsTight(inferred, from, to, iset{value}, false, maxDepth);
  }

  /** The names a root refers to and that are registered, in the order met, but for its own. */
  function NestedNames(referenced: seq<string>, root: InferredType, registered: seq<string>): seq<string> {
    Filter(referenced, name => !(root.ObjectOf? && name == root.name) && name in registered)
  }

  lemma NestedNamesExclude(referenced: seq<string>, root: InferredType, registered: seq<string>, last: string)
    requires Distinct(referenced)
    requires if root.ObjectOf? then last == root.name else last !in registered
    ensures Distinct(NestedNames(referenced, root, registered) + [last])
  {
    FilterKeepsDistinct(referenced, name => !(root.ObjectOf? && name == root.name) && name in registered);
    DisjointConcatIsDistinct(NestedNames(referenced, root, registered), [last]);
  }
}
