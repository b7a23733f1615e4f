/**
 Inferring a TypeScript type from one JSON value. The context's registry of named objects steers which names
 and property orders come out, never which values a type admits; that and the freshness of names is proved here.
 */
module TypeInference {
  import opened Sequences
  import opened Wrappers
  import opened JsonTypes

  datatype NamedObject = NamedObject(name: string, properties: seq<Property>)

  function Names(objects: seq<NamedObject>): seq<string> {
    seq(|objects|, i requires 0 <= i < |objects| => objects[i].name)
  }

  // ---- Upper bounds ----

  lemma SubsumesTransitive(a: InferredType, b: InferredType, c: InferredType)
    requires Subsumes(a, b) && Subsumes(b, c)
    ensures Subsumes(a, c)
  {
  }

  lemma SameTypeSubsumes(left: InferredType, right: InferredType)
    requires ProperType(left) && ProperType(right) && SameType(left, right)
    ensures Subsumes(left, right)
  {
    forall v | Inhabits(v, right)
      ensures Inhabits(v, left)
    {
      SameTypeSameValues(left, right, v);
    }
  }

  lemma ArraySubsumes(a: InferredType, b: InferredType)
    requires Subsumes(a, b)
    ensures Subsumes(ArrayOf(a), ArrayOf(b))
  {
  }

  /** `merged` offers every property of `part` at least as liberally, and requires nothing `part` does not. */
  ghost predicate Widens(merged: seq<Property>, part: seq<Property>) {
    && (forall i :: 0 <= i < |part| ==> HasWider(merged, part[i]))
    && (forall m :: 0 <= m < |merged| ==> merged[m].optional || RequiredBy(part, merged[m].key))
  }

  ghost predicate HasWider(merged: seq<Property>, p: Property) {
    exists m :: 0 <= m < |merged| && WiderProperty(merged[m], p)
  }

  ghost predicate WiderProperty(m: Property, p: Property) {
    m.key == p.key && Subsumes(m.ptype, p.ptype)
  }

  ghost predicate RequiredBy(part: seq<Property>, key: string) {
    exists i :: 0 <= i < |part| && part[i].key == key && !part[i].optional
  }

  lemma ObjectSubsumes(name: string, merged: seq<Property>, part: InferredType)
    requires part.ObjectOf? && Widens(merged, part.properties)
    ensures Subsumes(ObjectOf(name, merged), part)
  {
    forall v | Inhabits(v, part)
      ensures Inhabits(v, ObjectOf(name, merged))
    {
      WidenedFields(merged, part.properties, v.fields);
    }
  }

  lemma WidenedFields(merged: seq<Property>, part: seq<Property>, fields: seq<Field>)
    requires Widens(merged, part) && InhabitsProperties(fields, part)
    ensures InhabitsProperties(fields, merged)
  {
    forall i | 0 <= i < |fields|
      ensures FieldFits(fields[i], merged)
    {
      assert FieldFits(fields[i], part);
      var p :| 0 <= p < |part| && part[p].key == fields[i].key && Inhabits(fields[i].value, part[p].ptype);
      assert HasWider(merged, part[p]);
      var m :| 0 <= m < |merged| && WiderProperty(merged[m], part[p]);
    }
    forall m | 0 <= m < |merged|
      ensures merged[m].optional || merged[m].key in FieldKeys(fields)
    {
      if !merged[m].optional {
        var i :| 0 <= i < |part| && part[i].key == merged[m].key && !part[i].optional;
      }
    }
  }

  /** How the merge of two property maps treats one key. */
  ghost predicate MergedProperty(left: seq<Property>, right: seq<Property>, m: Property) {
    var l, r := FindProperty(left, m.key), FindProperty(right, m.key);
    && (l.Some? || r.Some?)
    && (l.Some? ==> Subsumes(m.ptype, l.value.ptype))
    && (r.Some? ==> Subsumes(m.ptype, r.value.ptype))
    && (m.optional <==> l.None? || r.None? || l.value.optional || r.value.optional)
    && ProperType(m.ptype)
    && Depth(m.ptype) <= Max(PropertyDepth(left), PropertyDepth(right))
  }

  /** The keys of both maps, left ones first. */
  function UnionKeys(left: seq<Property>, right: seq<Property>): seq<string> {
    Keys(left) + Filter(Keys(right), k => k !in Keys(left))
  }

  lemma UnionKeysDistinct(left: seq<Property>, right: seq<Property>)
    requires Distinct(Keys(left)) && Distinct(Keys(right))
    ensures Distinct(UnionKeys(left, right))
  {
    FilterKeepsDistinct(Keys(right), k => k !in Keys(left));
    DisjointConcatIsDistinct(Keys(left), Filter(Keys(right), k => k !in Keys(left)));
  }

  lemma MergedWidensLeft(left: seq<Property>, right: seq<Property>, merged: seq<Property>)
    requires ProperProperties(left) && Keys(merged) == UnionKeys(left, right)
    requires forall m :: 0 <= m < |merged| ==> MergedProperty(left, right, merged[m])
    ensures Widens(merged, left)
  {
    forall i | 0 <= i < |left|
      ensures HasWider(merged, left[i])
    {
      assert Keys(left)[i] == left[i].key;
      assert left[i].key in UnionKeys(left, right);
      var m :| 0 <= m < |merged| && Keys(merged)[m] == left[i].key;
      FindIsUnique(left, i);
      assert MergedProperty(left, right, merged[m]);
      assert WiderProperty(merged[m], left[i]);
    }
    forall m | 0 <= m < |merged|
      ensures merged[m].optional || RequiredBy(left, merged[m].key)
    {
      assert MergedProperty(left, right, merged[m]);
      if !merged[m].optional {
        var l := FindProperty(left, merged[m].key).value;
        var i :| 0 <= i < |left| && left[i] == l;
      }
    }
  }

  lemma MergedWidensRight(left: seq<Property>, right: seq<Property>, merged: seq<Property>)
    requires ProperProperties(right) && Keys(merged) == UnionKeys(left, right)
    requires forall m :: 0 <= m < |merged| ==> MergedProperty(left, right, merged[m])
    ensures Widens(merged, right)
  {
    forall i | 0 <= i < |right|
      ensures HasWider(merged, right[i])
    {
      assert Keys(right)[i] == right[i].key;
      assert right[i].key in UnionKeys(left, right);
      var m :| 0 <= m < |merged| && Keys(merged)[m] == right[i].key;
      FindIsUnique(right, i);
      assert MergedProperty(left, right, merged[m]);
      assert WiderProperty(merged[m], right[i]);
    }
    forall m | 0 <= m < |merged|
      ensures merged[m].optional || RequiredBy(right, merged[m].key)
    {
      assert MergedProperty(left, right, merged[m]);
      if !merged[m].optional {
        var r := FindProperty(right, merged[m].key).value;
        var i :| 0 <= i < |right| && right[i] == r;
      }
    }
  }

  // ---- The context and its methods ----

  /** The string plumbing that turns hints into identifiers; any functions will do. */
  datatype Naming = Naming(fromKey: string -> string, sanitize: string -> string, singularize: string -> string)

  function Decimal(n: nat): string {
    if n < 10 then ['0' + n as char] else Decimal(n / 10) + ['0' + (n % 10) as char]
  }

  lemma {:induction false} DecimalIsInjective(m: nat, n: nat)
    requires Decimal(m) == Decimal(n)
    ensures m == n
  {
    assert Decimal(m)[|Decimal(m)| - 1] == '0' + (m % 10) as char;
    assert Decimal(n)[|Decimal(n)| - 1] == '0' + (n % 10) as char;
    if m >= 10 && n >= 10 {
      assert Decimal(m)[..|Decimal(m)| - 1] == Decimal(m / 10);
      assert Decimal(n)[..|Decimal(n)| - 1] == Decimal(n / 10);
      DecimalIsInjective(m / 10, n / 10);
    } else if m >= 10 {
      DecimalIsNotEmpty(m / 10);
    } else if n >= 10 {
      DecimalIsNotEmpty(n / 10);
    }
  }

  lemma {:induction false} DecimalIsNotEmpty(n: nat)
    ensures Decimal(n) != []
  {
  }

  function Suffixed(base: string, n: nat): seq<string> {
    seq(n, i requires 0 <= i < n => base + Decimal(i + 2))
  }

  /** Names that differ in their numeric suffix differ, so only so many of them can be taken. */
  lemma {:induction false} TakenSuffixes(base: string, used: set<string>, n: nat)
    requires forall x :: x in Suffixed(base, n) ==> x in used
    ensures n <= |used|
  {
    var tried := Suffixed(base, n);
    forall i, j | 0 <= i < j < n
      ensures tried[i] != tried[j]
    {
      assert tried[i][|base|..] == Decimal(i + 2) && tried[j][|base|..] == Decimal(j + 2);
      if Decimal(i + 2) == Decimal(j + 2) {
        DecimalIsInjective(i + 2, j + 2);
      }
    }
    DistinctWithin(tried, used);
  }

  /** The name carries the least number from 2 on that makes it free. */
  ghost predicate IsFirstFree(used: set<string>, base: string, name: string, k: nat) {
    k >= 2 && name == base + Decimal(k) && name !in used && forall j :: 2 <= j < k ==> base + Decimal(j) in used
  }

  class InferContext {
    const naming: Naming
    var namedObjects: seq<NamedObject>
    var usedNames: set<string>

    /** Registered names are distinct and reserved; registered shapes are proper. */
    ghost predicate Valid()
      reads this
    {
      && Distinct(Names(namedObjects))
      && (forall i :: 0 <= i < |namedObjects| ==>
            namedObjects[i].name in usedNames && ProperProperties(namedObjects[i].properties))
    }

    constructor (naming: Naming)
      ensures Valid() && namedObjects == [] && usedNames == {} && this.naming == naming
    {
      this.naming := naming;
      namedObjects, usedNames := [], {};
    }

    /** Reserves `base`, or `base2`, `base3`, ... when it is taken. */
    method AllocateName(base: string) returns (name: string)
      requires Valid()
      modifies this`usedNames
      ensures Valid()
      ensures name !in old(usedNames) && usedNames == old(usedNames) + {name}
      ensures base !in old(usedNames) ==> name == base
      ensures base in old(usedNames) ==> exists k :: IsFirstFree(old(usedNames), base, name, k)
    {
      if base !in usedNames {
        usedNames := usedNames + {base};
        return base;
      }
      var index := 2;
      while base + Decimal(index) in usedNames
        invariant index >= 2 && usedNames == old(usedNames)
        invariant forall x :: x in Suffixed(base, index - 2) ==> x in usedNames
        decreases |usedNames| + 2 - index
      {
        assert Suffixed(base, index - 1) == Suffixed(base, index - 2) + [base + Decimal(index)];
        index := index + 1;
        TakenSuffixes(base, usedNames, index - 2);
      }
      assert forall j :: 2 <= j < index ==> base + Decimal(j) == Suffixed(base, index - 2)[j - 2];
      assert IsFirstFree(usedNames, base, base + Decimal(index), index);
      name := base + Decimal(index);
      usedNames := usedNames + {name};
    }

    /** The registered object whose shape is structurally the same, if any. */
    method FindShape(properties: seq<Property>) returns (found: Option<NamedObject>)
      requires Valid() && ProperProperties(properties)
      ensures found.Some? ==> found.value in namedObjects && SamePropertyShape(found.value.properties, properties)
      ensures found.None? ==> forall o :: o in namedObjects ==> !SamePropertyShape(o.properties, properties)
    {
      for i := 0 to |namedObjects|
        invariant forall j :: 0 <= j < i ==> !SamePropertyShape(namedObjects[j].properties, properties)
      {
        if SamePropertyShape(namedObjects[i].properties, properties) {
          return Some(namedObjects[i]);
        }
      }
      return None;
    }

    method AllocateUniqueObjectName(nameHint: string, properties: seq<Property>) returns (name: string)
      requires Valid() && ProperProperties(properties)
      modifies this
      ensures Valid()
      ensures name in Names(namedObjects)
    {
      var base := naming.sanitize(nameHint);
      var existing := FindShape(properties);
      if existing.Some? {
        var i :| 0 <= i < |namedObjects| && namedObjects[i] == existing.value;
        assert Names(namedObjects)[i] == existing.value.name;
        return existing.value.name;
      }
      name := AllocateName(base);
      ghost var before := namedObjects;
      namedObjects := namedObjects + [NamedObject(name, properties)];
      assert Names(namedObjects) == Names(before) + [name];
    }

    // ---- Merging ----

    method MergeTypes(
        left: InferredType, right: InferredType, nameHint: string, ghost at: Sample) returns (r: InferredType)
      requires Valid() && ProperType(left) && ProperType(right)
      requires TightAt(left, at) && TightAt(right, at)
      modifies this
      ensures Valid() && UpperBound(r, left, right) && TightAt(r, at)
      ensures SameType(left, right) ==> r == left
      ensures left.ObjectOf? && right.ObjectOf? ==> r.ObjectOf?
      ensures left.ArrayOf? && right.ArrayOf? ==> r.ArrayOf?
      decreases Max(Depth(left), Depth(right)), 4
    {
      if SameType(left, right) {
        SameTypeSubsumes(left, right);
        return left;
      }
      if left.ObjectOf? && right.ObjectOf? {
        r := MergeObjects(left, right, nameHint, at);
        return;
      }
      if left.ArrayOf? && right.ArrayOf? {
        var element := MergeTypes(left.element, right.element, nameHint, ItemSample(at));
        ArraySubsumes(element, left.element);
        ArraySubsumes(element, right.element);
        return ArrayOf(element);
      }
      var parts := FlattenUnionMembers(left) + FlattenUnionMembers(right);
      ghost var bound := Max(Depth(left), Depth(right));
      PartsAreShallow(left, right);
      PartsAreTight(left, right, at);
      var members := FlattenUnion(parts, nameHint, bound, at);
      MembersBound(left, right, members);
      if |members| == 1 {
        return members[0];
      }
      r := UnionOf(members);
    }

    method MergeObjects(left: InferredType, right: InferredType, nameHint: string, ghost at: Sample)
      returns (r: InferredType)
      requires Valid() && left.ObjectOf? && right.ObjectOf? && ProperType(left) && ProperType(right)
      requires TightAt(left, at) && TightAt(right, at)
      modifies this
      ensures Valid() && r.ObjectOf? && UpperBound(r, left, right) && TightAt(r, at)
      decreases Max(Depth(left), Depth(right)), 2
    {
      var properties := MergeProperties(left.properties, right.properties, at);
      MergedIsUpperBound(left, right, properties);
      MergedIsTight(left, right, properties, at);
      var existing := FindShape(properties);
      if existing.Some? {
        ShapeIsUpperBound(left, right, properties, existing.value);
        ShapeIsTight(properties, existing.value, at);
        return ObjectOf(existing.value.name, existing.value.properties);
      }
      var preferredName := if left.name != [] then left.name else naming.sanitize(nameHint);
      if preferredName in Names(namedObjects) {
        var index := IndexOf(Names(namedObjects), preferredName);
        ghost var before := namedObjects;
        namedObjects := namedObjects[index := NamedObject(preferredName, properties)];
        assert Names(namedObjects) == Names(before);
        return ObjectOf(preferredName, properties);
      }
      var name := AllocateUniqueObjectName(if nameHint != [] then nameHint else preferredName, properties);
      r := ObjectOf(name, properties);
    }

    /** The property a merged object has under one key of either side. */
    method MergeKey(left: seq<Property>, right: seq<Property>, key: string, ghost at: Sample) returns (next: Property)
      requires Valid() && ProperProperties(left) && ProperProperties(right)
      requires key in Keys(left) || key in Keys(right)
      requires TightSide(left, at) && TightSide(right, at)
      modifies this
      ensures Valid() && next.key == key && MergedProperty(left, right, next)
      ensures TightProperty(next, at.values, at.room)
      decreases 1 + Max(PropertyDepth(left), PropertyDepth(right)), 0
    {
      var leftProp, rightProp := FindProperty(left, key), FindProperty(right, key);
      if leftProp.Some? {
        FoundIsProper(left, key);
        FoundIsTight(left, key, at);
      } else {
        AbsentKeyIsLacking(left, key, at);
      }
      if rightProp.Some? {
        FoundIsProper(right, key);
        FoundIsTight(right, key, at);
      } else {
        AbsentKeyIsLacking(right, key, at);
      }
      if leftProp.Some? && rightProp.Some? {
        var merged :=
          MergeTypes(leftProp.value.ptype, rightProp.value.ptype, naming.fromKey(key), ValueSample(at, key));
        next := Property(key, merged, leftProp.value.optional || rightProp.value.optional);
      } else if leftProp.Some? {
        next := Property(key, leftProp.value.ptype, true);
      } else {
        next := Property(key, rightProp.value.ptype, true);
      }
    }

    method MergeProperties(
        left: seq<Property>, right: seq<Property>, ghost at: Sample) returns (properties: seq<Property>)
      requires Valid() && ProperProperties(left) && ProperProperties(right)
      requires TightSide(left, at) && TightSide(right, at)
      modifies this
      ensures Valid()
      ensures Keys(properties) == UnionKeys(left, right)
      ensures forall i :: 0 <= i < |properties| ==> MergedProperty(left, right, properties[i])
      ensures TightProperties(properties, at.values, at.room)
      decreases 1 + Max(PropertyDepth(left), PropertyDepth(right)), 1
    {
      var keys := UnionKeys(left, right);
      properties := [];
      for i := 0 to |keys|
        invariant Valid() && |properties| == i
        invariant Keys(properties) == keys[..i]
        invariant forall j :: 0 <= j < i ==> MergedProperty(left, right, properties[j])
        invariant TightProperties(properties, at.values, at.room)
      {
        var key := keys[i];
        assert key in keys;
        var next := MergeKey(left, right, key, at);
        assert Keys(properties + [next]) == Keys(properties) + [key];
        properties := properties + [next];
      }
    }

    /** Folds each member into the first compatible entry, then moves `null` to the end. */
    method FlattenUnion(members: seq<InferredType>, nameHint: string, ghost bound: nat, ghost at: Sample)
      returns (result: seq<InferredType>)
      requires Valid() && AllFit(members, bound, at) && NoUnions(members)
      modifies this
      ensures Valid() && AllFit(result, bound, at)
      ensures NoUnions(result) && Separate(result) && NullIsLast(result) && (members != [] ==> result != [])
      ensures forall i :: 0 <= i < |members| ==> Covered(members[i], result)
      decreases bound, 3
    {
      result := [];
      for i := 0 to |members|
        invariant Valid() && AllFit(result, bound, at)
        invariant NoUnions(result) && Separate(result) && (i > 0 ==> result != [])
        invariant forall j :: 0 <= j < i ==> Covered(members[j], result)
      {
        ghost var before := result;
        result := Absorb(result, members[i], nameHint, bound, at);
        forall j | 0 <= j < i
          ensures Covered(members[j], result)
        {
          CoverGrows(members[j], before, result);
        }
      }
      ghost var unsorted := result;
      NullLastKeepsMembers(result);
      NullLastIsNormal(result);
      result := NullLast(result);
      forall i | 0 <= i < |result|
        ensures Fits(result[i], bound, at)
      {
        assert result[i] in unsorted;
      }
    }

    method Absorb(
        result: seq<InferredType>, member: InferredType, nameHint: string, ghost bound: nat, ghost at: Sample)
      returns (r: seq<InferredType>)
      requires Valid() && Fits(member, bound, at) && AllFit(result, bound, at)
      requires !member.UnionOf? && NoUnions(result) && Separate(result)
      modifies this
      ensures Valid() && AllFit(r, bound, at)
      ensures NoUnions(r) && Separate(r) && r != []
      ensures |r| >= |result| && forall i :: 0 <= i < |result| ==> Subsumes(r[i], result[i])
      ensures Covered(member, r)
      decreases bound, 3, 0
    {
      for i := 0 to |result|
        invariant Valid()
        invariant forall j :: 0 <= j < i ==> MayStandTogether(result[j], member)
      {
        var existing := result[i];
        if existing.ObjectOf? && member.ObjectOf? {
          var merged := MergeObjects(existing, member, nameHint, at);
          r := result[i := merged];
          MergedStandsAlone(result, i, merged);
          assert Subsumes(r[i], member);
          return;
        }
        if SameType(existing, member) {
          SameTypeSubsumes(existing, member);
          return result;
        }
      }
      r := result + [member];
      assert Subsumes(r[|result|], member);
    }

    // ---- Inference ----

    /**
     Every value inhabits the type inferred for it, whatever the depth limit cuts off, and the type is tight: the
     value exhibits each of its parts.
     */
    method InferType(value: Json, nameHint: string, depth: nat, maxDepth: nat) returns (r: InferredType)
      requires Valid() && ProperJson(value)
      modifies this
      ensures Valid() && ProperType(r) && Inhabits(value, r)
      ensures Tight(r, iset{value}, false, maxDepth - depth)
      decreases value
    {
      assert value in iset{value};
      if depth > maxDepth {
        return Primitive(UnknownKind);
      }
      match value {
        case JNull => r := Primitive(NullKind);
        case JString(_) => r := Primitive(StringKind);
        case JNumber(_) => r := Primitive(NumberKind);
        case JBool(_) => r := Primitive(BooleanKind);
        case JArray(items) =>
          if |items| == 0 {
            return ArrayOf(Primitive(UnknownKind));
          }
          var elementHint := naming.singularize(nameHint);
          ghost var at := ItemSample(Sample(iset{value}, false, maxDepth - depth));
          var element := InferType(items[0], elementHint, depth + 1, maxDepth);
          ItemIsSampled(element, value, 0, maxDepth - depth);
          for i := 1 to |items|
            invariant Valid() && ProperType(element) && TightAt(element, at)
            invariant forall j :: 0 <= j < i ==> Inhabits(items[j], element)
          {
            var next := InferType(items[i], elementHint, depth + 1, maxDepth);
            ItemIsSampled(next, value, i, maxDepth - depth);
            element := MergeTypes(element, next, elementHint, at);
          }
          r := ArrayOf(element);
        case JObject(fields) =>
          var properties := InferProperties(value, depth, maxDepth);
          assert Keys(properties) == FieldKeys(fields);
          var name := AllocateUniqueObjectName(nameHint, properties);
          r := ObjectOf(name, properties);
      }
    }

    method InferProperties(value: Json, depth: nat, maxDepth: nat) returns (properties: seq<Property>)
      requires Valid() && ProperJson(value) && value.JObject?
      modifies this
      ensures Valid() && ProperProperties(properties) && InhabitsProperties(value.fields, properties)
      ensures Keys(properties) == FieldKeys(value.fields) && TightProperties(properties, iset{value}, maxDepth - depth)
      decreases value, 0
    {
      var fields := value.fields;
      properties := [];
      for i := 0 to |fields|
        invariant Valid() && |properties| == i
        invariant Keys(properties) == FieldKeys(fields)[..i]
        invariant forall j :: 0 <= j < i ==> InferredFor(fields[j], properties[j])
        invariant TightProperties(properties, iset{value}, maxDepth - depth)
      {
        var t := InferType(fields[i].value, naming.fromKey(fields[i].key), depth + 1, maxDepth);
        var next := Property(fields[i].key, t, false);
        FieldIsSampled(next, value, i, maxDepth - depth);
        assert Keys(properties + [next]) == Keys(properties) + [next.key];
        properties := properties + [next];
      }
      InferredPropertiesFit(fields, properties);
    }
  }

  // ---- Samples a type is measured against ----

  /** The values seen at one place, whether an empty array left the place open, and how much depth is left there. */
  datatype Sample = Sample(values: iset<Json>, open: bool, room: int)

  ghost predicate TightAt(t: InferredType, at: Sample) {
    Tight(t, at.values, at.open, at.room)
  }

  ghost function ItemSample(at: Sample): Sample {
    Sample(ItemsOf(at.values), HasEmptyArray(at.values), at.room - 1)
  }

  ghost function ValueSample(at: Sample, key: string): Sample {
    Sample(ValuesAt(at.values, key), false, at.room - 1)
  }

  /** One side of an object merge: tight, and exhibited by an object with no further keys. */
  ghost predicate TightSide(properties: seq<Property>, at: Sample) {
    TightProperties(properties, at.values, at.room) && HasObjectWithin(at.values, Keys(properties))
  }

  ghost predicate Fits(t: InferredType, bound: nat, at: Sample) {
    ProperType(t) && Depth(t) <= bound && TightAt(t, at)
  }

  ghost predicate AllFit(list: seq<InferredType>, bound: nat, at: Sample) {
    forall i :: 0 <= i < |list| ==> Fits(list[i], bound, at)
  }

  lemma FoundIsTight(properties: seq<Property>, key: string, at: Sample)
    requires TightSide(properties, at) && FindProperty(properties, key).Some?
    ensures TightProperty(FindProperty(properties, key).value, at.values, at.room)
  {
    var p := FindProperty(properties, key).value;
    var i :| 0 <= i < |properties| && properties[i] == p;
  }

  lemma AbsentKeyIsLacking(properties: seq<Property>, key: string, at: Sample)
    requires TightSide(properties, at) && key !in Keys(properties)
    ensures HasObjectWithout(at.values, key)
  {
    var v :| v in at.values && v.JObject? && forall k :: k in FieldKeys(v.fields) ==> k in Keys(properties);
  }

  lemma MergedIsTight(left: InferredType, right: InferredType, properties: seq<Property>, at: Sample)
    requires left.ObjectOf? && TightAt(left, at)
    requires right.ObjectOf? && Keys(properties) == UnionKeys(left.properties, right.properties)
    requires TightProperties(properties, at.values, at.room)
    ensures forall name :: TightAt(ObjectOf(name, properties), at)
  {
    var v :| v in at.values && v.JObject? && forall k :: k in FieldKeys(v.fields) ==> k in Keys(left.properties);
    assert forall k :: k in FieldKeys(v.fields) ==> k in Keys(properties);
  }

  lemma ShapeIsTight(properties: seq<Property>, existing: NamedObject, at: Sample)
    requires ProperProperties(properties) && ProperProperties(existing.properties)
    requires SamePropertyShape(existing.properties, properties)
    requires TightAt(ObjectOf(existing.name, properties), at)
    ensures TightAt(ObjectOf(existing.name, existing.properties), at)
  {
    SameTypeTight(ObjectOf(existing.name, existing.properties), ObjectOf(existing.name, properties),
                  at.values, at.open, at.room);
  }

  lemma PartsAreTight(left: InferredType, right: InferredType, at: Sample)
    requires TightAt(left, at) && TightAt(right, at)
    ensures forall t :: t in FlattenUnionMembers(left) + FlattenUnionMembers(right) ==> TightAt(t, at)
  {
    forall t | t in FlattenUnionMembers(left) + FlattenUnionMembers(right)
      ensures TightAt(t, at)
    {
      if t in FlattenUnionMembers(left) {
        var i :| 0 <= i < |FlattenUnionMembers(left)| && FlattenUnionMembers(left)[i] == t;
      } else {
        var i :| 0 <= i < |FlattenUnionMembers(right)| && FlattenUnionMembers(right)[i] == t;
      }
    }
  }

  lemma ItemIsSampled(t: InferredType, value: Json, i: nat, room: int)
    requires value.JArray? && i < |value.items|
    requires Tight(t, iset{value.items[i]}, false, room - 1)
    ensures TightAt(t, ItemSample(Sample(iset{value}, false, room)))
  {
    assert IsItem(iset{value}, value.items[i]);
    TightGrows(t, iset{value.items[i]}, ItemsOf(iset{value}), false, HasEmptyArray(iset{value}), room - 1);
  }

  lemma FieldIsSampled(p: Property, value: Json, i: nat, room: int)
    requires value.JObject? && i < |value.fields| && p.key == value.fields[i].key && !p.optional
    requires Tight(p.ptype, iset{value.fields[i].value}, false, room - 1)
    ensures TightProperty(p, iset{value}, room)
  {
    var x := value.fields[i].value;
    assert value.fields[i] == Field(p.key, x);
    assert IsValueAt(iset{value}, p.key, x);
    assert x in ValuesAt(iset{value}, p.key);
    TightGrows(p.ptype, iset{x}, ValuesAt(iset{value}, p.key), false, false, room - 1);
  }

  /** A proper type above both arguments and no deeper than the deeper one. */
  ghost predicate UpperBound(t: InferredType, left: InferredType, right: InferredType) {
    ProperType(t) && Subsumes(t, left) && Subsumes(t, right) && Depth(t) <= Max(Depth(left), Depth(right))
  }

  /** Some entry of the list is above `t`. */
  ghost predicate Covered(t: InferredType, list: seq<InferredType>) {
    exists i :: 0 <= i < |list| && Subsumes(list[i], t)
  }

  lemma CoverGrows(t: InferredType, before: seq<InferredType>, after: seq<InferredType>)
    requires Covered(t, before)
    requires |after| >= |before| && forall i :: 0 <= i < |before| ==> Subsumes(after[i], before[i])
    ensures Covered(t, after)
  {
    var i :| 0 <= i < |before| && Subsumes(before[i], t);
    SubsumesTransitive(after[i], before[i], t);
  }

  function FlattenUnionMembers(t: InferredType): seq<InferredType> {
    if t.UnionOf? then t.members else [t]
  }

  lemma PartsAreShallow(left: InferredType, right: InferredType)
    requires ProperType(left) && ProperType(right)
    ensures forall t :: t in FlattenUnionMembers(left) + FlattenUnionMembers(right) ==>
      ProperType(t) && !t.UnionOf? && Depth(t) <= Max(Depth(left), Depth(right))
  {
    forall t | t in FlattenUnionMembers(left) + FlattenUnionMembers(right)
      ensures ProperType(t) && !t.UnionOf? && Depth(t) <= Max(Depth(left), Depth(right))
    {
      if t in FlattenUnionMembers(left) {
        PartIsShallow(left, t);
      } else {
        PartIsShallow(right, t);
      }
    }
  }

  lemma PartIsShallow(whole: InferredType, t: InferredType)
    requires ProperType(whole) && t in FlattenUnionMembers(whole)
    ensures ProperType(t) && !t.UnionOf? && Depth(t) <= Depth(whole)
  {
    if whole.UnionOf? {
      var i :| 0 <= i < |whole.members| && whole.members[i] == t;
    }
  }

  lemma CoveredPartsBound(t: InferredType, members: seq<InferredType>)
    requires forall p :: p in FlattenUnionMembers(t) ==> Covered(p, members)
    ensures Subsumes(UnionOf(members), t)
  {
    forall v | Inhabits(v, t)
      ensures Inhabits(v, UnionOf(members))
    {
      var p := InhabitedPart(v, t);
      var i :| 0 <= i < |members| && Subsumes(members[i], p);
      assert Inhabits(v, members[i]);
    }
  }

  lemma InhabitedPart(v: Json, t: InferredType) returns (p: InferredType)
    requires Inhabits(v, t)
    ensures p in FlattenUnionMembers(t) && Inhabits(v, p)
  {
    if t.UnionOf? {
      var i :| 0 <= i < |t.members| && Inhabits(v, t.members[i]);
      p := t.members[i];
    } else {
      p := t;
      assert FlattenUnionMembers(t)[0] == t;
    }
  }

  /** What flattening the parts of both sides yields is an upper bound, as a union or as its only member. */
  lemma MembersBound(left: InferredType, right: InferredType, members: seq<InferredType>)
    requires forall i :: 0 <= i < |members| ==>
      ProperType(members[i]) && Depth(members[i]) <= Max(Depth(left), Depth(right))
    requires var parts := FlattenUnionMembers(left) + FlattenUnionMembers(right);
      forall i :: 0 <= i < |parts| ==> Covered(parts[i], members)
    ensures NormalUnion(members) ==> UpperBound(UnionOf(members), left, right)
    ensures |members| == 1 ==> UpperBound(members[0], left, right)
  {
    var parts := FlattenUnionMembers(left) + FlattenUnionMembers(right);
    assert forall p :: p in parts ==> Covered(p, members);
    assert forall p :: p in FlattenUnionMembers(left) ==> p in parts;
    assert forall p :: p in FlattenUnionMembers(right) ==> p in parts;
    CoveredPartsBound(left, members);
    CoveredPartsBound(right, members);
    MemberDepthAtMost(members, Max(Depth(left), Depth(right)));
    if |members| == 1 {
      assert Subsumes(members[0], UnionOf(members));
      SubsumesTransitive(members[0], UnionOf(members), left);
      SubsumesTransitive(members[0], UnionOf(members), right);
    }
  }

  /** An object may take the place of the one object there is. */
  lemma MergedStandsAlone(result: seq<InferredType>, i: nat, merged: InferredType)
    requires NoUnions(result) && Separate(result) && i < |result| && result[i].ObjectOf? && merged.ObjectOf?
    ensures NoUnions(result[i := merged]) && Separate(result[i := merged])
  {
    forall j | 0 <= j < |result| && j != i
      ensures !result[j].ObjectOf?
    {
      assert MayStandTogether(result[if i < j then i else j], result[if i < j then j else i]);
    }
    var after := result[i := merged];
    forall j, k | 0 <= j < k < |after|
      ensures MayStandTogether(after[j], after[k])
    {
      assert MayStandTogether(result[j], result[k]);
    }
  }

  predicate IsNull(t: InferredType) {
    t == Primitive(NullKind)
  }

  /** The stable sort that only moves `null` behind everything else. */
  function NullLast(members: seq<InferredType>): seq<InferredType> {
    Filter(members, t => !IsNull(t)) + Filter(members, t => IsNull(t))
  }

  lemma NullLastKeepsMembers(members: seq<InferredType>)
    ensures forall t :: t in NullLast(members) <==> t in members
    ensures forall t :: Covered(t, members) ==> Covered(t, NullLast(members))
  {
    forall t | Covered(t, members)
      ensures Covered(t, NullLast(members))
    {
      var i :| 0 <= i < |members| && Subsumes(members[i], t);
      assert members[i] in NullLast(members);
      var j :| 0 <= j < |NullLast(members)| && NullLast(members)[j] == members[i];
    }
  }

  lemma {:induction false} FilterKeepsSeparate(members: seq<InferredType>, p: InferredType -> bool)
    requires Separate(members)
    ensures Separate(Filter(members, p))
  {
    if members != [] {
      var front, last := members[..|members| - 1], members[|members| - 1];
      FilterKeepsSeparate(front, p);
      forall x | x in Filter(front, p)
        ensures MayStandTogether(x, last)
      {
        var i :| 0 <= i < |front| && front[i] == x;
        assert members[i] == x;
      }
    }
  }

  lemma {:induction false} AtMostOneNull(members: seq<InferredType>)
    requires Separate(members)
    ensures |Filter(members, t => IsNull(t))| <= 1
  {
    if members != [] {
      var front, last := members[..|members| - 1], members[|members| - 1];
      AtMostOneNull(front);
      if IsNull(last) {
        forall x | x in front
          ensures !IsNull(x)
        {
          var i :| 0 <= i < |front| && front[i] == x;
          assert MayStandTogether(members[i], last);
        }
        FilterNothing(front, t => IsNull(t));
      }
    }
  }

  /** Members that may stand together do so with `null` moved to the end. */
  lemma NullLastIsNormal(members: seq<InferredType>)
    requires NoUnions(members) && Separate(members)
    ensures NoUnions(NullLast(members)) && Separate(NullLast(members)) && NullIsLast(NullLast(members))
    ensures members != [] ==> NullLast(members) != []
  {
    FilterKeepsSeparate(members, t => !IsNull(t));
    AtMostOneNull(members);
    NullLastKeepsMembers(members);
    forall i | 0 <= i < |NullLast(members)|
      ensures !NullLast(members)[i].UnionOf?
    {
      assert NullLast(members)[i] in members;
    }
    var others, nulls := Filter(members, t => !IsNull(t)), Filter(members, t => IsNull(t));
    forall i, j | 0 <= i < |others| && 0 <= j < |nulls|
      ensures MayStandTogether(others[i], nulls[j])
    {
      assert others[i] in others && nulls[j] in nulls;
    }
    forall i | 0 <= i < |others|
      ensures !IsNull(others[i])
    {
      assert others[i] in others;
    }
    FilterKeepsSeparate(members, t => IsNull(t));
    if members != [] {
      assert members[0] in NullLast(members);
    }
  }

  lemma FoundIsProper(properties: seq<Property>, key: string)
    requires ProperProperties(properties) && FindProperty(properties, key).Some?
    ensures var p := FindProperty(properties, key).value;
      ProperType(p.ptype) && Depth(p.ptype) <= PropertyDepth(properties)
  {
    var p := FindProperty(properties, key).value;
    var i :| 0 <= i < |properties| && properties[i] == p;
  }

  lemma MergedIsUpperBound(left: InferredType, right: InferredType, properties: seq<Property>)
    requires left.ObjectOf? && right.ObjectOf? && ProperType(left) && ProperType(right)
    requires Keys(properties) == UnionKeys(left.properties, right.properties)
    requires forall i :: 0 <= i < |properties| ==> MergedProperty(left.properties, right.properties, properties[i])
    ensures ProperProperties(properties)
    ensures forall name :: UpperBound(ObjectOf(name, properties), left, right)
  {
    UnionKeysDistinct(left.properties, right.properties);
    MergedWidensLeft(left.properties, right.properties, properties);
    MergedWidensRight(left.properties, right.properties, properties);
    PropertyDepthAtMost(properties, Max(PropertyDepth(left.properties), PropertyDepth(right.properties)));
    forall name
      ensures UpperBound(ObjectOf(name, properties), left, right)
    {
      ObjectSubsumes(name, properties, left);
      ObjectSubsumes(name, properties, right);
    }
  }

  lemma ShapeIsUpperBound(left: InferredType, right: InferredType, properties: seq<Property>, existing: NamedObject)
    requires ProperProperties(properties) && ProperProperties(existing.properties)
    requires SamePropertyShape(existing.properties, properties)
    requires UpperBound(ObjectOf(existing.name, properties), left, right)
    ensures UpperBound(ObjectOf(existing.name, existing.properties), left, right)
  {
    var merged, t := ObjectOf(existing.name, properties), ObjectOf(existing.name, existing.properties);
    SameTypeSubsumes(t, merged);
    SubsumesTransitive(t, merged, left);
    SubsumesTransitive(t, merged, right);
    SameShapeSameDepth(existing.properties, properties);
  }

  ghost predicate InferredFor(f: Field, p: Property) {
    p.key == f.key && !p.optional && ProperType(p.ptype) && Inhabits(f.value, p.ptype)
  }

  lemma InferredPropertiesFit(fields: seq<Field>, properties: seq<Property>)
    requires Distinct(FieldKeys(fields)) && Keys(properties) == FieldKeys(fields) && |properties| == |fields|
    requires forall i :: 0 <= i < |fields| ==> InferredFor(fields[i], properties[i])
    ensures ProperProperties(properties) && InhabitsProperties(fields, properties)
  {
    forall i | 0 <= i < |fields|
      ensures FieldFits(fields[i], properties)
      ensures properties[i].key in FieldKeys(fields) && ProperType(properties[i].ptype)
    {
      assert InferredFor(fields[i], properties[i]);
      assert FieldKeys(fields)[i] == properties[i].key;
    }
  }
}
