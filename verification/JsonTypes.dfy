/** JSON values, the structural types inferred for them, and when a value inhabits a type. */
module JsonTypes {
  import opened Sequences
  import opened Wrappers

  datatype Json =
    | JNull
    | JBool(flag: bool)
    | JNumber(number: real)
    | JString(text: string)
    | JArray(items: seq<Json>)
    | JObject(fields: seq<Field>)

  datatype Field = Field(key: string, value: Json)

  datatype PrimitiveKind = StringKind | NumberKind | BooleanKind | NullKind | UnknownKind

  datatype InferredType =
    | Primitive(kind: PrimitiveKind)
    | ArrayOf(element: InferredType)
    | ObjectOf(name: string, properties: seq<Property>)
    | UnionOf(members: seq<InferredType>)

  datatype Property = Property(key: string, ptype: InferredType, optional: bool)

  function Keys(properties: seq<Property>): seq<string> {
    seq(|properties|, i requires 0 <= i < |properties| => properties[i].key)
  }

  function FieldKeys(fields: seq<Field>): seq<string> {
    seq(|fields|, i requires 0 <= i < |fields| => fields[i].key)
  }

  /** No object lists a key twice, at any depth. */
  ghost predicate ProperJson(v: Json) {
    match v
    case JArray(items) => forall i :: 0 <= i < |items| ==> ProperJson(items[i])
    case JObject(fields) => Distinct(FieldKeys(fields)) && forall i :: 0 <= i < |fields| ==> ProperJson(fields[i].value)
    case _ => true
  }

  /** No object type lists a key twice and every union is in normal form, at any depth. */
  ghost predicate ProperType(t: InferredType) {
    match t
    case Primitive(_) => true
    case ArrayOf(element) => ProperType(element)
    case ObjectOf(_, properties) => ProperProperties(properties)
    case UnionOf(members) => NormalUnion(members) && forall i :: 0 <= i < |members| ==> ProperType(members[i])
  }

  /** At least two alternatives, none a union, at most one an object, no two the same, and `null` last. */
  ghost predicate NormalUnion(members: seq<InferredType>) {
    |members| >= 2 && NoUnions(members) && Separate(members) && NullIsLast(members)
  }

  predicate NoUnions(members: seq<InferredType>) {
    forall i :: 0 <= i < |members| ==> !members[i].UnionOf?
  }

  predicate NullIsLast(members: seq<InferredType>) {
    forall i :: 0 <= i < |members| - 1 ==> members[i] != Primitive(NullKind)
  }

  predicate Separate(members: seq<InferredType>) {
    forall i, j :: 0 <= i < j < |members| ==> MayStandTogether(members[i], members[j])
  }

  predicate MayStandTogether(a: InferredType, b: InferredType) {
    !(a.ObjectOf? && b.ObjectOf?) && !SameType(a, b)
  }

  ghost predicate ProperProperties(properties: seq<Property>) {
    Distinct(Keys(properties)) && forall i :: 0 <= i < |properties| ==> ProperType(properties[i].ptype)
  }

  /** Membership in a type; object types are closed records whose optional keys may be absent. */
  ghost predicate Inhabits(v: Json, t: InferredType)
    decreases t
  {
    match t
    case Primitive(kind) =>
      (match kind
       case StringKind => v.JString?
       case NumberKind => v.JNumber?
       case BooleanKind => v.JBool?
       case NullKind => v.JNull?
       case UnknownKind => true)
    case ArrayOf(element) => v.JArray? && forall i :: 0 <= i < |v.items| ==> Inhabits(v.items[i], element)
    case ObjectOf(_, properties) => v.JObject? && InhabitsProperties(v.fields, properties)
    case UnionOf(members) => exists i :: 0 <= i < |members| && Inhabits(v, members[i])
  }

  ghost predicate InhabitsProperties(fields: seq<Field>, properties: seq<Property>)
    decreases properties
  {
    && (forall i :: 0 <= i < |fields| ==> FieldFits(fields[i], properties))
    && (forall p :: 0 <= p < |properties| ==> properties[p].optional || properties[p].key in FieldKeys(fields))
  }

  ghost predicate FieldFits(f: Field, properties: seq<Property>)
    decreases properties, 0
  {
    exists p :: 0 <= p < |properties| && properties[p].key == f.key && Inhabits(f.value, properties[p].ptype)
  }

  /** Every inhabitant of `t` inhabits `u`. */
  ghost predicate Subsumes(u: InferredType, t: InferredType) {
    forall v :: Inhabits(v, t) ==> Inhabits(v, u)
  }

  function FindProperty(properties: seq<Property>, key: string): (r: Option<Property>)
    ensures r.Some? <==> key in Keys(properties)
    ensures r.Some? ==> r.value in properties && r.value.key == key
  {
    if properties == [] then None
    else if properties[0].key == key then
      assert Keys(properties)[0] == key;
      Some(properties[0])
    else
      assert Keys(properties) == [properties[0].key] + Keys(properties[1..]);
      FindProperty(properties[1..], key)
  }

  // ---- Structural equality, which ignores names ----

  predicate SameType(left: InferredType, right: InferredType)
    decreases left
  {
    match left
    case Primitive(kind) => right.Primitive? && kind == right.kind
    case ArrayOf(element) => right.ArrayOf? && SameType(element, right.element)
    case ObjectOf(_, properties) => right.ObjectOf? && SamePropertyShape(properties, right.properties)
    case UnionOf(members) =>
      && right.UnionOf? && |members| == |right.members|
      && forall i :: 0 <= i < |members| ==> SameType(members[i], right.members[i])
  }

  predicate SamePropertyShape(left: seq<Property>, right: seq<Property>)
    decreases left
  {
    |left| == |right| && forall i :: 0 <= i < |left| ==> SameProperty(left[i], FindProperty(right, left[i].key))
  }

  predicate SameProperty(left: Property, right: Option<Property>)
    decreases left
  {
    right.Some? && left.optional == right.value.optional && SameType(left.ptype, right.value.ptype)
  }

  lemma {:induction false} FindIsUnique(properties: seq<Property>, p: nat)
    requires Distinct(Keys(properties)) && p < |properties|
    ensures FindProperty(properties, properties[p].key) == Some(properties[p])
  {
    assert Keys(properties)[p] == properties[p].key;
    var r := FindProperty(properties, properties[p].key).value;
    var q :| 0 <= q < |properties| && properties[q] == r;
    assert Keys(properties)[q] == r.key;
  }

  /** Two shapes of one size with distinct keys have the same keys. */
  lemma SameShapeSameKeys(left: seq<Property>, right: seq<Property>)
    requires Distinct(Keys(left)) && Distinct(Keys(right))
    requires SamePropertyShape(left, right)
    ensures Elements(Keys(left)) == Elements(Keys(right))
  {
    forall k | k in Keys(left)
      ensures k in Keys(right)
    {
      var i :| 0 <= i < |left| && Keys(left)[i] == k;
      assert SameProperty(left[i], FindProperty(right, left[i].key));
    }
    DistinctCardinality(Keys(left));
    DistinctCardinality(Keys(right));
    SubsetCardinality(Elements(Keys(left)), Elements(Keys(right)));
  }

  /** The left of two types equal in structure has every value of the right. */
  lemma {:induction false} SameTypeIncludes(left: InferredType, right: InferredType, v: Json)
    requires ProperType(left) && ProperType(right) && SameType(left, right) && Inhabits(v, right)
    ensures Inhabits(v, left)
    decreases left
  {
    match left
    case Primitive(_) =>
    case ArrayOf(element) =>
      forall i | 0 <= i < |v.items|
        ensures Inhabits(v.items[i], element)
      {
        SameTypeIncludes(element, right.element, v.items[i]);
      }
    case ObjectOf(_, properties) =>
      SameShapeIncludes(properties, right.properties, v.fields);
    case UnionOf(members) =>
      var i :| 0 <= i < |members| && Inhabits(v, right.members[i]);
      SameTypeIncludes(members[i], right.members[i], v);
  }

  lemma {:induction false} SameShapeIncludes(left: seq<Property>, right: seq<Property>, fields: seq<Field>)
    requires ProperProperties(left) && ProperProperties(right)
    requires SamePropertyShape(left, right) && InhabitsProperties(fields, right)
    ensures InhabitsProperties(fields, left)
    decreases left
  {
    SameShapeSameKeys(left, right);
    forall i | 0 <= i < |fields|
      ensures FieldFits(fields[i], left)
    {
      assert FieldFits(fields[i], right);
      var p :| 0 <= p < |right| && right[p].key == fields[i].key && Inhabits(fields[i].value, right[p].ptype);
      assert Keys(right)[p] in Elements(Keys(left));
      var q :| 0 <= q < |left| && Keys(left)[q] == Keys(right)[p];
      FindIsUnique(right, p);
      assert SameProperty(left[q], FindProperty(right, left[q].key));
      SameTypeIncludes(left[q].ptype, right[p].ptype, fields[i].value);
    }
    forall q | 0 <= q < |left|
      ensures left[q].optional || left[q].key in FieldKeys(fields)
    {
      assert SameProperty(left[q], FindProperty(right, left[q].key));
      var r := FindProperty(right, left[q].key).value;
      var p :| 0 <= p < |right| && right[p] == r;
      assert right[p].optional || right[p].key in FieldKeys(fields);
    }
  }

  lemma {:induction false} SameTypeIsSymmetric(left: InferredType, right: InferredType)
    requires ProperType(left) && ProperType(right) && SameType(left, right)
    ensures SameType(right, left)
    decreases left
  {
    match left
    case Primitive(_) =>
    case ArrayOf(element) => SameTypeIsSymmetric(element, right.element);
    case ObjectOf(_, properties) => SameShapeIsSymmetric(properties, right.properties);
    case UnionOf(members) =>
      forall i | 0 <= i < |members|
        ensures SameType(right.members[i], members[i])
      {
        SameTypeIsSymmetric(members[i], right.members[i]);
      }
  }

  lemma {:induction false} SameShapeIsSymmetric(left: seq<Property>, right: seq<Property>)
    requires ProperProperties(left) && ProperProperties(right) && SamePropertyShape(left, right)
    ensures SamePropertyShape(right, left)
    decreases left
  {
    SameShapeSameKeys(left, right);
    forall p | 0 <= p < |right|
      ensures SameProperty(right[p], FindProperty(left, right[p].key))
    {
      assert Keys(right)[p] in Elements(Keys(left));
      var q :| 0 <= q < |left| && Keys(left)[q] == Keys(right)[p];
      FindIsUnique(left, q);
      FindIsUnique(right, p);
      assert SameProperty(left[q], FindProperty(right, left[q].key));
      SameTypeIsSymmetric(left[q].ptype, right[p].ptype);
    }
  }

  /** Types equal in structure have the same values, whichever of them is on the left. */
  lemma SameTypeSameValues(left: InferredType, right: InferredType, v: Json)
    requires ProperType(left) && ProperType(right) && SameType(left, right)
    ensures SameType(right, left)
    ensures Inhabits(v, left) <==> Inhabits(v, right)
  {
    SameTypeIsSymmetric(left, right);
    if Inhabits(v, left) {
      SameTypeIncludes(right, left, v);
    }
    if Inhabits(v, right) {
      SameTypeIncludes(left, right, v);
    }
  }

  /** Every proper type is the same as itself. */
  lemma {:induction false} SameTypeIsReflexive(t: InferredType)
    requires ProperType(t)
    ensures SameType(t, t)
    decreases t
  {
    match t
    case Primitive(_) =>
    case ArrayOf(element) => SameTypeIsReflexive(element);
    case ObjectOf(_, properties) => ReorderedIsSame(properties, properties);
    case UnionOf(members) =>
      forall i | 0 <= i < |members|
        ensures SameType(members[i], members[i])
      {
        SameTypeIsReflexive(members[i]);
      }
  }

  /** Objects that list the same properties, in whatever order and under whatever names, are the same. */
  lemma {:induction false} ReorderedIsSame(left: seq<Property>, right: seq<Property>)
    requires ProperProperties(left) && ProperProperties(right) && |left| == |right|
    requires forall p :: p in left ==> p in right
    ensures SamePropertyShape(left, right)
    decreases left
  {
    forall i | 0 <= i < |left|
      ensures SameProperty(left[i], FindProperty(right, left[i].key))
    {
      assert left[i] in right;
      var j :| 0 <= j < |right| && right[j] == left[i];
      FindIsUnique(right, j);
      SameTypeIsReflexive(left[i].ptype);
    }
  }

  lemma {:induction false} SameTypeIsTransitive(a: InferredType, b: InferredType, c: InferredType)
    requires ProperType(b) && ProperType(c) && SameType(a, b) && SameType(b, c)
    ensures SameType(a, c)
    decreases a
  {
    match a
    case Primitive(_) =>
    case ArrayOf(element) => SameTypeIsTransitive(element, b.element, c.element);
    case ObjectOf(_, properties) => SameShapeIsTransitive(properties, b.properties, c.properties);
    case UnionOf(members) =>
      forall i | 0 <= i < |members|
        ensures SameType(members[i], c.members[i])
      {
        SameTypeIsTransitive(members[i], b.members[i], c.members[i]);
      }
  }

  lemma {:induction false} SameShapeIsTransitive(a: seq<Property>, b: seq<Property>, c: seq<Property>)
    requires ProperProperties(b) && ProperProperties(c) && SamePropertyShape(a, b) && SamePropertyShape(b, c)
    ensures SamePropertyShape(a, c)
    decreases a
  {
    forall i | 0 <= i < |a|
      ensures SameProperty(a[i], FindProperty(c, a[i].key))
    {
      assert SameProperty(a[i], FindProperty(b, a[i].key));
      var p := FindProperty(b, a[i].key).value;
      var j :| 0 <= j < |b| && b[j] == p;
      assert SameProperty(b[j], FindProperty(c, b[j].key));
      var q := FindProperty(c, b[j].key).value;
      var k :| 0 <= k < |c| && c[k] == q;
      SameTypeIsTransitive(a[i].ptype, b[j].ptype, c[k].ptype);
    }
  }

  // ---- Nesting depth, on which merging recurses ----

  function Depth(t: InferredType): nat {
    match t
    case Primitive(_) => 0
    case ArrayOf(element) => 1 + Depth(element)
    case ObjectOf(_, properties) => 1 + PropertyDepth(properties)
    case UnionOf(members) => MemberDepth(members)
  }

  function PropertyDepth(properties: seq<Property>): (d: nat)
    ensures forall i :: 0 <= i < |properties| ==> Depth(properties[i].ptype) <= d
  {
    if properties == [] then 0
    else Max(Depth(properties[0].ptype), PropertyDepth(properties[1..]))
  }

  /** A union is as deep as its deepest member. */
  function MemberDepth(members: seq<InferredType>): (d: nat)
    ensures forall i :: 0 <= i < |members| ==> Depth(members[i]) <= d
  {
    if members == [] then 0
    else Max(Depth(members[0]), MemberDepth(members[1..]))
  }

  function Max(a: nat, b: nat): nat {
    if a < b then b else a
  }

  lemma {:induction false} PropertyDepthAtMost(properties: seq<Property>, d: nat)
    requires forall i :: 0 <= i < |properties| ==> Depth(properties[i].ptype) <= d
    ensures PropertyDepth(properties) <= d
  {
    if properties != [] {
      PropertyDepthAtMost(properties[1..], d);
    }
  }

  lemma {:induction false} MemberDepthAtMost(members: seq<InferredType>, d: nat)
    requires forall i :: 0 <= i < |members| ==> Depth(members[i]) <= d
    ensures MemberDepth(members) <= d
  {
    if members != [] {
      MemberDepthAtMost(members[1..], d);
    }
  }

  lemma {:induction false} SameTypeSameDepth(left: InferredType, right: InferredType)
    requires SameType(left, right)
    ensures Depth(left) <= Depth(right)
    decreases left
  {
    match left
    case Primitive(_) =>
    case ArrayOf(element) => SameTypeSameDepth(element, right.element);
    case ObjectOf(_, properties) => SameShapeSameDepth(properties, right.properties);
    case UnionOf(members) =>
      forall i | 0 <= i < |members|
        ensures Depth(members[i]) <= MemberDepth(right.members)
      {
        SameTypeSameDepth(members[i], right.members[i]);
      }
      MemberDepthAtMost(members, MemberDepth(right.members));
  }

  lemma {:induction false} SameShapeSameDepth(left: seq<Property>, right: seq<Property>)
    requires SamePropertyShape(left, right)
    ensures PropertyDepth(left) <= PropertyDepth(right)
    decreases left
  {
    forall i | 0 <= i < |left|
      ensures Depth(left[i].ptype) <= PropertyDepth(right)
    {
      assert SameProperty(left[i], FindProperty(right, left[i].key));
      var r := FindProperty(right, left[i].key).value;
      var p :| 0 <= p < |right| && right[p] == r;
      SameTypeSameDepth(left[i].ptype, right[p].ptype);
    }
    PropertyDepthAtMost(left, PropertyDepth(right));
  }

  // ---- Precision: a tight type contains nothing its samples do not exhibit ----

  ghost function ItemsOf(samples: iset<Json>): iset<Json> {
    iset x | IsItem(samples, x)
  }

  ghost predicate IsItem(samples: iset<Json>, x: Json) {
    exists v :: v in samples && v.JArray? && x in v.items
  }

  ghost function ValuesAt(samples: iset<Json>, key: string): iset<Json> {
    iset x | IsValueAt(samples, key, x)
  }

  ghost predicate IsValueAt(samples: iset<Json>, key: string, x: Json) {
    exists v :: v in samples && v.JObject? && Field(key, x) in v.fields
  }

  ghost predicate HasEmptyArray(samples: iset<Json>) {
    JArray([]) in samples
  }

  ghost predicate HasArray(samples: iset<Json>) {
    exists v :: v in samples && v.JArray?
  }

  /** Some sampled object has no key beyond those listed. */
  ghost predicate HasObjectWithin(samples: iset<Json>, keys: seq<string>) {
    exists v :: v in samples && v.JObject? && forall k :: k in FieldKeys(v.fields) ==> k in keys
  }

  ghost predicate HasObjectWithout(samples: iset<Json>, key: string) {
    exists v :: v in samples && v.JObject? && key !in FieldKeys(v.fields)
  }

  ghost predicate HasKind(samples: iset<Json>, kind: PrimitiveKind) {
    exists v :: v in samples && Inhabits(v, Primitive(kind))
  }

  /**
   Every part of `t` is exhibited by a sample. `unknown` is tight only where an empty array left the element
   open (`open`) or where the depth limit was used up (`room` below zero).
   */
  ghost predicate Tight(t: InferredType, samples: iset<Json>, open: bool, room: int)
    decreases t
  {
    match t
    case Primitive(kind) => if kind == UnknownKind then open || room < 0 else HasKind(samples, kind)
    case ArrayOf(element) => HasArray(samples) && Tight(element, ItemsOf(samples), HasEmptyArray(samples), room - 1)
    case ObjectOf(_, properties) =>
      HasObjectWithin(samples, Keys(properties)) && TightProperties(properties, samples, room)
    case UnionOf(members) => forall i :: 0 <= i < |members| ==> Tight(members[i], samples, open, room)
  }

  ghost predicate TightProperties(properties: seq<Property>, samples: iset<Json>, room: int)
    decreases properties
  {
    forall i :: 0 <= i < |properties| ==> TightProperty(properties[i], samples, room)
  }

  /** The key occurs, its type is tight for what occurs under it, and it is optional only if some object lacks it. */
  ghost predicate TightProperty(p: Property, samples: iset<Json>, room: int)
    decreases p
  {
    && ValuesAt(samples, p.key) != iset{}
    && Tight(p.ptype, ValuesAt(samples, p.key), false, room - 1)
    && (p.optional ==> HasObjectWithout(samples, p.key))
  }

  lemma {:induction false} TightGrows(t: InferredType, a: iset<Json>, b: iset<Json>, open: bool, open': bool, room: int)
    requires a <= b && (open ==> open')
    requires Tight(t, a, open, room)
    ensures Tight(t, b, open', room)
    decreases t
  {
    match t
    case Primitive(_) =>
    case ArrayOf(element) =>
      TightGrows(element, ItemsOf(a), ItemsOf(b), HasEmptyArray(a), HasEmptyArray(b), room - 1);
    case ObjectOf(_, properties) =>
      forall i | 0 <= i < |properties|
        ensures TightProperty(properties[i], b, room)
      {
        var p := properties[i];
        assert TightProperty(p, a, room);
        assert ValuesAt(a, p.key) <= ValuesAt(b, p.key);
        TightGrows(p.ptype, ValuesAt(a, p.key), ValuesAt(b, p.key), false, false, room - 1);
      }
    case UnionOf(members) =>
      forall i | 0 <= i < |members|
        ensures Tight(members[i], b, open', room)
      {
        TightGrows(members[i], a, b, open, open', room);
      }
  }

  lemma {:induction false} SameTypeTight(
      left: InferredType, right: InferredType, samples: iset<Json>, open: bool, room: int)
    requires ProperType(left) && ProperType(right) && SameType(left, right)
    requires Tight(right, samples, open, room)
    ensures Tight(left, samples, open, room)
    decreases left
  {
    match left
    case Primitive(_) =>
    case ArrayOf(element) =>
      SameTypeTight(element, right.element, ItemsOf(samples), HasEmptyArray(samples), room - 1);
    case ObjectOf(_, properties) =>
      SameShapeSameKeys(properties, right.properties);
      assert forall k :: k in Keys(properties) <==> k in Elements(Keys(right.properties));
      SameShapeTight(properties, right.properties, samples, room);
    case UnionOf(members) =>
      forall i | 0 <= i < |members|
        ensures Tight(members[i], samples, open, room)
      {
        SameTypeTight(members[i], right.members[i], samples, open, room);
      }
  }

  lemma {:induction false} SameShapeTight(left: seq<Property>, right: seq<Property>, samples: iset<Json>, room: int)
    requires ProperProperties(left) && ProperProperties(right) && SamePropertyShape(left, right)
    requires TightProperties(right, samples, room)
    ensures TightProperties(left, samples, room)
    decreases left
  {
    forall i | 0 <= i < |left|
      ensures TightProperty(left[i], samples, room)
    {
      assert SameProperty(left[i], FindProperty(right, left[i].key));
      var r := FindProperty(right, left[i].key).value;
      var p :| 0 <= p < |right| && right[p] == r;
      assert TightProperty(right[p], samples, room);
      SameTypeTight(left[i].ptype, right[p].ptype, ValuesAt(samples, left[i].key), false, room - 1);
    }
  }
}
