/**
 * TypeScript types as a finite, possibly cyclic graph. The type checker is an oracle on
 * it: shapes, properties, index signatures, signatures and assignability are given.
 */
module TypeGraph {
  import opened Outcomes

  type TypeId = nat

  datatype ElementFlag = Required | Optional | Variable

  datatype Element = Element(typ: TypeId, flag: ElementFlag)

  datatype Shape =
    | Any
    | Unknown
    | Nullish
    | Primitive
    | TypeParameter(constraint: Option<TypeId>)
    | Union(parts: seq<TypeId>)
    | Intersection(parts: seq<TypeId>)
    | ArrayOf(element: TypeId)
    | TupleOf(elements: seq<Element>)
    | ObjectType

  /** `declared` is false for a property symbol without any declaration. */
  datatype Property = Property(name: string, typ: TypeId, declared: bool)

  datatype IndexInfo = IndexInfo(keyType: TypeId, typ: TypeId)

  /** `rest`: the last parameter was declared with `...`. */
  datatype Signature = Signature(parameters: seq<TypeId>, rest: bool)

  datatype TypeInfo = TypeInfo(
    shape: Shape,
    properties: seq<Property>,
    indexes: seq<IndexInfo>,
    numberIndex: Option<TypeId>,
    typeArguments: seq<TypeId>,
    calls: seq<Signature>,
    constructs: seq<Signature>)

  datatype Graph = Graph(
    types: seq<TypeInfo>,
    anyType: TypeId,
    unknownType: TypeId,
    assignable: (TypeId, TypeId) -> bool,
    stringKeyFits: (string, TypeId) -> bool,
    numberKeyFits: (string, TypeId) -> bool,
    isNumeric: string -> bool)
  {
    /** Every type the graph mentions is in it. */
    ghost predicate WellFormed() {
      && anyType < |types| && types[anyType].shape == Any
      && unknownType < |types| && types[unknownType].shape == Unknown
      && forall t | 0 <= t < |types| :: WellFormedType(types[t])
    }

    ghost predicate WellFormedType(info: TypeInfo) {
      && (match info.shape
          case TypeParameter(Some(c)) => c < |types|
          case Union(parts) => forall p | p in parts :: p < |types|
          case Intersection(parts) => forall p | p in parts :: p < |types|
          case ArrayOf(e) => e < |types|
          case TupleOf(elements) => forall e | e in elements :: e.typ < |types|
          case _ => true)
      && (forall p | p in info.properties :: p.typ < |types|)
      && (forall i | i in info.indexes :: i.keyType < |types| && i.typ < |types|)
      && (info.numberIndex.Some? ==> info.numberIndex.value < |types|)
      && (forall a | a in info.typeArguments :: a < |types|)
      && (forall s | s in info.calls + info.constructs :: WellFormedSignature(s))
    }

    ghost predicate WellFormedSignature(s: Signature) {
      && (forall p | p in s.parameters :: p < |types|)
      && (s.rest ==> s.parameters != [])
    }

    predicate Has(t: TypeId) {
      t < |types|
    }

    function Shape(t: TypeId): Shape
      requires Has(t)
    {
      types[t].shape
    }

    /** The members of a union, or the type itself, without null, undefined and void. */
    function WithoutNullish(t: TypeId): (members: seq<TypeId>)
      requires Has(t)
      ensures forall m :: m in members <==> m in Members(t) && !IsNullish(m)
    {
      NonNullish(Members(t))
    }

    function Members(t: TypeId): seq<TypeId>
      requires Has(t)
    {
      if Shape(t).Union? then Shape(t).parts else [t]
    }

    predicate IsNullish(t: TypeId) {
      Has(t) && Shape(t).Nullish?
    }

    function NonNullish(ts: seq<TypeId>): (kept: seq<TypeId>)
      ensures forall m :: m in kept <==> m in ts && !IsNullish(m)
    {
      if ts == [] then []
      else if IsNullish(ts[0]) then NonNullish(ts[1..]) else [ts[0]] + NonNullish(ts[1..])
    }

    predicate IsAnyType(t: TypeId)
      requires Has(t)
    {
      exists m | m in WithoutNullish(t) :: Has(m) && Shape(m).Any?
    }

    // ---------- Arrays and tuples ----------

    /** Element types of an array or tuple, none for anything else. */
    function ElementTypes(t: TypeId): Option<seq<TypeId>>
      requires Has(t)
    {
      match Shape(t)
      case ArrayOf(e) => Some([e])
      case TupleOf(elements) => Some(TypesOf(elements))
      case _ => None
    }

    static function TypesOf(elements: seq<Element>): (ts: seq<TypeId>)
      ensures |ts| == |elements| && forall i | 0 <= i < |ts| :: ts[i] == elements[i].typ
    {
      seq(|elements|, i requires 0 <= i < |elements| => elements[i].typ)
    }

    /** Elements before the first variable one. */
    static function PrefixLength(elements: seq<Element>): (n: nat)
      ensures n <= |elements|
      ensures forall i | 0 <= i < n :: !elements[i].flag.Variable?
      ensures n < |elements| ==> elements[n].flag.Variable?
    {
      if elements == [] || elements[0].flag.Variable? then 0 else 1 + PrefixLength(elements[1..])
    }

    /** How many leading elements of a tuple sit at a known position. */
    function FixedPrefixLength(t: TypeId): (n: nat)
      requires Has(t)
      ensures ElementTypes(t).Some? ==> n <= |ElementTypes(t).value|
      ensures ElementTypes(t).None? ==> n == 0
    {
      if Shape(t).TupleOf? then PrefixLength(Shape(t).elements) else 0
    }

    /** The element types that may sit at `index` of an array or tuple. */
    function ElementCandidates(t: TypeId, index: nat): (ts: seq<TypeId>)
      requires Has(t)
    {
      match ElementTypes(t)
      case None => []
      case Some(elements) =>
        if !Shape(t).TupleOf? then elements[..1]
        else
          var prefix := FixedPrefixLength(t);
          if index < prefix then [elements[index]] else elements[prefix..]
    }

    // ---------- Properties and index signatures ----------

    static function FindProperty(properties: seq<Property>, name: string): (found: Option<Property>)
      ensures found.Some? ==> found.value in properties && found.value.name == name
      ensures found.None? <==> forall p | p in properties :: p.name != name
    {
      if properties == [] then None
      else if properties[0].name == name then Some(properties[0]) else FindProperty(properties[1..], name)
    }

    predicate HasProperty(t: TypeId, name: string)
      requires Has(t)
    {
      FindProperty(types[t].properties, name).Some?
    }

    static function IndexTypes(indexes: seq<IndexInfo>, fits: TypeId -> bool): (ts: seq<TypeId>)
      ensures forall x :: x in ts <==> exists i | i in indexes :: fits(i.keyType) && i.typ == x
    {
      if indexes == [] then []
      else
        var rest := IndexTypes(indexes[1..], fits);
        if fits(indexes[0].keyType) then [indexes[0].typ] + rest else rest
    }

    /** Index signatures of `target` whose key type admits a property called `name`. */
    function IndexTypesFor(target: TypeId, name: string): seq<TypeId>
      requires Has(target)
    {
      IndexTypes(types[target].indexes,
                 (key: TypeId) => stringKeyFits(name, key) || (isNumeric(name) && numberKeyFits(name, key)))
    }

    /** The declared slot for a property, or else the index signatures that admit it. */
    function SlotsFor(target: TypeId, name: string): seq<TypeId>
      requires Has(target)
    {
      match FindProperty(types[target].properties, name)
      case Some(p) => [p.typ]
      case None => IndexTypesFor(target, name)
    }

    lemma WellFormedMembers(t: TypeId)
      requires WellFormed() && Has(t)
      ensures forall m | m in WithoutNullish(t) :: Has(m)
      ensures forall m | m in Members(t) :: Has(m)
    {
      assert WellFormedType(types[t]);
    }

    lemma WellFormedElements(t: TypeId)
      requires WellFormed() && Has(t)
      ensures ElementTypes(t).Some? ==> forall e | e in ElementTypes(t).value :: Has(e)
      ensures forall index: nat, e | e in ElementCandidates(t, index) :: Has(e)
    {
      assert WellFormedType(types[t]);
    }

    lemma WellFormedSlots(t: TypeId, name: string)
      requires WellFormed() && Has(t)
      ensures forall s | s in SlotsFor(t, name) :: Has(s)
      ensures forall p | p in types[t].properties :: Has(p.typ)
      ensures forall i | i in types[t].indexes :: Has(i.typ)
    {
      assert WellFormedType(types[t]);
    }
  }
}
