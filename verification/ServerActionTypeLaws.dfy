/**
 * What the two type searches of `scripts/server-action-types.ts` answer, one step at a time:
 * over members, properties, index signatures and run-time lists, without the slots and edges
 * the searches compute.
 */
module ServerActionTypeLaws {
  import opened Outcomes
  import opened Search
  import opened TypeGraph
  import opened TupleLists
  import opened ServerActionTypes

  // ---------- What a type says by itself ----------

  ghost predicate Mentions(g: Graph, t: TypeId, name: string)
    requires g.Has(t)
  {
    exists k :: 0 <= k < |g.types[t].properties| && g.types[t].properties[k].name == name
  }

  /** A member of `t` that is not null, undefined or void. */
  ghost predicate RealMember(g: Graph, t: TypeId, m: TypeId)
    requires g.Has(t)
  {
    && (if g.types[t].shape.Union? then m in g.types[t].shape.parts else m == t)
    && g.Has(m) && !g.types[m].shape.Nullish?
  }

  /** A function without properties: values of it cannot come from the browser. */
  ghost predicate IsCallback(g: Graph, t: TypeId)
    requires g.Has(t)
  {
    |g.types[t].calls| > 0 && |g.types[t].properties| == 0
  }

  lemma MentionsIsHasProperty(g: Graph, t: TypeId, name: string)
    requires g.Has(t)
    ensures g.HasProperty(t, name) <==> Mentions(g, t, name)
  {
    if Mentions(g, t, name) {
      var k :| 0 <= k < |g.types[t].properties| && g.types[t].properties[k].name == name;
      assert g.types[t].properties[k] in g.types[t].properties;
    }
  }

  ghost predicate LooksTrusted(g: Graph, t: TypeId)
    requires g.Has(t)
  {
    || Mentions(g, t, "organizationId") || Mentions(g, t, "orgRole") || Mentions(g, t, "isPlatformAdmin")
    || Mentions(g, t, "orgId")
    || (Mentions(g, t, "select") && Mentions(g, t, "insert") && Mentions(g, t, "execute"))
    || (Mentions(g, t, "query") && Mentions(g, t, "release"))
  }

  /** An object is trusted by its own members exactly when it names a context or tenant id, or a whole handle. */
  lemma TrustedShapeIff(g: Graph, t: TypeId)
    requires g.Has(t)
    ensures IsTrustedShape(g, t)
            <==> g.types[t].shape.ObjectType? && !IsCallback(g, t) && LooksTrusted(g, t)
  {
    forall name
      ensures g.HasProperty(t, name) <==> Mentions(g, t, name)
    {
      MentionsIsHasProperty(g, t, name);
    }
    NamesOfThree(g, t, "organizationId", "orgRole", "isPlatformAdmin");
    NamesOfThree(g, t, "select", "insert", "execute");
    NamesOfTwo(g, t, "query", "release");
    TenantNames(g, t);
  }

  lemma NamesOfThree(g: Graph, t: TypeId, a: string, b: string, c: string)
    requires g.Has(t)
    ensures HasAny(g, t, [a, b, c]) <==> g.HasProperty(t, a) || g.HasProperty(t, b) || g.HasProperty(t, c)
    ensures HasAll(g, t, [a, b, c]) <==> g.HasProperty(t, a) && g.HasProperty(t, b) && g.HasProperty(t, c)
  {
    var names := [a, b, c];
    assert names[0] == a && names[1] == b && names[2] == c;
  }

  lemma NamesOfTwo(g: Graph, t: TypeId, a: string, b: string)
    requires g.Has(t)
    ensures HasAll(g, t, [a, b]) <==> g.HasProperty(t, a) && g.HasProperty(t, b)
  {
    var names := [a, b];
    assert names[0] == a && names[1] == b;
  }

  lemma TenantNames(g: Graph, t: TypeId)
    requires g.Has(t)
    ensures (exists p | p in g.types[t].properties :: p.name in TENANT_ID_NAMES)
            <==> Mentions(g, t, "organizationId") || Mentions(g, t, "orgId")
  {
    if p :| p in g.types[t].properties && p.name in TENANT_ID_NAMES {
      var k :| 0 <= k < |g.types[t].properties| && g.types[t].properties[k] == p;
      assert Mentions(g, t, p.name);
    }
    forall name | name in TENANT_ID_NAMES && Mentions(g, t, name)
      ensures exists p | p in g.types[t].properties :: p.name in TENANT_ID_NAMES
    {
      var k :| 0 <= k < |g.types[t].properties| && g.types[t].properties[k].name == name;
      assert g.types[t].properties[k] in g.types[t].properties;
    }
    assert "organizationId" in TENANT_ID_NAMES && "orgId" in TENANT_ID_NAMES;
  }

  // ---------- Types a value carries ----------

  /** A value of type `t` is, or holds, a value of type `inner`. */
  ghost predicate Holds(g: Graph, t: TypeId, inner: TypeId)
    requires g.Has(t)
  {
    match g.types[t].shape
    case TypeParameter(constraint) => constraint.Some? && inner == constraint.value && inner != t
    case Union(parts) => inner in parts
    case Intersection(parts) => inner in parts
    case ArrayOf(e) => !IsCallback(g, t) && inner == e
    case TupleOf(elements) => !IsCallback(g, t) && exists k :: 0 <= k < |elements| && elements[k].typ == inner
    case ObjectType =>
      && !IsCallback(g, t)
      && (|| (exists p :: p in g.types[t].properties && p.declared && p.typ == inner)
          || (exists i :: i in g.types[t].indexes && i.typ == inner))
    case _ => false
  }

  lemma MembersAreReal(g: Graph, t: TypeId, m: TypeId)
    requires g.WellFormed() && g.Has(t)
    ensures m in g.WithoutNullish(t) <==> RealMember(g, t, m)
  {
    g.WellFormedMembers(t);
  }

  /** `m` is a real member of something a value of type `t` holds. */
  ghost predicate HoldsMember(g: Graph, t: TypeId, m: TypeId)
    requires g.Has(t)
  {
    exists inner :: Holds(g, t, inner) && g.Has(inner) && RealMember(g, inner, m)
  }

  lemma CarriedOneIff(g: Graph, inner: TypeId, m: TypeId)
    requires g.WellFormed() && g.Has(inner)
    ensures CarriedBy(g, [inner], m) <==> RealMember(g, inner, m)
  {
    MembersAreReal(g, inner, m);
    assert [inner][0] == inner;
  }

  /** A search goes on from a type to the real members of what it holds, and to each part of a union or intersection. */
  lemma CarriesIff(g: Graph, t: TypeId, m: TypeId)
    requires g.WellFormed() && g.Has(t)
    ensures Carries(g, t, m)
            <==> if g.types[t].shape.Union? || g.types[t].shape.Intersection? then Holds(g, t, m) else HoldsMember(g, t, m)
  {
    hide RealMember, CarriedBy;
    assert g.WellFormedType(g.types[t]);
    match g.types[t].shape
    case TypeParameter(constraint) =>
      if constraint.Some? {
        MembersAreReal(g, constraint.value, m);
        assert HoldsMember(g, t, m) <==> Holds(g, t, constraint.value) && RealMember(g, constraint.value, m);
      }
    case ArrayOf(e) =>
      CarriedOneIff(g, e, m);
      assert HoldsMember(g, t, m) <==> Holds(g, t, e) && RealMember(g, e, m);
    case TupleOf(elements) => TupleCarriesIff(g, t, m);
    case ObjectType => ObjectCarriesIff(g, t, m);
    case _ =>
  }

  lemma TupleCarriesIff(g: Graph, t: TypeId, m: TypeId)
    requires g.WellFormed() && g.Has(t) && g.types[t].shape.TupleOf?
    ensures Carries(g, t, m) <==> HoldsMember(g, t, m)
  {
    hide RealMember, CarriedBy;
    assert g.WellFormedType(g.types[t]);
    var elements := g.types[t].shape.elements;
    var ts := Graph.TypesOf(elements);
    CarriedIff(g, ts, m);
    if Carries(g, t, m) {
      var k :| 0 <= k < |ts| && g.Has(ts[k]) && RealMember(g, ts[k], m);
      assert elements[k].typ == ts[k] && Holds(g, t, ts[k]);
    }
    if HoldsMember(g, t, m) {
      var inner :| Holds(g, t, inner) && g.Has(inner) && RealMember(g, inner, m);
      var k :| 0 <= k < |elements| && elements[k].typ == inner;
      assert ts[k] == inner;
    }
  }

  lemma CarriedIff(g: Graph, ts: seq<TypeId>, m: TypeId)
    requires g.WellFormed()
    ensures CarriedBy(g, ts, m) <==> exists k :: 0 <= k < |ts| && g.Has(ts[k]) && RealMember(g, ts[k], m)
  {
    hide RealMember;
    forall inner | g.Has(inner)
      ensures m in g.WithoutNullish(inner) <==> RealMember(g, inner, m)
    {
      MembersAreReal(g, inner, m);
    }
    if CarriedBy(g, ts, m) {
      var inner :| inner in ts && g.Has(inner) && m in g.WithoutNullish(inner);
      var k :| 0 <= k < |ts| && ts[k] == inner;
    }
  }

  lemma ObjectCarriesIff(g: Graph, t: TypeId, m: TypeId)
    requires g.WellFormed() && g.Has(t) && g.types[t].shape.ObjectType?
    ensures Carries(g, t, m) <==> HoldsMember(g, t, m)
  {
    hide RealMember, CarriedBy;
    assert g.WellFormedType(g.types[t]);
    forall inner | Holds(g, t, inner)
      ensures g.Has(inner) && (CarriedBy(g, [inner], m) <==> RealMember(g, inner, m))
    {
      CarriedOneIff(g, inner, m);
    }
    if Carries(g, t, m) {
      if p :| p in g.types[t].properties && p.declared && CarriedBy(g, [p.typ], m) {
        assert Holds(g, t, p.typ);
      } else {
        var i :| i in g.types[t].indexes && CarriedBy(g, [i.typ], m);
        assert Holds(g, t, i.typ);
      }
    }
    if inner :| Holds(g, t, inner) && g.Has(inner) && RealMember(g, inner, m) {
      assert CarriedBy(g, [inner], m);
    }
  }

  /** For one type, reaching a trusted shape and having a real member that does are the same. */
  lemma DescribableMember(g: Graph, t: TypeId)
    requires g.WellFormed() && g.Has(t)
    ensures Describable(g, t) <==> MemberDescribable(g, t)
  {
    hide MemberDescribable;
    forall m
      ensures m in g.WithoutNullish(t) <==> RealMember(g, t, m)
    {
      MembersAreReal(g, t, m);
    }
    MemberUnfolds(g, t);
    if m :| m in g.WithoutNullish(t) && MemberDescribable(g, m) {
      if g.types[t].shape.Union? {
        assert Carries(g, t, m);
      }
    }
    if MemberDescribable(g, t) {
      if g.types[t].shape.Union? {
        var m :| Carries(g, t, m) && MemberDescribable(g, m);
        MemberUnfolds(g, m);
        assert RealMember(g, t, m);
      } else {
        assert RealMember(g, t, t);
      }
    }
  }

  lemma MemberUnfolds(g: Graph, t: TypeId)
    requires g.WellFormed()
    ensures MemberDescribable(g, t)
            <==> IsTrustedShape(g, t) || exists m :: Carries(g, t, m) && MemberDescribable(g, m)
  {
    ReachUnfolds(CarryEdges(g), TrustedGoal(g), t);
  }

  lemma ReachUnfolds<T(!new)>(edge: (T, T) -> bool, goal: T -> bool, from: T)
    ensures Reaches(edge, goal, from) <==> goal(from) || exists next :: edge(from, next) && Reaches(edge, goal, next)
  {
    if goal(from) {
      GoalIsReached(edge, goal, from);
    } else if Reaches(edge, goal, from) {
      var path: seq<T> :| Walk(edge, path) && path[0] == from && goal(path[|path| - 1]);
      assert edge(path[0], path[0 + 1]);
      var tail := path[1..];
      forall i | 0 <= i < |tail| - 1
        ensures edge(tail[i], tail[i + 1])
      {
        assert edge(path[i + 1], path[i + 1 + 1]);
      }
      assert Walk(edge, tail) && tail[0] == path[1] && goal(tail[|tail| - 1]);
    } else if next :| edge(from, next) && Reaches(edge, goal, next) {
      EdgeExtendsReach(edge, goal, from, next);
    }
  }

  /**
   * A type must not cross the boundary exactly when it is trusted by its own members, or a
   * value of it holds one that must not.
   */
  lemma DescribableUnfolds(g: Graph, t: TypeId)
    requires g.WellFormed() && g.Has(t)
    ensures Describable(g, t)
            <==> || (g.types[t].shape.ObjectType? && !IsCallback(g, t) && LooksTrusted(g, t))
                 || exists inner :: Holds(g, t, inner) && Describable(g, inner)
  {
    hide MemberDescribable, IsTrustedShape, LooksTrusted, IsCallback, Holds, Carries, Describable;
    TrustedShapeIff(g, t);
    DescribableMember(g, t);
    MemberUnfolds(g, t);
    if m :| Carries(g, t, m) && MemberDescribable(g, m) {
      StepHolds(g, t, m);
    }
    if inner :| Holds(g, t, inner) && Describable(g, inner) {
      HeldSteps(g, t, inner);
    }
  }

  lemma DescribableExists(g: Graph, m: TypeId)
    requires g.WellFormed() && MemberDescribable(g, m)
    ensures g.Has(m)
  {
    hide MemberDescribable;
    MemberUnfolds(g, m);
  }

  lemma StepHolds(g: Graph, t: TypeId, m: TypeId)
    requires g.WellFormed() && g.Has(t) && Carries(g, t, m) && MemberDescribable(g, m)
    ensures exists inner :: Holds(g, t, inner) && Describable(g, inner)
  {
    hide MemberDescribable, RealMember, Holds, Carries;
    DescribableExists(g, m);
    CarriesIff(g, t, m);
    if g.types[t].shape.Union? || g.types[t].shape.Intersection? {
      DescribableMember(g, m);
    } else {
      var inner :| Holds(g, t, inner) && g.Has(inner) && RealMember(g, inner, m);
      MembersAreReal(g, inner, m);
      assert Describable(g, inner);
    }
  }

  lemma HeldSteps(g: Graph, t: TypeId, inner: TypeId)
    requires g.WellFormed() && g.Has(t) && Holds(g, t, inner) && Describable(g, inner)
    ensures exists m :: Carries(g, t, m) && MemberDescribable(g, m)
  {
    hide MemberDescribable, RealMember, Holds, Carries;
    if g.types[t].shape.Union? || g.types[t].shape.Intersection? {
      CarriesIff(g, t, inner);
      DescribableMember(g, inner);
    } else {
      var m :| m in g.WithoutNullish(inner) && MemberDescribable(g, m);
      MembersAreReal(g, inner, m);
      CarriesIff(g, t, m);
    }
  }

  // ---------- Where the parts of a value land ----------

  predicate IsList(g: Graph, t: TypeId)
    requires g.Has(t)
  {
    g.types[t].shape.ArrayOf? || g.types[t].shape.TupleOf?
  }

  /** `typ` is the type of the property that `target` declares as `name`. */
  ghost predicate DeclaresAs(g: Graph, target: TypeId, name: string, typ: TypeId)
    requires g.Has(target)
  {
    var properties := g.types[target].properties;
    exists k :: 0 <= k < |properties| && IsFirst(properties, name, k) && properties[k].typ == typ
  }

  predicate IsFirst(properties: seq<Property>, name: string, k: nat) {
    && k < |properties| && properties[k].name == name
    && forall j | 0 <= j < k :: properties[j].name != name
  }

  /** The key of an index signature admits the name, as a string or, when it reads as one, as a number. */
  predicate Admits(g: Graph, key: TypeId, name: string) {
    g.stringKeyFits(name, key) || (g.isNumeric(name) && g.numberKeyFits(name, key))
  }

  /** Where a property called `name` lands: its declaration, or without one every index signature that admits it. */
  ghost predicate NameLands(g: Graph, target: TypeId, name: string, slot: TypeId)
    requires g.Has(target)
  {
    || DeclaresAs(g, target, name, slot)
    || (!Mentions(g, target, name)
        && exists i :: i in g.types[target].indexes && Admits(g, i.keyType, name) && i.typ == slot)
  }

  /**
   * A part of a value lands in a slot: elements of two lists by index, as far as it is known;
   * otherwise a property by its name, and index signature values in index signature values.
   */
  ghost predicate PartLands(g: Graph, value: TypeId, part: TypeId, target: TypeId, slot: TypeId)
    requires g.Has(value) && g.Has(target)
  {
    if IsList(g, value) && IsList(g, target) then
      exists i: nat, j: nat :: ElementLands(g, value, i, target, j)
        && ElementsOf(g, value)[i].typ == part && ElementsOf(g, target)[j].typ == slot
    else
      || (exists p :: p in g.types[value].properties && p.typ == part && NameLands(g, target, p.name, slot))
      || (exists i, j :: i in g.types[value].indexes && j in g.types[target].indexes && i.typ == part && j.typ == slot)
  }

  ghost predicate ElementLands(g: Graph, value: TypeId, i: nat, target: TypeId, j: nat)
    requires g.Has(value) && g.Has(target) && IsList(g, value) && IsList(g, target)
  {
    var here, there := ElementsOf(g, value), ElementsOf(g, target);
    && i < |here| && j < |there|
    && ((forall k | 0 <= k <= i :: !here[k].flag.Variable?) ==> IsCandidate(there, j, i))
  }

  lemma {:induction false} FirstProperty(properties: seq<Property>, name: string) returns (k: nat)
    ensures Graph.FindProperty(properties, name).Some? ==>
      IsFirst(properties, name, k) && Graph.FindProperty(properties, name) == Some(properties[k])
  {
    k := 0;
    if properties != [] && properties[0].name != name {
      k := FirstProperty(properties[1..], name);
      k := k + 1;
    }
  }

  lemma SlotsLand(g: Graph, target: TypeId, name: string, slot: TypeId)
    requires g.Has(target)
    ensures slot in g.SlotsFor(target, name) <==> NameLands(g, target, name, slot)
  {
    var properties := g.types[target].properties;
    MentionsIsHasProperty(g, target, name);
    if Mentions(g, target, name) {
      var k := FirstProperty(properties, name);
      assert forall j: nat | IsFirst(properties, name, j) :: j == k;
    }
  }

  /** The parts that meet are the parts that land in the slots. */
  lemma MeetsIff(g: Graph, value: TypeId, target: TypeId, next: Pair)
    requires g.Has(value) && g.Has(target)
    ensures Meets(g, value, target, next) <==> PartLands(g, value, next.value, target, next.target)
  {
    if IsList(g, value) && IsList(g, target) {
      ElementsMeetIff(g, value, target, next);
    } else {
      forall p | p in g.types[value].properties
        ensures next.target in g.SlotsFor(target, p.name) <==> NameLands(g, target, p.name, next.target)
      {
        SlotsLand(g, target, p.name, next.target);
      }
      hide NameLands;
    }
  }

  lemma ElementsMeetIff(g: Graph, value: TypeId, target: TypeId, next: Pair)
    requires g.Has(value) && g.Has(target) && IsList(g, value) && IsList(g, target)
    ensures Meets(g, value, target, next) <==> PartLands(g, value, next.value, target, next.target)
  {
    var here, types := ElementsOf(g, value), g.ElementTypes(value).value;
    forall i: nat | i < |here|
      ensures next.target in ElementSlots(g, value, target, i)
              <==> exists j: nat :: ElementLands(g, value, i, target, j) && ElementsOf(g, target)[j].typ == next.target
    {
      ElementSlotsIff(g, value, i, target, next.target);
    }
    hide ElementSlots, ElementLands;
    if Meets(g, value, target, next) {
      var i: nat :| i < |types| && next.value == types[i] && next.target in ElementSlots(g, value, target, i);
      assert here[i].typ == types[i];
    }
    if PartLands(g, value, next.value, target, next.target) {
      var i: nat, j: nat :| ElementLands(g, value, i, target, j)
        && here[i].typ == next.value && ElementsOf(g, target)[j].typ == next.target;
      assert here[i].typ == types[i];
    }
  }

  lemma ElementSlotsIff(g: Graph, value: TypeId, i: nat, target: TypeId, slot: TypeId)
    requires g.Has(value) && g.Has(target) && IsList(g, value) && IsList(g, target) && i < |ElementsOf(g, value)|
    ensures slot in ElementSlots(g, value, target, i)
            <==> exists j: nat :: ElementLands(g, value, i, target, j) && ElementsOf(g, target)[j].typ == slot
  {
    var here, there := ElementsOf(g, value), ElementsOf(g, target);
    var prefix := Graph.PrefixLength(here);
    assert i < prefix <==> forall k | 0 <= k <= i :: !here[k].flag.Variable? by {
      if prefix <= i {
        assert here[prefix].flag.Variable?;
      }
    }
    CandidatesByElement(g, target, i, slot);
    LaterByElement(there, g.ElementTypes(target).value, 0, slot);
    assert g.ElementTypes(target).value[0..] == g.ElementTypes(target).value;
  }

  // ---------- Where an `any` reaches a trusted slot ----------

  /** Some real member of the type is `any`. */
  ghost predicate IsAny(g: Graph, t: TypeId)
    requires g.Has(t)
  {
    exists m: TypeId :: RealMember(g, t, m) && g.types[m].shape.Any?
  }

  /** A part of one real member of the value leads to an `any` in the slot of a real member of the target where it lands. */
  ghost predicate PartCarriesAny(g: Graph, value: TypeId, target: TypeId)
    requires g.Has(value) && g.Has(target)
  {
    exists a: TypeId, part: TypeId, b: TypeId, slot: TypeId :: RealMember(g, value, a) && RealMember(g, target, b)
      && PartLands(g, a, part, b, slot) && CarriesAny(g, part, slot)
  }

  /**
   * An `any` is where a trusted type is expected exactly when the target leads to a trusted
   * shape and the value is that `any`, or has a part that carries one into its slot.
   */
  lemma CarriesAnyUnfolds(g: Graph, value: TypeId, target: TypeId)
    requires g.WellFormed() && g.Has(value) && g.Has(target)
    ensures CarriesAny(g, value, target)
            <==> Describable(g, target) && (IsAny(g, value) || PartCarriesAny(g, value, target))
  {
    hide Describable, CarriesAny, PairMeets, IsAny, PartLands;
    var pair := Pair(value, target);
    CarriesAnyStep(g, pair);
    AnyIff(g, value);
    if next :| PairMeets(g, pair, next) && CarriesAny(g, next.value, next.target) {
      MeetingLands(g, pair, next);
    }
    if PartCarriesAny(g, value, target) {
      var a: TypeId, part: TypeId, b: TypeId, slot: TypeId :| RealMember(g, value, a) && RealMember(g, target, b)
        && PartLands(g, a, part, b, slot) && CarriesAny(g, part, slot);
      LandingMeets(g, pair, a, part, b, slot);
      assert CarriesAny(g, Pair(part, slot).value, Pair(part, slot).target);
    }
  }

  lemma CarriesAnyStep(g: Graph, pair: Pair)
    requires g.Has(pair.value) && g.Has(pair.target)
    ensures CarriesAny(g, pair.value, pair.target)
            <==> Describable(g, pair.target)
                 && (g.IsAnyType(pair.value)
                     || exists next :: PairMeets(g, pair, next) && CarriesAny(g, next.value, next.target))
  {
    hide Describable, PairMeets, Reaches;
    ReachUnfolds(MeetEdges(g), AnyInTrustedSlot(g), pair);
    if next :| PairMeets(g, pair, next) && CarriesAny(g, next.value, next.target) {
      assert next == Pair(next.value, next.target);
    }
  }

  lemma AnyIff(g: Graph, value: TypeId)
    requires g.WellFormed() && g.Has(value)
    ensures g.IsAnyType(value) <==> IsAny(g, value)
  {
    forall m
      ensures m in g.WithoutNullish(value) <==> RealMember(g, value, m)
    {
      MembersAreReal(g, value, m);
    }
  }

  lemma MeetingLands(g: Graph, pair: Pair, next: Pair)
    requires g.WellFormed() && PairMeets(g, pair, next) && CarriesAny(g, next.value, next.target)
    ensures PartCarriesAny(g, pair.value, pair.target)
  {
    hide Meets, PartLands, RealMember, CarriesAny;
    var a :| a in g.WithoutNullish(pair.value) && MeetsOneOf(g, a, g.WithoutNullish(pair.target), next);
    var b :| b in g.WithoutNullish(pair.target) && Meets(g, a, b, next);
    MembersAreReal(g, pair.value, a);
    MembersAreReal(g, pair.target, b);
    g.WellFormedMembers(pair.value);
    g.WellFormedMembers(pair.target);
    MeetsIff(g, a, b, next);
  }

  lemma LandingMeets(g: Graph, pair: Pair, a: TypeId, part: TypeId, b: TypeId, slot: TypeId)
    requires g.WellFormed() && g.Has(pair.value) && g.Has(pair.target)
    requires RealMember(g, pair.value, a) && RealMember(g, pair.target, b) && PartLands(g, a, part, b, slot)
    ensures PairMeets(g, pair, Pair(part, slot))
  {
    hide Meets, PartLands;
    MembersAreReal(g, pair.value, a);
    MembersAreReal(g, pair.target, b);
    MeetsIff(g, a, b, Pair(part, slot));
    assert MeetsOneOf(g, a, g.WithoutNullish(pair.target), Pair(part, slot));
  }

  /**
   * Two plain types that are not both lists: the `any` comes through a property of the value
   * and the property of that name in the target, or without one an index signature admitting
   * the name; or through index signatures of both; and through nothing else.
   */
  lemma ObjectCarriesAnyIff(g: Graph, value: TypeId, target: TypeId)
    requires g.WellFormed() && g.Has(value) && g.Has(target) && !(IsList(g, value) && IsList(g, target))
    requires !g.types[value].shape.Union? && !g.types[value].shape.Nullish?
    requires !g.types[target].shape.Union? && !g.types[target].shape.Nullish?
    ensures CarriesAny(g, value, target)
            <==> && Describable(g, target)
                 && (|| g.types[value].shape.Any?
                     || (exists p, slot: TypeId :: p in g.types[value].properties
                           && NameLands(g, target, p.name, slot) && CarriesAny(g, p.typ, slot))
                     || (exists i, j :: i in g.types[value].indexes && j in g.types[target].indexes
                           && CarriesAny(g, i.typ, j.typ)))
  {
    hide Describable, CarriesAny, NameLands;
    CarriesAnyUnfolds(g, value, target);
    forall m: TypeId
      ensures RealMember(g, value, m) <==> m == value
      ensures RealMember(g, target, m) <==> m == target
    {
    }
    if p, slot: TypeId :| p in g.types[value].properties && NameLands(g, target, p.name, slot) && CarriesAny(g, p.typ, slot) {
      assert PartLands(g, value, p.typ, target, slot);
    }
    if i, j :| i in g.types[value].indexes && j in g.types[target].indexes && CarriesAny(g, i.typ, j.typ) {
      assert PartLands(g, value, i.typ, target, j.typ);
    }
  }
}
