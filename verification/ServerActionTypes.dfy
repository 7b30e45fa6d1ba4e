/**
 * Which types carry an organization context or a database handle, and whether an `any`
 * reaches such a slot (`scripts/server-action-types.ts`). Both searches share a visited
 * set; each is proved equal to plain reachability on every graph, cyclic or not.
 */
module ServerActionTypes {
  import opened Outcomes
  import opened Search
  import opened TypeGraph
  import opened TupleLists

  const CONTEXT_PROPERTIES := ["organizationId", "orgRole", "isPlatformAdmin"]
  const TENANT_ID_NAMES := {"organizationId", "orgId"}
  const DB_HANDLE_MEMBERS := ["select", "insert", "execute"]
  const PG_CLIENT_MEMBERS := ["query", "release"]

  datatype Reason = OrganizationContext | DatabaseHandle | TenantId(name: string)

  // ---------- What one type says by itself ----------

  predicate HasAny(g: Graph, t: TypeId, names: seq<string>)
    requires g.Has(t)
  {
    exists i | 0 <= i < |names| :: g.HasProperty(t, names[i])
  }

  predicate HasAll(g: Graph, t: TypeId, names: seq<string>)
    requires g.Has(t)
  {
    forall i | 0 <= i < |names| :: g.HasProperty(t, names[i])
  }

  /** A callback cannot be serialized from the browser. */
  predicate IsPlainCallable(g: Graph, t: TypeId)
    requires g.Has(t)
  {
    g.types[t].calls != [] && g.types[t].properties == []
  }

  predicate IsInspectedObject(g: Graph, t: TypeId)
    requires g.Has(t)
  {
    g.Shape(t).ObjectType? && !IsPlainCallable(g, t)
  }

  /** A type that must not cross the boundary because of its own members. */
  predicate IsTrustedShape(g: Graph, t: TypeId) {
    && g.Has(t)
    && IsInspectedObject(g, t)
    && (|| HasAny(g, t, CONTEXT_PROPERTIES)
        || HasAll(g, t, DB_HANDLE_MEMBERS) || HasAll(g, t, PG_CLIENT_MEMBERS)
        || exists p | p in g.types[t].properties :: p.name in TENANT_ID_NAMES)
  }

  /** `inner` is a type whose values a value of type `outer` carries. */
  predicate Carries(g: Graph, outer: TypeId, inner: TypeId) {
    g.Has(outer) &&
    match g.Shape(outer)
    case TypeParameter(Some(c)) => g.Has(c) && c != outer && inner in g.WithoutNullish(c)
    case Union(parts) => inner in parts
    case Intersection(parts) => inner in parts
    case ArrayOf(e) => !IsPlainCallable(g, outer) && CarriedBy(g, [e], inner)
    case TupleOf(elements) => !IsPlainCallable(g, outer) && CarriedBy(g, Graph.TypesOf(elements), inner)
    case ObjectType =>
      && IsInspectedObject(g, outer)
      && (|| (exists p | p in g.types[outer].properties :: p.declared && CarriedBy(g, [p.typ], inner))
          || (exists i | i in g.types[outer].indexes :: CarriedBy(g, [i.typ], inner)))
    case _ => false
  }

  predicate CarriedBy(g: Graph, ts: seq<TypeId>, inner: TypeId) {
    exists t | t in ts :: g.Has(t) && inner in g.WithoutNullish(t)
  }

  ghost function CarryEdges(g: Graph): (TypeId, TypeId) -> bool {
    (outer: TypeId, inner: TypeId) => Carries(g, outer, inner)
  }

  ghost function TrustedGoal(g: Graph): TypeId -> bool {
    (t: TypeId) => IsTrustedShape(g, t)
  }

  ghost predicate MemberDescribable(g: Graph, t: TypeId) {
    Reaches(CarryEdges(g), TrustedGoal(g), t)
  }

  /** The specification: a trusted shape is reachable from some non-nullish member. */
  ghost predicate Describable(g: Graph, t: TypeId) {
    exists m :: g.Has(t) && m in g.WithoutNullish(t) && MemberDescribable(g, m)
  }

  // ---------- The search for a trusted shape ----------

  ghost function AllTypes(g: Graph): set<TypeId> {
    set t: TypeId | t < |g.types| && g.Has(t)
  }

  /** Everything the search added is no goal, and all it carries was visited too. */
  ghost predicate Explored(g: Graph, before: set<TypeId>, after: set<TypeId>) {
    && before <= after <= AllTypes(g)
    && forall t | t in after && t !in before ::
         !IsTrustedShape(g, t) && forall inner | Carries(g, t, inner) :: inner in after
  }

  lemma ExploredTrans(g: Graph, a: set<TypeId>, b: set<TypeId>, c: set<TypeId>)
    requires Explored(g, a, b) && Explored(g, b, c)
    ensures Explored(g, a, c)
  {
  }

  lemma ExploredFromNothing(g: Graph, after: set<TypeId>, t: TypeId)
    requires Explored(g, {}, after) && t in after
    ensures !MemberDescribable(g, t)
  {
    ClosedRegionReachesNothing(CarryEdges(g), TrustedGoal(g), (iset x | x in after), t);
  }

  class ParameterInspector {
    const g: Graph

    constructor (g: Graph)
      ensures this.g == g
    {
      this.g := g;
    }

    /** Why this parameter type must never cross the action boundary, if at all. */
    method Describe(t: TypeId) returns (reason: Option<Reason>)
      requires g.WellFormed() && g.Has(t)
      ensures reason.Some? <==> Describable(g, t)
    {
      var seen := new Seen<TypeId>();
      reason := DescribeAll([t], seen);
      if reason.None? {
        forall m | m in g.WithoutNullish(t)
          ensures !MemberDescribable(g, m)
        {
          assert CarriedBy(g, [t], m);
          ExploredFromNothing(g, seen.members, m);
        }
      } else {
        ghost var m :| CarriedBy(g, [t], m) && MemberDescribable(g, m);
      }
    }

    /** The non-nullish members of each type in turn, until one has a reason. */
    method DescribeAll(ts: seq<TypeId>, seen: Seen<TypeId>) returns (reason: Option<Reason>)
      requires g.WellFormed() && seen.members <= AllTypes(g)
      requires forall t | t in ts :: g.Has(t)
      modifies seen
      ensures old(seen.members) <= seen.members <= AllTypes(g)
      ensures reason.Some? ==> exists m :: CarriedBy(g, ts, m) && MemberDescribable(g, m)
      ensures reason.None? ==>
        && Explored(g, old(seen.members), seen.members)
        && forall m | CarriedBy(g, ts, m) :: m in seen.members
      decreases AllTypes(g) - seen.members, 2, |ts|
    {
      for i := 0 to |ts|
        invariant Explored(g, old(seen.members), seen.members)
        invariant forall m | CarriedBy(g, ts[..i], m) :: m in seen.members
      {
        ghost var before := seen.members;
        g.WellFormedMembers(ts[i]);
        reason := DescribeMembers(g.WithoutNullish(ts[i]), seen);
        if reason.Some? {
          ghost var m :| m in g.WithoutNullish(ts[i]) && MemberDescribable(g, m);
          assert CarriedBy(g, ts, m);
          return;
        }
        ExploredTrans(g, old(seen.members), before, seen.members);
        assert ts[..i + 1] == ts[..i] + [ts[i]];
      }
      assert ts[..|ts|] == ts;
      reason := None;
    }

    method DescribeMembers(members: seq<TypeId>, seen: Seen<TypeId>) returns (reason: Option<Reason>)
      requires g.WellFormed() && seen.members <= AllTypes(g)
      requires forall m | m in members :: g.Has(m)
      modifies seen
      ensures old(seen.members) <= seen.members <= AllTypes(g)
      ensures reason.Some? ==> exists m :: m in members && MemberDescribable(g, m)
      ensures reason.None? ==>
        && Explored(g, old(seen.members), seen.members)
        && forall m | m in members :: m in seen.members
      decreases AllTypes(g) - seen.members, 1
    {
      for i := 0 to |members|
        invariant Explored(g, old(seen.members), seen.members)
        invariant forall k | 0 <= k < i :: members[k] in seen.members
      {
        ghost var before := seen.members;
        reason := DescribeMember(members[i], seen);
        if reason.Some? {
          return;
        }
        ExploredTrans(g, old(seen.members), before, seen.members);
      }
      reason := None;
    }

    /** One type: visited at most once, so self-referential types terminate. */
    method DescribeMember(t: TypeId, seen: Seen<TypeId>) returns (reason: Option<Reason>)
      requires g.WellFormed() && g.Has(t) && seen.members <= AllTypes(g)
      modifies seen
      ensures old(seen.members) <= seen.members <= AllTypes(g)
      ensures reason.Some? ==> MemberDescribable(g, t)
      ensures reason.None? ==> t in seen.members && Explored(g, old(seen.members), seen.members)
      decreases AllTypes(g) - seen.members, 0
    {
      if t in seen.members {
        return None;
      }
      seen.Add(t);
      reason := DescribeVisited(t, seen);
      if reason.Some? {
        if IsTrustedShape(g, t) {
          GoalIsReached(CarryEdges(g), TrustedGoal(g), t);
        } else {
          ghost var m :| Carries(g, t, m) && MemberDescribable(g, m);
          EdgeExtendsReach(CarryEdges(g), TrustedGoal(g), t, m);
        }
      }
    }

    /** The cases of one type, by shape. */
    method DescribeVisited(t: TypeId, seen: Seen<TypeId>) returns (reason: Option<Reason>)
      requires g.WellFormed() && g.Has(t) && seen.members <= AllTypes(g)
      modifies seen
      ensures old(seen.members) <= seen.members <= AllTypes(g)
      ensures reason.Some? ==> IsTrustedShape(g, t) || exists m :: Carries(g, t, m) && MemberDescribable(g, m)
      ensures reason.None? ==>
        && !IsTrustedShape(g, t)
        && Explored(g, old(seen.members), seen.members)
        && forall m | Carries(g, t, m) :: m in seen.members
      decreases AllTypes(g) - seen.members, 4
    {
      assert g.WellFormedType(g.types[t]);
      reason := None;
      match g.Shape(t)
      case TypeParameter(Some(c)) =>
        if c != t {
          reason := DescribeAll([c], seen);
        }
      case Union(parts) =>
        reason := DescribeMembers(parts, seen);
      case Intersection(parts) =>
        reason := DescribeMembers(parts, seen);
      case ArrayOf(e) =>
        if !IsPlainCallable(g, t) {
          reason := DescribeAll([e], seen);
        }
      case TupleOf(elements) =>
        if !IsPlainCallable(g, t) {
          reason := DescribeAll(Graph.TypesOf(elements), seen);
        }
      case ObjectType =>
        if !IsPlainCallable(g, t) {
          reason := DescribeObject(t, seen);
        }
      case _ =>
    }

    /** An object: its own members first, then every property and index signature. */
    method DescribeObject(t: TypeId, seen: Seen<TypeId>) returns (reason: Option<Reason>)
      requires g.WellFormed() && g.Has(t) && IsInspectedObject(g, t) && seen.members <= AllTypes(g)
      modifies seen
      ensures old(seen.members) <= seen.members <= AllTypes(g)
      ensures reason.Some? ==>
        IsTrustedShape(g, t) || exists m :: Carries(g, t, m) && MemberDescribable(g, m)
      ensures reason.None? ==>
        && !IsTrustedShape(g, t)
        && Explored(g, old(seen.members), seen.members)
        && forall m | Carries(g, t, m) :: m in seen.members
      decreases AllTypes(g) - seen.members, 3
    {
      hide MemberDescribable, CarriedBy;
      if HasAny(g, t, CONTEXT_PROPERTIES) {
        return Some(OrganizationContext);
      }
      if HasAll(g, t, DB_HANDLE_MEMBERS) || HasAll(g, t, PG_CLIENT_MEMBERS) {
        return Some(DatabaseHandle);
      }
      assert g.WellFormedType(g.types[t]);
      var properties, indexes := g.types[t].properties, g.types[t].indexes;
      for i := 0 to |properties|
        invariant Explored(g, old(seen.members), seen.members)
        invariant forall k | 0 <= k < i :: properties[k].name !in TENANT_ID_NAMES
        invariant forall k, m | 0 <= k < i && properties[k].declared && CarriedBy(g, [properties[k].typ], m) ::
                    m in seen.members
      {
        if properties[i].name in TENANT_ID_NAMES {
          return Some(TenantId(properties[i].name));
        }
        if properties[i].declared {
          ghost var before := seen.members;
          assert g.Has(properties[i].typ);
          reason := DescribeAll([properties[i].typ], seen);
          if reason.Some? {
            ghost var m :| CarriedBy(g, [properties[i].typ], m) && MemberDescribable(g, m);
            assert Carries(g, t, m);
            return;
          }
          ExploredTrans(g, old(seen.members), before, seen.members);
        }
      }
      for i := 0 to |indexes|
        invariant Explored(g, old(seen.members), seen.members)
        invariant forall k, m | 0 <= k < |properties| && properties[k].declared && CarriedBy(g, [properties[k].typ], m) ::
                    m in seen.members
        invariant forall k, m | 0 <= k < i && CarriedBy(g, [indexes[k].typ], m) :: m in seen.members
      {
        ghost var before := seen.members;
        assert g.Has(indexes[i].typ);
        reason := DescribeAll([indexes[i].typ], seen);
        if reason.Some? {
          ghost var m :| CarriedBy(g, [indexes[i].typ], m) && MemberDescribable(g, m);
          assert Carries(g, t, m);
          return;
        }
        ExploredTrans(g, old(seen.members), before, seen.members);
      }
      reason := None;
    }
  }

  // ---------- Where an `any` meets a trusted slot ----------

  datatype Pair = Pair(value: TypeId, target: TypeId)

  /** A component of the value and the slot of the target it lands in, for one pair of members. */
  predicate Meets(g: Graph, value: TypeId, target: TypeId, next: Pair) {
    g.Has(value) && g.Has(target) &&
    if g.ElementTypes(value).Some? && g.ElementTypes(target).Some? then
      exists i | 0 <= i < |g.ElementTypes(value).value| ::
        next.value == g.ElementTypes(value).value[i] && next.target in ElementSlots(g, value, target, i)
    else
      || (exists p | p in g.types[value].properties ::
            next.value == p.typ && next.target in g.SlotsFor(target, p.name))
      || (exists i, j | i in g.types[value].indexes && j in g.types[target].indexes ::
            next.value == i.typ && next.target == j.typ)
  }

  /** A fixed value element meets what may sit at its index; past the prefix its index is unknown. */
  function ElementSlots(g: Graph, value: TypeId, target: TypeId, i: nat): seq<TypeId>
    requires g.Has(value) && g.Has(target) && g.ElementTypes(target).Some?
  {
    if i < g.FixedPrefixLength(value) then g.ElementCandidates(target, i) else g.ElementTypes(target).value
  }

  lemma ElementSlotsExist(g: Graph, value: TypeId, target: TypeId, i: nat)
    requires g.WellFormed() && g.Has(value) && g.Has(target) && g.ElementTypes(target).Some?
    ensures forall slot | slot in ElementSlots(g, value, target, i) :: g.Has(slot)
  {
    g.WellFormedElements(target);
  }

  predicate PairMeets(g: Graph, pair: Pair, next: Pair) {
    && g.Has(pair.value) && g.Has(pair.target)
    && exists value | value in g.WithoutNullish(pair.value) :: MeetsOneOf(g, value, g.WithoutNullish(pair.target), next)
  }

  predicate MeetsOneOf(g: Graph, value: TypeId, targets: seq<TypeId>, next: Pair) {
    exists target | target in targets :: Meets(g, value, target, next)
  }

  ghost function MeetEdges(g: Graph): (Pair, Pair) -> bool {
    (pair: Pair, next: Pair) => Describable(g, pair.target) && PairMeets(g, pair, next)
  }

  ghost function AnyInTrustedSlot(g: Graph): Pair -> bool {
    (pair: Pair) => Describable(g, pair.target) && g.Has(pair.value) && g.IsAnyType(pair.value)
  }

  /** The specification: along describable targets the value leads to an `any`. */
  ghost predicate CarriesAny(g: Graph, value: TypeId, target: TypeId) {
    Reaches(MeetEdges(g), AnyInTrustedSlot(g), Pair(value, target))
  }

  /**
   * The element slots miss nothing: an element of the value and one of the target that stand
   * at the same index of a run-time list of each always meet.
   */
  lemma SharedIndexMeets(g: Graph, value: TypeId, target: TypeId, i: nat, j: nat, index: nat)
    requires g.Has(value) && g.Has(target) && g.ElementTypes(value).Some? && g.ElementTypes(target).Some?
    requires i < |ElementsOf(g, value)| && MaySit(ElementsOf(g, value), i, index)
    requires j < |ElementsOf(g, target)| && MaySit(ElementsOf(g, target), j, index)
    ensures Meets(g, value, target, Pair(ElementsOf(g, value)[i].typ, ElementsOf(g, target)[j].typ))
  {
    var slot := ElementsOf(g, target)[j].typ;
    MaySitIff(ElementsOf(g, value), i, index);
    CandidatesCoverLists(g, target, index, slot);
    assert g.ElementTypes(value).value[i] == ElementsOf(g, value)[i].typ;
    assert slot == g.ElementTypes(target).value[j];
    assert slot in ElementSlots(g, value, target, i);
  }

  ghost function AllPairs(g: Graph): set<Pair> {
    set v, t | v in AllTypes(g) && t in AllTypes(g) :: Pair(v, t)
  }

  ghost predicate Visited(g: Graph, pairs: set<Pair>, pair: Pair) {
    pair in pairs || !Describable(g, pair.target)
  }

  ghost predicate PairsExplored(g: Graph, before: set<Pair>, after: set<Pair>) {
    && before <= after <= AllPairs(g)
    && forall pair | pair in after && pair !in before ::
         && !AnyInTrustedSlot(g)(pair)
         && forall next | PairMeets(g, pair, next) :: Visited(g, after, next)
  }

  lemma NothingExplored(g: Graph, pairs: set<Pair>)
    requires pairs <= AllPairs(g)
    ensures PairsExplored(g, pairs, pairs)
  {
  }

  /** Two explorations in a row are one, and what was visited stays visited. */
  lemma ExploreOn(g: Graph, a: set<Pair>, b: set<Pair>, c: set<Pair>)
    requires PairsExplored(g, a, b) && PairsExplored(g, b, c)
    ensures PairsExplored(g, a, c)
    ensures forall pair | Visited(g, b, pair) :: Visited(g, c, pair)
  {
  }

  lemma PairsExploredFromNothing(g: Graph, after: set<Pair>, pair: Pair)
    requires PairsExplored(g, {}, after) && Visited(g, after, pair)
    ensures !CarriesAny(g, pair.value, pair.target)
  {
    ClosedRegionReachesNothing(MeetEdges(g), AnyInTrustedSlot(g), (iset x | Visited(g, after, x)), pair);
  }

  /** The memoised search; `seen` remembers (value, target) pairs across its recursion. */
  class AnyContextSearch {
    const g: Graph
    const inspector: ParameterInspector

    constructor (g: Graph, inspector: ParameterInspector)
      requires inspector.g == g
      ensures this.g == g && this.inspector == inspector
    {
      this.g, this.inspector := g, inspector;
    }

    /** True exactly when the value puts an `any` where the target expects a trusted shape. */
    method CarriesAnyContext(value: TypeId, target: TypeId) returns (carries: bool)
      requires g.WellFormed() && inspector.g == g && g.Has(value) && g.Has(target)
      ensures carries <==> CarriesAny(g, value, target)
    {
      var seen := new Seen<Pair>();
      carries := Search(value, target, seen);
      if !carries {
        PairsExploredFromNothing(g, seen.members, Pair(value, target));
      }
    }

    method Search(value: TypeId, target: TypeId, seen: Seen<Pair>) returns (carries: bool)
      requires g.WellFormed() && inspector.g == g && g.Has(value) && g.Has(target)
      requires seen.members <= AllPairs(g)
      modifies seen
      ensures old(seen.members) <= seen.members <= AllPairs(g)
      ensures carries ==> CarriesAny(g, value, target)
      ensures !carries ==>
        PairsExplored(g, old(seen.members), seen.members) && Visited(g, seen.members, Pair(value, target))
      decreases AllPairs(g) - seen.members, 0
    {
      var pair := Pair(value, target);
      var reason := inspector.Describe(target);
      if reason.None? {
        return false;
      }
      if g.IsAnyType(value) {
        GoalIsReached(MeetEdges(g), AnyInTrustedSlot(g), pair);
        return true;
      }
      if pair in seen.members {
        return false;
      }
      seen.Add(pair);
      assert pair in AllPairs(g);
      carries := SearchMembers(pair, seen);
      if carries {
        ghost var next :| PairMeets(g, pair, next) && CarriesAny(g, next.value, next.target);
        EdgeExtendsReach(MeetEdges(g), AnyInTrustedSlot(g), pair, next);
      }
    }

    /** Every pair of non-nullish members. */
    method SearchMembers(pair: Pair, seen: Seen<Pair>) returns (carries: bool)
      requires g.WellFormed() && inspector.g == g && g.Has(pair.value) && g.Has(pair.target)
      requires seen.members <= AllPairs(g)
      modifies seen
      ensures old(seen.members) <= seen.members <= AllPairs(g)
      ensures carries ==> exists next :: PairMeets(g, pair, next) && CarriesAny(g, next.value, next.target)
      ensures !carries ==>
        && PairsExplored(g, old(seen.members), seen.members)
        && forall next | PairMeets(g, pair, next) :: Visited(g, seen.members, next)
      decreases AllPairs(g) - seen.members, 5
    {
      hide Describable, CarriesAny, Visited, PairsExplored, MeetsOneOf, Meets;
      var values, targets := g.WithoutNullish(pair.value), g.WithoutNullish(pair.target);
      g.WellFormedMembers(pair.value);
      g.WellFormedMembers(pair.target);
      NothingExplored(g, seen.members);
      for i := 0 to |values|
        invariant old(seen.members) <= seen.members <= AllPairs(g)
        invariant PairsExplored(g, old(seen.members), seen.members)
        invariant forall k, next | 0 <= k < i && MeetsOneOf(g, values[k], targets, next) :: Visited(g, seen.members, next)
      {
        ghost var before := seen.members;
        carries := SearchTargets(values[i], targets, seen);
        if carries {
          return;
        }
        ExploreOn(g, old(seen.members), before, seen.members);
      }
      carries := false;
    }

    method SearchTargets(value: TypeId, targets: seq<TypeId>, seen: Seen<Pair>) returns (carries: bool)
      requires g.WellFormed() && inspector.g == g && g.Has(value) && forall t | t in targets :: g.Has(t)
      requires seen.members <= AllPairs(g)
      modifies seen
      ensures old(seen.members) <= seen.members <= AllPairs(g)
      ensures carries ==> exists next :: MeetsOneOf(g, value, targets, next) && CarriesAny(g, next.value, next.target)
      ensures !carries ==>
        && PairsExplored(g, old(seen.members), seen.members)
        && forall next | MeetsOneOf(g, value, targets, next) :: Visited(g, seen.members, next)
      decreases AllPairs(g) - seen.members, 4
    {
      hide Describable, CarriesAny, Visited, PairsExplored, Meets;
      NothingExplored(g, seen.members);
      for i := 0 to |targets|
        invariant old(seen.members) <= seen.members <= AllPairs(g)
        invariant PairsExplored(g, old(seen.members), seen.members)
        invariant forall k, next | 0 <= k < i && Meets(g, value, targets[k], next) :: Visited(g, seen.members, next)
      {
        ghost var before := seen.members;
        carries := SearchComponents(value, targets[i], seen);
        if carries {
          return;
        }
        ExploreOn(g, old(seen.members), before, seen.members);
      }
      carries := false;
    }

    /** Tuple and array elements against elements, or else properties and index signatures. */
    method SearchComponents(value: TypeId, target: TypeId, seen: Seen<Pair>) returns (carries: bool)
      requires g.WellFormed() && inspector.g == g && g.Has(value) && g.Has(target)
      requires seen.members <= AllPairs(g)
      modifies seen
      ensures old(seen.members) <= seen.members <= AllPairs(g)
      ensures carries ==> exists next :: Meets(g, value, target, next) && CarriesAny(g, next.value, next.target)
      ensures !carries ==>
        && PairsExplored(g, old(seen.members), seen.members)
        && forall next | Meets(g, value, target, next) :: Visited(g, seen.members, next)
      decreases AllPairs(g) - seen.members, 3
    {
      if g.ElementTypes(value).Some? && g.ElementTypes(target).Some? {
        carries := SearchElements(value, target, seen);
      } else {
        carries := SearchProperties(value, target, seen);
        if !carries {
          ghost var before := seen.members;
          carries := SearchIndexes(value, target, seen);
          if !carries {
            ExploreOn(g, old(seen.members), before, seen.members);
          }
        }
      }
    }

    method SearchElements(value: TypeId, target: TypeId, seen: Seen<Pair>) returns (carries: bool)
      requires g.WellFormed() && inspector.g == g && g.Has(value) && g.Has(target)
      requires g.ElementTypes(value).Some? && g.ElementTypes(target).Some?
      requires seen.members <= AllPairs(g)
      modifies seen
      ensures old(seen.members) <= seen.members <= AllPairs(g)
      ensures carries ==>
        exists k, slot :: 0 <= k < |g.ElementTypes(value).value| && slot in ElementSlots(g, value, target, k)
          && CarriesAny(g, g.ElementTypes(value).value[k], slot)
      ensures !carries ==>
        && PairsExplored(g, old(seen.members), seen.members)
        && forall k, slot | 0 <= k < |g.ElementTypes(value).value| && slot in ElementSlots(g, value, target, k) ::
             Visited(g, seen.members, Pair(g.ElementTypes(value).value[k], slot))
      decreases AllPairs(g) - seen.members, 2
    {
      hide Describable, CarriesAny, Visited, PairsExplored, ElementSlots;
      var elements := g.ElementTypes(value).value;
      g.WellFormedElements(value);
      NothingExplored(g, seen.members);
      for i := 0 to |elements|
        invariant old(seen.members) <= seen.members <= AllPairs(g)
        invariant PairsExplored(g, old(seen.members), seen.members)
        invariant forall k, slot | 0 <= k < i && slot in ElementSlots(g, value, target, k) ::
                    Visited(g, seen.members, Pair(elements[k], slot))
      {
        ghost var before := seen.members;
        ElementSlotsExist(g, value, target, i);
        carries := SearchSlots(elements[i], ElementSlots(g, value, target, i), seen);
        if carries {
          return;
        }
        ExploreOn(g, old(seen.members), before, seen.members);
      }
      carries := false;
    }

    method SearchProperties(value: TypeId, target: TypeId, seen: Seen<Pair>) returns (carries: bool)
      requires g.WellFormed() && inspector.g == g && g.Has(value) && g.Has(target)
      requires seen.members <= AllPairs(g)
      modifies seen
      ensures old(seen.members) <= seen.members <= AllPairs(g)
      ensures carries ==>
        exists p, slot :: p in g.types[value].properties && slot in g.SlotsFor(target, p.name) && CarriesAny(g, p.typ, slot)
      ensures !carries ==>
        && PairsExplored(g, old(seen.members), seen.members)
        && forall p, slot | p in g.types[value].properties && slot in g.SlotsFor(target, p.name) ::
             Visited(g, seen.members, Pair(p.typ, slot))
      decreases AllPairs(g) - seen.members, 2
    {
      hide Describable, CarriesAny, Visited, PairsExplored;
      var properties := g.types[value].properties;
      NothingExplored(g, seen.members);
      for i := 0 to |properties|
        invariant old(seen.members) <= seen.members <= AllPairs(g)
        invariant PairsExplored(g, old(seen.members), seen.members)
        invariant forall k, slot | 0 <= k < i && slot in g.SlotsFor(target, properties[k].name) ::
                    Visited(g, seen.members, Pair(properties[k].typ, slot))
      {
        ghost var before := seen.members;
        g.WellFormedSlots(value, "");
        g.WellFormedSlots(target, properties[i].name);
        assert properties[i] in properties;
        carries := SearchSlots(properties[i].typ, g.SlotsFor(target, properties[i].name), seen);
        if carries {
          return;
        }
        ExploreOn(g, old(seen.members), before, seen.members);
      }
      carries := false;
    }

    method SearchIndexes(value: TypeId, target: TypeId, seen: Seen<Pair>) returns (carries: bool)
      requires g.WellFormed() && inspector.g == g && g.Has(value) && g.Has(target)
      requires seen.members <= AllPairs(g)
      modifies seen
      ensures old(seen.members) <= seen.members <= AllPairs(g)
      ensures carries ==>
        exists i, j :: i in g.types[value].indexes && j in g.types[target].indexes && CarriesAny(g, i.typ, j.typ)
      ensures !carries ==>
        && PairsExplored(g, old(seen.members), seen.members)
        && forall i, j | i in g.types[value].indexes && j in g.types[target].indexes ::
             Visited(g, seen.members, Pair(i.typ, j.typ))
      decreases AllPairs(g) - seen.members, 2
    {
      hide Describable, CarriesAny, Visited, PairsExplored;
      var indexes := g.types[value].indexes;
      var slots := IndexSlots(g.types[target].indexes);
      g.WellFormedSlots(value, "");
      g.WellFormedSlots(target, "");
      NothingExplored(g, seen.members);
      for i := 0 to |indexes|
        invariant old(seen.members) <= seen.members <= AllPairs(g)
        invariant PairsExplored(g, old(seen.members), seen.members)
        invariant forall k, slot | 0 <= k < i && slot in slots :: Visited(g, seen.members, Pair(indexes[k].typ, slot))
      {
        ghost var before := seen.members;
        assert indexes[i] in indexes;
        carries := SearchSlots(indexes[i].typ, slots, seen);
        if carries {
          return;
        }
        ExploreOn(g, old(seen.members), before, seen.members);
      }
      assert forall j | j in g.types[target].indexes :: j.typ in slots;
      carries := false;
    }

    /** One component against each slot it may land in. */
    method SearchSlots(value: TypeId, slots: seq<TypeId>, seen: Seen<Pair>) returns (carries: bool)
      requires g.WellFormed() && inspector.g == g && g.Has(value) && forall s | s in slots :: g.Has(s)
      requires seen.members <= AllPairs(g)
      modifies seen
      ensures old(seen.members) <= seen.members <= AllPairs(g)
      ensures carries ==> exists slot :: slot in slots && CarriesAny(g, value, slot)
      ensures !carries ==>
        && PairsExplored(g, old(seen.members), seen.members)
        && forall slot | slot in slots :: Visited(g, seen.members, Pair(value, slot))
      decreases AllPairs(g) - seen.members, 1
    {
      hide Describable, CarriesAny, Visited, PairsExplored;
      NothingExplored(g, seen.members);
      for i := 0 to |slots|
        invariant old(seen.members) <= seen.members <= AllPairs(g)
        invariant PairsExplored(g, old(seen.members), seen.members)
        invariant forall k | 0 <= k < i :: Visited(g, seen.members, Pair(value, slots[k]))
      {
        ghost var before := seen.members;
        carries := Search(value, slots[i], seen);
        if carries {
          return;
        }
        ExploreOn(g, old(seen.members), before, seen.members);
      }
      carries := false;
    }
  }

  function IndexSlots(indexes: seq<IndexInfo>): (ts: seq<TypeId>)
    ensures forall x :: x in ts <==> exists i | i in indexes :: i.typ == x
  {
    if indexes == [] then [] else [indexes[0].typ] + IndexSlots(indexes[1..])
  }
}
