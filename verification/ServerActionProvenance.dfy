/**
 * Conversions that discard a callable's trusted parameter contract
 * (`scripts/server-action-provenance.ts`). The search walks source and target types along
 * the same access paths and is proved equal to plain reachability in the pair graph.
 */
module ServerActionProvenance {
  import opened Outcomes
  import opened Search
  import opened TypeGraph
  import opened ServerActionTypes
  import opened ServerActionFindings

  // ---------- A guarded signature the target does not match ----------

  /** `typ` at parameter `index` is a trusted shape. */
  ghost predicate Guarded(g: Graph, signature: Signature, typ: TypeId, index: nat)
    requires TypedSignature(g, signature)
  {
    && index < ParameterSlotCount(g, signature)
    && typ in ParameterCandidates(g, signature, index)
    && Describable(g, typ)
  }

  /** A receiver that supplies nothing, something unguarded or an `any` for the guarded parameter. */
  ghost predicate Drops(g: Graph, candidate: Signature, typ: TypeId, index: nat)
    requires TypedSignature(g, candidate)
  {
    var supplied := ParameterCandidates(g, candidate, index);
    supplied == [] || exists slot | slot in supplied :: !Describable(g, slot) || CarriesAny(g, slot, typ)
  }

  ghost predicate DroppedBy(g: Graph, signature: Signature, candidate: Signature)
    requires TypedSignature(g, signature) && TypedSignature(g, candidate)
  {
    exists typ: TypeId, index: nat :: Guarded(g, signature, typ, index) && Drops(g, candidate, typ, index)
  }

  ghost predicate TypedSignatures(g: Graph, signatures: seq<Signature>) {
    forall s | s in signatures :: TypedSignature(g, s)
  }

  ghost predicate LosesSignature(g: Graph, signature: Signature, receiving: seq<Signature>)
    requires TypedSignature(g, signature) && TypedSignatures(g, receiving)
  {
    || (receiving == [] && exists typ: TypeId, index: nat :: Guarded(g, signature, typ, index))
    || exists candidate | candidate in receiving :: DroppedBy(g, signature, candidate)
  }

  ghost predicate LosesOneOf(g: Graph, signatures: seq<Signature>, receiving: seq<Signature>)
    requires TypedSignatures(g, signatures) && TypedSignatures(g, receiving)
  {
    exists s | s in signatures :: LosesSignature(g, s, receiving)
  }

  predicate IsObject(g: Graph, t: TypeId)
    requires g.Has(t)
  {
    var shape := g.Shape(t);
    shape.ArrayOf? || shape.TupleOf? || shape.ObjectType?
  }

  /** Neither side is opened any further before their members are compared. */
  predicate Compared(g: Graph, source: TypeId, target: TypeId)
    requires g.Has(source) && g.Has(target)
  {
    IsObject(g, source) && !g.Shape(target).Union?
  }

  ghost predicate LosesHere(g: Graph, pair: Pair)
    requires g.WellFormed()
  {
    && g.Has(pair.value) && g.Has(pair.target) && Compared(g, pair.value, pair.target)
    && (SignaturesExist(g, pair.value); SignaturesExist(g, pair.target);
        || LosesOneOf(g, g.types[pair.value].calls, g.types[pair.target].calls)
        || LosesOneOf(g, g.types[pair.value].constructs, g.types[pair.target].constructs))
  }

  lemma SignaturesExist(g: Graph, t: TypeId)
    requires g.WellFormed() && g.Has(t)
    ensures TypedSignatures(g, g.types[t].calls) && TypedSignatures(g, g.types[t].constructs)
  {
    assert g.WellFormedType(g.types[t]);
    forall s | s in g.types[t].calls + g.types[t].constructs
      ensures TypedSignature(g, s)
    {
      assert g.WellFormedSignature(s);
    }
  }

  // ---------- The same access path in both types ----------

  function OrUnknown(g: Graph, slots: seq<TypeId>): seq<TypeId> {
    if slots == [] then [g.unknownType] else slots
  }

  function Assignable(g: Graph, source: TypeId, members: seq<TypeId>): (kept: seq<TypeId>)
    ensures forall m :: m in kept <==> m in members && g.assignable(source, m)
  {
    if members == [] then []
    else if g.assignable(source, members[0]) then [members[0]] + Assignable(g, source, members[1..])
    else Assignable(g, source, members[1..])
  }

  /** The union members the source can flow into, or every one when none accepts it. */
  function UnionSlots(g: Graph, source: TypeId, target: TypeId): seq<TypeId>
    requires g.Has(target)
  {
    var members := g.WithoutNullish(target);
    var assignable := Assignable(g, source, members);
    OrUnknown(g, if assignable == [] then members else assignable)
  }

  function ElementReceivers(g: Graph, target: TypeId, index: nat): seq<TypeId>
    requires g.Has(target)
  {
    var slots := g.ElementCandidates(target, index);
    if slots != [] then slots
    else OrUnknown(g, if g.types[target].numberIndex.Some? then [g.types[target].numberIndex.value] else [])
  }

  function PropertyReceivers(g: Graph, target: TypeId, name: string): seq<TypeId>
    requires g.Has(target)
  {
    match g.FindProperty(g.types[target].properties, name)
    case Some(p) => [p.typ]
    case None => OrUnknown(g, g.IndexTypes(g.types[target].indexes, (key: TypeId) => g.stringKeyFits(name, key)))
  }

  function IndexReceivers(g: Graph, target: TypeId, keyType: TypeId): seq<TypeId>
    requires g.Has(target)
  {
    OrUnknown(g, g.IndexTypes(g.types[target].indexes, (key: TypeId) => g.assignable(keyType, key)))
  }

  /** One step of a shared access path. */
  predicate Leads(g: Graph, pair: Pair, next: Pair) {
    var source, target := pair.value, pair.target;
    g.Has(source) && g.Has(target) &&
    match g.Shape(source)
    case TypeParameter(None) => false
    case TypeParameter(Some(c)) => next == Pair(c, target)
    case Union(parts) => next.target == target && next.value in parts
    case Intersection(parts) => next.target == target && next.value in parts
    case _ =>
      if g.Shape(target).Union? then next.value == source && next.target in UnionSlots(g, source, target)
      else IsObject(g, source) && LeadsInside(g, source, target, next)
  }

  predicate LeadsInside(g: Graph, source: TypeId, target: TypeId, next: Pair)
    requires g.Has(source) && g.Has(target)
  {
    match g.ElementTypes(source)
    case Some(elements) =>
      exists i | 0 <= i < |elements| :: next.value == elements[i] && next.target in ElementReceivers(g, target, i)
    case None => LeadsByName(g, source, target, next) || LeadsByIndex(g, source, target, next)
  }

  predicate LeadsByName(g: Graph, source: TypeId, target: TypeId, next: Pair)
    requires g.Has(source) && g.Has(target)
  {
    exists p | p in g.types[source].properties ::
      next.value == p.typ && next.target in PropertyReceivers(g, target, p.name)
  }

  predicate LeadsByIndex(g: Graph, source: TypeId, target: TypeId, next: Pair)
    requires g.Has(source) && g.Has(target)
  {
    exists i | i in g.types[source].indexes ::
      next.value == i.typ && next.target in IndexReceivers(g, target, i.keyType)
  }

  lemma ReceiversExist(g: Graph, source: TypeId, target: TypeId, index: nat, name: string, keyType: TypeId)
    requires g.WellFormed() && g.Has(target)
    ensures forall t | t in UnionSlots(g, source, target) :: g.Has(t)
    ensures forall t | t in ElementReceivers(g, target, index) :: g.Has(t)
    ensures forall t | t in PropertyReceivers(g, target, name) :: g.Has(t)
    ensures forall t | t in IndexReceivers(g, target, keyType) :: g.Has(t)
  {
    assert g.WellFormedType(g.types[target]);
    g.WellFormedMembers(target);
    g.WellFormedElements(target);
  }

  /** A type never loses anything to itself. */
  ghost function LossEdges(g: Graph): (Pair, Pair) -> bool {
    (pair: Pair, next: Pair) => pair.value != pair.target && Leads(g, pair, next)
  }

  ghost function LossGoal(g: Graph): Pair -> bool
    requires g.WellFormed()
  {
    (pair: Pair) => pair.value != pair.target && LosesHere(g, pair)
  }

  /** The specification: some access path reaches a guarded signature the target does not match. */
  ghost predicate Loses(g: Graph, source: TypeId, target: TypeId)
    requires g.WellFormed()
  {
    Reaches(LossEdges(g), LossGoal(g), Pair(source, target))
  }

  // ---------- The search ----------

  ghost predicate PairSeen(pairs: set<Pair>, pair: Pair) {
    pair in pairs || pair.value == pair.target
  }

  ghost predicate LossExplored(g: Graph, before: set<Pair>, after: set<Pair>)
    requires g.WellFormed()
  {
    && before <= after <= AllPairs(g)
    && forall pair | pair in after && pair !in before ::
         !LosesHere(g, pair) && forall next | Leads(g, pair, next) :: PairSeen(after, next)
  }

  lemma NoLossExplored(g: Graph, pairs: set<Pair>)
    requires g.WellFormed() && pairs <= AllPairs(g)
    ensures LossExplored(g, pairs, pairs)
  {
  }

  lemma LossExploreOn(g: Graph, a: set<Pair>, b: set<Pair>, c: set<Pair>)
    requires g.WellFormed() && LossExplored(g, a, b) && LossExplored(g, b, c)
    ensures LossExplored(g, a, c)
    ensures forall pair | PairSeen(b, pair) :: PairSeen(c, pair)
  {
    hide LosesHere, Leads;
  }

  lemma LossExploredFromNothing(g: Graph, after: set<Pair>, pair: Pair)
    requires g.WellFormed() && LossExplored(g, {}, after) && PairSeen(after, pair)
    ensures !Loses(g, pair.value, pair.target)
  {
    hide LosesHere, Leads;
    ClosedRegionReachesNothing(LossEdges(g), LossGoal(g), (iset x | PairSeen(after, x)), pair);
  }

  class ProvenanceSearch {
    const g: Graph
    const inspector: ParameterInspector
    const anySearch: AnyContextSearch

    ghost predicate Valid() {
      g.WellFormed() && inspector.g == g && anySearch.g == g && anySearch.inspector.g == g
    }

    constructor (g: Graph)
      requires g.WellFormed()
      ensures Valid() && this.g == g
    {
      var shared := new ParameterInspector(g);
      var search := new AnyContextSearch(g, shared);
      this.g, inspector, anySearch := g, shared, search;
    }

    /** True exactly when the conversion discards a guarded signature somewhere. */
    method LosesGuardedSignature(source: TypeId, target: TypeId) returns (loses: bool)
      requires Valid() && g.Has(source) && g.Has(target)
      ensures loses <==> Loses(g, source, target)
    {
      var seen := new Seen<Pair>();
      loses := Search(source, target, seen);
      if !loses {
        LossExploredFromNothing(g, seen.members, Pair(source, target));
      }
    }

    method Search(source: TypeId, target: TypeId, seen: Seen<Pair>) returns (loses: bool)
      requires Valid() && g.Has(source) && g.Has(target) && seen.members <= AllPairs(g)
      modifies seen
      ensures old(seen.members) <= seen.members <= AllPairs(g)
      ensures loses ==> Loses(g, source, target)
      ensures !loses ==> LossExplored(g, old(seen.members), seen.members) && PairSeen(seen.members, Pair(source, target))
      decreases AllPairs(g) - seen.members, 0
    {
      hide LosesHere, Leads;
      var pair := Pair(source, target);
      if source == target || pair in seen.members {
        return false;
      }
      seen.Add(pair);
      assert pair in AllPairs(g);
      loses := SearchPair(pair, seen);
      if loses {
        if LosesHere(g, pair) {
          GoalIsReached(LossEdges(g), LossGoal(g), pair);
        } else {
          ghost var next :| Leads(g, pair, next) && Loses(g, next.value, next.target);
          EdgeExtendsReach(LossEdges(g), LossGoal(g), pair, next);
        }
      }
    }

    /** Open the source, then the target, then compare signatures and members. */
    method SearchPair(pair: Pair, seen: Seen<Pair>) returns (loses: bool)
      requires Valid() && g.Has(pair.value) && g.Has(pair.target) && seen.members <= AllPairs(g)
      modifies seen
      ensures old(seen.members) <= seen.members <= AllPairs(g)
      ensures loses ==>
        LosesHere(g, pair) || exists next :: Leads(g, pair, next) && Loses(g, next.value, next.target)
      ensures !loses ==>
        && !LosesHere(g, pair)
        && LossExplored(g, old(seen.members), seen.members)
        && forall next | Leads(g, pair, next) :: PairSeen(seen.members, next)
      decreases AllPairs(g) - seen.members, 5
    {
      hide Loses, LossExplored, LosesOneOf, LeadsInside, UnionSlots;
      var source, target := pair.value, pair.target;
      assert g.WellFormedType(g.types[source]);
      NoLossExplored(g, seen.members);
      match g.Shape(source)
      case TypeParameter(None) => loses := false;
      case TypeParameter(Some(c)) =>
        loses := Search(c, target, seen);
        assert Leads(g, pair, Pair(c, target));
      case Union(parts) =>
        loses := SearchParts(parts, target, seen);
        assert forall part | part in parts :: Leads(g, pair, Pair(part, target));
      case Intersection(parts) =>
        loses := SearchParts(parts, target, seen);
        assert forall part | part in parts :: Leads(g, pair, Pair(part, target));
      case _ =>
        if g.Shape(target).Union? {
          ReceiversExist(g, source, target, 0, "", 0);
          loses := SearchSlots(source, UnionSlots(g, source, target), seen);
          assert forall slot | slot in UnionSlots(g, source, target) :: Leads(g, pair, Pair(source, slot));
        } else if !IsObject(g, source) {
          loses := false;
        } else {
          SignaturesExist(g, source);
          SignaturesExist(g, target);
          loses := LosesSignatures(g.types[source].calls, g.types[target].calls);
          if !loses {
            loses := LosesSignatures(g.types[source].constructs, g.types[target].constructs);
          }
          if !loses {
            loses := SearchInside(source, target, seen);
          }
        }
    }

    /** Each guarded signature of the source against every signature that may receive it. */
    method LosesSignatures(signatures: seq<Signature>, receiving: seq<Signature>) returns (loses: bool)
      requires Valid() && TypedSignatures(g, signatures) && TypedSignatures(g, receiving)
      ensures loses <==> LosesOneOf(g, signatures, receiving)
    {
      hide Guarded, Drops;
      for i := 0 to |signatures|
        invariant forall k | 0 <= k < i :: !LosesSignature(g, signatures[k], receiving)
      {
        var guarded := GuardedParameters(signatures[i]);
        if guarded != [] {
          if receiving == [] {
            assert Guarded(g, signatures[i], guarded[0].0, guarded[0].1);
            assert LosesSignature(g, signatures[i], receiving);
            return true;
          }
          for j := 0 to |receiving|
            invariant forall k | 0 <= k < j :: !DroppedBy(g, signatures[i], receiving[k])
          {
            var drops := DropsOneOf(receiving[j], guarded);
            if drops {
              ghost var k :| 0 <= k < |guarded| && Drops(g, receiving[j], guarded[k].0, guarded[k].1);
              assert (guarded[k].0, guarded[k].1) in guarded;
              assert DroppedBy(g, signatures[i], receiving[j]);
              assert LosesSignature(g, signatures[i], receiving);
              return true;
            }
          }
        }
      }
      loses := false;
    }

    /** Guarded slots of a signature, by type and index. */
    method GuardedParameters(signature: Signature) returns (guarded: seq<(TypeId, nat)>)
      requires Valid() && TypedSignature(g, signature)
      ensures forall typ: TypeId, index: nat :: (typ, index) in guarded <==> Guarded(g, signature, typ, index)
      ensures forall slot | slot in guarded :: g.Has(slot.0)
    {
      hide Describable, ParameterCandidates;
      guarded := [];
      for i := 0 to ParameterSlotCount(g, signature)
        invariant forall typ: TypeId, index: nat :: (typ, index) in guarded <==> index < i && Guarded(g, signature, typ, index)
        invariant forall slot | slot in guarded :: g.Has(slot.0)
      {
        CandidatesExist(g, signature, i);
        var described := Described(ParameterCandidates(g, signature, i), i);
        guarded := guarded + described;
      }
    }

    method Described(types: seq<TypeId>, index: nat) returns (kept: seq<(TypeId, nat)>)
      requires Valid() && forall t | t in types :: g.Has(t)
      ensures forall typ: TypeId, at: nat :: (typ, at) in kept <==> typ in types && Describable(g, typ) && at == index
      ensures forall slot | slot in kept :: g.Has(slot.0)
    {
      hide Describable;
      kept := [];
      for i := 0 to |types|
        invariant forall typ: TypeId, at: nat :: (typ, at) in kept <==> typ in types[..i] && Describable(g, typ) && at == index
        invariant forall slot | slot in kept :: g.Has(slot.0)
      {
        var reason := inspector.Describe(types[i]);
        if reason.Some? {
          kept := kept + [(types[i], index)];
        }
      }
      assert types[..|types|] == types;
    }

    method DropsOneOf(candidate: Signature, guarded: seq<(TypeId, nat)>) returns (drops: bool)
      requires Valid() && TypedSignature(g, candidate) && forall slot | slot in guarded :: g.Has(slot.0)
      ensures drops <==> exists i :: 0 <= i < |guarded| && Drops(g, candidate, guarded[i].0, guarded[i].1)
    {
      hide Describable, CarriesAny, ParameterCandidates;
      for i := 0 to |guarded|
        invariant forall k | 0 <= k < i :: !Drops(g, candidate, guarded[k].0, guarded[k].1)
      {
        var supplied := ParameterCandidates(g, candidate, guarded[i].1);
        CandidatesExist(g, candidate, guarded[i].1);
        if supplied == [] {
          return true;
        }
        for j := 0 to |supplied|
          invariant forall k | 0 <= k < j :: Describable(g, supplied[k]) && !CarriesAny(g, supplied[k], guarded[i].0)
        {
          var reason := inspector.Describe(supplied[j]);
          if reason.None? {
            assert supplied[j] in supplied;
            return true;
          }
          var carries := anySearch.CarriesAnyContext(supplied[j], guarded[i].0);
          if carries {
            assert supplied[j] in supplied;
            return true;
          }
        }
      }
      drops := false;
    }

    /** Elements in order, or else properties by name and then index signatures. */
    method SearchInside(source: TypeId, target: TypeId, seen: Seen<Pair>) returns (loses: bool)
      requires Valid() && g.Has(source) && g.Has(target) && seen.members <= AllPairs(g)
      modifies seen
      ensures old(seen.members) <= seen.members <= AllPairs(g)
      ensures loses ==> exists next :: LeadsInside(g, source, target, next) && Loses(g, next.value, next.target)
      ensures !loses ==>
        && LossExplored(g, old(seen.members), seen.members)
        && forall next | LeadsInside(g, source, target, next) :: PairSeen(seen.members, next)
      decreases AllPairs(g) - seen.members, 4
    {
      hide Loses, LossExplored, LeadsByName, LeadsByIndex;
      match g.ElementTypes(source)
      case Some(elements) =>
        loses := SearchElements(source, target, elements, seen);
        assert forall i, slot | 0 <= i < |elements| && slot in ElementReceivers(g, target, i) ::
            LeadsInside(g, source, target, Pair(elements[i], slot));
      case None =>
        loses := SearchByName(source, target, seen);
        if !loses {
          ghost var before := seen.members;
          loses := SearchByIndex(source, target, seen);
          if !loses {
            LossExploreOn(g, old(seen.members), before, seen.members);
          }
        }
    }

    method SearchElements(source: TypeId, target: TypeId, elements: seq<TypeId>, seen: Seen<Pair>) returns (loses: bool)
      requires Valid() && g.Has(source) && g.Has(target) && g.ElementTypes(source) == Some(elements)
      requires seen.members <= AllPairs(g)
      modifies seen
      ensures old(seen.members) <= seen.members <= AllPairs(g)
      ensures loses ==>
        exists i, slot :: 0 <= i < |elements| && slot in ElementReceivers(g, target, i) && Loses(g, elements[i], slot)
      ensures !loses ==>
        && LossExplored(g, old(seen.members), seen.members)
        && forall i, slot | 0 <= i < |elements| && slot in ElementReceivers(g, target, i) ::
             PairSeen(seen.members, Pair(elements[i], slot))
      decreases AllPairs(g) - seen.members, 3
    {
      hide Loses, LossExplored, PairSeen, ElementReceivers;
      g.WellFormedElements(source);
      NoLossExplored(g, seen.members);
      for i := 0 to |elements|
        invariant old(seen.members) <= seen.members <= AllPairs(g)
        invariant LossExplored(g, old(seen.members), seen.members)
        invariant forall k, slot | 0 <= k < i && slot in ElementReceivers(g, target, k) ::
                    PairSeen(seen.members, Pair(elements[k], slot))
      {
        ghost var before := seen.members;
        ReceiversExist(g, source, target, i, "", 0);
        loses := SearchSlots(elements[i], ElementReceivers(g, target, i), seen);
        if loses {
          return;
        }
        LossExploreOn(g, old(seen.members), before, seen.members);
      }
      loses := false;
    }

    method SearchByName(source: TypeId, target: TypeId, seen: Seen<Pair>) returns (loses: bool)
      requires Valid() && g.Has(source) && g.Has(target) && seen.members <= AllPairs(g)
      modifies seen
      ensures old(seen.members) <= seen.members <= AllPairs(g)
      ensures loses ==> exists next :: LeadsByName(g, source, target, next) && Loses(g, next.value, next.target)
      ensures !loses ==>
        && LossExplored(g, old(seen.members), seen.members)
        && forall next | LeadsByName(g, source, target, next) :: PairSeen(seen.members, next)
      decreases AllPairs(g) - seen.members, 3
    {
      hide Loses, LossExplored, PairSeen, PropertyReceivers;
      var properties := g.types[source].properties;
      NoLossExplored(g, seen.members);
      for i := 0 to |properties|
        invariant old(seen.members) <= seen.members <= AllPairs(g)
        invariant LossExplored(g, old(seen.members), seen.members)
        invariant forall k, slot | 0 <= k < i && slot in PropertyReceivers(g, target, properties[k].name) ::
                    PairSeen(seen.members, Pair(properties[k].typ, slot))
      {
        ghost var before := seen.members;
        g.WellFormedSlots(source, "");
        ReceiversExist(g, source, target, 0, properties[i].name, 0);
        assert properties[i] in properties;
        loses := SearchSlots(properties[i].typ, PropertyReceivers(g, target, properties[i].name), seen);
        if loses {
          ghost var slot :| slot in PropertyReceivers(g, target, properties[i].name) && Loses(g, properties[i].typ, slot);
          assert LeadsByName(g, source, target, Pair(properties[i].typ, slot));
          return;
        }
        LossExploreOn(g, old(seen.members), before, seen.members);
      }
      loses := false;
    }

    method SearchByIndex(source: TypeId, target: TypeId, seen: Seen<Pair>) returns (loses: bool)
      requires Valid() && g.Has(source) && g.Has(target) && seen.members <= AllPairs(g)
      modifies seen
      ensures old(seen.members) <= seen.members <= AllPairs(g)
      ensures loses ==> exists next :: LeadsByIndex(g, source, target, next) && Loses(g, next.value, next.target)
      ensures !loses ==>
        && LossExplored(g, old(seen.members), seen.members)
        && forall next | LeadsByIndex(g, source, target, next) :: PairSeen(seen.members, next)
      decreases AllPairs(g) - seen.members, 3
    {
      hide Loses, LossExplored, PairSeen, IndexReceivers;
      var indexes := g.types[source].indexes;
      NoLossExplored(g, seen.members);
      for i := 0 to |indexes|
        invariant old(seen.members) <= seen.members <= AllPairs(g)
        invariant LossExplored(g, old(seen.members), seen.members)
        invariant forall k, slot | 0 <= k < i && slot in IndexReceivers(g, target, indexes[k].keyType) ::
                    PairSeen(seen.members, Pair(indexes[k].typ, slot))
      {
        ghost var before := seen.members;
        g.WellFormedSlots(source, "");
        ReceiversExist(g, source, target, 0, "", indexes[i].keyType);
        assert indexes[i] in indexes;
        loses := SearchSlots(indexes[i].typ, IndexReceivers(g, target, indexes[i].keyType), seen);
        if loses {
          ghost var slot :| slot in IndexReceivers(g, target, indexes[i].keyType) && Loses(g, indexes[i].typ, slot);
          assert LeadsByIndex(g, source, target, Pair(indexes[i].typ, slot));
          return;
        }
        LossExploreOn(g, old(seen.members), before, seen.members);
      }
      loses := false;
    }

    method SearchParts(parts: seq<TypeId>, target: TypeId, seen: Seen<Pair>) returns (loses: bool)
      requires Valid() && g.Has(target) && forall p | p in parts :: g.Has(p)
      requires seen.members <= AllPairs(g)
      modifies seen
      ensures old(seen.members) <= seen.members <= AllPairs(g)
      ensures loses ==> exists part :: part in parts && Loses(g, part, target)
      ensures !loses ==>
        && LossExplored(g, old(seen.members), seen.members)
        && forall part | part in parts :: PairSeen(seen.members, Pair(part, target))
      decreases AllPairs(g) - seen.members, 1
    {
      hide Loses, LossExplored, PairSeen;
      NoLossExplored(g, seen.members);
      for i := 0 to |parts|
        invariant old(seen.members) <= seen.members <= AllPairs(g)
        invariant LossExplored(g, old(seen.members), seen.members)
        invariant forall k | 0 <= k < i :: PairSeen(seen.members, Pair(parts[k], target))
      {
        ghost var before := seen.members;
        loses := Search(parts[i], target, seen);
        if loses {
          return;
        }
        LossExploreOn(g, old(seen.members), before, seen.members);
      }
      loses := false;
    }

    method SearchSlots(value: TypeId, slots: seq<TypeId>, seen: Seen<Pair>) returns (loses: bool)
      requires Valid() && g.Has(value) && forall s | s in slots :: g.Has(s)
      requires seen.members <= AllPairs(g)
      modifies seen
      ensures old(seen.members) <= seen.members <= AllPairs(g)
      ensures loses ==> exists slot :: slot in slots && Loses(g, value, slot)
      ensures !loses ==>
        && LossExplored(g, old(seen.members), seen.members)
        && forall slot | slot in slots :: PairSeen(seen.members, Pair(value, slot))
      decreases AllPairs(g) - seen.members, 1
    {
      hide Loses, LossExplored, PairSeen;
      NoLossExplored(g, seen.members);
      for i := 0 to |slots|
        invariant old(seen.members) <= seen.members <= AllPairs(g)
        invariant LossExplored(g, old(seen.members), seen.members)
        invariant forall k | 0 <= k < i :: PairSeen(seen.members, Pair(value, slots[k]))
      {
        ghost var before := seen.members;
        loses := Search(value, slots[i], seen);
        if loses {
          return;
        }
        LossExploreOn(g, old(seen.members), before, seen.members);
      }
      loses := false;
    }
  }
}
