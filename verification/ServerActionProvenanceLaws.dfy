/**
 * What the conversion check of `scripts/server-action-provenance.ts` answers, one step at a
 * time: over the declared parameters, members, properties, index signatures and lists of both
 * types, without the receivers and edges the search computes.
 */
module ServerActionProvenanceLaws {
  import opened Outcomes
  import opened TypeGraph
  import opened TupleLists
  import opened ServerActionTypes
  import opened ServerActionTypeLaws
  import opened ServerActionFindings
  import opened ServerActionProvenance

  // ---------- Signatures ----------

  /** A position of the declared parameters; a rest list has one for each of its elements. */
  predicate IsParameterSlot(g: Graph, signature: Signature, index: nat)
    requires TypedSignature(g, signature)
  {
    || index < |signature.parameters|
    || (TakesRest(g, signature, index)
        && var rest := signature.parameters[OwnParameters(signature)];
        IsList(g, rest) && index < OwnParameters(signature) + |ElementsOf(g, rest)|)
  }

  /** The candidate does not keep the guard of `typ` at `index`: nothing is received there, or something unguarded or an `any`. */
  ghost predicate Unguards(g: Graph, candidate: Signature, index: nat, typ: TypeId)
    requires TypedSignature(g, candidate)
  {
    || (forall slot: TypeId :: !MayReceive(g, candidate, index, slot))
    || exists slot: TypeId :: MayReceive(g, candidate, index, slot) && (!Describable(g, slot) || CarriesAny(g, slot, typ))
  }

  /** A trusted parameter that no receiving signature declares, or that one of them does not guard. */
  ghost predicate GuardIsLost(g: Graph, signature: Signature, receiving: seq<Signature>)
    requires TypedSignature(g, signature) && TypedSignatures(g, receiving)
  {
    exists index: nat, typ: TypeId ::
      && IsParameterSlot(g, signature, index) && MayReceive(g, signature, index, typ) && Describable(g, typ)
      && (receiving == [] || exists candidate :: candidate in receiving && Unguards(g, candidate, index, typ))
  }

  lemma SlotCountIff(g: Graph, signature: Signature, index: nat)
    requires TypedSignature(g, signature)
    ensures index < ParameterSlotCount(g, signature) <==> IsParameterSlot(g, signature, index)
  {
    if signature.rest && signature.parameters != [] {
      var rest := signature.parameters[OwnParameters(signature)];
      assert g.ElementTypes(rest).Some? <==> IsList(g, rest);
    }
  }

  lemma GuardedIff(g: Graph, signature: Signature, typ: TypeId, index: nat)
    requires TypedSignature(g, signature)
    ensures Guarded(g, signature, typ, index)
            <==> IsParameterSlot(g, signature, index) && MayReceive(g, signature, index, typ) && Describable(g, typ)
  {
    hide Describable, ParameterCandidates, MayReceive, ParameterSlotCount, IsParameterSlot;
    SlotCountIff(g, signature, index);
    CandidatesIff(g, signature, index, typ);
  }

  lemma DropsIff(g: Graph, candidate: Signature, typ: TypeId, index: nat)
    requires TypedSignature(g, candidate)
    ensures Drops(g, candidate, typ, index) <==> Unguards(g, candidate, index, typ)
  {
    hide Describable, CarriesAny, ParameterCandidates, MayReceive;
    var supplied := ParameterCandidates(g, candidate, index);
    forall slot: TypeId
      ensures slot in supplied <==> MayReceive(g, candidate, index, slot)
    {
      CandidatesIff(g, candidate, index, slot);
    }
    if supplied != [] {
      assert supplied[0] in supplied;
    }
  }

  lemma LosesSignatureIff(g: Graph, signature: Signature, receiving: seq<Signature>)
    requires TypedSignature(g, signature) && TypedSignatures(g, receiving)
    ensures LosesSignature(g, signature, receiving) <==> GuardIsLost(g, signature, receiving)
  {
    hide Guarded, Drops, Unguards, MayReceive, IsParameterSlot, Describable, TypedSignature;
    forall typ: TypeId, index: nat
      ensures Guarded(g, signature, typ, index)
              <==> IsParameterSlot(g, signature, index) && MayReceive(g, signature, index, typ) && Describable(g, typ)
    {
      GuardedIff(g, signature, typ, index);
    }
    forall typ: TypeId, index: nat, candidate | candidate in receiving
      ensures Drops(g, candidate, typ, index) <==> Unguards(g, candidate, index, typ)
    {
      DropsIff(g, candidate, typ, index);
    }
  }

  ghost predicate SignaturesLost(g: Graph, signatures: seq<Signature>, receiving: seq<Signature>)
    requires TypedSignatures(g, signatures) && TypedSignatures(g, receiving)
  {
    exists signature :: signature in signatures && GuardIsLost(g, signature, receiving)
  }

  // ---------- The same path in both types ----------

  /** The real members of a union that accept the source; every one if none does; `unknown` without any. */
  ghost predicate UnionReceives(g: Graph, source: TypeId, target: TypeId, slot: TypeId)
    requires g.Has(target)
  {
    || (RealMember(g, target, slot)
        && (g.assignable(source, slot) || forall m: TypeId | RealMember(g, target, m) :: !g.assignable(source, m)))
    || ((forall m: TypeId :: !RealMember(g, target, m)) && slot == g.unknownType)
  }

  ghost predicate StandsInList(g: Graph, target: TypeId, index: nat, slot: TypeId)
    requires g.Has(target)
  {
    IsList(g, target) && exists j: nat :: IsCandidate(ElementsOf(g, target), j, index) && ElementsOf(g, target)[j].typ == slot
  }

  /** An element meets what may stand at its index, or else the number index, or else `unknown`. */
  ghost predicate IndexReceives(g: Graph, target: TypeId, index: nat, slot: TypeId)
    requires g.Has(target)
  {
    if exists t: TypeId :: StandsInList(g, target, index, t) then StandsInList(g, target, index, slot)
    else if g.types[target].numberIndex.Some? then slot == g.types[target].numberIndex.value
    else slot == g.unknownType
  }

  /** A property meets the one declared by its name, or else the index signatures for that string, or else `unknown`. */
  ghost predicate NameReceives(g: Graph, target: TypeId, name: string, slot: TypeId)
    requires g.Has(target)
  {
    var indexes := g.types[target].indexes;
    if Mentions(g, target, name) then DeclaresAs(g, target, name, slot)
    else if exists i :: i in indexes && g.stringKeyFits(name, i.keyType) then
      exists i :: i in indexes && g.stringKeyFits(name, i.keyType) && i.typ == slot
    else slot == g.unknownType
  }

  /** An index signature meets those whose key accepts its own, or else `unknown`. */
  ghost predicate KeyReceives(g: Graph, target: TypeId, key: TypeId, slot: TypeId)
    requires g.Has(target)
  {
    var indexes := g.types[target].indexes;
    if exists i :: i in indexes && g.assignable(key, i.keyType) then
      exists i :: i in indexes && g.assignable(key, i.keyType) && i.typ == slot
    else slot == g.unknownType
  }

  /** A part of an object source and the slot of the target on the same path. */
  ghost predicate PartMeets(g: Graph, source: TypeId, part: TypeId, target: TypeId, slot: TypeId)
    requires g.Has(source) && g.Has(target)
  {
    if IsList(g, source) then
      exists i: nat :: i < |ElementsOf(g, source)| && ElementsOf(g, source)[i].typ == part && IndexReceives(g, target, i, slot)
    else
      || (exists p :: p in g.types[source].properties && p.typ == part && NameReceives(g, target, p.name, slot))
      || (exists i :: i in g.types[source].indexes && i.typ == part && KeyReceives(g, target, i.keyType, slot))
  }

  /** The conversion of `source` to `target` converts `part` to `slot`. */
  ghost predicate Converts(g: Graph, source: TypeId, target: TypeId, part: TypeId, slot: TypeId)
    requires g.Has(source) && g.Has(target)
  {
    match g.types[source].shape
    case TypeParameter(constraint) => constraint == Some(part) && slot == target
    case Union(parts) => part in parts && slot == target
    case Intersection(parts) => part in parts && slot == target
    case _ =>
      if g.types[target].shape.Union? then part == source && UnionReceives(g, source, target, slot)
      else (IsList(g, source) || g.types[source].shape.ObjectType?) && PartMeets(g, source, part, target, slot)
  }

  lemma UnionSlotsIff(g: Graph, source: TypeId, target: TypeId, slot: TypeId)
    requires g.WellFormed() && g.Has(target)
    ensures slot in UnionSlots(g, source, target) <==> UnionReceives(g, source, target, slot)
  {
    var members := g.WithoutNullish(target);
    forall m: TypeId
      ensures m in members <==> RealMember(g, target, m)
    {
      MembersAreReal(g, target, m);
    }
    hide RealMember;
    var kept := Assignable(g, source, members);
    if kept != [] {
      assert kept[0] in kept;
    }
    if members != [] {
      assert members[0] in members;
    }
  }

  lemma ElementReceiversIff(g: Graph, target: TypeId, index: nat, slot: TypeId)
    requires g.Has(target)
    ensures slot in ElementReceivers(g, target, index) <==> IndexReceives(g, target, index, slot)
  {
    var slots := g.ElementCandidates(target, index);
    forall t: TypeId
      ensures t in slots <==> StandsInList(g, target, index, t)
    {
      if IsList(g, target) {
        CandidatesByElement(g, target, index, t);
      }
    }
    hide StandsInList;
    if slots != [] {
      assert slots[0] in slots;
    }
  }

  lemma FittingIndexes(g: Graph, target: TypeId, fits: TypeId -> bool, slot: TypeId)
    requires g.Has(target)
    ensures
      var indexes := g.types[target].indexes;
      slot in OrUnknown(g, Graph.IndexTypes(indexes, fits))
      <==> if exists i :: i in indexes && fits(i.keyType) then exists i :: i in indexes && fits(i.keyType) && i.typ == slot
           else slot == g.unknownType
  {
    var types := Graph.IndexTypes(g.types[target].indexes, fits);
    if types != [] {
      assert types[0] in types;
    }
    if i :| i in g.types[target].indexes && fits(i.keyType) {
      assert i.typ in types;
    }
  }

  lemma PropertyReceiversIff(g: Graph, target: TypeId, name: string, slot: TypeId)
    requires g.Has(target)
    ensures slot in PropertyReceivers(g, target, name) <==> NameReceives(g, target, name, slot)
  {
    MentionsIsHasProperty(g, target, name);
    if Mentions(g, target, name) {
      var k := FirstProperty(g.types[target].properties, name);
      assert forall j: nat | IsFirst(g.types[target].properties, name, j) :: j == k;
    } else {
      FittingIndexes(g, target, (key: TypeId) => g.stringKeyFits(name, key), slot);
    }
  }

  lemma IndexReceiversIff(g: Graph, target: TypeId, key: TypeId, slot: TypeId)
    requires g.Has(target)
    ensures slot in IndexReceivers(g, target, key) <==> KeyReceives(g, target, key, slot)
  {
    FittingIndexes(g, target, (other: TypeId) => g.assignable(key, other), slot);
  }

  lemma InsideIff(g: Graph, source: TypeId, target: TypeId, next: Pair)
    requires g.Has(source) && g.Has(target)
    ensures LeadsInside(g, source, target, next) <==> PartMeets(g, source, next.value, target, next.target)
  {
    hide ElementReceivers, IndexReceives, PropertyReceivers, NameReceives, IndexReceivers, KeyReceives;
    forall index: nat
      ensures next.target in ElementReceivers(g, target, index) <==> IndexReceives(g, target, index, next.target)
    {
      ElementReceiversIff(g, target, index, next.target);
    }
    forall name: string
      ensures next.target in PropertyReceivers(g, target, name) <==> NameReceives(g, target, name, next.target)
    {
      PropertyReceiversIff(g, target, name, next.target);
    }
    forall key: TypeId
      ensures next.target in IndexReceivers(g, target, key) <==> KeyReceives(g, target, key, next.target)
    {
      IndexReceiversIff(g, target, key, next.target);
    }
    if IsList(g, source) {
      var elements := ElementsOf(g, source);
      assert forall i: nat | i < |elements| :: g.ElementTypes(source).value[i] == elements[i].typ;
    }
  }

  lemma LeadsIff(g: Graph, source: TypeId, target: TypeId, next: Pair)
    requires g.WellFormed() && g.Has(source) && g.Has(target)
    ensures Leads(g, Pair(source, target), next) <==> Converts(g, source, target, next.value, next.target)
  {
    hide LeadsInside, PartMeets, UnionSlots, UnionReceives;
    InsideIff(g, source, target, next);
    UnionSlotsIff(g, source, target, next.target);
  }

  // ---------- A conversion that loses a guard ----------

  /** Objects whose call or construct signatures lose a guard between them. */
  ghost predicate LosesGuard(g: Graph, source: TypeId, target: TypeId)
    requires g.WellFormed() && g.Has(source) && g.Has(target)
  {
    && (IsList(g, source) || g.types[source].shape.ObjectType?)
    && !g.types[target].shape.Union?
    && (SignaturesExist(g, source); SignaturesExist(g, target);
        || SignaturesLost(g, g.types[source].calls, g.types[target].calls)
        || SignaturesLost(g, g.types[source].constructs, g.types[target].constructs))
  }

  lemma LosesOneOfIff(g: Graph, signatures: seq<Signature>, receiving: seq<Signature>)
    requires TypedSignatures(g, signatures) && TypedSignatures(g, receiving)
    ensures LosesOneOf(g, signatures, receiving) <==> SignaturesLost(g, signatures, receiving)
  {
    hide LosesSignature, GuardIsLost, TypedSignature;
    forall s | s in signatures
      ensures LosesSignature(g, s, receiving) <==> GuardIsLost(g, s, receiving)
    {
      LosesSignatureIff(g, s, receiving);
    }
  }

  lemma LosesHereIff(g: Graph, source: TypeId, target: TypeId)
    requires g.WellFormed() && g.Has(source) && g.Has(target)
    ensures LosesHere(g, Pair(source, target)) <==> LosesGuard(g, source, target)
  {
    SignaturesExist(g, source);
    SignaturesExist(g, target);
    hide LosesOneOf, SignaturesLost, TypedSignatures;
    LosesOneOfIff(g, g.types[source].calls, g.types[target].calls);
    LosesOneOfIff(g, g.types[source].constructs, g.types[target].constructs);
  }

  /**
   * Converting one type to another loses a guard exactly when the types differ and their own
   * signatures lose one, or some part is converted to a slot in a way that does.
   */
  lemma LosesUnfolds(g: Graph, source: TypeId, target: TypeId)
    requires g.WellFormed() && g.Has(source) && g.Has(target)
    ensures Loses(g, source, target)
            <==> && source != target
                 && (LosesGuard(g, source, target)
                     || exists part: TypeId, slot: TypeId :: Converts(g, source, target, part, slot) && Loses(g, part, slot))
  {
    var pair := Pair(source, target);
    ReachUnfolds(LossEdges(g), LossGoal(g), pair);
    LosesHereIff(g, source, target);
    hide Leads, LosesHere, LosesGuard, Converts;
    if next :| Leads(g, pair, next) && Loses(g, next.value, next.target) {
      LeadsIff(g, source, target, next);
    }
    if part: TypeId, slot: TypeId :| Converts(g, source, target, part, slot) && Loses(g, part, slot) {
      LeadsIff(g, source, target, Pair(part, slot));
      assert Loses(g, Pair(part, slot).value, Pair(part, slot).target);
    }
    assert forall next: Pair :: next == Pair(next.value, next.target);
  }
}
