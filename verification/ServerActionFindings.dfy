/**
 * From slots to findings (`scripts/server-action-call-targets.ts`): the parameters a slot
 * may reach, `.bind` counts, `.apply` and Reflect forwarding, and the report itself.
 */
module ServerActionFindings {
  import opened Outcomes
  import opened TupleLists
  import opened TypeGraph
  import opened ServerActionTypes
  import opened ServerActionCallTargets
  import S = Search

  // ---------- Declared parameters ----------

  ghost predicate TypedSignature(g: Graph, signature: Signature) {
    forall p | p in signature.parameters :: g.Has(p)
  }

  /** The type of a `...rest` parameter. */
  function RestType(signature: Signature): Option<TypeId> {
    if signature.rest && signature.parameters != [] then Some(signature.parameters[|signature.parameters| - 1]) else None
  }

  /** Number of logical slots, expanding tuple-rest parameters. */
  function ParameterSlotCount(g: Graph, signature: Signature): nat
    requires TypedSignature(g, signature)
  {
    var expanded := match RestType(signature) {
      case Some(rest) => (match g.ElementTypes(rest) case Some(elements) => |elements| case None => 0)
      case None => 0
    };
    |signature.parameters| + (if expanded > 1 then expanded - 1 else 0)
  }

  /** The declared parameter types that may receive the value at `index`. */
  function ParameterCandidates(g: Graph, signature: Signature, index: nat): seq<TypeId>
    requires TypedSignature(g, signature)
  {
    var last := |signature.parameters| - 1;
    if RestType(signature).Some? && index >= last then
      var rest := RestType(signature).value;
      if g.ElementTypes(rest).Some? then g.ElementCandidates(rest, index - last) else [rest]
    else if index < |signature.parameters| then [signature.parameters[index]]
    else []
  }

  // ---------- Which declared parameter receives an argument ----------

  /** The `...rest` parameter, declared last, is not a parameter of its own. */
  function OwnParameters(signature: Signature): nat {
    if signature.rest && |signature.parameters| > 0 then |signature.parameters| - 1 else |signature.parameters|
  }

  predicate TakesRest(g: Graph, signature: Signature, position: nat)
    requires TypedSignature(g, signature)
  {
    signature.rest && |signature.parameters| > 0 && position >= OwnParameters(signature)
  }

  /**
   * In a call the argument at `position` is received as a `typ`: by the parameter at that
   * place; or past them by the list of the rest parameter, where that element stands at its
   * index in some run-time list. A rest that is no list type, such as a generic one, is
   * received whole.
   */
  ghost predicate Receives(g: Graph, signature: Signature, position: nat, typ: TypeId)
    requires TypedSignature(g, signature)
  {
    if TakesRest(g, signature, position) then
      var rest := signature.parameters[OwnParameters(signature)];
      if g.ElementTypes(rest).None? then typ == rest
      else TypeMaySit(g, rest, position - OwnParameters(signature), typ)
    else position < |signature.parameters| && signature.parameters[position] == typ
  }

  /** The rest list has an element whose index is only known to lie past the fixed ones. */
  ghost predicate MayReceive(g: Graph, signature: Signature, position: nat, typ: TypeId)
    requires TypedSignature(g, signature)
  {
    if TakesRest(g, signature, position) then
      var rest := signature.parameters[OwnParameters(signature)];
      if g.ElementTypes(rest).None? then typ == rest
      else exists i: nat :: IsCandidate(ElementsOf(g, rest), i, position - OwnParameters(signature))
             && ElementsOf(g, rest)[i].typ == typ
    else position < |signature.parameters| && signature.parameters[position] == typ
  }

  /** The candidates are the types that may receive the argument, and no others. */
  lemma CandidatesIff(g: Graph, signature: Signature, position: nat, typ: TypeId)
    requires TypedSignature(g, signature)
    ensures typ in ParameterCandidates(g, signature, position) <==> MayReceive(g, signature, position, typ)
  {
    if TakesRest(g, signature, position) {
      var rest := signature.parameters[OwnParameters(signature)];
      if g.ElementTypes(rest).Some? {
        CandidatesByElement(g, rest, position - OwnParameters(signature), typ);
      }
    }
  }

  /** Every received type is a candidate, and every candidate is received there or at a later position. */
  lemma CandidatesCoverReceivers(g: Graph, signature: Signature, position: nat, typ: TypeId)
    requires TypedSignature(g, signature)
    ensures Receives(g, signature, position, typ) ==> typ in ParameterCandidates(g, signature, position)
    ensures typ in ParameterCandidates(g, signature, position) ==>
      exists later: nat :: later >= position && Receives(g, signature, later, typ)
  {
    hide ParameterCandidates, TypeMaySit, MaySit, IsCandidate;
    CandidatesIff(g, signature, position, typ);
    if TakesRest(g, signature, position) && g.ElementTypes(signature.parameters[OwnParameters(signature)]).Some? {
      var own := OwnParameters(signature);
      var rest := signature.parameters[own];
      CandidateStandsLater(g, rest, position - own, typ);
      if index: nat :| index >= position - own && TypeMaySit(g, rest, index, typ) {
        assert Receives(g, signature, own + index, typ);
      }
    } else {
      assert MayReceive(g, signature, position, typ) ==> Receives(g, signature, position, typ);
    }
  }

  lemma CandidateStandsLater(g: Graph, rest: TypeId, index: nat, typ: TypeId)
    requires g.Has(rest) && g.ElementTypes(rest).Some?
    ensures TypeMaySit(g, rest, index, typ) ==>
      exists i: nat :: IsCandidate(ElementsOf(g, rest), i, index) && ElementsOf(g, rest)[i].typ == typ
    ensures forall i: nat | IsCandidate(ElementsOf(g, rest), i, index) && ElementsOf(g, rest)[i].typ == typ ::
      exists later: nat :: later >= index && TypeMaySit(g, rest, later, typ)
  {
    var elements := ElementsOf(g, rest);
    if i: nat :| i < |elements| && MaySit(elements, i, index) && elements[i].typ == typ {
      SittingIsCandidate(elements, i, index);
    }
    forall i: nat | IsCandidate(elements, i, index) && elements[i].typ == typ
      ensures exists later: nat :: later >= index && TypeMaySit(g, rest, later, typ)
    {
      var later := if index < FixedBefore(elements, i) then FixedBefore(elements, i) else index;
      StandsFrom(elements, i, index, later);
      assert TypeMaySit(g, rest, later, typ);
    }
  }

  lemma StandsFrom(elements: seq<Element>, i: nat, index: nat, later: nat)
    requires IsCandidate(elements, i, index) && later == if index < FixedBefore(elements, i) then FixedBefore(elements, i) else index
    ensures MaySit(elements, i, later)
  {
    MaySitIff(elements, i, later);
    FixedBeforeFacts(elements, i);
  }

  /** A rest list whose elements are each found at their own index or at every later one. */
  predicate ExactRest(g: Graph, signature: Signature)
    requires TypedSignature(g, signature)
  {
    signature.rest && |signature.parameters| > 0 ==>
      var rest := signature.parameters[OwnParameters(signature)];
      g.ElementTypes(rest).Some? ==> FixedOnlyLast(ElementsOf(g, rest))
  }

  /** With at most a last fixed element after the variable one, the candidates are exactly the received types. */
  lemma CandidatesAreReceivers(g: Graph, signature: Signature, position: nat, typ: TypeId)
    requires TypedSignature(g, signature) && ExactRest(g, signature)
    ensures typ in ParameterCandidates(g, signature, position) <==> Receives(g, signature, position, typ)
  {
    CandidatesIff(g, signature, position, typ);
    CandidatesCoverReceivers(g, signature, position, typ);
    hide ParameterCandidates, MaySit, FixedOnlyLast;
    if MayReceive(g, signature, position, typ) && TakesRest(g, signature, position) {
      var own := OwnParameters(signature);
      var rest := signature.parameters[own];
      if g.ElementTypes(rest).Some? {
        var elements := ElementsOf(g, rest);
        var i: nat :| IsCandidate(elements, i, position - own) && elements[i].typ == typ;
        CandidatesExactIff(elements);
        assert MaySit(elements, i, position - own);
      }
    }
  }

  lemma CandidatesExist(g: Graph, signature: Signature, index: nat)
    requires g.WellFormed() && TypedSignature(g, signature)
    ensures forall c | c in ParameterCandidates(g, signature, index) :: g.Has(c)
  {
    if RestType(signature).Some? {
      g.WellFormedElements(RestType(signature).value);
    }
  }

  /** Where the finite scan of an open slot ends. */
  function ScanEnd(g: Graph, signature: Signature, from: nat): nat
    requires TypedSignature(g, signature)
  {
    var count := ParameterSlotCount(g, signature);
    if count < from + 1 then from + 1 else count
  }

  /** The finite scan misses nothing: a candidate at any later position is one at a scanned position. */
  lemma FiniteScanCoversAllPositions(g: Graph, signature: Signature, from: nat, position: nat, candidate: TypeId)
    requires TypedSignature(g, signature) && position >= from
    requires candidate in ParameterCandidates(g, signature, position)
    ensures exists q :: from <= q < ScanEnd(g, signature, from) && candidate in ParameterCandidates(g, signature, q)
  {
    var last := ScanEnd(g, signature, from) - 1;
    if position > last {
      assert candidate in ParameterCandidates(g, signature, last);
    }
  }

  // ---------- Bound parameters ----------

  predicate AnyOpen(slots: seq<Slot>) {
    exists i | 0 <= i < |slots| :: slots[i].open
  }

  function LessOne(n: nat): nat {
    if n == 0 then 0 else n - 1
  }

  /** Parameters bound by `.bind(this, …)`, or none when a spread hides how many. */
  method BoundParameterCount(g: Graph, args: seq<Arg>) returns (count: Option<nat>)
    requires Typed(g, args)
    ensures count == BoundCount(g, args)
  {
    var slots := ArgumentSlots(g, args, 0, false, None);
    count := if AnyOpen(slots) then None else Some(LessOne(|slots|));
  }

  function BoundCount(g: Graph, args: seq<Arg>): Option<nat>
    requires Typed(g, args)
  {
    var slots := ScanArgs(g, args, 0, false, None).slots;
    if AnyOpen(slots) then None else Some(LessOne(|slots|))
  }

  lemma TailIsOpen(g: Graph, arg: Arg, position: nat, open: bool)
    requires g.Has(arg.expr.typ) && arg.Spread? && !IsPlainLiteral(arg.expr) && TailTypes(g, arg.expr.typ) != []
    ensures AnyOpen(ArgSlots(g, arg, position, open, None).slots)
  {
    assert ArgSlots(g, arg, position, open, None).slots[|FixedTypes(g, arg.expr.typ)|].open;
  }

  lemma ArgWidth(g: Graph, arg: Arg, position: nat, open: bool, values: seq<Value>)
    requires g.Has(arg.expr.typ) && LiteralsTyped(g, [arg]) && Yields(g, arg, None, values)
    requires !AnyOpen(ArgSlots(g, arg, position, open, None).slots)
    ensures |values| <= |ArgSlots(g, arg, position, open, None).slots|
    ensures !CanFallShort(g, arg) ==> |values| == |ArgSlots(g, arg, position, open, None).slots|
    ensures |FullChunk(g, arg)| == |ArgSlots(g, arg, position, open, None).slots|
  {
    var slots := ArgSlots(g, arg, position, open, None).slots;
    assert arg in [arg];
    match arg
    case Plain(_) =>
    case Spread(_, e) =>
      if IsPlainLiteral(e) {
        LiteralListIsFixed(g, e);
      } else {
        var fixed, tail := FixedTypes(g, e.typ), TailTypes(g, e.typ);
        assert |values| > |fixed| ==> values[|fixed|].typ in tail;
        if tail != [] {
          TailIsOpen(g, arg, position, open);
          assert false;
        }
      }
  }

  lemma NotOpenSplits(a: seq<Slot>, b: seq<Slot>)
    requires !AnyOpen(a + b)
    ensures !AnyOpen(a) && !AnyOpen(b)
  {
    forall i | 0 <= i < |a|
      ensures !a[i].open
    {
      assert (a + b)[i] == a[i];
    }
    forall i | 0 <= i < |b|
      ensures !b[i].open
    {
      assert (a + b)[|a| + i] == b[i];
    }
  }

  /** Without an open slot a run has at most one value per slot, and exactly one unless a spread falls short. */
  lemma {:induction false} RunLength(g: Graph, args: seq<Arg>, chunks: seq<seq<Value>>)
    requires Typed(g, args) && LiteralsTyped(g, args) && IsRun(g, args, None, chunks)
    requires !AnyOpen(ScanArgs(g, args, 0, false, None).slots)
    ensures |Flatten(chunks)| <= |ScanArgs(g, args, 0, false, None).slots|
    ensures NoneFallsShort(g, args) ==> |Flatten(chunks)| == |ScanArgs(g, args, 0, false, None).slots|
    decreases |args|
  {
    if args != [] {
      var n := |args| - 1;
      assert args[n] in args && Typed(g, args[..n]) && LiteralsTyped(g, args[..n]);
      ScanLast(g, args, 0, false, None, chunks);
      var before := ScanArgs(g, args[..n], 0, false, None);
      var last := ArgSlots(g, args[n], before.next, before.open, None);
      NotOpenSplits(before.slots, last.slots);
      RunLength(g, args[..n], chunks[..n]);
      ArgWidth(g, args[n], before.next, before.open, chunks[n]);
      assert NoneFallsShort(g, args) ==> NoneFallsShort(g, args[..n]);
    }
  }

  /** Every argument in full, except a short one at `i`. */
  ghost function OneShort(g: Graph, args: seq<Arg>, i: nat): (chunks: seq<seq<Value>>)
    requires Typed(g, args) && i < |args| && CanFallShort(g, args[i])
    ensures |chunks| == |args|
  {
    seq(|args|, k requires 0 <= k < |args| =>
      assert args[k] in args;
      if k == i then ShortChunk(g, args[k]) else FullChunk(g, args[k]))
  }

  lemma OneShortRuns(g: Graph, args: seq<Arg>, i: nat)
    requires Typed(g, args) && LiteralsTyped(g, args) && i < |args| && CanFallShort(g, args[i])
    ensures IsRun(g, args, None, OneShort(g, args, i))
  {
    hide ShortChunk, FullChunk, Yields, CanFallShort, LiteralTyped;
    forall k | 0 <= k < |args|
      ensures Yields(g, args[k], None, OneShort(g, args, i)[k])
    {
      assert args[k] in args;
      ChunksAreYielded(g, args[k]);
    }
  }

  lemma {:induction false} OneShortLength(g: Graph, args: seq<Arg>, i: nat, n: nat)
    requires Typed(g, args) && LiteralsTyped(g, args) && i < |args| && n <= |args| && CanFallShort(g, args[i])
    requires Typed(g, args[..n]) && !AnyOpen(ScanArgs(g, args[..n], 0, false, None).slots)
    ensures |Flatten(OneShort(g, args, i)[..n])|
            == |ScanArgs(g, args[..n], 0, false, None).slots| - (if n > i then 1 else 0)
    decreases n
  {
    hide OneShort, ArgSlots, CanFallShort, LiteralsTyped, AnyOpen;
    if n > 0 {
      var chunks := OneShort(g, args, i);
      assert args[..n][..n - 1] == args[..n - 1] && chunks[..n][..n - 1] == chunks[..n - 1];
      assert Typed(g, args[..n - 1]) && args[n - 1] in args;
      ScanLast(g, args[..n], 0, false, None, chunks[..n]);
      var before := ScanArgs(g, args[..n - 1], 0, false, None);
      var last := ArgSlots(g, args[n - 1], before.next, before.open, None);
      NotOpenSplits(before.slots, last.slots);
      OneShortLength(g, args, i, n - 1);
      OneShortWidth(g, args, i, n - 1, before.next, before.open);
    }
  }

  lemma OneShortWidth(g: Graph, args: seq<Arg>, i: nat, k: nat, position: nat, open: bool)
    requires Typed(g, args) && LiteralsTyped(g, args) && i < |args| && k < |args| && CanFallShort(g, args[i])
    requires g.Has(args[k].expr.typ) && !AnyOpen(ArgSlots(g, args[k], position, open, None).slots)
    ensures |OneShort(g, args, i)[k]| == |ArgSlots(g, args[k], position, open, None).slots| - (if k == i then 1 else 0)
  {
    assert args[k] in args;
    ChunksAreYielded(g, args[k]);
    ArgWidth(g, args[k], position, open, FullChunk(g, args[k]));
  }

  /** A counted `.bind` is right for every run exactly when no spread can fall short, or at most one value is bound. */
  lemma BoundCountIff(g: Graph, args: seq<Arg>)
    requires Typed(g, args) && LiteralsTyped(g, args) && BoundCount(g, args).Some?
    ensures
      (forall chunks | IsRun(g, args, None, chunks) :: LessOne(|Flatten(chunks)|) == BoundCount(g, args).value)
      <==> NoneFallsShort(g, args) || |ScanArgs(g, args, 0, false, None).slots| <= 1
  {
    if NoneFallsShort(g, args) || |ScanArgs(g, args, 0, false, None).slots| <= 1 {
      forall chunks | IsRun(g, args, None, chunks)
        ensures LessOne(|Flatten(chunks)|) == BoundCount(g, args).value
      {
        RunLength(g, args, chunks);
      }
    } else {
      var i :| 0 <= i < |args| && CanFallShort(g, args[i]);
      var chunks := OneShort(g, args, i);
      assert args[..|args|] == args && chunks[..|args|] == chunks;
      OneShortRuns(g, args, i);
      OneShortLength(g, args, i, |args|);
    }
  }

  /** `fn.bind(self, ...maybe)` with `maybe: [string?]` counts one bound parameter; a run with an empty list binds none. */
  lemma OptionalElementMiscounts() returns (chunks: seq<seq<Value>>)
    ensures
      var args := [Plain(Other(12, 0)), Spread(10, Other(11, 3))];
      && Typed(OPTIONAL_TUPLE, args) && IsRun(OPTIONAL_TUPLE, args, None, chunks)
      && BoundCount(OPTIONAL_TUPLE, args) == Some(1) && LessOne(|Flatten(chunks)|) == 0
  {
    var g, args := OPTIONAL_TUPLE, [Plain(Other(12, 0)), Spread(10, Other(11, 3))];
    var e := g.Shape(3).elements;
    assert Graph.PrefixLength(e[1..]) == 0 && Graph.PrefixLength(e) == 1;
    assert FixedTypes(g, 3) == [2] && TailTypes(g, 3) == [];
    assert MayStopAt(g, 3, 0);
    var value := Value(12, 0, Some(Other(12, 0)));
    chunks := [[value], []];
    assert Yields(g, args[1], None, []) && Yields(g, args[0], None, [value]);
    assert chunks[..1] == [[value]] && chunks[..1][..0] == [] && Flatten(chunks[..1]) == [value];
    ScanTwo(g, args[0], args[1]);
    assert ScanArgs(g, args, 0, false, None).slots
           == [Slot(12, 0, 0, false, Some(Other(12, 0))), Slot(10, 2, 1, false, None)];
  }

  // ---------- Invocations ----------

  datatype Forwarder = Call | Apply | Bind

  /** What a call ultimately invokes and how its arguments line up with that function's parameters. */
  datatype Invoked = Invoked(
    signatures: seq<Signature>,
    firstArgument: nat,
    boundParameters: Option<nat>,
    applied: bool,
    appliedForwarder: Option<Forwarder>)

  /** An applied list never follows a bind, and only an applied list is forwarded once more. */
  predicate InvokedShape(invoked: Invoked) {
    && (invoked.applied ==> invoked.boundParameters == Some(0))
    && (invoked.appliedForwarder.Some? ==> invoked.applied)
  }

  /** Types exist throughout an expression and its nested literals. */
  ghost predicate TypedExpr(g: Graph, e: Expr)
    decreases e
  {
    && g.Has(e.typ)
    && (e.ArrayLiteral? ==>
          && Typed(g, e.elements)
          && forall i | 0 <= i < |e.elements| :: TypedExpr(g, e.elements[i].expr))
  }

  /** Literals are typed as fixed tuples, and no list shifts what follows it, at every depth. */
  ghost predicate SteadyExpr(g: Graph, e: Expr)
    requires TypedExpr(g, e)
    decreases e
  {
    e.ArrayLiteral? ==>
      && LiteralsTyped(g, e.elements) && Steady(g, e.elements)
      && forall i | 0 <= i < |e.elements| :: SteadyExpr(g, e.elements[i].expr)
  }

  ghost predicate TypedSlot(g: Graph, slot: Slot) {
    g.Has(slot.typ) && (slot.value.Some? ==> TypedExpr(g, slot.value.value))
  }

  ghost predicate SteadySlot(g: Graph, slot: Slot) {
    TypedSlot(g, slot) && (slot.value.Some? ==> SteadyExpr(g, slot.value.value))
  }

  ghost predicate TypedSlots(g: Graph, slots: seq<Slot>) {
    forall s | s in slots :: TypedSlot(g, s)
  }

  /** The values of an `.apply` list, or of a spread value's own list. */
  function ExpandSlot(g: Graph, slot: Slot, offset: nat, open: bool): seq<Slot>
    requires TypedSlot(g, slot)
  {
    match slot.value
    case None => SpreadSlots(g, slot.node, slot.typ, offset, open).slots
    case Some(e) =>
      if e.ArrayLiteral? then ScanArgs(g, e.elements, offset, open, Some(e.id)).slots
      else SpreadSlots(g, e.id, e.typ, offset, open).slots
  }

  function Filter(slots: seq<Slot>, keep: Slot -> bool): (kept: seq<Slot>)
    ensures forall s :: s in kept <==> s in slots && keep(s)
  {
    if slots == [] then []
    else if keep(slots[0]) then [slots[0]] + Filter(slots[1..], keep) else Filter(slots[1..], keep)
  }

  function Map(slots: seq<Slot>, f: Slot -> Slot): (mapped: seq<Slot>)
    ensures forall s | s in slots :: f(s) in mapped
    ensures forall m | m in mapped :: exists s :: s in slots && m == f(s)
  {
    if slots == [] then [] else [f(slots[0])] + Map(slots[1..], f)
  }

  function ExpandAll(g: Graph, slots: seq<Slot>, offset: nat, isOpen: Slot -> bool): (expanded: seq<Slot>)
    requires TypedSlots(g, slots)
    ensures forall s, x | s in slots && x in ExpandSlot(g, s, offset, isOpen(s)) :: x in expanded
    ensures forall x | x in expanded :: exists s :: s in slots && x in ExpandSlot(g, s, offset, isOpen(s))
  {
    if slots == [] then []
    else ExpandSlot(g, slots[0], offset, isOpen(slots[0])) + ExpandAll(g, slots[1..], offset, isOpen)
  }

  /** The first parameter-binding argument is at a known place. */
  predicate PositionsKnown(invoked: Invoked, all: seq<Slot>) {
    && invoked.boundParameters.Some?
    && forall s | s in all :: !(s.open && s.position < invoked.firstArgument)
  }

  function Offset(invoked: Invoked): nat {
    if invoked.boundParameters.Some? then invoked.boundParameters.value else 0
  }

  function Forwarded(invoked: Invoked, all: seq<Slot>): seq<Slot> {
    if PositionsKnown(invoked, all) then Filter(all, (s: Slot) => s.position >= invoked.firstArgument) else all
  }

  function Shifted(invoked: Invoked, known: bool, slot: Slot): Slot {
    slot.(position := if known && slot.position >= invoked.firstArgument
                      then slot.position - invoked.firstArgument + Offset(invoked) else 0,
          open := slot.open || !known)
  }

  /** The slots after the arguments are forwarded once. */
  function FirstSlots(g: Graph, invoked: Invoked, all: seq<Slot>): seq<Slot>
    requires TypedSlots(g, all)
  {
    var known := PositionsKnown(invoked, all);
    if invoked.applied then
      ExpandAll(g, Filter(Forwarded(invoked, all), (s: Slot) => !known || s.position == invoked.firstArgument),
                Offset(invoked), (s: Slot) => !known)
    else Map(Forwarded(invoked, all), (s: Slot) => Shifted(invoked, known, s))
  }

  /** The slots matched against the declared parameters. */
  function FinalSlots(g: Graph, invoked: Invoked, all: seq<Slot>): seq<Slot>
    requires TypedSlots(g, all)
    requires TypedSlots(g, FirstSlots(g, invoked, all))
  {
    var slots := FirstSlots(g, invoked, all);
    match invoked.appliedForwarder
    case None => slots
    case Some(Apply) => ExpandAll(g, Filter(slots, (s: Slot) => s.open || s.position == 1), Offset(invoked), (s: Slot) => s.open)
    case Some(_) =>
      Map(Filter(slots, (s: Slot) => s.open || s.position >= 1), (s: Slot) => s.(position := LessOne(s.position)))
  }

  // ---------- Every landing is covered ----------

  /** Opening a value into a list: a literal's own elements, or any list its type can be. */
  ghost predicate Opens(g: Graph, value: Value, inner: seq<Value>)
    requires g.Has(value.typ) && (value.source.Some? ==> TypedExpr(g, value.source.value))
  {
    match value.source
    case None => TypedList(g, value.node, value.typ, inner)
    case Some(e) =>
      if e.ArrayLiteral? then exists chunks :: IsRun(g, e.elements, Some(e.id), chunks) && inner == Flatten(chunks)
      else TypedList(g, e.id, e.typ, inner)
  }

  ghost predicate TypedValue(g: Graph, value: Value) {
    g.Has(value.typ) && (value.source.Some? ==> TypedExpr(g, value.source.value))
  }

  /**
   * `value` lands at declared parameter `position`. A direct call drops the arguments
   * before the first binding one and starts after the `bound` parameters; an applied one
   * opens the array at that argument; a forwarded `.call` or `.bind` drops the receiver
   * from the array, and a forwarded `.apply` opens the array inside it.
   */
  ghost predicate LandsAt(
      g: Graph, invoked: Invoked, bound: nat, values: seq<Value>, inner: seq<Value>, innermost: seq<Value>,
      position: nat, value: Value)
  {
    var first := invoked.firstArgument;
    if !invoked.applied then
      position >= bound && first + (position - bound) < |values| && value == values[first + (position - bound)]
    else
      && first < |values| && TypedValue(g, values[first]) && Opens(g, values[first], inner)
      && match invoked.appliedForwarder
         case None => position < |inner| && value == inner[position]
         case Some(Apply) =>
           && 1 < |inner| && TypedValue(g, inner[1]) && Opens(g, inner[1], innermost)
           && position < |innermost| && value == innermost[position]
         case Some(_) => position + 1 < |inner| && value == inner[position + 1]
  }

  lemma CoveredByMember(slots: seq<Slot>, position: nat, value: Value)
    ensures Covered(slots, position, value) <==> exists s :: s in slots && Covers(s, position, value)
  {
    if s :| s in slots && Covers(s, position, value) {
      var i :| 0 <= i < |slots| && slots[i] == s;
      assert Covers(slots[i], position, value);
    }
  }

  /** Opening a slot covers every value of the list it holds. */
  lemma ExpandCovers(g: Graph, slot: Slot, value: Value, inner: seq<Value>, offset: nat, open: bool, base: nat)
    requires SteadySlot(g, slot) && slot.node == value.node && slot.typ == value.typ && slot.value == value.source
    requires Opens(g, value, inner) && Bounds(offset, open, base)
    ensures AllCovered(ExpandSlot(g, slot, offset, open), base, inner)
  {
    match slot.value
    case None => SpreadCovers(g, slot.node, slot.typ, offset, open, base, inner);
    case Some(e) =>
      if e.ArrayLiteral? {
        var chunks :| IsRun(g, e.elements, Some(e.id), chunks) && inner == Flatten(chunks);
        AlignmentIsSound(g, e.elements, offset, open, Some(e.id), base, chunks);
      } else {
        SpreadCovers(g, e.id, e.typ, offset, open, base, inner);
      }
  }

  /** A direct call: dropping the leading arguments and adding the bound count keeps every value covered. */
  lemma DirectCovers(g: Graph, invoked: Invoked, all: seq<Slot>, bound: nat, i: nat, value: Value)
    requires !invoked.applied && i >= invoked.firstArgument && Covered(all, i, value)
    requires TypedSlots(g, all)
    requires invoked.boundParameters.Some? ==> bound == invoked.boundParameters.value
    ensures Covered(FirstSlots(g, invoked, all), i - invoked.firstArgument + bound, value)
  {
    CoveredByMember(all, i, value);
    var s :| s in all && Covers(s, i, value);
    var known := PositionsKnown(invoked, all);
    assert s in Forwarded(invoked, all);
    var shifted := Shifted(invoked, known, s);
    assert shifted in FirstSlots(g, invoked, all);
    assert Covers(shifted, i - invoked.firstArgument + bound, value);
    CoveredByMember(FirstSlots(g, invoked, all), i - invoked.firstArgument + bound, value);
  }

  /** The slot that may be the applied list is expanded. */
  lemma ListSlotIsExpanded(g: Graph, invoked: Invoked, all: seq<Slot>, s: Slot, list: Value)
    requires InvokedShape(invoked) && invoked.applied && TypedSlots(g, all)
    requires s in all && Covers(s, invoked.firstArgument, list)
    ensures forall x | x in ExpandSlot(g, s, 0, !PositionsKnown(invoked, all)) :: x in FirstSlots(g, invoked, all)
  {
    hide ExpandSlot, TypedSlot;
    var known := PositionsKnown(invoked, all);
    assert known ==> s.position == invoked.firstArgument;
    assert s in Forwarded(invoked, all);
  }

  /** An applied call: the slot that may be the list covers each of its values. */
  lemma AppliedCovers(g: Graph, invoked: Invoked, all: seq<Slot>, list: Value, inner: seq<Value>, k: nat)
    requires InvokedShape(invoked) && invoked.applied && k < |inner| && TypedSlots(g, all)
    requires forall s | s in all :: SteadySlot(g, s)
    requires Covered(all, invoked.firstArgument, list) && TypedValue(g, list) && Opens(g, list, inner)
    ensures Covered(FirstSlots(g, invoked, all), k, inner[k])
  {
    var known := PositionsKnown(invoked, all);
    CoveredByMember(all, invoked.firstArgument, list);
    var s :| s in all && Covers(s, invoked.firstArgument, list);
    ListSlotIsExpanded(g, invoked, all, s, list);
    ExpandCovers(g, s, list, inner, 0, !known, 0);
    hide FirstSlots, ExpandSlot, Opens, SteadySlot, PositionsKnown;
    var expanded := ExpandSlot(g, s, 0, !known);
    assert Covered(expanded, 0 + k, inner[k]);
    CoveredByMember(expanded, k, inner[k]);
    CoveredByMember(FirstSlots(g, invoked, all), k, inner[k]);
  }

  // ---------- Slots of well-typed arguments ----------

  /** Slots are typed, and with `steady` no literal among their values shifts what follows it. */
  ghost predicate GoodSlots(g: Graph, slots: seq<Slot>, steady: bool) {
    forall s | s in slots :: GoodSlot(g, s, steady)
  }

  ghost predicate GoodSlot(g: Graph, slot: Slot, steady: bool) {
    TypedSlot(g, slot) && (steady ==> SteadySlot(g, slot))
  }

  ghost predicate GoodExpr(g: Graph, e: Expr, steady: bool) {
    TypedExpr(g, e) && (steady ==> SteadyExpr(g, e))
  }

  ghost predicate GoodArgs(g: Graph, args: seq<Arg>, steady: bool) {
    Typed(g, args) && forall i | 0 <= i < |args| :: GoodExpr(g, args[i].expr, steady)
  }

  /** Arguments whose literals are typed, and that no list shifts, at every depth. */
  ghost predicate SteadyArgs(g: Graph, args: seq<Arg>) {
    GoodArgs(g, args, true) && LiteralsTyped(g, args) && Steady(g, args)
  }

  lemma ListTypesExist(g: Graph, t: TypeId)
    requires g.WellFormed() && g.Has(t)
    ensures forall x | x in FixedTypes(g, t) + TailTypes(g, t) :: g.Has(x)
  {
    assert g.WellFormedType(g.types[t]);
    g.WellFormedElements(t);
  }

  lemma SpreadIsGood(g: Graph, node: NodeId, t: TypeId, position: nat, open: bool, steady: bool)
    requires g.WellFormed() && g.Has(t)
    ensures GoodSlots(g, SpreadSlots(g, node, t, position, open).slots, steady)
  {
    ListTypesExist(g, t);
    hide FixedTypes, TailTypes, GoodSlot;
    var slots := SpreadSlots(g, node, t, position, open).slots;
    forall i | 0 <= i < |slots|
      ensures GoodSlot(g, slots[i], steady)
    {
      assert slots[i].typ == (FixedTypes(g, t) + TailTypes(g, t))[i];
      BareSlotIsGood(g, slots[i], steady);
    }
  }

  lemma BareSlotIsGood(g: Graph, slot: Slot, steady: bool)
    requires g.Has(slot.typ) && slot.value == None
    ensures GoodSlot(g, slot, steady)
  {
  }

  lemma ArgIsGood(g: Graph, arg: Arg, position: nat, open: bool, reportAs: Option<NodeId>, steady: bool)
    requires g.WellFormed() && GoodExpr(g, arg.expr, steady)
    ensures GoodSlots(g, ArgSlots(g, arg, position, open, reportAs).slots, steady)
  {
    if arg.Spread? {
      var spread := SpreadSlots(g, NodeOf(arg, reportAs), arg.expr.typ, position, open).slots;
      SpreadIsGood(g, NodeOf(arg, reportAs), arg.expr.typ, position, open, steady);
      assert forall i | 0 <= i < |spread| :: GoodSlot(g, spread[i], steady);
    }
  }

  lemma {:induction false} ScanIsGood(
      g: Graph, args: seq<Arg>, position: nat, open: bool, reportAs: Option<NodeId>, steady: bool)
    requires g.WellFormed() && GoodArgs(g, args, steady)
    ensures GoodSlots(g, ScanArgs(g, args, position, open, reportAs).slots, steady)
    decreases |args|
  {
    hide GoodExpr, ArgSlots, GoodSlot;
    if args != [] {
      var n := |args| - 1;
      assert args[n] in args && Typed(g, args[..n]);
      ScanIsGood(g, args[..n], position, open, reportAs, steady);
      var before := ScanArgs(g, args[..n], position, open, reportAs);
      ArgIsGood(g, args[n], before.next, before.open, reportAs, steady);
    }
  }

  lemma ExpandIsGood(g: Graph, slot: Slot, offset: nat, open: bool, steady: bool)
    requires g.WellFormed() && GoodSlot(g, slot, steady)
    ensures GoodSlots(g, ExpandSlot(g, slot, offset, open), steady)
  {
    match slot.value
    case None => SpreadIsGood(g, slot.node, slot.typ, offset, open, steady);
    case Some(e) =>
      if e.ArrayLiteral? {
        ScanIsGood(g, e.elements, offset, open, Some(e.id), steady);
      } else {
        SpreadIsGood(g, e.id, e.typ, offset, open, steady);
      }
  }

  lemma ExpandAllIsGood(g: Graph, slots: seq<Slot>, offset: nat, isOpen: Slot -> bool, steady: bool)
    requires g.WellFormed() && GoodSlots(g, slots, steady) && TypedSlots(g, slots)
    ensures GoodSlots(g, ExpandAll(g, slots, offset, isOpen), steady)
  {
    hide GoodSlot, TypedSlot, ExpandSlot;
    forall x | x in ExpandAll(g, slots, offset, isOpen)
      ensures GoodSlot(g, x, steady)
    {
      var s :| s in slots && TypedSlot(g, s) && x in ExpandSlot(g, s, offset, isOpen(s));
      ExpandIsGood(g, s, offset, isOpen(s), steady);
    }
  }

  lemma FirstSlotsAreGood(g: Graph, invoked: Invoked, all: seq<Slot>, steady: bool)
    requires g.WellFormed() && GoodSlots(g, all, steady)
    ensures TypedSlots(g, all)
    ensures GoodSlots(g, FirstSlots(g, invoked, all), steady) && TypedSlots(g, FirstSlots(g, invoked, all))
  {
    hide TypedExpr, SteadyExpr, ExpandAll;
    var known := PositionsKnown(invoked, all);
    if invoked.applied {
      ExpandAllIsGood(g, Filter(Forwarded(invoked, all), (s: Slot) => !known || s.position == invoked.firstArgument),
                      Offset(invoked), (s: Slot) => !known, steady);
    }
  }

  lemma FinalSlotsAreTyped(g: Graph, invoked: Invoked, all: seq<Slot>)
    requires g.WellFormed() && TypedSlots(g, all) && TypedSlots(g, FirstSlots(g, invoked, all))
    ensures TypedSlots(g, FinalSlots(g, invoked, all))
  {
    hide TypedExpr, SteadyExpr, ExpandAll, FirstSlots;
    if invoked.appliedForwarder == Some(Apply) {
      var slots := Filter(FirstSlots(g, invoked, all), (s: Slot) => s.open || s.position == 1);
      ExpandAllIsGood(g, slots, Offset(invoked), (s: Slot) => s.open, false);
    }
  }

  // ---------- The main theorem ----------

  /** A list argument forwarded by `Reflect.apply(fn.apply, …)`. */
  lemma InnerListCovers(g: Graph, invoked: Invoked, all: seq<Slot>, list: Value, innermost: seq<Value>, k: nat)
    requires InvokedShape(invoked) && invoked.appliedForwarder == Some(Apply) && k < |innermost|
    requires TypedSlots(g, all) && TypedSlots(g, FirstSlots(g, invoked, all)) && GoodSlots(g, FirstSlots(g, invoked, all), true)
    requires Covered(FirstSlots(g, invoked, all), 1, list) && TypedValue(g, list) && Opens(g, list, innermost)
    ensures Covered(FinalSlots(g, invoked, all), k, innermost[k])
  {
    hide FirstSlots, ExpandSlot, Opens, SteadySlot, TypedSlot, TypedExpr;
    var slots := FirstSlots(g, invoked, all);
    CoveredByMember(slots, 1, list);
    var s :| s in slots && Covers(s, 1, list);
    ExpandCovers(g, s, list, innermost, 0, s.open, 0);
    var expanded := ExpandSlot(g, s, 0, s.open);
    assert Covered(expanded, 0 + k, innermost[k]);
    CoveredByMember(expanded, k, innermost[k]);
    CoveredByMember(FinalSlots(g, invoked, all), k, innermost[k]);
  }

  /** A receiver dropped by `Reflect.apply(fn.call, …)` or `Reflect.apply(fn.bind, …)`. */
  lemma ReceiverDroppedCovers(g: Graph, invoked: Invoked, all: seq<Slot>, k: nat, value: Value)
    requires invoked.appliedForwarder == Some(Call) || invoked.appliedForwarder == Some(Bind)
    requires TypedSlots(g, all) && TypedSlots(g, FirstSlots(g, invoked, all))
    requires Covered(FirstSlots(g, invoked, all), k + 1, value)
    ensures Covered(FinalSlots(g, invoked, all), k, value)
  {
    hide FirstSlots, TypedSlot;
    var slots := FirstSlots(g, invoked, all);
    CoveredByMember(slots, k + 1, value);
    var s :| s in slots && Covers(s, k + 1, value);
    var dropped := s.(position := LessOne(s.position));
    assert dropped in FinalSlots(g, invoked, all) && Covers(dropped, k, value);
    CoveredByMember(FinalSlots(g, invoked, all), k, value);
  }

  lemma AppliedLandingIsCovered(
      g: Graph, invoked: Invoked, all: seq<Slot>, list: Value, inner: seq<Value>, innermost: seq<Value>,
      position: nat, value: Value)
    requires InvokedShape(invoked) && invoked.applied
    requires TypedSlots(g, all) && GoodSlots(g, all, true)
    requires TypedSlots(g, FirstSlots(g, invoked, all)) && GoodSlots(g, FirstSlots(g, invoked, all), true)
    requires Covered(all, invoked.firstArgument, list) && TypedValue(g, list) && Opens(g, list, inner)
    requires
      match invoked.appliedForwarder
      case None => position < |inner| && value == inner[position]
      case Some(Apply) =>
        && 1 < |inner| && TypedValue(g, inner[1]) && Opens(g, inner[1], innermost)
        && position < |innermost| && value == innermost[position]
      case Some(_) => position + 1 < |inner| && value == inner[position + 1]
    ensures Covered(FinalSlots(g, invoked, all), position, value)
  {
    hide FirstSlots, Opens, SteadySlot, TypedSlot, TypedExpr, Covered, ExpandAll;
    match invoked.appliedForwarder
    case None => AppliedCovers(g, invoked, all, list, inner, position);
    case Some(Apply) =>
      AppliedCovers(g, invoked, all, list, inner, 1);
      hide FinalSlots;
      InnerListCovers(g, invoked, all, inner[1], innermost, position);
    case Some(_) =>
      AppliedCovers(g, invoked, all, list, inner, position + 1);
      hide FinalSlots;
      ReceiverDroppedCovers(g, invoked, all, position, value);
  }

  lemma LandingIsCovered(
      g: Graph, invoked: Invoked, all: seq<Slot>, bound: nat, values: seq<Value>, inner: seq<Value>,
      innermost: seq<Value>, position: nat, value: Value)
    requires InvokedShape(invoked) && (invoked.boundParameters.Some? ==> bound == invoked.boundParameters.value)
    requires TypedSlots(g, all) && GoodSlots(g, all, true) && AllCovered(all, 0, values)
    requires TypedSlots(g, FirstSlots(g, invoked, all)) && GoodSlots(g, FirstSlots(g, invoked, all), true)
    requires LandsAt(g, invoked, bound, values, inner, innermost, position, value)
    ensures Covered(FinalSlots(g, invoked, all), position, value)
  {
    var first := invoked.firstArgument;
    hide FirstSlots, Opens, SteadySlot, TypedSlot, TypedExpr, Covered;
    if !invoked.applied {
      assert Covered(all, 0 + (first + (position - bound)), values[first + (position - bound)]);
      DirectCovers(g, invoked, all, bound, first + (position - bound), value);
    } else {
      hide FinalSlots;
      assert Covered(all, 0 + first, values[first]);
      AppliedLandingIsCovered(g, invoked, all, values[first], inner, innermost, position, value);
    }
  }

  /** Every value a run passes to a declared parameter sits in a slot that covers that position. */
  lemma EveryLandingIsCovered(
      g: Graph, args: seq<Arg>, invoked: Invoked, bound: nat, chunks: seq<seq<Value>>, inner: seq<Value>,
      innermost: seq<Value>, position: nat, value: Value)
    requires g.WellFormed() && SteadyArgs(g, args) && InvokedShape(invoked) && IsRun(g, args, None, chunks)
    requires invoked.boundParameters.Some? ==> bound == invoked.boundParameters.value
    requires LandsAt(g, invoked, bound, Flatten(chunks), inner, innermost, position, value)
    ensures
      var all := ScanArgs(g, args, 0, false, None).slots;
      && TypedSlots(g, all) && TypedSlots(g, FirstSlots(g, invoked, all))
      && Covered(FinalSlots(g, invoked, all), position, value)
  {
    var all, values, first := ScanArgs(g, args, 0, false, None).slots, Flatten(chunks), invoked.firstArgument;
    ScanIsGood(g, args, 0, false, None, true);
    FirstSlotsAreGood(g, invoked, all, true);
    AlignmentIsSound(g, args, 0, false, None, 0, chunks);
    hide FirstSlots, FinalSlots, LandsAt, SteadySlot, TypedSlot, ScanArgs, Flatten;
    LandingIsCovered(g, invoked, all, bound, values, inner, innermost, position, value);
  }

  // ---------- The report ----------

  ghost predicate TypedInvoked(g: Graph, invoked: Invoked) {
    InvokedShape(invoked) && forall s | s in invoked.signatures :: TypedSignature(g, s)
  }

  /** The slots a call is judged by. */
  ghost function CallSlots(g: Graph, args: seq<Arg>, invoked: Invoked): (slots: seq<Slot>)
    requires g.WellFormed() && GoodArgs(g, args, false)
    ensures TypedSlots(g, slots)
  {
    var all := ScanArgs(g, args, 0, false, None).slots;
    ScanIsGood(g, args, 0, false, None, false);
    FirstSlotsAreGood(g, invoked, all, false);
    FinalSlotsAreTyped(g, invoked, all);
    FinalSlots(g, invoked, all)
  }

  function From(low: nat, high: nat): (positions: seq<nat>)
    ensures forall q :: q in positions <==> low <= q < high
    decreases high - low
  {
    if high <= low then [] else [low] + From(low + 1, high)
  }

  /** The positions tried for a slot: all remaining ones when its own is only a lower bound. */
  function Tried(g: Graph, signature: Signature, known: bool, slot: Slot): (positions: seq<nat>)
    requires TypedSignature(g, signature)
    ensures slot.open ==>
      var from := if known then slot.position else 0;
      forall q :: q in positions <==> from <= q < ScanEnd(g, signature, from)
    ensures !slot.open ==> positions == [slot.position]
  {
    var from := if known then slot.position else 0;
    if slot.open then From(from, ScanEnd(g, signature, from)) else [slot.position]
  }

  function CandidatesAt(g: Graph, signature: Signature, positions: seq<nat>): (ts: seq<TypeId>)
    requires TypedSignature(g, signature)
    ensures forall c :: c in ts <==> exists q | q in positions :: c in ParameterCandidates(g, signature, q)
  {
    if positions == [] then []
    else ParameterCandidates(g, signature, positions[0]) + CandidatesAt(g, signature, positions[1..])
  }

  ghost predicate CarriesAnyOf(g: Graph, value: TypeId, targets: seq<TypeId>) {
    exists target :: target in targets && CarriesAny(g, value, target)
  }

  ghost predicate SlotReported(g: Graph, invoked: Invoked, known: bool, slot: Slot)
    requires TypedInvoked(g, invoked)
  {
    exists s | s in invoked.signatures :: CarriesAnyOf(g, slot.typ, CandidatesAt(g, s, Tried(g, s, known, slot)))
  }

  ghost predicate NodeReported(g: Graph, invoked: Invoked, known: bool, slots: seq<Slot>, node: NodeId)
    requires TypedInvoked(g, invoked)
  {
    exists slot | slot in slots :: slot.node == node && SlotReported(g, invoked, known, slot)
  }

  /** Only a described target can take an `any` it must not. */
  lemma CarriedTargetIsDescribed(g: Graph, value: TypeId, target: TypeId)
    requires CarriesAny(g, value, target)
    ensures Describable(g, target)
  {
    var edge, goal := MeetEdges(g), AnyInTrustedSlot(g);
    var path: seq<Pair> :| S.Walk(edge, path) && path[0] == Pair(value, target) && goal(path[|path| - 1]);
    if |path| > 1 {
      assert edge(path[0], path[0 + 1]);
    }
  }

  method FirstCarrying(search: AnyContextSearch, value: TypeId, targets: seq<TypeId>) returns (found: Option<TypeId>)
    requires search.g.WellFormed() && search.inspector.g == search.g
    requires search.g.Has(value) && forall t | t in targets :: search.g.Has(t)
    ensures found.Some? <==> CarriesAnyOf(search.g, value, targets)
    ensures found.Some? ==> found.value in targets && CarriesAny(search.g, value, found.value)
  {
    hide CarriesAny;
    for i := 0 to |targets|
      invariant !CarriesAnyOf(search.g, value, targets[..i])
    {
      var carries := search.CarriesAnyContext(value, targets[i]);
      if carries {
        return Some(targets[i]);
      }
    }
    assert targets[..|targets|] == targets;
    found := None;
  }

  /** The first signature, position and candidate that takes the slot's `any`. */
  method SlotFinding(search: AnyContextSearch, invoked: Invoked, known: bool, slot: Slot) returns (reason: Option<Reason>)
    requires search.g.WellFormed() && search.inspector.g == search.g
    requires search.g.Has(slot.typ) && TypedInvoked(search.g, invoked)
    ensures reason.Some? <==> SlotReported(search.g, invoked, known, slot)
  {
    hide CarriesAnyOf, CarriesAny, ParameterCandidates, ScanEnd, Describable;
    var g, signatures := search.g, invoked.signatures;
    for i := 0 to |signatures|
      invariant forall k | 0 <= k < i ::
        !CarriesAnyOf(g, slot.typ, CandidatesAt(g, signatures[k], Tried(g, signatures[k], known, slot)))
    {
      var candidates := CandidatesAt(g, signatures[i], Tried(g, signatures[i], known, slot));
      CandidatesAtExist(g, signatures[i], Tried(g, signatures[i], known, slot));
      var target := FirstCarrying(search, slot.typ, candidates);
      if target.Some? {
        CarriedTargetIsDescribed(g, slot.typ, target.value);
        reason := search.inspector.Describe(target.value);
        return;
      }
    }
    reason := None;
  }

  lemma CandidatesAtExist(g: Graph, signature: Signature, positions: seq<nat>)
    requires g.WellFormed() && TypedSignature(g, signature)
    ensures forall c | c in CandidatesAt(g, signature, positions) :: g.Has(c)
  {
    forall q: nat
      ensures forall c | c in ParameterCandidates(g, signature, q) :: g.Has(c)
    {
      CandidatesExist(g, signature, q);
    }
  }

  /** Arguments that hand an `any` to a trusted declared parameter: exactly the reported ones that are not exempt. */
  method DeclaredParameterFindings(search: AnyContextSearch, args: seq<Arg>, invoked: Invoked, isExempt: NodeId -> bool)
      returns (findings: map<NodeId, Reason>)
    requires search.g.WellFormed() && search.inspector.g == search.g
    requires GoodArgs(search.g, args, false) && TypedInvoked(search.g, invoked)
    ensures
      var known := PositionsKnown(invoked, ScanArgs(search.g, args, 0, false, None).slots);
      forall node ::
        node in findings
        <==> !isExempt(node) && NodeReported(search.g, invoked, known, CallSlots(search.g, args, invoked), node)
  {
    var g := search.g;
    var all := ArgumentSlots(g, args, 0, false, None);
    ScanIsGood(g, args, 0, false, None, false);
    FirstSlotsAreGood(g, invoked, all, false);
    FinalSlotsAreTyped(g, invoked, all);
    findings := SlotFindings(search, invoked, PositionsKnown(invoked, all), FinalSlots(g, invoked, all), isExempt);
  }

  method SlotFindings(search: AnyContextSearch, invoked: Invoked, known: bool, slots: seq<Slot>, isExempt: NodeId -> bool)
      returns (findings: map<NodeId, Reason>)
    requires search.g.WellFormed() && search.inspector.g == search.g
    requires TypedSlots(search.g, slots) && TypedInvoked(search.g, invoked)
    ensures forall node :: node in findings <==> !isExempt(node) && NodeReported(search.g, invoked, known, slots, node)
  {
    hide SlotReported, TypedExpr;
    findings := map[];
    for i := 0 to |slots|
      invariant forall node ::
        node in findings <==> !isExempt(node) && NodeReported(search.g, invoked, known, slots[..i], node)
    {
      var slot := slots[i];
      assert TypedSlot(search.g, slot);
      if slot.node !in findings && !isExempt(slot.node) {
        var reason := SlotFinding(search, invoked, known, slot);
        if reason.Some? {
          findings := findings[slot.node := reason.value];
        }
      }
      OneMoreSlot(search.g, invoked, known, slots, i);
    }
    assert slots[..|slots|] == slots;
  }

  lemma OneMoreSlot(g: Graph, invoked: Invoked, known: bool, slots: seq<Slot>, i: nat)
    requires TypedInvoked(g, invoked) && i < |slots|
    ensures forall node ::
      NodeReported(g, invoked, known, slots[..i + 1], node)
      <==> NodeReported(g, invoked, known, slots[..i], node)
           || (slots[i].node == node && SlotReported(g, invoked, known, slots[i]))
  {
    hide SlotReported;
    var more, fewer := slots[..i + 1], slots[..i];
    assert more == fewer + [slots[i]];
    assert forall s :: s in more <==> s in fewer || s == slots[i];
    forall node
      ensures NodeReported(g, invoked, known, more, node)
              <==> NodeReported(g, invoked, known, fewer, node)
                   || (slots[i].node == node && SlotReported(g, invoked, known, slots[i]))
    {
      if NodeReported(g, invoked, known, fewer, node) {
        var slot :| slot in fewer && slot.node == node && SlotReported(g, invoked, known, slot);
        assert slot in more;
      } else if slots[i].node == node && SlotReported(g, invoked, known, slots[i]) {
        assert slots[i] in more;
      }
    }
  }

  /**
   * The promise: whenever a run hands a value whose type puts an `any` where the declared
   * parameter that receives it expects a trusted shape, the argument it came from is
   * reported, or exempt.
   */
  lemma EveryReachedContextIsReported(
      g: Graph, args: seq<Arg>, invoked: Invoked, bound: nat, chunks: seq<seq<Value>>, inner: seq<Value>,
      innermost: seq<Value>, position: nat, value: Value, signature: Signature, candidate: TypeId)
    requires g.WellFormed() && SteadyArgs(g, args) && TypedInvoked(g, invoked) && IsRun(g, args, None, chunks)
    requires invoked.boundParameters.Some? ==> bound == invoked.boundParameters.value
    requires LandsAt(g, invoked, bound, Flatten(chunks), inner, innermost, position, value)
    requires signature in invoked.signatures && Receives(g, signature, position, candidate)
    requires CarriesAny(g, value.typ, candidate)
    ensures GoodArgs(g, args, false)
    ensures
      var known := PositionsKnown(invoked, ScanArgs(g, args, 0, false, None).slots);
      NodeReported(g, invoked, known, CallSlots(g, args, invoked), value.node)
  {
    EveryLandingIsCovered(g, args, invoked, bound, chunks, inner, innermost, position, value);
    var known := PositionsKnown(invoked, ScanArgs(g, args, 0, false, None).slots);
    var slots := CallSlots(g, args, invoked);
    hide CallSlots, FinalSlots, FirstSlots, PositionsKnown, CarriesAny, LandsAt, IsRun, SteadyArgs, ScanArgs, Receives,
      ParameterCandidates;
    CandidatesCoverReceivers(g, signature, position, candidate);
    CoveredByMember(slots, position, value);
    var slot :| slot in slots && Covers(slot, position, value);
    CoveringSlotIsReported(g, invoked, known, slot, position, signature, candidate);
  }

  lemma CoveringSlotIsReported(
      g: Graph, invoked: Invoked, known: bool, slot: Slot, position: nat, signature: Signature, candidate: TypeId)
    requires TypedInvoked(g, invoked) && signature in invoked.signatures
    requires if slot.open then slot.position <= position else slot.position == position
    requires candidate in ParameterCandidates(g, signature, position) && CarriesAny(g, slot.typ, candidate)
    ensures SlotReported(g, invoked, known, slot)
  {
    hide ParameterCandidates, CarriesAny, ScanEnd;
    var from := if known then slot.position else 0;
    if slot.open {
      FiniteScanCoversAllPositions(g, signature, from, position, candidate);
    }
    assert candidate in CandidatesAt(g, signature, Tried(g, signature, known, slot));
  }

  // ---------- Nothing else is reported ----------

  /** No argument is a spread. */
  predicate AllPlain(args: seq<Arg>) {
    forall a | a in args :: a.Plain?
  }

  /** An expression of type `typ`, received at `position`, may put an `any` where a trusted shape is expected. */
  ghost predicate ReachesAt(g: Graph, invoked: Invoked, position: nat, typ: TypeId)
    requires TypedInvoked(g, invoked)
  {
    exists s, c: TypeId :: s in invoked.signatures && MayReceive(g, s, position, c) && CarriesAny(g, typ, c)
  }

  function PlainSlot(arg: Arg, position: nat, reportAs: Option<NodeId>): Slot {
    Slot(NodeOf(arg, reportAs), arg.expr.typ, position, false, Some(arg.expr))
  }

  lemma {:induction false} PlainScan(g: Graph, args: seq<Arg>, reportAs: Option<NodeId>)
    requires Typed(g, args) && AllPlain(args)
    ensures
      var scan := ScanArgs(g, args, 0, false, reportAs);
      && !scan.open && scan.next == |args| && |scan.slots| == |args|
      && forall i | 0 <= i < |args| :: scan.slots[i] == PlainSlot(args[i], i, reportAs)
    decreases |args|
  {
    if args != [] {
      var n := |args| - 1;
      assert args[n] in args && Typed(g, args[..n]) && AllPlain(args[..n]);
      PlainScan(g, args[..n], reportAs);
      assert ArgSlots(g, args[n], n, false, reportAs) == Scan([PlainSlot(args[n], n, reportAs)], n + 1, false);
      hide ArgSlots, PlainSlot, NodeOf;
      var before := ScanArgs(g, args[..n], 0, false, reportAs);
      assert ScanArgs(g, args, 0, false, reportAs).slots == before.slots + [PlainSlot(args[n], n, reportAs)];
    }
  }

  /** A slot at an exact place is reported exactly when its value reaches a trusted shape from there. */
  lemma ClosedSlotReportedIff(g: Graph, invoked: Invoked, known: bool, slot: Slot)
    requires TypedInvoked(g, invoked) && !slot.open
    ensures SlotReported(g, invoked, known, slot) <==> ReachesAt(g, invoked, slot.position, slot.typ)
  {
    hide ParameterCandidates, MayReceive, CarriesAny;
    forall s, c | s in invoked.signatures
      ensures c in ParameterCandidates(g, s, slot.position) <==> MayReceive(g, s, slot.position, c)
    {
      CandidatesIff(g, s, slot.position, c);
    }
    forall s | s in invoked.signatures
      ensures CarriesAnyOf(g, slot.typ, CandidatesAt(g, s, Tried(g, s, known, slot)))
              <==> exists c: TypeId :: MayReceive(g, s, slot.position, c) && CarriesAny(g, slot.typ, c)
    {
      assert Tried(g, s, known, slot)[0] == slot.position;
    }
  }

  /**
   * In a direct call without spreads an argument is reported if and only if the parameter
   * that receives it expects a trusted shape where it puts an `any`.
   */
  lemma PlainCallReportsIff(g: Graph, args: seq<Arg>, invoked: Invoked, node: NodeId)
    requires g.WellFormed() && GoodArgs(g, args, false) && TypedInvoked(g, invoked) && AllPlain(args)
    requires !invoked.applied && invoked.boundParameters.Some?
    ensures
      var known := PositionsKnown(invoked, ScanArgs(g, args, 0, false, None).slots);
      NodeReported(g, invoked, known, CallSlots(g, args, invoked), node)
      <==> exists i :: invoked.firstArgument <= i < |args| && args[i].expr.id == node
             && ReachesAt(g, invoked, i - invoked.firstArgument + invoked.boundParameters.value, args[i].expr.typ)
  {
    var known, slots := PositionsKnown(invoked, ScanArgs(g, args, 0, false, None).slots), CallSlots(g, args, invoked);
    PlainCallSlots(g, args, invoked);
    hide *;
    ReceivedReportsIff(g, args, invoked, known, slots, node);
  }

  /** The argument at place `i`, at the parameter that receives it. */
  function Received(invoked: Invoked, arg: Arg, i: nat): Slot
    requires invoked.boundParameters.Some? && i >= invoked.firstArgument
  {
    Slot(arg.expr.id, arg.expr.typ, i - invoked.firstArgument + invoked.boundParameters.value, false, Some(arg.expr))
  }

  /** The slots are the received arguments. */
  predicate AreReceived(invoked: Invoked, args: seq<Arg>, slots: seq<Slot>)
    requires invoked.boundParameters.Some?
  {
    && (forall slot | slot in slots ::
          exists i | invoked.firstArgument <= i < |args| :: slot == Received(invoked, args[i], i))
    && forall i | invoked.firstArgument <= i < |args| :: Received(invoked, args[i], i) in slots
  }

  lemma ReceivedReportsIff(g: Graph, args: seq<Arg>, invoked: Invoked, known: bool, slots: seq<Slot>, node: NodeId)
    requires TypedInvoked(g, invoked) && invoked.boundParameters.Some? && AreReceived(invoked, args, slots)
    ensures NodeReported(g, invoked, known, slots, node)
            <==> exists i :: invoked.firstArgument <= i < |args| && args[i].expr.id == node
                   && ReachesAt(g, invoked, i - invoked.firstArgument + invoked.boundParameters.value, args[i].expr.typ)
  {
    hide SlotReported, ReachesAt, TypedInvoked;
    if NodeReported(g, invoked, known, slots, node) {
      var slot :| slot in slots && slot.node == node && SlotReported(g, invoked, known, slot);
      ClosedSlotReportedIff(g, invoked, known, slot);
    }
    if i :| && invoked.firstArgument <= i < |args| && args[i].expr.id == node
            && ReachesAt(g, invoked, i - invoked.firstArgument + invoked.boundParameters.value, args[i].expr.typ)
    {
      ClosedSlotReportedIff(g, invoked, known, Received(invoked, args[i], i));
    }
  }

  lemma PlainCallSlots(g: Graph, args: seq<Arg>, invoked: Invoked)
    requires g.WellFormed() && GoodArgs(g, args, false) && TypedInvoked(g, invoked) && AllPlain(args)
    requires !invoked.applied && invoked.boundParameters.Some?
    ensures AreReceived(invoked, args, CallSlots(g, args, invoked))
  {
    var all := ScanArgs(g, args, 0, false, None).slots;
    PlainScan(g, args, None);
    ScanIsGood(g, args, 0, false, None, false);
    FirstSlotsAreGood(g, invoked, all, false);
    assert CallSlots(g, args, invoked) == FirstSlots(g, invoked, all);
    hide *;
    PlainFirstSlots(g, args, invoked, all);
  }

  lemma PlainFirstSlots(g: Graph, args: seq<Arg>, invoked: Invoked, all: seq<Slot>)
    requires AllPlain(args) && !invoked.applied && invoked.boundParameters.Some? && TypedSlots(g, all)
    requires |all| == |args| && forall i | 0 <= i < |args| :: all[i] == PlainSlot(args[i], i, None)
    ensures AreReceived(invoked, args, FirstSlots(g, invoked, all))
  {
    hide TypedSlot;
    var first := invoked.firstArgument;
    forall i | 0 <= i < |args|
      ensures all[i].position == i && !all[i].open
      ensures i >= first ==> Shifted(invoked, true, all[i]) == Received(invoked, args[i], i)
    {
      assert args[i] in args;
    }
    forall slot | slot in FirstSlots(g, invoked, all)
      ensures exists i | first <= i < |args| :: slot == Received(invoked, args[i], i)
    {
      var s :| s in Forwarded(invoked, all) && slot == Shifted(invoked, true, s);
      var i :| 0 <= i < |all| && all[i] == s;
    }
    forall i | first <= i < |args|
      ensures Received(invoked, args[i], i) in FirstSlots(g, invoked, all)
    {
      assert all[i] in Forwarded(invoked, all);
    }
  }

  /** Where the parameter-binding arguments begin is known: the bound count is, and no open slot starts before them. */
  predicate StartsAt(invoked: Invoked, all: seq<Slot>) {
    invoked.boundParameters.Some? && forall s | s in all && s.open :: s.position >= invoked.firstArgument
  }

  /**
   * With spreads too: while the start is known, the slots from there on move to the
   * parameters after the bound ones, as open as they were; otherwise every slot is tried
   * from the first parameter on.
   */
  lemma DirectSlotsIff(g: Graph, invoked: Invoked, all: seq<Slot>, x: Slot)
    requires !invoked.applied && TypedSlots(g, all)
    ensures
      x in FirstSlots(g, invoked, all)
      <==> if StartsAt(invoked, all) then
             exists s :: s in all && s.position >= invoked.firstArgument
               && x == Slot(s.node, s.typ, s.position - invoked.firstArgument + invoked.boundParameters.value, s.open, s.value)
           else exists s :: s in all && x == Slot(s.node, s.typ, 0, true, s.value)
  {
    hide TypedSlot;
    var known := PositionsKnown(invoked, all);
    assert known <==> StartsAt(invoked, all);
    forall s | s in Forwarded(invoked, all)
      ensures Shifted(invoked, known, s) in FirstSlots(g, invoked, all)
    {
    }
  }

  lemma AppliedStartsAtZero(invoked: Invoked)
    requires InvokedShape(invoked) && invoked.applied
    ensures Offset(invoked) == 0
  {
  }

  /** An applied call opens the slots that may be its list: those at its place while the start is known, else all of them. */
  lemma AppliedSlotsIff(g: Graph, invoked: Invoked, all: seq<Slot>, x: Slot)
    requires invoked.applied && InvokedShape(invoked) && TypedSlots(g, all)
    ensures
      x in FirstSlots(g, invoked, all)
      <==> exists s :: s in all && (StartsAt(invoked, all) ==> s.position == invoked.firstArgument)
             && x in ExpandSlot(g, s, 0, !StartsAt(invoked, all))
  {
    hide TypedSlot, ExpandSlot, InvokedShape;
    AppliedStartsAtZero(invoked);
    var known := PositionsKnown(invoked, all);
    assert known <==> StartsAt(invoked, all);
    hide StartsAt, PositionsKnown;
    var kept := Filter(Forwarded(invoked, all), (s: Slot) => !known || s.position == invoked.firstArgument);
    forall s
      ensures s in kept <==> s in all && (known ==> s.position == invoked.firstArgument)
    {
    }
    assert FirstSlots(g, invoked, all) == ExpandAll(g, kept, 0, (s: Slot) => !known);
    hide FirstSlots, Forwarded;
    if x in FirstSlots(g, invoked, all) {
      var s :| s in kept && TypedSlot(g, s) && x in ExpandSlot(g, s, 0, !known);
    }
  }

  // ---------- Applied array literals ----------

  /** The slots are the elements of an array literal from `dropped` on, reported as `node`. */
  predicate AreElements(slots: seq<Slot>, node: NodeId, elements: seq<Arg>, dropped: nat) {
    && (forall slot | slot in slots :: exists k | dropped <= k < |elements| :: slot == ElementSlot(node, elements, dropped, k))
    && forall k | dropped <= k < |elements| :: ElementSlot(node, elements, dropped, k) in slots
  }

  function ElementSlot(node: NodeId, elements: seq<Arg>, dropped: nat, k: nat): Slot
    requires dropped <= k < |elements|
  {
    Slot(node, elements[k].expr.typ, k - dropped, false, Some(elements[k].expr))
  }

  /** An element of the list reaches a trusted shape, `dropped` places before its own. */
  ghost predicate ElementReaches(g: Graph, invoked: Invoked, elements: seq<Arg>, dropped: nat)
    requires TypedInvoked(g, invoked)
  {
    exists k :: dropped <= k < |elements| && ReachesAt(g, invoked, k - dropped, elements[k].expr.typ)
  }

  lemma ElementsReportIff(
      g: Graph, invoked: Invoked, known: bool, slots: seq<Slot>, list: NodeId, elements: seq<Arg>, dropped: nat, node: NodeId)
    requires TypedInvoked(g, invoked) && AreElements(slots, list, elements, dropped)
    ensures NodeReported(g, invoked, known, slots, node) <==> node == list && ElementReaches(g, invoked, elements, dropped)
  {
    hide SlotReported, ReachesAt, TypedInvoked;
    if NodeReported(g, invoked, known, slots, node) {
      var slot :| slot in slots && slot.node == node && SlotReported(g, invoked, known, slot);
      ClosedSlotReportedIff(g, invoked, known, slot);
    }
    if k :| dropped <= k < |elements| && ReachesAt(g, invoked, k - dropped, elements[k].expr.typ) {
      ClosedSlotReportedIff(g, invoked, known, ElementSlot(list, elements, dropped, k));
    }
  }

  predicate IsPlainList(arg: Arg) {
    arg.expr.ArrayLiteral? && AllPlain(arg.expr.elements)
  }

  /** A slot that holds a literal without spreads opens into its elements. */
  lemma LiteralOpens(g: Graph, slot: Slot)
    requires TypedSlot(g, slot) && slot.value.Some? && slot.value.value.ArrayLiteral? && AllPlain(slot.value.value.elements)
    ensures AreElements(ExpandSlot(g, slot, 0, false), slot.value.value.id, slot.value.value.elements, 0)
  {
    var e := slot.value.value;
    PlainScan(g, e.elements, Some(e.id));
    hide ScanArgs, TypedExpr;
    var slots := ScanArgs(g, e.elements, 0, false, Some(e.id)).slots;
    assert forall k | 0 <= k < |slots| :: slots[k] == ElementSlot(e.id, e.elements, 0, k);
  }

  /** The elements an applied list literal passes on, and how many of them the forwarder keeps. */
  ghost predicate PassesOn(invoked: Invoked, list: Expr, node: NodeId, elements: seq<Arg>, dropped: nat)
    requires list.ArrayLiteral?
  {
    match invoked.appliedForwarder
    case None => node == list.id && elements == list.elements && dropped == 0
    case Some(Apply) =>
      && |list.elements| > 1 && IsPlainList(list.elements[1])
      && node == list.elements[1].expr.id && elements == list.elements[1].expr.elements && dropped == 0
    case Some(_) => node == list.id && elements == list.elements && dropped == 1
  }

  /**
   * With an array literal applied, directly or through `.call`, `.bind` or `.apply`, exactly
   * that literal is reported, and only when an element reaches a trusted shape.
   */
  lemma AppliedLiteralReportsIff(
      g: Graph, args: seq<Arg>, invoked: Invoked, list: NodeId, elements: seq<Arg>, dropped: nat, node: NodeId)
    requires g.WellFormed() && GoodArgs(g, args, false) && TypedInvoked(g, invoked) && AllPlain(args)
    requires invoked.applied && invoked.firstArgument < |args| && IsPlainList(args[invoked.firstArgument])
    requires PassesOn(invoked, args[invoked.firstArgument].expr, list, elements, dropped)
    ensures
      var known := PositionsKnown(invoked, ScanArgs(g, args, 0, false, None).slots);
      NodeReported(g, invoked, known, CallSlots(g, args, invoked), node)
      <==> node == list && ElementReaches(g, invoked, elements, dropped)
  {
    var known, slots := PositionsKnown(invoked, ScanArgs(g, args, 0, false, None).slots), CallSlots(g, args, invoked);
    AppliedLiteralSlots(g, args, invoked, list, elements, dropped);
    hide *;
    ElementsReportIff(g, invoked, known, slots, list, elements, dropped, node);
  }

  lemma AppliedLiteralSlots(
      g: Graph, args: seq<Arg>, invoked: Invoked, list: NodeId, elements: seq<Arg>, dropped: nat)
    requires g.WellFormed() && GoodArgs(g, args, false) && TypedInvoked(g, invoked) && AllPlain(args)
    requires invoked.applied && invoked.firstArgument < |args| && IsPlainList(args[invoked.firstArgument])
    requires PassesOn(invoked, args[invoked.firstArgument].expr, list, elements, dropped)
    ensures AreElements(CallSlots(g, args, invoked), list, elements, dropped)
  {
    var all := ScanArgs(g, args, 0, false, None).slots;
    PlainScan(g, args, None);
    ScanIsGood(g, args, 0, false, None, false);
    FirstSlotsAreGood(g, invoked, all, false);
    assert CallSlots(g, args, invoked) == FinalSlots(g, invoked, all);
    assert invoked.appliedForwarder.None? ==> FinalSlots(g, invoked, all) == FirstSlots(g, invoked, all);
    assert all[invoked.firstArgument] == PlainSlot(args[invoked.firstArgument], invoked.firstArgument, None);
    hide ScanArgs, CallSlots, FirstSlots, FinalSlots, GoodArgs, GoodSlots, ExpandAll;
    var literal := args[invoked.firstArgument].expr;
    AppliedFirstSlots(g, args, invoked, all);
    var slots := FirstSlots(g, invoked, all);
    match invoked.appliedForwarder
    case None =>
    case Some(Apply) =>
      ForwardedApplySlots(g, invoked, all, literal);
    case Some(_) =>
      ForwardedCallSlots(g, invoked, all, literal);
  }

  lemma AppliedFirstSlots(g: Graph, args: seq<Arg>, invoked: Invoked, all: seq<Slot>)
    requires AllPlain(args) && InvokedShape(invoked) && invoked.applied && TypedSlots(g, all)
    requires |all| == |args| && forall i | 0 <= i < |args| :: all[i] == PlainSlot(args[i], i, None)
    requires invoked.firstArgument < |args| && IsPlainList(args[invoked.firstArgument])
    ensures
      var e := args[invoked.firstArgument].expr;
      AreElements(FirstSlots(g, invoked, all), e.id, e.elements, 0)
  {
    var first, known := invoked.firstArgument, PositionsKnown(invoked, all);
    assert known;
    assert TypedSlot(g, all[first]);
    LiteralOpens(g, all[first]);
    hide TypedSlot, ExpandSlot, AllPlain, IsPlainList, AreElements;
    var kept := Filter(Forwarded(invoked, all), (s: Slot) => !known || s.position == first);
    forall s
      ensures s in kept <==> s == all[first]
    {
      if s in kept {
        var i :| 0 <= i < |all| && all[i] == s;
      }
      assert all[first] in Forwarded(invoked, all);
    }
    SameElements(ExpandSlot(g, all[first], 0, false), FirstSlots(g, invoked, all),
                 args[first].expr.id, args[first].expr.elements, 0);
  }

  lemma SameElements(a: seq<Slot>, b: seq<Slot>, node: NodeId, elements: seq<Arg>, dropped: nat)
    requires AreElements(a, node, elements, dropped) && forall s :: s in a <==> s in b
    ensures AreElements(b, node, elements, dropped)
  {
  }

  lemma ForwardedCallSlots(g: Graph, invoked: Invoked, all: seq<Slot>, e: Expr)
    requires e.ArrayLiteral? && TypedSlots(g, all) && TypedSlots(g, FirstSlots(g, invoked, all))
    requires AreElements(FirstSlots(g, invoked, all), e.id, e.elements, 0)
    requires invoked.appliedForwarder == Some(Call) || invoked.appliedForwarder == Some(Bind)
    ensures AreElements(FinalSlots(g, invoked, all), e.id, e.elements, 1)
  {
    hide FirstSlots, TypedSlot, TypedSlots, ExpandAll, AreElements;
    FirstElementDropped(FirstSlots(g, invoked, all), e.id, e.elements);
  }

  lemma FirstElementDropped(slots: seq<Slot>, node: NodeId, elements: seq<Arg>)
    requires AreElements(slots, node, elements, 0)
    ensures AreElements(Map(Filter(slots, (s: Slot) => s.open || s.position >= 1),
                            (s: Slot) => s.(position := LessOne(s.position))), node, elements, 1)
  {
    var kept := Filter(slots, (s: Slot) => s.open || s.position >= 1);
    var dropped := Map(kept, (s: Slot) => s.(position := LessOne(s.position)));
    forall slot | slot in dropped
      ensures exists k | 1 <= k < |elements| :: slot == ElementSlot(node, elements, 1, k)
    {
      var s :| s in kept && slot == s.(position := LessOne(s.position));
      var k :| 0 <= k < |elements| && s == ElementSlot(node, elements, 0, k);
      assert slot == ElementSlot(node, elements, 1, k);
    }
    forall k | 1 <= k < |elements|
      ensures ElementSlot(node, elements, 1, k) in dropped
    {
      var s := ElementSlot(node, elements, 0, k);
      assert s in kept && s.(position := LessOne(s.position)) == ElementSlot(node, elements, 1, k);
    }
  }

  lemma ForwardedApplySlots(g: Graph, invoked: Invoked, all: seq<Slot>, e: Expr)
    requires e.ArrayLiteral? && TypedSlots(g, all) && TypedSlots(g, FirstSlots(g, invoked, all))
    requires AreElements(FirstSlots(g, invoked, all), e.id, e.elements, 0)
    requires InvokedShape(invoked) && invoked.appliedForwarder == Some(Apply)
    requires |e.elements| > 1 && IsPlainList(e.elements[1])
    ensures
      var inner := e.elements[1].expr;
      AreElements(FinalSlots(g, invoked, all), inner.id, inner.elements, 0)
  {
    hide FirstSlots, ExpandSlot, TypedSlot, AllPlain;
    var slots, slot, inner := FirstSlots(g, invoked, all), ElementSlot(e.id, e.elements, 0, 1), e.elements[1].expr;
    assert slot in slots && TypedSlot(g, slot);
    LiteralOpens(g, slot);
    var kept := Filter(slots, (s: Slot) => s.open || s.position == 1);
    forall s
      ensures s in kept <==> s == slot
    {
    }
    hide AreElements;
    SameElements(ExpandSlot(g, slot, 0, false), FinalSlots(g, invoked, all), inner.id, inner.elements, 0);
  }
}
