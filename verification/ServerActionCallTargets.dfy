/**
 * Lining a call's arguments up with declared parameters
 * (`scripts/server-action-call-targets.ts`).
 *
 * The analysis assigns each argument value a slot: an exact position, or a lower bound
 * when a spread before it hides how many values precede it. The concrete semantics says
 * which runtime values a call can pass: a spread yields its tuple's fixed elements and then
 * any number of tail values, `.apply` opens one array, and so on. Soundness connects them.
 */
module ServerActionCallTargets {
  import opened Outcomes
  import opened TypeGraph
  import opened TupleLists
  import opened ServerActionTypes

  type NodeId = nat

  datatype Expr = Other(id: NodeId, typ: TypeId) | ArrayLiteral(id: NodeId, typ: TypeId, elements: seq<Arg>)

  datatype Arg = Plain(expr: Expr) | Spread(id: NodeId, expr: Expr)

  /** `open`: the position is only a lower bound. `value` is kept for values with an expression of their own. */
  datatype Slot = Slot(node: NodeId, typ: TypeId, position: nat, open: bool, value: Option<Expr>)

  datatype Scan = Scan(slots: seq<Slot>, next: nat, open: bool)

  function NodeOf(arg: Arg, reportAs: Option<NodeId>): NodeId {
    match reportAs
    case Some(node) => node
    case None => if arg.Plain? then arg.expr.id else arg.id
  }

  // ---------- Spread lists ----------

  /** What iterating yields when the type is neither array nor tuple. */
  function IteratedTypes(g: Graph, t: TypeId): (ts: seq<TypeId>)
    requires g.Has(t)
    ensures ts != []
  {
    if g.Shape(t).Any? then [t]
    else if g.types[t].numberIndex.Some? then [g.types[t].numberIndex.value]
    else if g.types[t].typeArguments != [] then g.types[t].typeArguments
    else [g.anyType]
  }

  /** Types at known positions of the list a value of type `t` spreads into. */
  function FixedTypes(g: Graph, t: TypeId): seq<TypeId>
    requires g.Has(t)
  {
    match g.ElementTypes(t)
    case Some(elements) => elements[..g.FixedPrefixLength(t)]
    case None => []
  }

  /** Types that may follow, any number of times and in any order. */
  function TailTypes(g: Graph, t: TypeId): seq<TypeId>
    requires g.Has(t)
  {
    match g.ElementTypes(t)
    case Some(elements) => elements[g.FixedPrefixLength(t)..]
    case None => IteratedTypes(g, t)
  }

  /**
   * A value of type `typ` may follow the fixed ones: an element of a list from its first
   * variable one on; of anything else `any` itself, the number index, a type argument, or
   * `any` when nothing says more.
   */
  ghost predicate MayFollow(g: Graph, t: TypeId, typ: TypeId)
    requires g.Has(t)
  {
    if g.ElementTypes(t).Some? then
      exists i: nat, k: nat :: k <= i < |ElementsOf(g, t)|
        && ElementsOf(g, t)[k].flag.Variable? && ElementsOf(g, t)[i].typ == typ
    else if g.types[t].shape.Any? then typ == t
    else if g.types[t].numberIndex.Some? then typ == g.types[t].numberIndex.value
    else if |g.types[t].typeArguments| > 0 then typ in g.types[t].typeArguments
    else typ == g.anyType
  }

  lemma TailTypesIff(g: Graph, t: TypeId, typ: TypeId)
    requires g.Has(t)
    ensures typ in TailTypes(g, t) <==> MayFollow(g, t, typ)
  {
    if g.ElementTypes(t).Some? {
      var elements, types, prefix := ElementsOf(g, t), g.ElementTypes(t).value, g.FixedPrefixLength(t);
      LaterByElement(elements, types, prefix, typ);
      if i: nat, k: nat :| k <= i < |elements| && elements[k].flag.Variable? && elements[i].typ == typ {
        assert prefix <= k;
      }
      if i: nat :| prefix <= i < |elements| && elements[i].typ == typ {
        assert elements[prefix].flag.Variable?;
      }
    }
  }

  /** The fixed part may end early: its last element is optional. */
  predicate MayEndEarly(g: Graph, t: TypeId)
    requires g.Has(t)
  {
    var fixed := FixedTypes(g, t);
    fixed != [] && g.Shape(t).TupleOf? && g.Shape(t).elements[|fixed| - 1].flag.Optional?
  }

  /** `length` leading fixed elements, all later ones being optional. */
  predicate MayStopAt(g: Graph, t: TypeId, length: nat)
    requires g.Has(t)
  {
    && g.Shape(t).TupleOf?
    && forall i | length <= i < |FixedTypes(g, t)| :: g.Shape(t).elements[i].flag.Optional?
  }

  function FixedSlots(node: NodeId, types: seq<TypeId>, position: nat, open: bool): (slots: seq<Slot>)
    ensures |slots| == |types|
    ensures forall i | 0 <= i < |slots| :: slots[i] == Slot(node, types[i], position + i, open, None)
  {
    seq(|types|, i requires 0 <= i < |types| => Slot(node, types[i], position + i, open, None))
  }

  function OpenSlots(node: NodeId, types: seq<TypeId>, position: nat): (slots: seq<Slot>)
    ensures |slots| == |types|
    ensures forall i | 0 <= i < |slots| :: slots[i] == Slot(node, types[i], position, true, None)
  {
    seq(|types|, i requires 0 <= i < |types| => Slot(node, types[i], position, true, None))
  }

  /** One slot per fixed element, then the tail at unknown positions. */
  function SpreadSlots(g: Graph, node: NodeId, t: TypeId, position: nat, open: bool): Scan
    requires g.Has(t)
  {
    var fixed, tail := FixedTypes(g, t), TailTypes(g, t);
    Scan(FixedSlots(node, fixed, position, open) + OpenSlots(node, tail, position + |fixed|),
         position + |fixed|, open || tail != [])
  }

  /** An array literal without spreads of its own. */
  predicate IsPlainLiteral(e: Expr) {
    e.ArrayLiteral? && forall a | a in e.elements :: a.Plain?
  }

  /** A spread literal's slots keep the expression of each element. */
  function WithLiteralValues(slots: seq<Slot>, e: Expr): (valued: seq<Slot>)
    ensures |valued| == |slots|
  {
    if !IsPlainLiteral(e) then slots
    else
      seq(|slots|, i requires 0 <= i < |slots| =>
        if i < |e.elements| then slots[i].(value := Some(e.elements[i].expr)) else slots[i])
  }

  function ArgSlots(g: Graph, arg: Arg, position: nat, open: bool, reportAs: Option<NodeId>): Scan
    requires g.Has(arg.expr.typ)
  {
    var node := NodeOf(arg, reportAs);
    match arg
    case Plain(e) => Scan([Slot(node, e.typ, position, open, Some(e))], position + 1, open)
    case Spread(_, e) =>
      var spread := SpreadSlots(g, node, e.typ, position, open);
      spread.(slots := WithLiteralValues(spread.slots, e))
  }

  ghost predicate Typed(g: Graph, args: seq<Arg>) {
    forall a | a in args :: g.Has(a.expr.typ)
  }

  /** The state of the argument scan after all of `args`. */
  function ScanArgs(g: Graph, args: seq<Arg>, position: nat, open: bool, reportAs: Option<NodeId>): Scan
    requires Typed(g, args)
  {
    if args == [] then Scan([], position, open)
    else
      var before := ScanArgs(g, args[..|args| - 1], position, open, reportAs);
      var last := ArgSlots(g, args[|args| - 1], before.next, before.open, reportAs);
      Scan(before.slots + last.slots, last.next, last.open)
  }

  method ArgumentSlots(g: Graph, args: seq<Arg>, firstParameter: nat, initiallyOpen: bool, reportAs: Option<NodeId>)
      returns (slots: seq<Slot>)
    requires Typed(g, args)
    ensures slots == ScanArgs(g, args, firstParameter, initiallyOpen, reportAs).slots
  {
    slots := [];
    var position, open := firstParameter, initiallyOpen;
    for i := 0 to |args|
      invariant Scan(slots, position, open) == ScanArgs(g, args[..i], firstParameter, initiallyOpen, reportAs)
    {
      var argument := args[i];
      assert args[..i + 1][..i] == args[..i];
      match argument
      case Plain(e) =>
        slots := slots + [Slot(NodeOf(argument, reportAs), e.typ, position, open, Some(e))];
        position := position + 1;
      case Spread(_, e) =>
        var spread := SpreadSlots(g, NodeOf(argument, reportAs), e.typ, position, open);
        slots := slots + WithLiteralValues(spread.slots, e);
        position, open := spread.next, spread.open;
    }
    assert args[..|args|] == args;
  }

  // ---------- Runtime values ----------

  /** A runtime value: the argument it is reported as, its type, and its expression if it has one. */
  datatype Value = Value(node: NodeId, typ: TypeId, source: Option<Expr>)

  /** `values` is a list a value of type `t` can spread into. */
  ghost predicate TypedList(g: Graph, node: NodeId, t: TypeId, values: seq<Value>)
    requires g.Has(t)
  {
    var fixed, tail := FixedTypes(g, t), TailTypes(g, t);
    && (forall i | 0 <= i < |values| ::
          && values[i].node == node && values[i].source == None
          && if i < |fixed| then values[i].typ == fixed[i] else values[i].typ in tail)
    && (|values| < |fixed| ==> MayStopAt(g, t, |values|))
  }

  /** Every run-time list of a tuple or array type is among the lists a spread may yield. */
  lemma RuntimeListsAreTyped(g: Graph, node: NodeId, t: TypeId, counts: seq<nat>, values: seq<Value>)
    requires g.Has(t) && g.ElementTypes(t).Some? && AreCounts(ElementsOf(g, t), counts)
    requires |values| == |ListOf(counts)| && forall k | 0 <= k < |values| ::
      ListOf(counts)[k] < |counts| && values[k] == Value(node, ElementsOf(g, t)[ListOf(counts)[k]].typ, None)
    ensures TypedList(g, node, t, values)
  {
    hide FixedTypes, TailTypes, AreCounts, MayStopAt;
    forall k | 0 <= k < |values|
      ensures TypedAt(g, t, k, values[k].typ)
    {
      RuntimeValueIsTyped(g, t, counts, k);
    }
    ShortListsStop(g, t, counts, |values|);
  }

  predicate TypedAt(g: Graph, t: TypeId, index: nat, typ: TypeId)
    requires g.Has(t)
  {
    if index < |FixedTypes(g, t)| then typ == FixedTypes(g, t)[index] else typ in TailTypes(g, t)
  }

  lemma RuntimeValueIsTyped(g: Graph, t: TypeId, counts: seq<nat>, index: nat)
    requires g.Has(t) && g.ElementTypes(t).Some? && AreCounts(ElementsOf(g, t), counts)
    requires index < |ListOf(counts)| && ListOf(counts)[index] < |counts|
    ensures TypedAt(g, t, index, ElementsOf(g, t)[ListOf(counts)[index]].typ)
  {
    var i := ListOf(counts)[index];
    assert SitsAt(counts, i, index);
    SittingIsCandidate(ElementsOf(g, t), i, index);
    hide ListOf, AreCounts, MaySit;
    CandidateIsTyped(g, t, i, index);
  }

  lemma CandidateIsTyped(g: Graph, t: TypeId, i: nat, index: nat)
    requires g.Has(t) && g.ElementTypes(t).Some? && IsCandidate(ElementsOf(g, t), i, index)
    ensures TypedAt(g, t, index, ElementsOf(g, t)[i].typ)
  {
    var prefix := g.FixedPrefixLength(t);
    if index >= prefix {
      assert TailTypes(g, t)[i - prefix] == ElementsOf(g, t)[i].typ;
    }
  }

  lemma ShortListsStop(g: Graph, t: TypeId, counts: seq<nat>, length: nat)
    requires g.Has(t) && g.ElementTypes(t).Some? && AreCounts(ElementsOf(g, t), counts) && length == |ListOf(counts)|
    ensures length < |FixedTypes(g, t)| ==> MayStopAt(g, t, length)
  {
    MissingAreOptional(ElementsOf(g, t), counts, length);
  }

  /** A list that ends within the prefix leaves out optional elements only. */
  lemma MissingAreOptional(elements: seq<Element>, counts: seq<nat>, length: nat)
    requires AreCounts(elements, counts) && length == |ListOf(counts)|
    ensures forall i | length <= i < Graph.PrefixLength(elements) :: elements[i].flag.Optional?
  {
    forall i | length <= i < Graph.PrefixLength(elements)
      ensures elements[i].flag.Optional?
    {
      SitsAtIff(counts, i, i);
      if counts[i] > 0 {
        PlaceOfPresent(elements, counts, i, i);
      }
    }
  }

  /** A literal without spreads yields its elements; the checker types it as a fixed tuple of theirs. */
  ghost predicate LiteralTyped(g: Graph, e: Expr) {
    && IsPlainLiteral(e)
    && g.Has(e.typ) && g.Shape(e.typ).TupleOf?
    && |g.Shape(e.typ).elements| == |e.elements|
    && forall i | 0 <= i < |e.elements| ::
         && g.Shape(e.typ).elements[i].flag.Required?
         && g.Shape(e.typ).elements[i].typ == e.elements[i].expr.typ
  }

  ghost predicate Yields(g: Graph, arg: Arg, reportAs: Option<NodeId>, values: seq<Value>)
    requires g.Has(arg.expr.typ)
  {
    var node := NodeOf(arg, reportAs);
    match arg
    case Plain(e) => values == [Value(node, e.typ, Some(e))]
    case Spread(_, e) =>
      if IsPlainLiteral(e) then
        && |values| == |e.elements|
        && forall i | 0 <= i < |values| ::
             values[i] == Value(node, e.elements[i].expr.typ, Some(e.elements[i].expr))
      else TypedList(g, node, e.typ, values)
  }

  /** One list of values per argument. */
  ghost predicate IsRun(g: Graph, args: seq<Arg>, reportAs: Option<NodeId>, chunks: seq<seq<Value>>)
    requires Typed(g, args)
  {
    |chunks| == |args| && forall i | 0 <= i < |args| :: Yields(g, args[i], reportAs, chunks[i])
  }

  function Flatten(chunks: seq<seq<Value>>): seq<Value> {
    if chunks == [] then [] else Flatten(chunks[..|chunks| - 1]) + chunks[|chunks| - 1]
  }

  // ---------- Alignment ----------

  predicate Covers(slot: Slot, position: nat, value: Value) {
    && slot.node == value.node && slot.typ == value.typ && slot.value == value.source
    && if slot.open then slot.position <= position else slot.position == position
  }

  predicate Covered(slots: seq<Slot>, position: nat, value: Value) {
    exists i | 0 <= i < |slots| :: Covers(slots[i], position, value)
  }

  lemma CoveredInLarger(a: seq<Slot>, b: seq<Slot>, position: nat, value: Value)
    ensures Covered(a, position, value) ==> Covered(a + b, position, value)
    ensures Covered(b, position, value) ==> Covered(a + b, position, value)
  {
    if i :| 0 <= i < |a| && Covers(a[i], position, value) {
      assert Covers((a + b)[i], position, value);
    }
    if i :| 0 <= i < |b| && Covers(b[i], position, value) {
      assert Covers((a + b)[|a| + i], position, value);
    }
  }

  /** A spread of a tuple whose fixed part can end early. */
  predicate CanFallShort(g: Graph, arg: Arg)
    requires g.Has(arg.expr.typ)
  {
    arg.Spread? && !IsPlainLiteral(arg.expr) && MayEndEarly(g, arg.expr.typ)
  }

  predicate CanYield(g: Graph, arg: Arg)
    requires g.Has(arg.expr.typ)
  {
    arg.Plain? || FixedTypes(g, arg.expr.typ) + TailTypes(g, arg.expr.typ) != []
  }

  /** No argument that can fall short precedes one that yields a value. */
  ghost predicate Steady(g: Graph, args: seq<Arg>)
    requires Typed(g, args)
  {
    forall i, j | 0 <= i < j < |args| :: !(CanFallShort(g, args[i]) && CanYield(g, args[j]))
  }

  ghost predicate LiteralsTyped(g: Graph, args: seq<Arg>) {
    forall a | a in args && a.Spread? && IsPlainLiteral(a.expr) :: LiteralTyped(g, a.expr)
  }

  /** The scan's position: equal to the runtime one while closed, a lower bound once open. */
  predicate Bounds(position: nat, open: bool, actual: nat) {
    if open then position <= actual else position == actual
  }

  lemma SpreadCovers(g: Graph, node: NodeId, t: TypeId, position: nat, open: bool, base: nat, values: seq<Value>)
    requires g.Has(t) && Bounds(position, open, base) && TypedList(g, node, t, values)
    ensures
      var spread := SpreadSlots(g, node, t, position, open);
      && (forall k | 0 <= k < |values| :: Covered(spread.slots, base + k, values[k]))
      && (|values| >= |FixedTypes(g, t)| ==> Bounds(spread.next, spread.open, base + |values|))
  {
    var fixed, tail := FixedTypes(g, t), TailTypes(g, t);
    var slots := SpreadSlots(g, node, t, position, open).slots;
    forall k | 0 <= k < |values|
      ensures Covered(slots, base + k, values[k])
    {
      if k < |fixed| {
        assert Covers(slots[k], base + k, values[k]);
      } else {
        assert values[k].typ in tail;
        var i :| 0 <= i < |tail| && tail[i] == values[k].typ;
        assert Covers(slots[|fixed| + i], base + k, values[k]);
      }
    }
    if |values| > |fixed| {
      assert values[|fixed|].typ in tail;
    }
  }

  lemma ArgCovers(g: Graph, arg: Arg, position: nat, open: bool, reportAs: Option<NodeId>, base: nat, values: seq<Value>)
    requires g.Has(arg.expr.typ) && Bounds(position, open, base) && Yields(g, arg, reportAs, values)
    requires LiteralsTyped(g, [arg])
    ensures
      var scan := ArgSlots(g, arg, position, open, reportAs);
      && (forall k | 0 <= k < |values| :: Covered(scan.slots, base + k, values[k]))
      && (!CanFallShort(g, arg) ==> Bounds(scan.next, scan.open, base + |values|))
  {
    var node, slots := NodeOf(arg, reportAs), ArgSlots(g, arg, position, open, reportAs).slots;
    match arg
    case Plain(e) =>
      assert Covers(slots[0], base, values[0]);
    case Spread(_, e) =>
      if IsPlainLiteral(e) {
        assert arg in [arg] && LiteralTyped(g, e);
        LiteralListIsFixed(g, e);
        forall k | 0 <= k < |values|
          ensures Covered(slots, base + k, values[k])
        {
          assert Covers(slots[k], base + k, values[k]);
        }
      } else {
        SpreadCovers(g, node, e.typ, position, open, base, values);
      }
  }

  lemma LiteralListIsFixed(g: Graph, e: Expr)
    requires LiteralTyped(g, e)
    ensures |FixedTypes(g, e.typ)| == |e.elements| && TailTypes(g, e.typ) == []
    ensures forall i | 0 <= i < |e.elements| :: FixedTypes(g, e.typ)[i] == e.elements[i].expr.typ
  {
    var elements := g.Shape(e.typ).elements;
    assert Graph.PrefixLength(elements) == |elements|;
  }

  lemma LongListsHaveTails(g: Graph, node: NodeId, t: TypeId, values: seq<Value>)
    requires g.Has(t) && TypedList(g, node, t, values)
    ensures |values| > |FixedTypes(g, t)| ==> TailTypes(g, t) != []
  {
    if |values| > |FixedTypes(g, t)| {
      assert values[|FixedTypes(g, t)|].typ in TailTypes(g, t);
    }
  }

  lemma NothingYielded(g: Graph, arg: Arg, reportAs: Option<NodeId>, values: seq<Value>)
    requires g.Has(arg.expr.typ) && !CanYield(g, arg) && Yields(g, arg, reportAs, values) && LiteralsTyped(g, [arg])
    ensures values == []
  {
    assert arg in [arg];
    if IsPlainLiteral(arg.expr) {
      LiteralListIsFixed(g, arg.expr);
      assert |FixedTypes(g, arg.expr.typ) + TailTypes(g, arg.expr.typ)| == |values|;
    } else {
      var fixed, tail := FixedTypes(g, arg.expr.typ), TailTypes(g, arg.expr.typ);
      assert |fixed| + |tail| == |fixed + tail| == 0;
      LongListsHaveTails(g, NodeOf(arg, reportAs), arg.expr.typ, values);
    }
  }

  /** `values[k]`, at position `base + k`, is covered for every `k`. */
  ghost predicate AllCovered(slots: seq<Slot>, base: nat, values: seq<Value>) {
    forall k | 0 <= k < |values| :: Covered(slots, base + k, values[k])
  }

  lemma AllCoveredTogether(a: seq<Slot>, b: seq<Slot>, base: nat, first: seq<Value>, second: seq<Value>)
    requires AllCovered(a, base, first) && AllCovered(b, base + |first|, second)
    ensures AllCovered(a + b, base, first + second)
  {
    var values := first + second;
    forall k | 0 <= k < |values|
      ensures Covered(a + b, base + k, values[k])
    {
      CoveredInLarger(a, b, base + k, values[k]);
      if k >= |first| {
        assert Covered(b, (base + |first|) + (k - |first|), second[k - |first|]);
      }
    }
  }

  /** One more argument: nothing can have fallen short before it unless it yields nothing. */
  lemma NextArgCovers(
      g: Graph, arg: Arg, exact: bool, before: Scan, reportAs: Option<NodeId>, base: nat, chunk: seq<Value>)
    requires g.Has(arg.expr.typ) && LiteralsTyped(g, [arg]) && Yields(g, arg, reportAs, chunk)
    requires exact ==> Bounds(before.next, before.open, base)
    requires CanYield(g, arg) ==> exact
    ensures AllCovered(ArgSlots(g, arg, before.next, before.open, reportAs).slots, base, chunk)
    ensures
      var last := ArgSlots(g, arg, before.next, before.open, reportAs);
      exact && !CanFallShort(g, arg) ==> Bounds(last.next, last.open, base + |chunk|)
  {
    if exact {
      ArgCovers(g, arg, before.next, before.open, reportAs, base, chunk);
    } else {
      NothingYielded(g, arg, reportAs, chunk);
    }
  }

  ghost predicate NoneFallsShort(g: Graph, args: seq<Arg>)
    requires Typed(g, args)
  {
    forall i | 0 <= i < |args| :: !CanFallShort(g, args[i])
  }

  /** What a run of all arguments says about the earlier ones and the last. */
  lemma LastArg(g: Graph, args: seq<Arg>, reportAs: Option<NodeId>, chunks: seq<seq<Value>>)
    requires args != [] && Typed(g, args) && LiteralsTyped(g, args) && Steady(g, args) && IsRun(g, args, reportAs, chunks)
    ensures
      var n := |args| - 1;
      && Typed(g, args[..n]) && LiteralsTyped(g, args[..n]) && Steady(g, args[..n])
      && IsRun(g, args[..n], reportAs, chunks[..n])
      && g.Has(args[n].expr.typ) && LiteralsTyped(g, [args[n]]) && Yields(g, args[n], reportAs, chunks[n])
      && (CanYield(g, args[n]) ==> NoneFallsShort(g, args[..n]))
      && (NoneFallsShort(g, args) ==> NoneFallsShort(g, args[..n]) && !CanFallShort(g, args[n]))
  {
    hide CanFallShort, CanYield, Yields, LiteralTyped;
    var n := |args| - 1;
    assert args[n] in args;
    assert forall a | a in args[..n] :: a in args;
    assert forall i | 0 <= i < n :: args[..n][i] == args[i];
  }

  lemma ScanLast(g: Graph, args: seq<Arg>, position: nat, open: bool, reportAs: Option<NodeId>, chunks: seq<seq<Value>>)
    requires args != [] && chunks != [] && Typed(g, args) && Typed(g, args[..|args| - 1])
    ensures
      var before := ScanArgs(g, args[..|args| - 1], position, open, reportAs);
      var last := ArgSlots(g, args[|args| - 1], before.next, before.open, reportAs);
      ScanArgs(g, args, position, open, reportAs) == Scan(before.slots + last.slots, last.next, last.open)
    ensures Flatten(chunks) == Flatten(chunks[..|chunks| - 1]) + chunks[|chunks| - 1]
  {
  }

  /** The claim about one scan and one run. */
  ghost predicate Aligned(
      g: Graph, args: seq<Arg>, position: nat, open: bool, reportAs: Option<NodeId>, base: nat, chunks: seq<seq<Value>>)
    requires Typed(g, args)
  {
    var scan := ScanArgs(g, args, position, open, reportAs);
    && AllCovered(scan.slots, base, Flatten(chunks))
    && (NoneFallsShort(g, args) ==> Bounds(scan.next, scan.open, base + |Flatten(chunks)|))
  }

  /** One more argument, seen from the scan before it; `exact` and `full`: nothing fell short before it, or up to it. */
  lemma AlignNext(
      g: Graph, arg: Arg, before: Scan, reportAs: Option<NodeId>, base: nat, earlier: seq<Value>, chunk: seq<Value>,
      exact: bool, full: bool)
    requires g.Has(arg.expr.typ) && LiteralsTyped(g, [arg]) && Yields(g, arg, reportAs, chunk)
    requires AllCovered(before.slots, base, earlier)
    requires exact ==> Bounds(before.next, before.open, base + |earlier|)
    requires (CanYield(g, arg) ==> exact) && (full ==> exact && !CanFallShort(g, arg))
    ensures
      var last := ArgSlots(g, arg, before.next, before.open, reportAs);
      && AllCovered(before.slots + last.slots, base, earlier + chunk)
      && (full ==> Bounds(last.next, last.open, base + |earlier + chunk|))
  {
    hide AllCovered, ArgSlots, CanFallShort, CanYield, Yields, LiteralsTyped;
    NextArgCovers(g, arg, exact, before, reportAs, base + |earlier|, chunk);
    AllCoveredTogether(before.slots, ArgSlots(g, arg, before.next, before.open, reportAs).slots, base, earlier, chunk);
  }

  lemma AlignmentStep(
      g: Graph, args: seq<Arg>, position: nat, open: bool, reportAs: Option<NodeId>, base: nat, chunks: seq<seq<Value>>)
    requires args != [] && Typed(g, args) && LiteralsTyped(g, args) && Steady(g, args) && IsRun(g, args, reportAs, chunks)
    requires Typed(g, args[..|args| - 1])
    requires Aligned(g, args[..|args| - 1], position, open, reportAs, base, chunks[..|args| - 1])
    ensures Aligned(g, args, position, open, reportAs, base, chunks)
  {
    LastArg(g, args, reportAs, chunks);
    ScanLast(g, args, position, open, reportAs, chunks);
    hide ScanArgs, Flatten, AllCovered, ArgSlots, Bounds, CanFallShort, CanYield, Yields, LiteralsTyped, Typed, Steady,
      NoneFallsShort;
    var n := |args| - 1;
    AlignNext(g, args[n], ScanArgs(g, args[..n], position, open, reportAs), reportAs, base, Flatten(chunks[..n]), chunks[n],
              NoneFallsShort(g, args[..n]), NoneFallsShort(g, args));
  }

  /** The scan as a whole: every value of every run sits in a slot that covers it. */
  lemma {:induction false} AlignmentIsSound(
      g: Graph, args: seq<Arg>, position: nat, open: bool, reportAs: Option<NodeId>, base: nat, chunks: seq<seq<Value>>)
    requires Typed(g, args) && LiteralsTyped(g, args) && Steady(g, args)
    requires Bounds(position, open, base) && IsRun(g, args, reportAs, chunks)
    ensures Aligned(g, args, position, open, reportAs, base, chunks)
    decreases |args|
  {
    if args != [] {
      LastArg(g, args, reportAs, chunks);
      hide Aligned, LiteralsTyped, Steady, Bounds;
      AlignmentIsSound(g, args[..|args| - 1], position, open, reportAs, base, chunks[..|args| - 1]);
      AlignmentStep(g, args, position, open, reportAs, base, chunks);
    }
  }

  // ---------- Where alignment fails ----------

  ghost predicate DistinctNodes(args: seq<Arg>) {
    forall i, j | 0 <= i < j < |args| :: NodeOf(args[i], None) != NodeOf(args[j], None)
  }

  function FixedValues(node: NodeId, types: seq<TypeId>): (values: seq<Value>)
    ensures |values| == |types| && forall i | 0 <= i < |values| :: values[i] == Value(node, types[i], None)
  {
    seq(|types|, i requires 0 <= i < |types| => Value(node, types[i], None))
  }

  /** The shortest run of an argument that does not fall short. */
  ghost function FullChunk(g: Graph, arg: Arg): seq<Value>
    requires g.Has(arg.expr.typ)
  {
    var node := NodeOf(arg, None);
    match arg
    case Plain(e) => [Value(node, e.typ, Some(e))]
    case Spread(_, e) =>
      if IsPlainLiteral(e) then
        seq(|e.elements|, i requires 0 <= i < |e.elements| =>
          Value(node, e.elements[i].expr.typ, Some(e.elements[i].expr)))
      else FixedValues(node, FixedTypes(g, e.typ))
  }

  /** The fixed values without the last, optional one. */
  ghost function ShortChunk(g: Graph, arg: Arg): seq<Value>
    requires g.Has(arg.expr.typ) && CanFallShort(g, arg)
  {
    var fixed := FixedTypes(g, arg.expr.typ);
    FixedValues(NodeOf(arg, None), fixed[..|fixed| - 1])
  }

  /** A run of an argument that yields something. */
  ghost function SomeChunk(g: Graph, arg: Arg): seq<Value>
    requires g.Has(arg.expr.typ) && CanYield(g, arg)
  {
    if FullChunk(g, arg) != [] || TailTypes(g, arg.expr.typ) == [] then FullChunk(g, arg)
    else [Value(NodeOf(arg, None), TailTypes(g, arg.expr.typ)[0], None)]
  }

  lemma ChunksAreYielded(g: Graph, arg: Arg)
    requires g.Has(arg.expr.typ) && LiteralsTyped(g, [arg])
    ensures Yields(g, arg, None, FullChunk(g, arg))
    ensures CanFallShort(g, arg) ==> Yields(g, arg, None, ShortChunk(g, arg))
    ensures CanYield(g, arg) ==> SomeChunk(g, arg) != [] && Yields(g, arg, None, SomeChunk(g, arg))
    ensures CanYield(g, arg) ==> SomeChunk(g, arg)[0].node == NodeOf(arg, None)
    ensures forall position: nat, open: bool :: ArgSlots(g, arg, position, open, None).next == position + |FullChunk(g, arg)|
    ensures CanFallShort(g, arg) ==> |ShortChunk(g, arg)| == |FullChunk(g, arg)| - 1
  {
    assert arg in [arg];
    if arg.Spread? && IsPlainLiteral(arg.expr) {
      LiteralListIsFixed(g, arg.expr);
    }
  }

  /** The run that falls short at `i` and yields at `j`. */
  ghost function EarlyChunks(g: Graph, args: seq<Arg>, i: nat, j: nat): (chunks: seq<seq<Value>>)
    requires Typed(g, args) && i < j < |args| && CanFallShort(g, args[i]) && CanYield(g, args[j])
    ensures |chunks| == |args|
  {
    seq(|args|, k requires 0 <= k < |args| =>
      assert args[k] in args;
      if k == i then ShortChunk(g, args[k]) else if k == j then SomeChunk(g, args[k]) else FullChunk(g, args[k]))
  }

  lemma {:induction false} EarlyLength(g: Graph, args: seq<Arg>, i: nat, j: nat, position: nat, n: nat)
    requires Typed(g, args) && LiteralsTyped(g, args)
    requires i < j < |args| && n <= j && CanFallShort(g, args[i]) && CanYield(g, args[j])
    ensures Typed(g, args[..n])
    ensures position + |Flatten(EarlyChunks(g, args, i, j)[..n])|
            == ScanArgs(g, args[..n], position, false, None).next - (if n > i then 1 else 0)
    decreases n
  {
    hide EarlyChunks, ArgSlots, CanFallShort, CanYield, LiteralsTyped;
    if n > 0 {
      var chunks := EarlyChunks(g, args, i, j);
      EarlyLength(g, args, i, j, position, n - 1);
      assert Typed(g, args[..n]);
      var before := ScanArgs(g, args[..n - 1], position, false, None);
      EarlyWidth(g, args, i, j, n - 1, before.next, before.open);
      assert chunks[..n][..n - 1] == chunks[..n - 1] && args[..n][..n - 1] == args[..n - 1];
      ScanLast(g, args[..n], position, false, None, chunks[..n]);
    }
  }

  lemma EarlyWidth(g: Graph, args: seq<Arg>, i: nat, j: nat, k: nat, position: nat, open: bool)
    requires Typed(g, args) && LiteralsTyped(g, args)
    requires i < j < |args| && k < j && CanFallShort(g, args[i]) && CanYield(g, args[j])
    ensures g.Has(args[k].expr.typ)
    ensures ArgSlots(g, args[k], position, open, None).next
            == position + |EarlyChunks(g, args, i, j)[k]| + (if k == i then 1 else 0)
  {
    assert args[k] in args;
    ChunksAreYielded(g, args[k]);
  }

  lemma SlotsStartAtScan(g: Graph, arg: Arg, position: nat, open: bool)
    requires g.Has(arg.expr.typ)
    ensures forall slot | slot in ArgSlots(g, arg, position, open, None).slots ::
              slot.node == NodeOf(arg, None) && slot.position >= position
  {
  }

  /** An argument's slots never start before the scan reached it. */
  lemma {:induction false} SlotsOfArg(g: Graph, args: seq<Arg>, j: nat, position: nat, slot: Slot)
    requires Typed(g, args) && DistinctNodes(args) && j < |args|
    requires slot in ScanArgs(g, args, position, false, None).slots && slot.node == NodeOf(args[j], None)
    ensures Typed(g, args[..j]) && slot.position >= ScanArgs(g, args[..j], position, false, None).next
    decreases |args|
  {
    hide ArgSlots;
    var n := |args| - 1;
    assert Typed(g, args[..n]) && DistinctNodes(args[..n]) && args[n] in args;
    var before := ScanArgs(g, args[..n], position, false, None);
    var last := ArgSlots(g, args[n], before.next, before.open, None);
    SlotsStartAtScan(g, args[n], before.next, before.open);
    if j < n {
      assert NodeOf(args[j], None) != NodeOf(args[n], None);
      assert slot in before.slots;
      SlotsOfArg(g, args[..n], j, position, slot);
      assert args[..n][..j] == args[..j];
    } else {
      assert slot in last.slots by {
        if slot in before.slots {
          NodesOfScan(g, args[..n], position, slot);
          assert false;
        }
      }
    }
  }

  lemma {:induction false} NodesOfScan(g: Graph, args: seq<Arg>, position: nat, slot: Slot)
    requires Typed(g, args) && slot in ScanArgs(g, args, position, false, None).slots
    ensures exists k :: 0 <= k < |args| && slot.node == NodeOf(args[k], None)
    decreases |args|
  {
    hide ArgSlots;
    var n := |args| - 1;
    assert Typed(g, args[..n]) && args[n] in args;
    var before := ScanArgs(g, args[..n], position, false, None);
    SlotsStartAtScan(g, args[n], before.next, before.open);
    if slot in before.slots {
      NodesOfScan(g, args[..n], position, slot);
      var k :| 0 <= k < n && slot.node == NodeOf(args[..n][k], None);
      assert slot.node == NodeOf(args[k], None);
    } else {
      assert slot.node == NodeOf(args[n], None);
    }
  }

  lemma EarlyRunEscapes(g: Graph, args: seq<Arg>, i: nat, j: nat, position: nat)
    requires Typed(g, args) && LiteralsTyped(g, args) && DistinctNodes(args)
    requires i < j < |args| && CanFallShort(g, args[i]) && CanYield(g, args[j])
    ensures
      var chunks := EarlyChunks(g, args, i, j);
      && IsRun(g, args, None, chunks)
      && !AllCovered(ScanArgs(g, args, position, false, None).slots, position, Flatten(chunks))
  {
    var chunks, slots := EarlyChunks(g, args, i, j), ScanArgs(g, args, position, false, None).slots;
    EarlyChunksRun(g, args, i, j);
    EarlyLength(g, args, i, j, position, j);
    FlattenAt(chunks, j);
    hide EarlyChunks, CanFallShort, CanYield, LiteralsTyped, IsRun;
    var at := |Flatten(chunks[..j])|;
    var value := Flatten(chunks)[at];
    forall s | 0 <= s < |slots|
      ensures !Covers(slots[s], position + at, value)
    {
      if slots[s].node == value.node {
        SlotsOfArg(g, args, j, position, slots[s]);
      }
    }
    assert !Covered(slots, position + at, value);
  }

  lemma EarlyChunksRun(g: Graph, args: seq<Arg>, i: nat, j: nat)
    requires Typed(g, args) && LiteralsTyped(g, args)
    requires i < j < |args| && CanFallShort(g, args[i]) && CanYield(g, args[j])
    ensures IsRun(g, args, None, EarlyChunks(g, args, i, j))
    ensures EarlyChunks(g, args, i, j)[j] != [] && EarlyChunks(g, args, i, j)[j][0].node == NodeOf(args[j], None)
  {
    hide ShortChunk, FullChunk, SomeChunk, Yields, CanFallShort, CanYield, LiteralTyped;
    var chunks := EarlyChunks(g, args, i, j);
    forall k | 0 <= k < |args|
      ensures Yields(g, args[k], None, chunks[k])
    {
      assert args[k] in args;
      ChunksAreYielded(g, args[k]);
    }
    assert args[j] in args;
    ChunksAreYielded(g, args[j]);
  }

  lemma {:induction false} FlattenAt(chunks: seq<seq<Value>>, j: nat)
    requires j < |chunks| && chunks[j] != []
    ensures |Flatten(chunks[..j])| < |Flatten(chunks)|
    ensures Flatten(chunks)[|Flatten(chunks[..j])|] == chunks[j][0]
    decreases |chunks|
  {
    var n := |chunks| - 1;
    if j < n {
      FlattenAt(chunks[..n], j);
      assert chunks[..n][..j] == chunks[..j];
    }
  }

  /**
   * Alignment is sound for every run exactly when no spread that can fall short (a tuple
   * whose known part ends in an optional element) precedes an argument that yields a value.
   */
  lemma AlignmentIff(g: Graph, args: seq<Arg>, position: nat)
    requires Typed(g, args) && LiteralsTyped(g, args) && DistinctNodes(args)
    ensures
      (forall chunks | IsRun(g, args, None, chunks) ::
         AllCovered(ScanArgs(g, args, position, false, None).slots, position, Flatten(chunks)))
      <==> Steady(g, args)
  {
    if Steady(g, args) {
      forall chunks | IsRun(g, args, None, chunks)
        ensures AllCovered(ScanArgs(g, args, position, false, None).slots, position, Flatten(chunks))
      {
        AlignmentIsSound(g, args, position, false, None, position, chunks);
      }
    } else {
      var i, j :| 0 <= i < j < |args| && CanFallShort(g, args[i]) && CanYield(g, args[j]);
      EarlyRunEscapes(g, args, i, j, position);
    }
  }

  // ---------- A call that escapes ----------

  lemma ScanTwo(g: Graph, a: Arg, b: Arg)
    requires Typed(g, [a, b]) && g.Has(a.expr.typ) && g.Has(b.expr.typ)
    ensures
      var first := ArgSlots(g, a, 0, false, None);
      var second := ArgSlots(g, b, first.next, first.open, None);
      ScanArgs(g, [a, b], 0, false, None) == Scan(first.slots + second.slots, second.next, second.open)
  {
    assert [a, b][..1] == [a] && [a][..0] == [];
    assert Typed(g, [a]) && Typed(g, []);
    assert ScanArgs(g, [], 0, false, None) == Scan([], 0, false);
    assert [] + ArgSlots(g, a, 0, false, None).slots == ArgSlots(g, a, 0, false, None).slots;
    assert ScanArgs(g, [a], 0, false, None) == ArgSlots(g, a, 0, false, None);
  }

  /** Type 3 is the tuple `[string?]`. */
  const OPTIONAL_TUPLE := Graph(
    [TypeInfo(Any, [], [], None, [], [], []), TypeInfo(Unknown, [], [], None, [], [], []),
     TypeInfo(Primitive, [], [], None, [], [], []),
     TypeInfo(TupleOf([Element(2, Optional)]), [], [], None, [], [], [])],
    0, 1, (_, _) => false, (_, _) => false, (_, _) => false, _ => false)

  /** `f(...maybe, input)` with `maybe: [string?]`. */
  const SHIFTED_CALL := [Spread(10, Other(11, 3)), Plain(Other(12, 0))]

  lemma OptionalTupleFacts()
    ensures OPTIONAL_TUPLE.Has(3) && FixedTypes(OPTIONAL_TUPLE, 3) == [2] && TailTypes(OPTIONAL_TUPLE, 3) == []
    ensures MayStopAt(OPTIONAL_TUPLE, 3, 0)
    ensures TypedList(OPTIONAL_TUPLE, 10, 3, [])
  {
    var e := OPTIONAL_TUPLE.Shape(3).elements;
    assert Graph.PrefixLength(e[1..]) == 0 && Graph.PrefixLength(e) == 1;
  }

  lemma ShiftedSlots()
    ensures Typed(OPTIONAL_TUPLE, SHIFTED_CALL)
    ensures ScanArgs(OPTIONAL_TUPLE, SHIFTED_CALL, 0, false, None).slots
            == [Slot(10, 2, 0, false, None), Slot(12, 0, 1, false, Some(Other(12, 0)))]
  {
    OptionalTupleFacts();
    ScanTwo(OPTIONAL_TUPLE, SHIFTED_CALL[0], SHIFTED_CALL[1]);
    hide FixedTypes, TailTypes;
    assert SpreadSlots(OPTIONAL_TUPLE, 10, 3, 0, false) == Scan([Slot(10, 2, 0, false, None)], 1, false);
  }

  /** When `maybe` is empty, `input` lands at parameter 0, where no slot covers it. */
  lemma OptionalElementShifts() returns (chunks: seq<seq<Value>>)
    ensures Typed(OPTIONAL_TUPLE, SHIFTED_CALL) && IsRun(OPTIONAL_TUPLE, SHIFTED_CALL, None, chunks)
    ensures Flatten(chunks) == [Value(12, 0, Some(Other(12, 0)))]
    ensures !AllCovered(ScanArgs(OPTIONAL_TUPLE, SHIFTED_CALL, 0, false, None).slots, 0, Flatten(chunks))
  {
    OptionalTupleFacts();
    ShiftedSlots();
    hide FixedTypes, TailTypes, ScanArgs, TypedList;
    var g, args, value := OPTIONAL_TUPLE, SHIFTED_CALL, Value(12, 0, Some(Other(12, 0)));
    chunks := [[], [value]];
    assert Yields(g, args[0], None, []) && Yields(g, args[1], None, [value]);
    assert chunks[..1] == [[]] && chunks[..1][..0] == [] && Flatten(chunks[..1]) == [];
    assert Flatten(chunks) == [] + [value];
    assert !Covered(ScanArgs(g, args, 0, false, None).slots, 0 + 0, Flatten(chunks)[0]);
  }
}
