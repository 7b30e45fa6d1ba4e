/**
 * The stock replay that every feedstock write runs before it commits
 * (`src/lib/feedstock-draw-replay.ts`, called through `feedstock-run-allocations.ts`).
 *
 * It walks the timeline once more, this time keeping what is left of every delivery: each
 * withdrawal is charged to deliveries proportionally or in order, saved shares first, and
 * what no delivery can carry becomes a debt that later additions repay. It refuses when a
 * checked withdrawal asks for more than the pile holds.
 */
module FeedstockReplay {
  import opened Outcomes
  import opened FeedstockTimeline
  import opened FeedstockShares

  /** `saved`: the stored shares of a run before the boundary. `historyOnly`: a cancelled run kept for its provenance. */
  datatype Event = Event(entry: Entry, reversed: bool, saved: Option<Shares>, historyOnly: bool)

  /** Where an edit begins. A missing recording time or identifier takes in the whole instant. */
  datatype Boundary = Boundary(occurredAt: Instant, recordedAt: Option<Instant>, id: Option<RecordId>, exclusive: bool)

  /** What is left of each delivery, in delivery order, and the rest: gains without a delivery, or debt below zero. */
  datatype Pile = Pile(holdings: Shares, unattributed: int)

  // ---------- The pile through the events ----------

  function Net(pile: Pile): int {
    Total(pile.holdings) + pile.unattributed
  }

  /** Deliveries never hold less than nothing, and there is debt only when they are all used up. */
  ghost predicate Sound(pile: Pile) {
    && NonNegative(pile.holdings) && Distinct(pile.holdings)
    && (pile.unattributed < 0 ==> Total(pile.holdings) == 0)
  }

  /** Saved shares, or a draw of what is there; then other deliveries; then debt. */
  function Withdraw(pile: Pile, requested: nat, saved: Option<Shares>, how: DrawMethod): Pile
    requires Sound(pile)
  {
    var present := Positive(pile.holdings);
    PositiveTotal(pile.holdings);
    var shares := if saved.Some? then Positive(saved.value) else DrawShares(Min(requested, Total(present)), present, how);
    var charged := Charge(pile.holdings, shares, requested);
    PositiveIsDistinct(pile.holdings);
    SharesAreParts(pile.holdings, requested, saved, how);
    ChargeConserves(pile.holdings, shares, requested);
    var remaining := Positive(charged.holdings);
    PositiveTotal(charged.holdings);
    var more := DrawShares(Min(charged.deficit, Total(remaining)), remaining, how);
    Pile(Move(charged.holdings, more, false), pile.unattributed - (charged.deficit - Total(more)))
  }

  lemma SharesAreParts(holdings: Shares, requested: nat, saved: Option<Shares>, how: DrawMethod)
    requires NonNegative(holdings) && Distinct(holdings)
    ensures Total(Positive(holdings)) >= 0
    ensures NonNegative(if saved.Some? then Positive(saved.value)
                        else DrawShares(Min(requested, Total(Positive(holdings))), Positive(holdings), how))
  {
    PositiveTotal(holdings);
    PositiveIsDistinct(holdings);
    DrawSharesConserve(Min(requested, Total(Positive(holdings))), Positive(holdings), how);
  }

  /** A withdrawal takes exactly what it asks from the pile, whichever deliveries carry it. */
  lemma WithdrawConserves(pile: Pile, requested: nat, saved: Option<Shares>, how: DrawMethod)
    requires Sound(pile)
    ensures Sound(Withdraw(pile, requested, saved, how))
    ensures Net(Withdraw(pile, requested, saved, how)) == Net(pile) - requested
  {
    SharesAreParts(pile.holdings, requested, saved, how);
    var present := Positive(pile.holdings);
    var shares := if saved.Some? then Positive(saved.value) else DrawShares(Min(requested, Total(present)), present, how);
    ChargeConserves(pile.holdings, shares, requested);
    var charged := Charge(pile.holdings, shares, requested);
    PositiveTotal(charged.holdings);
    PositiveIsDistinct(charged.holdings);
    var remaining := Positive(charged.holdings);
    var amount := Min(charged.deficit, Total(remaining));
    DrawSharesConserve(amount, remaining, how);
    var more := DrawShares(amount, remaining, how);
    hide Charge, DrawShares, NonNegative, Distinct, Positive, Move, Total;
    PartsOfAll(more, charged.holdings);
    RemoveConserves(charged.holdings, more);
    TotalIsNonNegative(Move(charged.holdings, more, false));
    TotalIsNonNegative(charged.holdings);
  }

  lemma PartsOfAll(more: Shares, holdings: Shares)
    requires PartsOf(more, Positive(holdings))
    ensures PartsOf(more, holdings)
  {
    forall s | s in more
      ensures exists p | p in holdings :: p.delivery == s.delivery && s.grams <= p.grams
    {
      var p :| p in Positive(holdings) && p.delivery == s.delivery && s.grams <= p.grams;
      assert p in holdings;
    }
  }

  lemma TotalIsNonNegative(shares: Shares)
    requires NonNegative(shares)
    ensures Total(shares) >= 0
  {
    PositiveTotal(shares);
  }

  /** An addition first repays debt; a delivery keeps the rest, and gains are spread over the deliveries present. */
  function Add(pile: Pile, delta: nat, delivery: Option<RecordId>): Pile
    requires NonNegative(pile.holdings)
  {
    var repaid := if pile.unattributed < 0 then Min(delta, -pile.unattributed) else 0;
    var unattributed, addition := pile.unattributed + repaid, delta - repaid;
    match delivery
    case Some(id) => Pile(Put(pile.holdings, id, Held(pile.holdings, id) + addition), unattributed)
    case None =>
      var gains := Proportional(addition, Positive(pile.holdings));
      if gains == [] then Pile(pile.holdings, unattributed + addition)
      else Pile(Move(pile.holdings, gains, true), unattributed)
  }

  lemma AddToPileConserves(pile: Pile, delta: nat, delivery: Option<RecordId>)
    requires Sound(pile)
    ensures Sound(Add(pile, delta, delivery)) && Net(Add(pile, delta, delivery)) == Net(pile) + delta
  {
    hide Put, Held, Positive, Move, Proportional, NonNegative, Distinct, Total;
    var repaid := if pile.unattributed < 0 then Min(delta, -pile.unattributed) else 0;
    if delivery.Some? {
      AddDelivery(pile.holdings, delivery.value, delta - repaid);
    } else {
      AddGains(pile.holdings, delta - repaid);
    }
  }

  lemma AddDelivery(holdings: Shares, id: RecordId, addition: nat)
    requires NonNegative(holdings) && Distinct(holdings)
    ensures
      var now := Put(holdings, id, Held(holdings, id) + addition);
      NonNegative(now) && Distinct(now) && Total(now) == Total(holdings) + addition
  {
    assert MoveOne(holdings, Share(id, addition), true) == Put(holdings, id, Held(holdings, id) + addition);
    hide *;
    HeldBounds(holdings, id);
    MoveOneConserves(holdings, Share(id, addition), true);
  }

  lemma AddGains(holdings: Shares, addition: nat)
    requires NonNegative(holdings) && Distinct(holdings)
    ensures
      var gains := Proportional(addition, Positive(holdings));
      var now := Move(holdings, gains, true);
      && NonNegative(now) && Distinct(now)
      && (gains != [] ==> Total(now) == Total(holdings) + addition)
      && (addition == 0 ==> Total(now) == Total(holdings))
  {
    var present := Positive(holdings);
    ProportionalFacts(addition, present);
    AddConserves(holdings, Proportional(addition, present));
    hide Move, Proportional;
  }

  function After(pile: Pile, event: Event, how: DrawMethod): Pile
    requires Sound(pile)
  {
    var delta := event.entry.wetDelta;
    if event.reversed || delta == 0 then pile
    else if delta > 0 then Add(pile, delta, if event.entry.kind.Intake? then Some(event.entry.id) else None)
    else if event.historyOnly then pile
    else Withdraw(pile, -delta, event.saved, how)
  }

  /** What an event does to the stock. */
  function Effect(event: Event): int {
    if event.reversed || (event.historyOnly && event.entry.wetDelta < 0) then 0 else event.entry.wetDelta
  }

  lemma AfterConserves(pile: Pile, event: Event, how: DrawMethod)
    requires Sound(pile)
    ensures Sound(After(pile, event, how)) && Net(After(pile, event, how)) == Net(pile) + Effect(event)
  {
    hide Sound, Net, Add, Withdraw;
    var delta := event.entry.wetDelta;
    if event.reversed || delta == 0 {
    } else if delta > 0 {
      AddToPileConserves(pile, delta, if event.entry.kind.Intake? then Some(event.entry.id) else None);
    } else if !event.historyOnly {
      WithdrawConserves(pile, -delta, event.saved, how);
    }
  }

  /** The plain running balance after `n` events. */
  function StockAfter(events: seq<Event>, n: nat): int
    requires n <= |events|
  {
    if n == 0 then 0 else StockAfter(events, n - 1) + Effect(events[n - 1])
  }

  const EmptyPile := Pile([], 0)

  type SoundPile = pile: Pile | Sound(pile) witness EmptyPile

  function PileAfter(events: seq<Event>, n: nat, methodAt: Instant -> DrawMethod): SoundPile
    requires n <= |events|
  {
    if n == 0 then EmptyPile
    else
      var before, event := PileAfter(events, n - 1, methodAt), events[n - 1];
      AfterConserves(before, event, methodAt(event.entry.occurredAt));
      After(before, event, methodAt(event.entry.occurredAt))
  }

  /**
   * However the withdrawals were charged, what is left of all deliveries and the rest add up
   * to the plain running balance; no delivery is overdrawn, and debt means that nothing is left.
   */
  lemma {:induction false} PilesMatchBalances(events: seq<Event>, n: nat, methodAt: Instant -> DrawMethod)
    requires n <= |events|
    ensures Sound(PileAfter(events, n, methodAt))
    ensures Net(PileAfter(events, n, methodAt)) == StockAfter(events, n)
  {
    hide Sound, Net, After, Effect;
    if n == 0 {
      NothingHeld();
    } else {
      PilesMatchBalances(events, n - 1, methodAt);
      var event := events[n - 1];
      AfterConserves(PileAfter(events, n - 1, methodAt), event, methodAt(event.entry.occurredAt));
    }
  }

  lemma NothingHeld()
    ensures Net(EmptyPile) == 0
  {
  }

  // ---------- Which deliveries a withdrawal is charged to ----------

  /** The shares a withdrawal draws by its method. */
  function Drawn(pile: Pile, requested: nat, how: DrawMethod): Shares
    requires Sound(pile)
  {
    PositiveTotal(pile.holdings);
    DrawShares(Min(requested, Total(Positive(pile.holdings))), Positive(pile.holdings), how)
  }

  /** Shares that cover a withdrawal, or empty every delivery, leave nothing for the other deliveries to carry. */
  lemma ChargeAndRest(holdings: Shares, shares: Shares, requested: nat, how: DrawMethod, id: RecordId)
    requires NonNegative(holdings) && Distinct(holdings) && PartsOf(shares, holdings)
    requires Total(shares) == Min(requested, Total(holdings))
    ensures
      var charged := Charge(holdings, shares, requested);
      && NonNegative(charged.holdings) && charged.deficit >= 0 && Total(Positive(charged.holdings)) >= 0
      && var moved := Rest(charged, how);
         SameDeliveries(holdings, moved) && Held(moved, id) == Held(holdings, id) - Held(shares, id)
  {
    assert NonNegative(shares) && Distinct(shares);
    hide Charge, Total, Held, NonNegative, Distinct, PartsOf, Positive, DrawShares, Move, Rest, SameDeliveries, Has, AllHeld;
    var charged := Charge(holdings, shares, requested);
    ChargeConserves(holdings, shares, requested);
    PartsAreHeld(holdings, shares);
    ChargeTakes(holdings, shares, requested, id);
    PartHeld(holdings, shares, id);
    PositiveTotal(holdings);
    PositiveTotal(charged.holdings);
    NothingRests(charged, how, id);
    SameTwice(holdings, charged.holdings, Rest(charged, how));
  }

  lemma SameTwice(a: Shares, b: Shares, c: Shares)
    requires SameDeliveries(a, b) && SameDeliveries(b, c)
    ensures SameDeliveries(a, c)
  {
  }

  /** What the other deliveries are left with once they carried the rest of a withdrawal. */
  function Rest(charged: Charged, how: DrawMethod): Shares
    requires NonNegative(charged.holdings) && charged.deficit >= 0
  {
    PositiveTotal(charged.holdings);
    var remaining := Positive(charged.holdings);
    Move(charged.holdings, DrawShares(Min(charged.deficit, Total(remaining)), remaining, how), false)
  }

  lemma NothingRests(charged: Charged, how: DrawMethod, id: RecordId)
    requires NonNegative(charged.holdings) && Distinct(charged.holdings) && charged.deficit >= 0
    requires charged.deficit == 0 || Total(charged.holdings) == 0
    ensures SameDeliveries(charged.holdings, Rest(charged, how))
    ensures Held(Rest(charged, how), id) == Held(charged.holdings, id)
  {
    var remaining := Positive(charged.holdings);
    PositiveTotal(charged.holdings);
    PositiveIsDistinct(charged.holdings);
    DrawSharesConserve(0, remaining, how);
    var more := DrawShares(0, remaining, how);
    assert NonNegative(more);
    assert Rest(charged, how) == Move(charged.holdings, more, false);
    hide *;
    PartsOfAll(more, charged.holdings);
    RemoveTakes(charged.holdings, more, id);
    NothingHasNothing(more, id);
  }

  /** Without saved shares a withdrawal takes from each delivery what its method draws, and nothing else. */
  lemma WithdrawTakes(pile: Pile, requested: nat, how: DrawMethod, id: RecordId)
    requires Sound(pile)
    ensures
      var after := Withdraw(pile, requested, None, how);
      && SameDeliveries(pile.holdings, after.holdings)
      && PartsOf(Drawn(pile, requested, how), pile.holdings)
      && Held(after.holdings, id) == Held(pile.holdings, id) - Held(Drawn(pile, requested, how), id)
  {
    var present, shares := Positive(pile.holdings), Drawn(pile, requested, how);
    PositiveTotal(pile.holdings);
    PositiveIsDistinct(pile.holdings);
    DrawSharesConserve(Min(requested, Total(present)), present, how);
    PartsOfAll(shares, pile.holdings);
    ChargeAndRest(pile.holdings, shares, requested, how, id);
    hide Charge, DrawShares, NonNegative, Distinct, Positive, Move, Total, Held, PartsOf, SameDeliveries;
    assert Withdraw(pile, requested, None, how).holdings == Rest(Charge(pile.holdings, shares, requested), how);
  }

  /** How much a delivery gave between two piles. */
  function Gave(before: Pile, after: Pile, i: nat): int
    requires SameDeliveries(before.holdings, after.holdings) && i < |before.holdings|
  {
    before.holdings[i].grams - after.holdings[i].grams
  }

  /**
   * The order in which deliveries are used: oldest first empties each delivery before a later
   * one gives anything, newest first before an earlier one does, and a mix takes from every
   * delivery its fair part of what is withdrawn.
   */
  ghost predicate ChargedInOrder(before: Pile, after: Pile, requested: nat, how: DrawMethod, i: nat, j: nat) {
    && SameDeliveries(before.holdings, after.holdings) && i < j < |before.holdings|
    && match how
       case OldestFirst => Gave(before, after, j) > 0 ==> after.holdings[i].grams == 0
       case NewestFirst => Gave(before, after, i) > 0 ==> after.holdings[j].grams == 0
       case Mix =>
         before.holdings[i].grams > 0 && before.holdings[j].grams > 0 ==>
           FairBetween(Min(requested, Total(before.holdings)), Total(before.holdings),
                       i, before.holdings[i].grams, Gave(before, after, i),
                       j, before.holdings[j].grams, Gave(before, after, j))
  }

  /** What one delivery gave is what was drawn from it. */
  lemma GaveWhatWasDrawn(pile: Pile, requested: nat, how: DrawMethod, k: nat)
    requires Sound(pile) && k < |pile.holdings|
    ensures SameDeliveries(pile.holdings, Withdraw(pile, requested, None, how).holdings)
    ensures
      var after, drawn := Withdraw(pile, requested, None, how), Held(Drawn(pile, requested, how), pile.holdings[k].delivery);
      Gave(pile, after, k) == drawn && 0 <= drawn <= pile.holdings[k].grams
  {
    hide Withdraw, Drawn, Held, PartsOf, Total;
    var after, shares := Withdraw(pile, requested, None, how), Drawn(pile, requested, how);
    WithdrawConserves(pile, requested, None, how);
    WithdrawTakes(pile, requested, how, pile.holdings[k].delivery);
    HeldIsUnique(pile.holdings, k);
    HeldIsUnique(after.holdings, k);
    PartHeld(pile.holdings, shares, pile.holdings[k].delivery);
  }

  lemma WithdrawInOrder(pile: Pile, requested: nat, how: DrawMethod, i: nat, j: nat)
    requires Sound(pile) && i < j < |pile.holdings|
    ensures ChargedInOrder(pile, Withdraw(pile, requested, None, how), requested, how, i, j)
  {
    GaveWhatWasDrawn(pile, requested, how, i);
    GaveWhatWasDrawn(pile, requested, how, j);
    var after, shares := Withdraw(pile, requested, None, how), Drawn(pile, requested, how);
    if pile.holdings[i].grams > 0 && pile.holdings[j].grams > 0 {
      DrawnInOrder(pile, requested, how, i, j);
    }
    hide *;
    OrderOfGiving(pile, after, requested, how, i, j, shares);
  }

  /** Whether what was drawn follows the method shows in what the pile gave. */
  lemma OrderOfGiving(before: Pile, after: Pile, requested: nat, how: DrawMethod, i: nat, j: nat, shares: Shares)
    requires SameDeliveries(before.holdings, after.holdings) && i < j < |before.holdings|
    requires forall k | k == i || k == j ::
      && Gave(before, after, k) == Held(shares, before.holdings[k].delivery)
      && 0 <= Held(shares, before.holdings[k].delivery) <= before.holdings[k].grams
    requires before.holdings[i].grams > 0 && before.holdings[j].grams > 0 ==>
      var a, b := before.holdings[i], before.holdings[j];
      match how
      case OldestFirst => UsedFirst(shares, a, b)
      case NewestFirst => UsedFirst(shares, b, a)
      case Mix =>
        FairBetween(Min(requested, Total(before.holdings)), Total(before.holdings),
                    i, a.grams, Held(shares, a.delivery), j, b.grams, Held(shares, b.delivery))
    ensures ChargedInOrder(before, after, requested, how, i, j)
  {
    hide Held, FairBetween, Total, SameDeliveries;
    assert Gave(before, after, i) == Held(shares, before.holdings[i].delivery);
    assert Gave(before, after, j) == Held(shares, before.holdings[j].delivery);
  }

  lemma DrawnInOrder(pile: Pile, requested: nat, how: DrawMethod, i: nat, j: nat)
    requires Sound(pile) && i < j < |pile.holdings| && pile.holdings[i].grams > 0 && pile.holdings[j].grams > 0
    ensures
      var shares, a, b := Drawn(pile, requested, how), pile.holdings[i], pile.holdings[j];
      match how
      case OldestFirst => UsedFirst(shares, a, b)
      case NewestFirst => UsedFirst(shares, b, a)
      case Mix =>
        FairBetween(Min(requested, Total(pile.holdings)), Total(pile.holdings),
                    i, a.grams, Held(shares, a.delivery), j, b.grams, Held(shares, b.delivery))
  {
    var present := Positive(pile.holdings);
    PositiveTotal(pile.holdings);
    PositiveIsDistinct(pile.holdings);
    var amount, shares := Min(requested, Total(present)), Drawn(pile, requested, how);
    assert shares == DrawShares(amount, present, how);
    assert how.Mix? ==> shares == Proportional(amount, present);
    var a, b := PresentInOrder(pile.holdings, i, j);
    assert NonNegative(present) && amount >= 0 && Total(present) == Total(pile.holdings);
    assert NonNegative(pile.holdings) && Distinct(pile.holdings);
    hide *;
    if how.Mix? {
      MixInOrder(pile.holdings, amount, i, j);
    } else {
      DrawSharesInOrder(amount, present, how, a, b);
    }
  }

  /** A mix over the deliveries present is fair between any two of them. */
  lemma MixInOrder(holdings: Shares, amount: nat, i: nat, j: nat)
    requires NonNegative(holdings) && Distinct(holdings)
    requires i < j < |holdings| && holdings[i].grams > 0 && holdings[j].grams > 0
    ensures
      var shares := Proportional(amount, Positive(holdings));
      FairBetween(amount, Total(holdings), i, holdings[i].grams, Held(shares, holdings[i].delivery),
                  j, holdings[j].grams, Held(shares, holdings[j].delivery))
  {
    PositiveTotal(holdings);
    PositiveIsDistinct(holdings);
    SomethingIsHeld(holdings, i);
    var present := Positive(holdings);
    var a, b := PresentInOrder(holdings, i, j);
    var shares := Proportional(amount, present);
    assert shares == DrawShares(amount, present, Mix);
    hide *;
    DrawSharesInOrder(amount, present, Mix, a, b);
    OnlyOrderMatters(amount, Total(holdings), holdings[i].grams, Held(shares, holdings[i].delivery),
                     holdings[j].grams, Held(shares, holdings[j].delivery), a, b, i, j);
  }

  lemma OnlyOrderMatters(
      amount: int, total: int, heldI: int, givenI: int, heldJ: int, givenJ: int, a: nat, b: nat, i: nat, j: nat)
    requires a < b && i < j && FairBetween(amount, total, a, heldI, givenI, b, heldJ, givenJ)
    ensures FairBetween(amount, total, i, heldI, givenI, j, heldJ, givenJ)
  {
    hide Short;
  }

  lemma SomethingIsHeld(holdings: Shares, i: nat)
    requires NonNegative(holdings) && i < |holdings| && holdings[i].grams > 0
    ensures Total(holdings) > 0
  {
    var id := holdings[i].delivery;
    TotalUpdate(holdings, i, Share(id, 0));
    TotalIsNotNegative(holdings[i := Share(id, 0)]);
  }

  /** A withdrawal that is charged, by its method alone. */
  predicate PlannedAnew(event: Event) {
    !event.reversed && event.entry.wetDelta < 0 && !event.historyOnly && event.saved.None?
  }

  /** In the replay every withdrawal without saved shares is charged in the order of the method that holds at its time. */
  lemma ReplayChargesInOrder(events: seq<Event>, n: nat, methodAt: Instant -> DrawMethod, i: nat, j: nat)
    requires n < |events| && PlannedAnew(events[n]) && i < j < |PileAfter(events, n, methodAt).holdings|
    ensures ChargedInOrder(PileAfter(events, n, methodAt), PileAfter(events, n + 1, methodAt), -events[n].entry.wetDelta,
                           methodAt(events[n].entry.occurredAt), i, j)
  {
    hide Withdraw, ChargedInOrder;
    WithdrawInOrder(PileAfter(events, n, methodAt), -events[n].entry.wetDelta, methodAt(events[n].entry.occurredAt), i, j);
  }

  // ---------- Saved shares and additions ----------

  /** Saved shares that the withdrawal covers are taken from their own deliveries, as far as those still hold them. */
  lemma SavedSharesAreTaken(pile: Pile, requested: nat, saved: Shares, how: DrawMethod, i: nat)
    requires Sound(pile) && i < |pile.holdings| && Distinct(saved) && Total(Positive(saved)) <= requested
    ensures
      var after := Withdraw(pile, requested, Some(saved), how);
      && SameDeliveries(pile.holdings, after.holdings)
      && Gave(pile, after, i) >= Min(pile.holdings[i].grams, Held(Positive(saved), pile.holdings[i].delivery))
  {
    var shares, id := Positive(saved), pile.holdings[i].delivery;
    var charged := Charge(pile.holdings, shares, requested);
    assert NonNegative(shares);
    PositiveIsDistinct(saved);
    ChargeConserves(pile.holdings, shares, requested);
    ChargeTakes(pile.holdings, shares, requested, id);
    RestTakes(charged, how, id);
    HeldIsUnique(pile.holdings, i);
    assert Withdraw(pile, requested, Some(saved), how).holdings == Rest(charged, how);
    hide Charge, Positive, Rest, Withdraw, Held, Total, NonNegative;
    SameTwice(pile.holdings, charged.holdings, Rest(charged, how));
    HeldIsUnique(Rest(charged, how), i);
  }

  /** The rest is carried by what other deliveries hold. */
  lemma RestTakes(charged: Charged, how: DrawMethod, id: RecordId)
    requires NonNegative(charged.holdings) && Distinct(charged.holdings) && charged.deficit >= 0
    ensures SameDeliveries(charged.holdings, Rest(charged, how)) && Distinct(Rest(charged, how))
    ensures Held(Rest(charged, how), id) <= Held(charged.holdings, id)
  {
    var remaining := Positive(charged.holdings);
    PositiveTotal(charged.holdings);
    PositiveIsDistinct(charged.holdings);
    var amount := Min(charged.deficit, Total(remaining));
    DrawSharesConserve(amount, remaining, how);
    var more := DrawShares(amount, remaining, how);
    assert Rest(charged, how) == Move(charged.holdings, more, false);
    hide *;
    PartsOfAll(more, charged.holdings);
    RemoveTakes(charged.holdings, more, id);
    RemoveConserves(charged.holdings, more);
    PartHeld(charged.holdings, more, id);
  }

  /** An intake first repays the debt, and what is left of it is held by its own delivery alone. */
  lemma IntakeIsHeld(pile: Pile, delta: nat, id: RecordId, other: RecordId)
    requires Sound(pile)
    ensures
      var after := Add(pile, delta, Some(id));
      var repaid := if pile.unattributed >= 0 then 0 else if delta + pile.unattributed >= 0 then -pile.unattributed else delta;
      && after.unattributed == pile.unattributed + repaid
      && Held(after.holdings, other) == Held(pile.holdings, other) + if other == id then delta - repaid else 0
  {
    var repaid := if pile.unattributed < 0 then Min(delta, -pile.unattributed) else 0;
    var now := Held(pile.holdings, id) + (delta - repaid);
    assert Add(pile, delta, Some(id)) == Pile(Put(pile.holdings, id, now), pile.unattributed + repaid);
    hide Add, Put, Held, Total, NonNegative;
    PutHolds(pile.holdings, id, now);
    if other != id {
      PutHeld(pile.holdings, id, now, other);
    }
  }

  lemma PutHolds(holdings: Shares, id: RecordId, grams: int)
    requires Distinct(holdings)
    ensures Held(Put(holdings, id, grams), id) == grams
  {
    PutKeepsShape(holdings, id, grams);
    HeldIsUnique(Put(holdings, id, grams), if Has(holdings, id) then IndexOf(holdings, id) else |holdings|);
  }

  /** A gain without a delivery of its own is spread fairly over the deliveries present. */
  lemma GainIsSpread(pile: Pile, delta: nat, i: nat, j: nat)
    requires Sound(pile) && i < j < |pile.holdings| && pile.holdings[i].grams > 0 && pile.holdings[j].grams > 0
    ensures
      var after := Add(pile, delta, None);
      && SameDeliveries(pile.holdings, after.holdings) && after.unattributed == pile.unattributed
      && FairBetween(delta, Total(pile.holdings), i, pile.holdings[i].grams, -Gave(pile, after, i),
                     j, pile.holdings[j].grams, -Gave(pile, after, j))
  {
    hide *;
    SoundHoldings(pile);
    SomethingIsHeld(pile.holdings, i);
    var gains := Proportional(delta, Positive(pile.holdings));
    GainsAreParts(pile.holdings, delta);
    AddSpreads(pile, delta);
    MixInOrder(pile.holdings, delta, i, j);
    GainIsHeld(pile, gains, i);
    GainIsHeld(pile, gains, j);
    SpreadOfGains(pile, Add(pile, delta, None), delta, gains, i, j);
  }

  lemma SoundHoldings(pile: Pile)
    requires Sound(pile)
    ensures NonNegative(pile.holdings) && Distinct(pile.holdings) && NonNegative(Positive(pile.holdings))
  {
  }

  lemma AddSpreads(pile: Pile, delta: nat)
    requires Sound(pile) && NonNegative(Positive(pile.holdings)) && Total(pile.holdings) > 0
    requires Proportional(delta, Positive(pile.holdings)) != []
    ensures Add(pile, delta, None)
            == Pile(Move(pile.holdings, Proportional(delta, Positive(pile.holdings)), true), pile.unattributed)
  {
    hide Proportional, Positive, Move, Total;
  }

  lemma SpreadOfGains(before: Pile, after: Pile, delta: nat, gains: Shares, i: nat, j: nat)
    requires SameDeliveries(before.holdings, after.holdings) && i < j < |before.holdings|
    requires after.holdings[i].grams - before.holdings[i].grams == Held(gains, before.holdings[i].delivery)
    requires after.holdings[j].grams - before.holdings[j].grams == Held(gains, before.holdings[j].delivery)
    requires FairBetween(delta, Total(before.holdings),
                         i, before.holdings[i].grams, Held(gains, before.holdings[i].delivery),
                         j, before.holdings[j].grams, Held(gains, before.holdings[j].delivery))
    ensures FairBetween(delta, Total(before.holdings), i, before.holdings[i].grams, -Gave(before, after, i),
                        j, before.holdings[j].grams, -Gave(before, after, j))
  {
    hide Held, FairBetween, Total, SameDeliveries;
  }

  lemma GainsAreParts(holdings: Shares, delta: nat)
    requires NonNegative(holdings) && Distinct(holdings) && Total(holdings) > 0
    ensures
      var gains := Proportional(delta, Positive(holdings));
      gains != [] && NonNegative(gains) && Distinct(gains) && forall s | s in gains :: Has(holdings, s.delivery)
  {
    PositiveTotal(holdings);
    ProportionalFacts(delta, Positive(holdings));
    hide Proportional, Has;
    GainsHaveDeliveries(holdings, Proportional(delta, Positive(holdings)));
  }

  lemma GainsHaveDeliveries(holdings: Shares, gains: Shares)
    requires Distinct(holdings) && |gains| == |Positive(holdings)|
    requires forall k | 0 <= k < |gains| :: gains[k].delivery == Positive(holdings)[k].delivery
    ensures Distinct(gains) && forall s | s in gains :: Has(holdings, s.delivery)
  {
    PositiveIsDistinct(holdings);
    forall s | s in gains
      ensures Has(holdings, s.delivery)
    {
      var k :| 0 <= k < |gains| && gains[k] == s;
      assert Positive(holdings)[k] in holdings;
    }
  }

  lemma GainIsHeld(pile: Pile, gains: Shares, i: nat)
    requires Sound(pile) && i < |pile.holdings| && NonNegative(gains) && Distinct(gains)
    requires forall s | s in gains :: Has(pile.holdings, s.delivery)
    ensures
      var moved := Move(pile.holdings, gains, true);
      && SameDeliveries(pile.holdings, moved)
      && moved[i].grams - pile.holdings[i].grams == Held(gains, pile.holdings[i].delivery)
  {
    hide Held, Move, Has;
    AddGives(pile.holdings, gains, pile.holdings[i].delivery);
    AddConserves(pile.holdings, gains);
    HeldIsUnique(pile.holdings, i);
    HeldIsUnique(Move(pile.holdings, gains, true), i);
  }

  // ---------- What is refused ----------

  /** At or after the place where the edit begins. */
  predicate Affected(entry: Entry, boundary: Boundary) {
    || entry.occurredAt > boundary.occurredAt
    || (entry.occurredAt == boundary.occurredAt
        && match boundary.recordedAt
           case None => true
           case Some(recordedAt) =>
             || entry.recordedAt > recordedAt
             || (entry.recordedAt == recordedAt
                 && match boundary.id
                    case None => true
                    case Some(id) => if boundary.exclusive then entry.id > id else entry.id >= id))
  }

  /**
   * What lies from a boundary on: everything of its event time, everything of its recording
   * time, or by identifier, the boundary's own entry included unless it is exclusive.
   */
  lemma AffectedIsFrom(entry: Entry, boundary: Boundary)
    ensures
      var key := KeyOf(entry);
      Affected(entry, boundary)
      <==> if boundary.recordedAt.None? then entry.occurredAt >= boundary.occurredAt
           else if boundary.id.None? then UpTo(Key(boundary.occurredAt, boundary.recordedAt.value, 0), key)
           else
             var edge := Key(boundary.occurredAt, boundary.recordedAt.value, boundary.id.value);
             UpTo(edge, key) && (boundary.exclusive ==> key != edge)
  {
  }

  /** Runs are checked when their shares are planned anew; other withdrawals from the boundary on. */
  predicate Checked(event: Event, boundary: Option<Boundary>) {
    && !event.reversed && event.entry.wetDelta < 0
    && if event.entry.kind.RunDraw? then event.saved.None?
       else boundary.Some? && Affected(event.entry, boundary.value)
  }

  /** A checked withdrawal that asks for more than the running balance before it. */
  predicate Overdraws(events: seq<Event>, boundary: Option<Boundary>, n: nat) {
    n < |events| && Checked(events[n], boundary) && -events[n].entry.wetDelta > StockAfter(events, n)
  }

  datatype Totals = Totals(wetTotals: seq<int>, pile: Pile)

  /**
   * Walk the ordered events. The replay refuses exactly at the first checked withdrawal that
   * the plain running balance cannot cover; otherwise its totals are the running balances.
   */
  method ReplayFeedstockDraws(events: seq<Event>, methodAt: Instant -> DrawMethod, boundary: Option<Boundary>)
      returns (result: Result<Totals, nat>)
    ensures result.Ok? <==> forall n: nat :: !Overdraws(events, boundary, n)
    ensures result.Err? ==>
      Overdraws(events, boundary, result.error) && forall n: nat | n < result.error :: !Overdraws(events, boundary, n)
    ensures result.Ok? ==>
      && |result.value.wetTotals| == |events|
      && (forall n | 0 <= n < |events| :: result.value.wetTotals[n] == StockAfter(events, n + 1))
      && result.value.pile == PileAfter(events, |events|, methodAt)
  {
    hide Sound, Net, After, Overdraws, Checked, StockAfter, Total, Positive;
    var pile, wetTotals := EmptyPile, [];
    for i := 0 to |events|
      invariant pile == PileAfter(events, i, methodAt) && |wetTotals| == i
      invariant forall n | 0 <= n < i :: wetTotals[n] == StockAfter(events, n + 1)
      invariant forall n: nat | n < i :: !Overdraws(events, boundary, n)
    {
      var event := events[i];
      RefusalIsOverdraw(events, boundary, i, methodAt);
      if Checked(event, boundary) && -event.entry.wetDelta > Total(Positive(pile.holdings)) + pile.unattributed {
        return Err(i);
      }
      PilesMatchBalances(events, i + 1, methodAt);
      pile := After(pile, event, methodAt(event.entry.occurredAt));
      wetTotals := wetTotals + [Net(pile)];
    }
    NothingPastTheEnd(events, boundary);
    result := Ok(Totals(wetTotals, pile));
  }

  lemma NothingPastTheEnd(events: seq<Event>, boundary: Option<Boundary>)
    ensures forall n: nat | n >= |events| :: !Overdraws(events, boundary, n)
  {
  }

  /** What the replay compares with is the running balance. */
  lemma RefusalIsOverdraw(events: seq<Event>, boundary: Option<Boundary>, i: nat, methodAt: Instant -> DrawMethod)
    requires i < |events|
    ensures
      var pile := PileAfter(events, i, methodAt);
      Overdraws(events, boundary, i)
      <==> Checked(events[i], boundary) && -events[i].entry.wetDelta > Total(Positive(pile.holdings)) + pile.unattributed
  {
    PilesMatchBalances(events, i, methodAt);
    PresentIsEverything(PileAfter(events, i, methodAt));
  }

  lemma PresentIsEverything(pile: Pile)
    requires Sound(pile)
    ensures Total(Positive(pile.holdings)) + pile.unattributed == Net(pile)
  {
    PositiveTotal(pile.holdings);
  }

  // ---------- The replay of one write ----------

  /** The edit begins at the new entry itself. */
  function BoundaryAt(entry: Entry): Boundary {
    Boundary(entry.occurredAt, Some(entry.recordedAt), Some(entry.id), false)
  }

  lemma AffectedIff(entry: Entry, other: Entry)
    ensures Affected(other, BoundaryAt(entry)) <==> NotAfter(entry, other)
  {
  }

  /** Runs before the new entry keep their saved shares; those from it on are planned anew. */
  function EventsOf(entries: Timeline, entry: Entry, saved: RecordId -> Shares): (events: seq<Event>)
    ensures |events| == |entries|
  {
    seq(|entries|, i requires 0 <= i < |entries| =>
      Event(entries[i], false,
            if entries[i].kind.RunDraw? && !Affected(entries[i], BoundaryAt(entry)) then Some(saved(entries[i].id)) else None,
            false))
  }

  /** Every withdrawal from the new entry on is covered by the running balance before it. */
  ghost predicate ReplayAccepts(entries: Timeline, entry: Entry) {
    forall n | 0 <= n < |entries| && NotAfter(entry, entries[n]) && entries[n].wetDelta < 0 ::
      Balance(entries, n) + entries[n].wetDelta >= 0
  }

  lemma {:induction false} StockIsBalance(entries: Timeline, entry: Entry, saved: RecordId -> Shares, n: nat)
    requires n <= |entries|
    ensures StockAfter(EventsOf(entries, entry, saved), n) == Balance(entries, n)
  {
    if n > 0 {
      StockIsBalance(entries, entry, saved, n - 1);
    }
  }

  /** Replay a timeline that already shows the new entry. The shares saved for runs do not matter. */
  method ReplayTimeline(entries: Timeline, entry: Entry, saved: RecordId -> Shares, methodAt: Instant -> DrawMethod)
      returns (accepted: bool)
    ensures accepted <==> ReplayAccepts(entries, entry)
  {
    var events, boundary := EventsOf(entries, entry, saved), Some(BoundaryAt(entry));
    var result := ReplayFeedstockDraws(events, methodAt, boundary);
    accepted := result.Ok?;
    forall n: nat | n < |entries|
      ensures Overdraws(events, boundary, n)
              <==> NotAfter(entry, entries[n]) && entries[n].wetDelta < 0 && Balance(entries, n) + entries[n].wetDelta < 0
    {
      StockIsBalance(entries, entry, saved, n);
      AffectedIff(entry, entries[n]);
    }
  }

  /**
   * The replay decides cover exactly: on a covered timeline an insertion of any kind is
   * accepted if and only if every running balance stays at or above zero.
   */
  lemma AcceptedIffCovered(entries: Timeline, entry: Entry)
    requires Ordered(entries) && Covered(0, entries)
    ensures ReplayAccepts(Insert(entries, entry), entry) <==> Covered(0, Insert(entries, entry))
  {
    var at, grown := Position(entries, entry), Insert(entries, entry);
    LaterPlacesFollow(entries, entry);
    if ReplayAccepts(grown, entry) {
      forall n | 0 <= n <= |grown|
        ensures Balance(grown, n) >= 0
      {
        AcceptedBalance(entries, entry, n);
      }
    } else {
      var n :| 0 <= n < |grown| && NotAfter(entry, grown[n]) && grown[n].wetDelta < 0
               && Balance(grown, n) + grown[n].wetDelta < 0;
      assert Balance(grown, n + 1) < 0;
    }
  }

  lemma {:induction false} AcceptedBalance(entries: Timeline, entry: Entry, n: nat)
    requires Ordered(entries) && Covered(0, entries)
    requires ReplayAccepts(Insert(entries, entry), entry) && n <= |entries| + 1
    ensures Balance(Insert(entries, entry), n) >= 0
  {
    var at, grown := Position(entries, entry), Insert(entries, entry);
    if n > 0 {
      LaterPlacesFollow(entries, entry);
      InsertShiftsLaterBalances(entries, entry, n);
      AcceptedBalance(entries, entry, n - 1);
      if n <= at {
        assert Balance(entries, n) + 0 >= 0;
      } else {
        assert NotAfter(entry, grown[n - 1]);
      }
    }
  }
}
