/**
 * Creating, editing and deleting applications of delivered biochar
 * (`src/data-access/application-writes.ts`, `src/lib/application-write-rules.ts`).
 *
 * Masses are whole grams: the columns store gram precision and every comparison is made in
 * grams. Transactions run under the delivery and application locks of the write scope and
 * interleave freely otherwise.
 */
module ApplicationWrites {
  import opened Outcomes

  type Id = nat
  type TxId = nat

  /** Delivered wet and tracked dry grams; either may be unknown. */
  datatype Delivery = Delivery(wet: Option<nat>, dry: Option<nat>)

  datatype Row = Row(delivery: Id, wet: nat, dry: nat, version: nat)

  type Rows = map<Id, Row>

  datatype Db = Db(deliveries: map<Id, Delivery>, rows: Rows)

  datatype Command =
    | Create(id: Id, delivery: Id, wetKg: real)
    | Edit(id: Id, expectedVersion: nat, newDelivery: Option<Id>, newWetKg: Option<real>)
    | Remove(id: Id, expectedVersion: nat)

  datatype Refusal =
    UnknownApplication | UnknownDelivery | StaleVersion | DeliveryChanged | OverCapacity | NoTrackedDry

  datatype Effect = Put(id: Id, row: Row) | Drop(id: Id)

  /** The input schemas only admit positive masses. */
  predicate ValidCommand(command: Command) {
    match command
    case Create(_, _, wetKg) => wetKg > 0.0
    case Edit(_, _, _, Some(wetKg)) => wetKg > 0.0
    case _ => true
  }

  /** `Math.round` of the kilograms in grams. */
  function Grams(kg: real): (grams: nat)
    requires kg >= 0.0
  {
    (kg * 1000.0 + 0.5).Floor
  }

  // ---------- What is applied on a delivery ----------

  /** The applications on a delivery, without one of them. */
  function RowsOn(rows: Rows, delivery: Id, excluded: Option<Id>): Rows {
    map id | id in rows && rows[id].delivery == delivery && excluded != Some(id) :: rows[id]
  }

  function Measure(row: Row, dry: bool): nat {
    if dry then row.dry else row.wet
  }

  ghost function SomeRow(rows: Rows): (id: Id)
    requires |rows| > 0
    ensures id in rows
  {
    assert rows.Keys != {};
    var id :| id in rows;
    id
  }

  ghost function Total(rows: Rows, dry: bool): nat
    decreases |rows|
  {
    if |rows| == 0 then 0
    else
      var id := SomeRow(rows);
      Smaller(rows, id);
      Measure(rows[id], dry) + Total(rows - {id}, dry)
  }

  lemma Smaller(rows: Rows, id: Id)
    requires id in rows
    ensures |rows - {id}| == |rows| - 1
  {
    assert (rows - {id}).Keys == rows.Keys - {id};
  }

  lemma TwoRowsLess(rows: Rows, a: Id, b: Id)
    ensures rows - {a} - {b} == rows - {b} - {a}
  {
  }

  lemma {:induction false} TotalWithout(rows: Rows, id: Id, dry: bool)
    requires id in rows
    ensures Total(rows, dry) == Measure(rows[id], dry) + Total(rows - {id}, dry)
    decreases |rows|
  {
    Smaller(rows, id);
    var first := SomeRow(rows);
    if first != id {
      Smaller(rows, first);
      hide Total;
      TotalWithout(rows - {first}, id, dry);
      TotalWithout(rows - {id}, first, dry);
      TwoRowsLess(rows, first, id);
    }
  }

  ghost function AppliedOn(rows: Rows, delivery: Id, excluded: Option<Id>, dry: bool): nat {
    Total(RowsOn(rows, delivery, excluded), dry)
  }

  /** The sums a statement reads for a delivery, without the application being edited. */
  method AppliedOnDelivery(rows: Rows, delivery: Id, excluded: Option<Id>) returns (wet: nat, dry: nat)
    ensures wet == AppliedOn(rows, delivery, excluded, false)
    ensures dry == AppliedOn(rows, delivery, excluded, true)
  {
    var left := RowsOn(rows, delivery, excluded);
    wet, dry := 0, 0;
    while |left| > 0
      invariant wet + Total(left, false) == AppliedOn(rows, delivery, excluded, false)
      invariant dry + Total(left, true) == AppliedOn(rows, delivery, excluded, true)
      decreases |left|
    {
      assert left.Keys != {};
      var id :| id in left;
      TotalWithout(left, id, false);
      TotalWithout(left, id, true);
      Smaller(left, id);
      wet, dry := wet + left[id].wet, dry + left[id].dry;
      left := left - {id};
    }
  }

  lemma ExcludingLowers(rows: Rows, delivery: Id, id: Id, dry: bool)
    ensures AppliedOn(rows, delivery, Some(id), dry) <= AppliedOn(rows, delivery, None, dry)
  {
    var all, others := RowsOn(rows, delivery, None), RowsOn(rows, delivery, Some(id));
    if id in all {
      TotalWithout(all, id, dry);
      assert all - {id} == others;
    } else {
      assert all == others;
    }
  }

  lemma AppliedAfterPut(rows: Rows, id: Id, row: Row, delivery: Id, dry: bool)
    ensures AppliedOn(rows[id := row], delivery, None, dry)
            == AppliedOn(rows, delivery, Some(id), dry) + (if row.delivery == delivery then Measure(row, dry) else 0)
  {
    var after, others := RowsOn(rows[id := row], delivery, None), RowsOn(rows, delivery, Some(id));
    if row.delivery == delivery {
      TotalWithout(after, id, dry);
      assert after - {id} == others;
    } else {
      assert after == others;
    }
  }

  lemma AppliedAfterDrop(rows: Rows, id: Id, delivery: Id, dry: bool)
    ensures AppliedOn(rows - {id}, delivery, None, dry) == AppliedOn(rows, delivery, Some(id), dry)
  {
    assert RowsOn(rows - {id}, delivery, None) == RowsOn(rows, delivery, Some(id));
  }

  // ---------- Dry share ----------

  /** Whole shares, and the gram that is left over goes to the larger remainder. */
  function Part(mine: nat, other: nat, whole: nat, winsTies: bool): nat
    requires 0 < whole
  {
    var left := mine % whole;
    mine / whole + (if left > 0 && (left > other % whole || (winsTies && left == other % whole)) then 1 else 0)
  }

  function Times(a: nat, b: nat): nat {
    a * b
  }

  /** The first of two largest-remainder parts of `total`, in the proportion `first` to `whole - first`. */
  function FirstPart(total: nat, first: nat, whole: nat): nat
    requires 0 < whole && first <= whole
  {
    Part(Times(total, first), Times(total, whole - first), whole, true)
  }

  function SecondPart(total: nat, first: nat, whole: nat): nat
    requires 0 < whole && first <= whole
  {
    Part(Times(total, whole - first), Times(total, first), whole, false)
  }

  lemma DivMod(a: nat, whole: nat)
    requires 0 < whole
    ensures a == (a / whole) * whole + a % whole && 0 <= a % whole < whole
  {
  }

  lemma Monotone(a: int, b: int, whole: nat)
    ensures a <= b ==> a * whole <= b * whole
  {
  }

  lemma Distribute(total: int, a: int, b: int, whole: int)
    ensures (total - a - b) * whole == total * whole - a * whole - b * whole
  {
  }

  lemma Complement(total: nat, first: nat, whole: nat)
    requires first <= whole
    ensures Times(total, first) + Times(total, whole - first) == total * whole
  {
  }

  /** Two remainders of a multiple of the whole are both nothing, or together one whole. */
  lemma TwoRemainders(total: int, qa: int, ra: int, qb: int, rb: int, whole: nat)
    requires qa * whole + ra + qb * whole + rb == total * whole && 0 <= ra < whole && 0 <= rb < whole
    ensures (ra + rb == 0 && qa + qb == total) || (ra + rb == whole && qa + qb + 1 == total)
  {
    var k := total - qa - qb;
    Distribute(total, qa, qb, whole);
    Monotone(k, -1, whole);
    Monotone(2, k, whole);
  }

  /** No gram is lost or invented: the two parts add up to the total. */
  lemma PartsConserve(total: nat, first: nat, whole: nat)
    requires 0 < whole && first <= whole
    ensures FirstPart(total, first, whole) + SecondPart(total, first, whole) == total
  {
    hide Times;
    var a, b := Times(total, first), Times(total, whole - first);
    Complement(total, first, whole);
    DivMod(a, whole);
    DivMod(b, whole);
    TwoRemainders(total, a / whole, a % whole, b / whole, b % whole, whole);
  }

  /** A part of no more than the whole takes no more than its own share. */
  lemma PartWithinShare(total: nat, first: nat, whole: nat)
    requires 0 < whole && first <= whole && total <= whole
    ensures FirstPart(total, first, whole) <= first
  {
    var a := Times(total, first);
    Monotone(total, whole, first);
    assert a <= first * whole;
    hide Times;
    DivMod(a, whole);
    Monotone(first + 1, a / whole, whole);
  }

  // ---------- One write ----------

  /** Grams still free on a delivery; none when its mass is unknown. */
  function Available(delivery: Delivery, applied: nat): nat {
    match delivery.wet
    case None => 0
    case Some(wet) => if applied >= wet then 0 else wet - applied
  }

  predicate FitsCapacity(delivery: Delivery, applied: nat, grams: nat) {
    delivery.wet.Some? && grams <= Available(delivery, applied)
  }

  /** The tracked dry mass can still be split; masses compare with one gram of slack. */
  predicate DryTracked(delivery: Delivery, wet: nat, dry: nat) {
    && delivery.wet.Some? && delivery.dry.Some? && 0 < delivery.wet.value
    && (delivery.dry.value as int - dry as int) <= (delivery.wet.value as int - wet as int) + 1
  }

  /** Delivered dry mass never exceeds the wet mass: a check constraint of the table. */
  predicate ValidDelivery(delivery: Delivery) {
    delivery.wet.Some? && delivery.dry.Some? ==> delivery.dry.value <= delivery.wet.value
  }

  /** The cumulative dry entitlement, less what is already applied. */
  function DryFor(delivery: Delivery, wet: nat, dry: nat, grams: nat): nat
    requires ValidDelivery(delivery) && DryTracked(delivery, wet, dry)
  {
    var entitled := FirstPart(wet + grams, delivery.dry.value, delivery.wet.value);
    if entitled <= dry then 0 else entitled - dry
  }

  /** Wet and dry mass of an application on a delivery, or why it cannot be there. */
  ghost function Placed(db: Db, id: Id, delivery: Id, grams: nat): Result<(nat, nat), Refusal>
    requires delivery in db.deliveries && ValidDelivery(db.deliveries[delivery])
  {
    var wet, dry := AppliedOn(db.rows, delivery, Some(id), false), AppliedOn(db.rows, delivery, Some(id), true);
    if !FitsCapacity(db.deliveries[delivery], wet, grams) then Err(OverCapacity)
    else if !DryTracked(db.deliveries[delivery], wet, dry) then Err(NoTrackedDry)
    else Ok((grams, DryFor(db.deliveries[delivery], wet, dry, grams)))
  }

  ghost predicate ValidDb(db: Db) {
    && (forall d | d in db.deliveries :: ValidDelivery(db.deliveries[d]))
    && forall id | id in db.rows :: db.rows[id].delivery in db.deliveries
  }

  /** The mass is only recomputed when the delivery or the grams change. */
  predicate MassChanged(row: Row, newDelivery: Option<Id>, newWetKg: Option<real>)
    requires newWetKg.Some? ==> newWetKg.value > 0.0
  {
    || (newDelivery.Some? && newDelivery.value != row.delivery)
    || (newWetKg.Some? && Grams(newWetKg.value) != row.wet)
  }

  /** What a write does to the table it reads under its locks. `saved`: the delivery before the locks. */
  ghost function EffectOf(db: Db, saved: Option<Id>, command: Command): Result<Effect, Refusal>
    requires ValidDb(db) && ValidCommand(command)
  {
    match command
    case Create(id, delivery, wetKg) =>
      if delivery !in db.deliveries then Err(UnknownDelivery)
      else (match Placed(db, id, delivery, Grams(wetKg))
            case Err(refusal) => Err(refusal)
            case Ok(mass) => Ok(Put(id, Row(delivery, mass.0, mass.1, 1))))
    case Edit(id, expected, newDelivery, newWetKg) =>
      if id !in db.rows then Err(UnknownApplication)
      else if newDelivery.Some? && newDelivery.value !in db.deliveries then Err(UnknownDelivery)
      else if db.rows[id].version != expected then Err(StaleVersion)
      else if Some(db.rows[id].delivery) != saved then Err(DeliveryChanged)
      else
        var row := db.rows[id];
        var delivery := if newDelivery.Some? then newDelivery.value else row.delivery;
        if !MassChanged(row, newDelivery, newWetKg) then Ok(Put(id, row.(version := expected + 1)))
        else (match Placed(db, id, delivery, if newWetKg.Some? then Grams(newWetKg.value) else row.wet)
              case Err(refusal) => Err(refusal)
              case Ok(mass) => Ok(Put(id, Row(delivery, mass.0, mass.1, expected + 1))))
    case Remove(id, expected) =>
      if id !in db.rows then Err(UnknownApplication)
      else if db.rows[id].version != expected then Err(StaleVersion)
      else if Some(db.rows[id].delivery) != saved then Err(DeliveryChanged)
      else Ok(Drop(id))
  }

  function After(rows: Rows, effect: Effect): Rows {
    match effect
    case Put(id, row) => rows[id := row]
    case Drop(id) => rows - {id}
  }

  // ---------- The capacity invariant ----------

  /** No delivery carries more wet or dry mass than was delivered. */
  ghost predicate WithinDelivered(db: Db) {
    && ValidDb(db)
    && forall d | d in db.deliveries :: WithinOne(db, d)
  }

  ghost predicate WithinOne(db: Db, d: Id)
    requires d in db.deliveries
  {
    && AppliedOn(db.rows, d, None, false) <= (if db.deliveries[d].wet.Some? then db.deliveries[d].wet.value else 0)
    && AppliedOn(db.rows, d, None, true) <= (if db.deliveries[d].dry.Some? then db.deliveries[d].dry.value else 0)
  }

  lemma PlacedFits(db: Db, id: Id, delivery: Id, grams: nat)
    requires WithinDelivered(db) && delivery in db.deliveries && Placed(db, id, delivery, grams).Ok?
    ensures
      var wet, dry := AppliedOn(db.rows, delivery, Some(id), false), AppliedOn(db.rows, delivery, Some(id), true);
      var mass := Placed(db, id, delivery, grams).value;
      && wet + mass.0 <= db.deliveries[delivery].wet.value
      && dry + mass.1 <= db.deliveries[delivery].dry.value
  {
    hide AppliedOn, FirstPart;
    var d := db.deliveries[delivery];
    ExcludingLowers(db.rows, delivery, id, false);
    ExcludingLowers(db.rows, delivery, id, true);
    assert WithinOne(db, delivery);
    PartWithinShare(AppliedOn(db.rows, delivery, Some(id), false) + grams, d.dry.value, d.wet.value);
  }

  /** The row fits on its delivery beside the other applications. */
  ghost predicate Fits(db: Db, id: Id, row: Row) {
    && row.delivery in db.deliveries
    && var d := db.deliveries[row.delivery];
       && AppliedOn(db.rows, row.delivery, Some(id), false) + row.wet <= (if d.wet.Some? then d.wet.value else 0)
       && AppliedOn(db.rows, row.delivery, Some(id), true) + row.dry <= (if d.dry.Some? then d.dry.value else 0)
  }

  lemma PutKeepsWithin(db: Db, id: Id, row: Row)
    requires WithinDelivered(db) && Fits(db, id, row)
    ensures WithinDelivered(db.(rows := db.rows[id := row]))
  {
    hide AppliedOn, ValidDelivery;
    var after := db.(rows := db.rows[id := row]);
    forall d | d in after.deliveries
      ensures WithinOne(after, d)
    {
      assert WithinOne(db, d);
      ExcludingLowers(db.rows, d, id, false);
      ExcludingLowers(db.rows, d, id, true);
      AppliedAfterPut(db.rows, id, row, d, false);
      AppliedAfterPut(db.rows, id, row, d, true);
    }
  }

  lemma DropKeepsWithin(db: Db, id: Id)
    requires WithinDelivered(db)
    ensures WithinDelivered(db.(rows := db.rows - {id}))
  {
    hide AppliedOn, ValidDelivery;
    var after := db.(rows := db.rows - {id});
    forall d | d in after.deliveries
      ensures WithinOne(after, d)
    {
      assert WithinOne(db, d);
      ExcludingLowers(db.rows, d, id, false);
      ExcludingLowers(db.rows, d, id, true);
      AppliedAfterDrop(db.rows, id, d, false);
      AppliedAfterDrop(db.rows, id, d, true);
    }
  }

  /** Every accepted write keeps every delivery within what was delivered. */
  lemma EffectKeepsWithin(db: Db, saved: Option<Id>, command: Command)
    requires WithinDelivered(db) && ValidCommand(command) && EffectOf(db, saved, command).Ok?
    ensures WithinDelivered(db.(rows := After(db.rows, EffectOf(db, saved, command).value)))
  {
    var effect := EffectOf(db, saved, command).value;
    assert effect.id == command.id;
    if effect.Put? {
      PutFits(db, saved, command, effect.row);
    }
    hide EffectOf, WithinDelivered, Fits;
    match effect
    case Put(id, row) => PutKeepsWithin(db, id, row);
    case Drop(id) => DropKeepsWithin(db, id);
  }

  /**
   * Neither more nor less is refused: beside what other applications took, a mass is accepted
   * exactly when the delivered mass covers it and the dry mass can still be tracked.
   */
  lemma AcceptedIff(db: Db, id: Id, delivery: Id, grams: nat)
    requires WithinDelivered(db) && delivery in db.deliveries && db.deliveries[delivery].wet.Some?
    ensures
      var d := db.deliveries[delivery];
      var wet, dry := AppliedOn(db.rows, delivery, Some(id), false), AppliedOn(db.rows, delivery, Some(id), true);
      && (Placed(db, id, delivery, grams).Ok?
          <==> && wet + grams <= d.wet.value
               && d.wet.value > 0 && d.dry.Some? && d.dry.value - dry <= d.wet.value - wet + 1)
      && (wet + grams > d.wet.value <==> Placed(db, id, delivery, grams) == Err(OverCapacity))
  {
    hide AppliedOn, DryFor;
    ExcludingLowers(db.rows, delivery, id, false);
    assert WithinOne(db, delivery);
  }

  lemma PutFits(db: Db, saved: Option<Id>, command: Command, row: Row)
    requires WithinDelivered(db) && ValidCommand(command) && EffectOf(db, saved, command).Ok?
    requires EffectOf(db, saved, command).value.Put? && EffectOf(db, saved, command).value.row == row
    ensures Fits(db, command.id, row)
  {
    hide AppliedOn, FirstPart, DryFor;
    match command
    case Create(id, delivery, wetKg) => PlacedFits(db, id, delivery, Grams(wetKg));
    case Edit(id, _, newDelivery, newWetKg) =>
      var existing := db.rows[id];
      if MassChanged(existing, newDelivery, newWetKg) {
        PlacedFits(db, id, row.delivery, if newWetKg.Some? then Grams(newWetKg.value) else existing.wet);
      } else {
        assert WithinOne(db, existing.delivery);
        AppliedAfterPut(db.rows, id, existing, existing.delivery, false);
        AppliedAfterPut(db.rows, id, existing, existing.delivery, true);
        assert db.rows[id := existing] == db.rows;
      }
  }

  // ---------- What a write leaves applied ----------

  /** `grams` is the nearest gram to `kg`, a half rounded up. */
  predicate IsNearestGram(kg: real, grams: nat) {
    grams as real - 0.5 <= kg * 1000.0 < grams as real + 0.5
  }

  /** `share` is the nearest gram to the part of `dry` that `applied` is of `wet`, a half rounded up. */
  predicate IsNearestShare(share: nat, applied: nat, wet: nat, dry: nat) {
    2 * (share * wet) - wet <= 2 * (applied * dry) < 2 * (share * wet) + wet
  }

  lemma GramsAreNearest(kg: real)
    requires kg >= 0.0
    ensures IsNearestGram(kg, Grams(kg))
  {
  }

  /** The first part is its exact share to the nearest gram. */
  lemma FirstPartIsNearest(total: nat, first: nat, whole: nat)
    requires 0 < whole && first <= whole
    ensures IsNearestShare(FirstPart(total, first, whole), total, whole, first)
  {
    var a, b := Times(total, first), Times(total, whole - first);
    Complement(total, first, whole);
    hide Times;
    DivMod(a, whole);
    DivMod(b, whole);
    TwoRemainders(total, a / whole, a % whole, b / whole, b % whole, whole);
    var part := FirstPart(total, first, whole);
    RoundedUpAtHalf(a, a / whole, a % whole, whole, part);
    TimesIs(total, first);
  }

  lemma TimesIs(a: nat, b: nat)
    ensures Times(a, b) == a * b
  {
  }

  lemma RoundedUpAtHalf(a: nat, quotient: nat, left: nat, whole: nat, part: nat)
    requires a == quotient * whole + left && left < whole
    requires part == quotient + if 2 * left >= whole then 1 else 0
    ensures 2 * (part * whole) - whole <= 2 * a < 2 * (part * whole) + whole
  {
    if part != quotient {
      assert part * whole == quotient * whole + whole;
    }
  }

  /** The whole of the delivery takes all of its dry mass. */
  lemma WholeShare(share: nat, wet: nat, dry: nat)
    requires 0 < wet && IsNearestShare(share, wet, wet, dry)
    ensures share == dry
  {
    Monotone(share + 1, dry, wet);
    Monotone(dry + 1, share, wet);
  }

  /**
   * The dry mass applied on a delivery is the share of what is applied, or what the other
   * applications already took if that is more; and all of it once everything is applied.
   */
  ghost predicate DryFollowsWet(delivery: Delivery, wet: nat, dry: nat, others: nat) {
    && delivery.wet.Some? && delivery.dry.Some?
    && (exists share: nat :: IsNearestShare(share, wet, delivery.wet.value, delivery.dry.value)
          && dry == if others > share then others else share)
    && (wet == delivery.wet.value ==> dry == delivery.dry.value)
  }

  lemma PlacedShare(db: Db, id: Id, delivery: Id, grams: nat, row: Row)
    requires WithinDelivered(db) && delivery in db.deliveries && Placed(db, id, delivery, grams).Ok?
    requires Placed(db, id, delivery, grams).value == (row.wet, row.dry) && row.delivery == delivery
    ensures
      var rows := db.rows[id := row];
      DryFollowsWet(db.deliveries[delivery], AppliedOn(rows, delivery, None, false), AppliedOn(rows, delivery, None, true),
                    AppliedOn(db.rows, delivery, Some(id), true))
  {
    hide AppliedOn, FirstPart;
    var d := db.deliveries[delivery];
    var wet, others := AppliedOn(db.rows, delivery, Some(id), false), AppliedOn(db.rows, delivery, Some(id), true);
    AppliedAfterPut(db.rows, id, row, delivery, false);
    AppliedAfterPut(db.rows, id, row, delivery, true);
    FirstPartIsNearest(wet + grams, d.dry.value, d.wet.value);
    var share := FirstPart(wet + grams, d.dry.value, d.wet.value);
    ExcludingLowers(db.rows, delivery, id, true);
    assert WithinOne(db, delivery);
    hide IsNearestShare;
    assert IsNearestShare(share, wet + grams, d.wet.value, d.dry.value);
    if wet + grams == d.wet.value {
      WholeShare(share, d.wet.value, d.dry.value);
    }
  }

  /** The row a create or an edit asks for: its delivery, its grams and its next version. */
  ghost predicate IsAskedFor(rows: Rows, command: Command, row: Row) {
    match command
    case Create(_, delivery, wetKg) => row.delivery == delivery && IsNearestGram(wetKg, row.wet) && row.version == 1
    case Edit(id, expected, newDelivery, newWetKg) =>
      && id in rows && rows[id].version == expected && row.version == expected + 1
      && row.delivery == (if newDelivery.Some? then newDelivery.value else rows[id].delivery)
      && (if newWetKg.Some? then IsNearestGram(newWetKg.value, row.wet) else row.wet == rows[id].wet)
    case Remove(_, _) => false
  }

  /**
   * Every accepted write leaves the row that was asked for. Where it adds an application, or
   * moves or resizes one, the dry mass follows the wet mass on its delivery; otherwise the
   * dry mass stays as it was.
   */
  lemma WrittenRow(db: Db, saved: Option<Id>, command: Command, row: Row)
    requires WithinDelivered(db) && ValidCommand(command) && EffectOf(db, saved, command) == Ok(Put(command.id, row))
    ensures row.delivery in db.deliveries && IsAskedFor(db.rows, command, row)
    ensures
      var rows := db.rows[command.id := row];
      if command.Edit? && row.delivery == db.rows[command.id].delivery && row.wet == db.rows[command.id].wet then
        row.dry == db.rows[command.id].dry
      else
        DryFollowsWet(db.deliveries[row.delivery], AppliedOn(rows, row.delivery, None, false),
                      AppliedOn(rows, row.delivery, None, true), AppliedOn(db.rows, row.delivery, Some(command.id), true))
  {
    hide AppliedOn, DryFor, DryFollowsWet, WithinDelivered, IsNearestGram, FitsCapacity, DryTracked;
    WithinIsValid(db);
    match command
    case Create(id, delivery, wetKg) =>
      GramsAreNearest(wetKg);
      PlacedShare(db, id, delivery, Grams(wetKg), row);
    case Edit(id, _, newDelivery, newWetKg) =>
      var existing := db.rows[id];
      if newWetKg.Some? {
        GramsAreNearest(newWetKg.value);
      }
      if MassChanged(existing, newDelivery, newWetKg) {
        PlacedShare(db, id, row.delivery, if newWetKg.Some? then Grams(newWetKg.value) else existing.wet, row);
      }
  }

  /** A delivery has room for these grams beside its other applications, and its dry mass is still tracked. */
  ghost predicate HasRoom(db: Db, id: Id, delivery: Id, grams: nat)
    requires delivery in db.deliveries
  {
    var d := db.deliveries[delivery];
    var wet, dry := AppliedOn(db.rows, delivery, Some(id), false), AppliedOn(db.rows, delivery, Some(id), true);
    && d.wet.Some? && wet + grams <= d.wet.value && d.wet.value > 0
    && d.dry.Some? && d.dry.value - dry <= d.wet.value - wet + 1
  }

  /** The grams a write asks for: its kilograms to the nearest gram, or those of the row it edits. */
  ghost predicate AsksFor(rows: Rows, command: Command, grams: nat) {
    match command
    case Create(_, _, wetKg) => IsNearestGram(wetKg, grams)
    case Edit(id, _, _, newWetKg) =>
      if newWetKg.Some? then IsNearestGram(newWetKg.value, grams) else id in rows ==> rows[id].wet == grams
    case Remove(_, _) => true
  }

  /** A write is accepted exactly when what it names is there as it expects, and a new mass has room. */
  lemma WriteAcceptedIff(db: Db, saved: Option<Id>, command: Command, grams: nat)
    requires WithinDelivered(db) && ValidCommand(command) && AsksFor(db.rows, command, grams)
    ensures
      EffectOf(db, saved, command).Ok?
      <==> match command
           case Create(id, delivery, _) => delivery in db.deliveries && HasRoom(db, id, delivery, grams)
           case Edit(id, expected, newDelivery, _) =>
             && id in db.rows && db.rows[id].version == expected && Some(db.rows[id].delivery) == saved
             && (var delivery := if newDelivery.Some? then newDelivery.value else db.rows[id].delivery;
                 && delivery in db.deliveries
                 && ((delivery == db.rows[id].delivery && grams == db.rows[id].wet) || HasRoom(db, id, delivery, grams)))
           case Remove(id, expected) =>
             id in db.rows && db.rows[id].version == expected && Some(db.rows[id].delivery) == saved
  {
    hide AppliedOn, DryFor;
    WithinIsValid(db);
    forall id, delivery | delivery in db.deliveries
      ensures Placed(db, id, delivery, grams).Ok? <==> HasRoom(db, id, delivery, grams)
    {
      if db.deliveries[delivery].wet.Some? {
        AcceptedIff(db, id, delivery, grams);
      }
    }
    hide Placed, HasRoom, WithinDelivered;
  }

  // ---------- Interleaved transactions ----------

  datatype Phase =
    | Begun(saved: Option<Id>)
    | Held(saved: Option<Id>)
    | Pending(saved: Option<Id>, effect: Effect)
    | Ended(refused: Option<Refusal>)
    | Aborted

  datatype Tx = Tx(command: Command, phase: Phase)

  /** A committed create or edit: the version it expected to find, and the one it wrote. */
  datatype Written = Written(id: Id, expected: nat, version: nat)

  datatype State = State(
    db: Db, deliveryLocks: map<Id, TxId>, rowLocks: map<Id, TxId>, txs: map<TxId, Tx>, nextId: Id, log: seq<Written>)

  datatype Step = Begin(tx: TxId, command: Command) | Lock(tx: TxId) | Check(tx: TxId) | Commit(tx: TxId) | Abort(tx: TxId)

  /** The deliveries a write locks: the one it leaves and the one it names. */
  function Targets(saved: Option<Id>, command: Command): set<Id> {
    (if saved.Some? then {saved.value} else {})
    + (match command
       case Create(_, delivery, _) => {delivery}
       case Edit(_, _, Some(delivery), _) => {delivery}
       case _ => {})
  }

  function End(s: State, id: TxId, phase: Phase): State
    requires id in s.txs
  {
    s.(txs := s.txs[id := s.txs[id].(phase := phase)],
       deliveryLocks := map d | d in s.deliveryLocks && s.deliveryLocks[d] != id :: s.deliveryLocks[d],
       rowLocks := map r | r in s.rowLocks && s.rowLocks[r] != id :: s.rowLocks[r])
  }

  function LockAll(s: State, id: TxId): State
    requires id in s.txs && s.txs[id].phase.Begun?
  {
    var tx := s.txs[id];
    var targets := Targets(tx.phase.saved, tx.command);
    if tx.command.id in s.rowLocks || exists d | d in targets :: d in s.deliveryLocks then s
    else s.(txs := s.txs[id := tx.(phase := Held(tx.phase.saved))],
            rowLocks := s.rowLocks[tx.command.id := id],
            deliveryLocks := s.deliveryLocks + map d | d in targets :: id)
  }

  function LogOf(command: Command, effect: Effect): seq<Written> {
    match effect
    case Put(id, row) => [Written(id, if command.Edit? then command.expectedVersion else 0, row.version)]
    case Drop(_) => []
  }

  function CommitEffect(s: State, id: TxId): State
    requires id in s.txs && s.txs[id].phase.Pending?
  {
    var tx := s.txs[id];
    End(s, id, Ended(None)).(
      db := s.db.(rows := After(s.db.rows, tx.phase.effect)), log := s.log + LogOf(tx.command, tx.phase.effect))
  }

  /** A step that is not enabled changes nothing: the statement waits or is never sent. */
  ghost function Next(s: State, step: Step): State {
    match step
    case Begin(id, command) =>
      if id in s.txs || !ValidCommand(command) || (command.Create? && command.id != s.nextId) then s
      else
        var saved := if command.id in s.db.rows then Some(s.db.rows[command.id].delivery) else None;
        s.(txs := s.txs[id := Tx(command, Begun(saved))], nextId := if command.Create? then s.nextId + 1 else s.nextId)
    case Lock(id) => if id in s.txs && s.txs[id].phase.Begun? then LockAll(s, id) else s
    case Check(id) =>
      if id in s.txs && s.txs[id].phase.Held? && ValidDb(s.db) && ValidCommand(s.txs[id].command) then
        (match EffectOf(s.db, s.txs[id].phase.saved, s.txs[id].command)
         case Err(refusal) => End(s, id, Ended(Some(refusal)))
         case Ok(effect) => s.(txs := s.txs[id := s.txs[id].(phase := Pending(s.txs[id].phase.saved, effect))]))
      else s
    case Commit(id) => if id in s.txs && s.txs[id].phase.Pending? then CommitEffect(s, id) else s
    case Abort(id) => if id in s.txs && !s.txs[id].phase.Ended? then End(s, id, Aborted) else s
  }

  ghost function Run(s: State, steps: seq<Step>): State
    decreases |steps|
  {
    if steps == [] then s else Run(Next(s, steps[0]), steps[1..])
  }

  /** How often an application was written. */
  function Count(log: seq<Written>, id: Id): nat {
    if log == [] then 0 else Count(log[..|log| - 1], id) + (if log[|log| - 1].id == id then 1 else 0)
  }

  lemma CountAppend(log: seq<Written>, written: Written, id: Id)
    ensures Count(log + [written], id) == Count(log, id) + (if written.id == id then 1 else 0)
  {
    assert (log + [written])[..|log|] == log;
  }

  /** The k-th write of an application expects version k - 1 and writes version k. */
  ghost predicate OneChain(log: seq<Written>) {
    forall i | 0 <= i < |log| ::
      log[i].expected == Count(log[..i], log[i].id) && log[i].version == log[i].expected + 1
  }

  ghost predicate Active(phase: Phase) {
    !phase.Ended? && !phase.Aborted?
  }

  ghost predicate TxSound(s: State, id: TxId)
    requires id in s.txs
  {
    var tx := s.txs[id];
    && ValidCommand(tx.command)
    && (tx.command.Create? ==>
          tx.command.id < s.nextId && (Active(tx.phase) ==> tx.command.id !in s.db.rows && Count(s.log, tx.command.id) == 0))
    && (tx.phase.Held? || tx.phase.Pending? ==>
          && tx.command.id in s.rowLocks && s.rowLocks[tx.command.id] == id
          && forall d | d in Targets(tx.phase.saved, tx.command) :: d in s.deliveryLocks && s.deliveryLocks[d] == id)
    && (tx.phase.Pending? ==> ValidDb(s.db) && EffectOf(s.db, tx.phase.saved, tx.command) == Ok(tx.phase.effect))
  }

  ghost predicate RowsSound(s: State) {
    && (forall id | id in s.db.rows :: id < s.nextId && s.db.rows[id].version == Count(s.log, id))
    && (forall i | 0 <= i < |s.log| :: s.log[i].id < s.nextId)
  }

  ghost predicate CreatesDiffer(s: State) {
    forall t, u | t in s.txs && u in s.txs && t != u && s.txs[t].command.Create? && s.txs[u].command.Create? ::
      s.txs[t].command.id != s.txs[u].command.id
  }

  ghost predicate Inv(s: State) {
    && WithinDelivered(s.db) && OneChain(s.log) && RowsSound(s) && CreatesDiffer(s)
    && forall t | t in s.txs :: TxSound(s, t)
  }

  // ---------- Every step keeps it ----------

  lemma EndKeepsInv(s: State, id: TxId, phase: Phase)
    requires Inv(s) && id in s.txs && (phase.Ended? || phase.Aborted?)
    ensures Inv(End(s, id, phase))
  {
    hide WithinDelivered, OneChain, EffectOf;
    forall t | t in s.txs
      ensures TxSound(End(s, id, phase), t)
    {
      assert TxSound(s, t);
    }
  }

  lemma LockKeepsInv(s: State, id: TxId)
    requires Inv(s) && id in s.txs && s.txs[id].phase.Begun?
    ensures Inv(LockAll(s, id))
  {
    hide WithinDelivered, OneChain, EffectOf, Targets;
    var after := LockAll(s, id);
    if after != s {
      forall t | t in after.txs
        ensures TxSound(after, t)
      {
        assert TxSound(s, t);
      }
    }
  }

  lemma CheckKeepsInv(s: State, id: TxId)
    requires Inv(s) && id in s.txs
    ensures Inv(Next(s, Check(id)))
  {
    hide WithinDelivered, OneChain, EffectOf, Targets, CreatesDiffer;
    var after := Next(s, Check(id));
    assert TxSound(s, id);
    if after != s {
      if after.txs[id].phase.Ended? {
        EndKeepsInv(s, id, after.txs[id].phase);
      } else {
        assert CreatesDiffer(after) by { SameCommands(s, after); }
        forall t | t in after.txs
          ensures TxSound(after, t)
        {
          assert TxSound(s, t);
        }
      }
    }
  }

  lemma SameCommands(s: State, after: State)
    requires CreatesDiffer(s) && after.txs.Keys == s.txs.Keys
    requires forall t | t in s.txs :: after.txs[t].command == s.txs[t].command
    ensures CreatesDiffer(after)
  {
  }

  lemma BeginKeepsInv(s: State, id: TxId, command: Command)
    requires Inv(s)
    ensures Inv(Next(s, Begin(id, command)))
  {
    hide WithinDelivered, OneChain, EffectOf, Targets;
    var after := Next(s, Begin(id, command));
    if after != s {
      if command.Create? {
        NeverWritten(s.log, s.nextId);
      }
      forall t | t in after.txs
        ensures TxSound(after, t)
      {
        assert t != id ==> TxSound(s, t);
      }
      forall t | t in s.txs && s.txs[t].command.Create?
        ensures s.txs[t].command.id < s.nextId
      {
        assert TxSound(s, t);
      }
    }
  }

  lemma {:induction false} NeverWritten(log: seq<Written>, id: Id)
    requires forall i | 0 <= i < |log| :: log[i].id < id
    ensures Count(log, id) == 0
  {
    if log != [] {
      assert log[|log| - 1].id < id;
      NeverWritten(log[..|log| - 1], id);
    }
  }

  /** Two tables on which a write does the same: its own row and the rows on its deliveries are equal. */
  lemma SameEffect(before: Db, after: Db, saved: Option<Id>, command: Command)
    requires ValidDb(before) && ValidDb(after) && ValidCommand(command) && after.deliveries == before.deliveries
    requires command.id in after.rows <==> command.id in before.rows
    requires command.id in before.rows ==> after.rows[command.id] == before.rows[command.id]
    requires forall d | d in Targets(saved, command) ::
      RowsOn(after.rows, d, Some(command.id)) == RowsOn(before.rows, d, Some(command.id))
    ensures EffectOf(after, saved, command) == EffectOf(before, saved, command)
  {
    hide RowsOn, DryFor, FitsCapacity, DryTracked;
    forall d, grams | d in Targets(saved, command) && d in before.deliveries
      ensures Placed(after, command.id, d, grams) == Placed(before, command.id, d, grams)
    {
      assert RowsOn(after.rows, d, Some(command.id)) == RowsOn(before.rows, d, Some(command.id));
    }
    hide Placed;
  }

  /** The rows on a delivery that a write neither leaves nor joins. */
  lemma RowsElsewhere(rows: Rows, effect: Effect, d: Id, excluded: Option<Id>)
    requires effect.id in rows ==> rows[effect.id].delivery != d
    requires effect.Put? ==> effect.row.delivery != d
    ensures RowsOn(After(rows, effect), d, excluded) == RowsOn(rows, d, excluded)
  {
  }

  /** A pending write only touches deliveries it holds. */
  lemma EffectWithinTargets(db: Db, saved: Option<Id>, command: Command)
    requires ValidDb(db) && ValidCommand(command) && EffectOf(db, saved, command).Ok?
    requires command.Create? ==> command.id !in db.rows
    ensures
      var effect := EffectOf(db, saved, command).value;
      && effect.id == command.id
      && (effect.id in db.rows ==> db.rows[effect.id].delivery in Targets(saved, command))
      && (effect.Put? ==> effect.row.delivery in Targets(saved, command))
      && (effect.Put? ==> effect.row.version == (if command.Edit? then command.expectedVersion + 1 else 1))
      && (command.Edit? ==> command.id in db.rows && db.rows[command.id].version == command.expectedVersion)
  {
    hide Placed;
  }

  /** What holds of a pending write at its commit. */
  lemma PendingFacts(s: State, id: TxId)
    requires Inv(s) && id in s.txs && s.txs[id].phase.Pending?
    ensures
      var tx := s.txs[id];
      && tx.phase.effect.id == tx.command.id
      && (tx.command.id in s.db.rows ==> s.db.rows[tx.command.id].delivery in Targets(tx.phase.saved, tx.command))
      && (tx.phase.effect.Put? ==> tx.phase.effect.row.delivery in Targets(tx.phase.saved, tx.command))
      && (tx.phase.effect.Put? ==> LogOf(tx.command, tx.phase.effect)[0].expected == Count(s.log, tx.command.id))
      && (tx.phase.effect.Put? ==> tx.phase.effect.row.version == Count(s.log, tx.command.id) + 1)
      && (tx.command.Create? || tx.command.id in s.db.rows)
  {
    assert TxSound(s, id);
    hide WithinDelivered, OneChain, CreatesDiffer, Placed, Targets, MassChanged;
    var tx := s.txs[id];
    WithinIsValid(s.db);
    EffectWithinTargets(s.db, tx.phase.saved, tx.command);
  }

  lemma CommitKeepsPending(s: State, id: TxId, t: TxId)
    requires Inv(s) && id in s.txs && s.txs[id].phase.Pending? && t in s.txs && t != id && s.txs[t].phase.Pending?
    requires ValidDb(CommitEffect(s, id).db)
    ensures EffectOf(CommitEffect(s, id).db, s.txs[t].phase.saved, s.txs[t].command) == Ok(s.txs[t].phase.effect)
  {
    var tx, other, after := s.txs[id], s.txs[t], CommitEffect(s, id);
    assert TxSound(s, id) && TxSound(s, t);
    PendingFacts(s, id);
    hide EffectOf, WithinDelivered, OneChain, RowsSound, CreatesDiffer, Targets, RowsOn, ValidDb;
    assert other.command.id != tx.command.id;
    forall d | d in Targets(other.phase.saved, other.command)
      ensures RowsOn(after.db.rows, d, Some(other.command.id)) == RowsOn(s.db.rows, d, Some(other.command.id))
    {
      RowsElsewhere(s.db.rows, tx.phase.effect, d, Some(other.command.id));
    }
    SameEffect(s.db, after.db, other.phase.saved, other.command);
  }

  lemma CommitTxSound(s: State, id: TxId, t: TxId)
    requires Inv(s) && id in s.txs && s.txs[id].phase.Pending? && t in s.txs && t != id
    requires WithinDelivered(CommitEffect(s, id).db)
    ensures TxSound(CommitEffect(s, id), t)
  {
    var other := s.txs[t];
    assert TxSound(s, t);
    if other.command.Create? && Active(other.phase) {
      CreateUntouched(s, id, t);
    }
    WithinIsValid(CommitEffect(s, id).db);
    if other.phase.Pending? {
      CommitKeepsPending(s, id, t);
    }
    hide EffectOf, WithinDelivered, OneChain, RowsSound, CreatesDiffer, Targets, Count, ValidDb, LogOf, After;
  }

  lemma WithinIsValid(db: Db)
    requires WithinDelivered(db)
    ensures ValidDb(db)
  {
  }

  /** A row that is still to be created is nobody else's. */
  lemma CreateUntouched(s: State, id: TxId, t: TxId)
    requires Inv(s) && id in s.txs && s.txs[id].phase.Pending? && t in s.txs && t != id
    requires s.txs[t].command.Create? && Active(s.txs[t].phase)
    ensures s.txs[t].command.id !in CommitEffect(s, id).db.rows && Count(CommitEffect(s, id).log, s.txs[t].command.id) == 0
  {
    var tx, mine := s.txs[id], s.txs[t].command.id;
    assert TxSound(s, id) && TxSound(s, t);
    EffectWithinTargets(s.db, tx.phase.saved, tx.command);
    hide EffectOf, WithinDelivered, OneChain, Targets;
    var effect := tx.phase.effect;
    if effect.Put? {
      assert effect.id != mine;
      CountAppend(s.log, LogOf(tx.command, effect)[0], mine);
    } else {
      assert s.log + [] == s.log;
    }
  }

  lemma ChainAppend(log: seq<Written>, written: Written)
    requires OneChain(log) && written.expected == Count(log, written.id) && written.version == written.expected + 1
    ensures OneChain(log + [written])
  {
    hide Count;
    var after := log + [written];
    forall i | 0 <= i < |after|
      ensures after[i].expected == Count(after[..i], after[i].id) && after[i].version == after[i].expected + 1
    {
      assert after[..i] == if i < |log| then log[..i] else log;
    }
  }

  lemma CommitRows(s: State, id: TxId)
    requires Inv(s) && id in s.txs && s.txs[id].phase.Pending?
    ensures OneChain(CommitEffect(s, id).log) && RowsSound(CommitEffect(s, id))
  {
    PendingFacts(s, id);
    assert s.txs[id].command.id < s.nextId by {
      assert TxSound(s, id);
    }
    assert OneChain(s.log) && RowsSound(s);
    hide Inv, TxSound, WithinDelivered, OneChain;
    WrittenKeepsRows(s, CommitEffect(s, id), s.txs[id].command, s.txs[id].phase.effect);
  }

  lemma WrittenKeepsRows(s: State, after: State, command: Command, effect: Effect)
    requires OneChain(s.log) && RowsSound(s) && effect.id == command.id && effect.id < s.nextId
    requires after.db.rows == After(s.db.rows, effect) && after.log == s.log + LogOf(command, effect)
    requires after.nextId == s.nextId
    requires effect.Put? ==> LogOf(command, effect)[0].expected == Count(s.log, effect.id)
    requires effect.Put? ==> effect.row.version == Count(s.log, effect.id) + 1
    ensures OneChain(after.log) && RowsSound(after)
  {
    hide OneChain, Count;
    if effect.Put? {
      var written := LogOf(command, effect)[0];
      ChainAppend(s.log, written);
      forall r | r in after.db.rows
        ensures r < after.nextId && after.db.rows[r].version == Count(after.log, r)
      {
        CountAppend(s.log, written, r);
      }
    } else {
      assert after.log == s.log;
    }
  }

  lemma CommitWithin(s: State, id: TxId)
    requires Inv(s) && id in s.txs && s.txs[id].phase.Pending?
    ensures WithinDelivered(CommitEffect(s, id).db)
  {
    assert TxSound(s, id);
    hide EffectOf, WithinDelivered, OneChain, RowsSound, CreatesDiffer, Targets, LogOf;
    EffectKeepsWithin(s.db, s.txs[id].phase.saved, s.txs[id].command);
  }

  lemma CommitKeepsInv(s: State, id: TxId)
    requires Inv(s) && id in s.txs && s.txs[id].phase.Pending?
    ensures Inv(CommitEffect(s, id))
  {
    var after := CommitEffect(s, id);
    CommitWithin(s, id);
    CommitRows(s, id);
    SameCommands(s, after);
    assert TxSound(s, id);
    hide EffectOf, WithinDelivered, OneChain, RowsSound, CreatesDiffer, Targets, LogOf, After, Count, ValidDb;
    forall t | t in after.txs
      ensures TxSound(after, t)
    {
      if t != id {
        CommitTxSound(s, id, t);
      }
    }
  }

  lemma StepKeepsInv(s: State, step: Step)
    requires Inv(s)
    ensures Inv(Next(s, step))
  {
    hide Inv, EffectOf;
    match step
    case Begin(id, command) => BeginKeepsInv(s, id, command);
    case Lock(id) =>
      if id in s.txs && s.txs[id].phase.Begun? {
        LockKeepsInv(s, id);
      }
    case Check(id) =>
      if id in s.txs {
        CheckKeepsInv(s, id);
      }
    case Commit(id) =>
      if id in s.txs && s.txs[id].phase.Pending? {
        CommitKeepsInv(s, id);
      }
    case Abort(id) =>
      if id in s.txs && !s.txs[id].phase.Ended? {
        EndKeepsInv(s, id, Aborted);
      }
  }

  lemma {:induction false} RunKeepsInv(s: State, steps: seq<Step>)
    requires Inv(s)
    ensures Inv(Run(s, steps))
    decreases |steps|
  {
    hide Inv, Next;
    if steps != [] {
      StepKeepsInv(s, steps[0]);
      RunKeepsInv(Next(s, steps[0]), steps[1..]);
    }
  }

  /** Any deliveries, and no application yet. */
  function Initial(deliveries: map<Id, Delivery>): State {
    State(Db(deliveries, map[]), map[], map[], map[], 0, [])
  }

  ghost predicate ValidDeliveries(deliveries: map<Id, Delivery>) {
    forall d | d in deliveries :: ValidDelivery(deliveries[d])
  }

  ghost function Reached(deliveries: map<Id, Delivery>, steps: seq<Step>): State
    requires ValidDeliveries(deliveries)
  {
    Run(Initial(deliveries), steps)
  }

  lemma ReachedIsSound(deliveries: map<Id, Delivery>, steps: seq<Step>)
    requires ValidDeliveries(deliveries)
    ensures Inv(Reached(deliveries, steps))
  {
    var s := Initial(deliveries);
    assert forall d :: RowsOn(map[], d, None) == map[];
    assert Inv(s);
    RunKeepsInv(s, steps);
  }

  lemma {:induction false} DeliveriesStay(s: State, steps: seq<Step>)
    ensures Run(s, steps).db.deliveries == s.db.deliveries
    decreases |steps|
  {
    hide EffectOf;
    if steps != [] {
      DeliveriesStay(Next(s, steps[0]), steps[1..]);
    }
  }

  /** However writes interleave, no delivery is ever applied beyond what was delivered, wet or dry. */
  lemma NeverAppliedBeyondDelivered(deliveries: map<Id, Delivery>, steps: seq<Step>, d: Id)
    requires ValidDeliveries(deliveries) && d in deliveries
    ensures
      var rows := Reached(deliveries, steps).db.rows;
      && (deliveries[d].wet.Some? ==> AppliedOn(rows, d, None, false) <= deliveries[d].wet.value)
      && (deliveries[d].dry.Some? ==> AppliedOn(rows, d, None, true) <= deliveries[d].dry.value)
      && (deliveries[d].wet.None? ==> AppliedOn(rows, d, None, false) == 0)
  {
    ReachedIsSound(deliveries, steps);
    DeliveriesStay(Initial(deliveries), steps);
    assert WithinOne(Reached(deliveries, steps).db, d);
  }

  /** However writes interleave, each commit leaves what its command asked for, and the dry mass follows the wet mass. */
  lemma CommitsFollowWet(deliveries: map<Id, Delivery>, steps: seq<Step>, id: TxId, row: Row)
    requires ValidDeliveries(deliveries) && id in Reached(deliveries, steps).txs
    requires Reached(deliveries, steps).txs[id].phase.Pending?
    requires Reached(deliveries, steps).txs[id].phase.effect == Put(Reached(deliveries, steps).txs[id].command.id, row)
    ensures
      var s := Reached(deliveries, steps);
      var command, after := s.txs[id].command, Next(s, Commit(id)).db.rows;
      && after == s.db.rows[command.id := row] && row.delivery in deliveries && IsAskedFor(s.db.rows, command, row)
      && if command.Edit? && row.delivery == s.db.rows[command.id].delivery && row.wet == s.db.rows[command.id].wet then
           row.dry == s.db.rows[command.id].dry
         else
           DryFollowsWet(deliveries[row.delivery], AppliedOn(after, row.delivery, None, false),
                         AppliedOn(after, row.delivery, None, true),
                         AppliedOn(s.db.rows, row.delivery, Some(command.id), true))
  {
    ReachedIsSound(deliveries, steps);
    DeliveriesStay(Initial(deliveries), steps);
    var s := Reached(deliveries, steps);
    assert TxSound(s, id);
    hide Reached, WithinDelivered, EffectOf, AppliedOn, DryFollowsWet, IsAskedFor, OneChain, RowsSound, CreatesDiffer;
    WrittenRow(s.db, s.txs[id].phase.saved, s.txs[id].command, row);
  }

  /**
   * The writes of one application form a single chain: each expected the version that the
   * write before it made, so no edit is lost.
   */
  lemma EditsFormOneChain(deliveries: map<Id, Delivery>, steps: seq<Step>, i: nat, j: nat)
    requires ValidDeliveries(deliveries) && i < j < |Reached(deliveries, steps).log|
    requires Reached(deliveries, steps).log[i].id == Reached(deliveries, steps).log[j].id
    requires forall k | i < k < j :: Reached(deliveries, steps).log[k].id != Reached(deliveries, steps).log[i].id
    ensures Reached(deliveries, steps).log[j].expected == Reached(deliveries, steps).log[i].version
  {
    ReachedIsSound(deliveries, steps);
    var log := Reached(deliveries, steps).log;
    assert log[..i + 1][..i] == log[..i];
    CountBetween(log, i + 1, j, log[i].id);
  }

  lemma {:induction false} CountBetween(log: seq<Written>, i: nat, j: nat, id: Id)
    requires i <= j <= |log| && forall k | i <= k < j :: log[k].id != id
    ensures Count(log[..j], id) == Count(log[..i], id)
    decreases j
  {
    if i < j {
      assert log[..j][..j - 1] == log[..j - 1];
      CountBetween(log, i, j - 1, id);
    }
  }

  // ---------- A write on its own ----------

  lemma OneStep(s: State, step: Step, rest: seq<Step>)
    ensures Run(s, [step] + rest) == Run(Next(s, step), rest)
  {
    assert ([step] + rest)[1..] == rest;
  }

  /** A write that finds its locks free gets them. */
  lemma AloneItLocks(s: State, id: TxId, command: Command)
    requires ValidCommand(command) && id !in s.txs && s.rowLocks == map[] && s.deliveryLocks == map[]
    requires command.Create? ==> command.id == s.nextId
    ensures
      var saved := if command.id in s.db.rows then Some(s.db.rows[command.id].delivery) else None;
      var after := Run(s, [Begin(id, command)] + ([Lock(id)] + []));
      id in after.txs && after.txs[id] == Tx(command, Held(saved)) && after.db == s.db
  {
    var a := Next(s, Begin(id, command));
    var b := Next(a, Lock(id));
    assert a.txs[id] == Tx(command, Begun(if command.id in s.db.rows then Some(s.db.rows[command.id].delivery) else None));
    assert b == LockAll(a, id) && b.db == s.db && b.txs[id].phase.Held?;
    hide Next;
    OneStep(s, Begin(id, command), [Lock(id)] + []);
    OneStep(a, Lock(id), []);
  }

  /** Holding them and not disturbed, it does exactly what its effect says, or is refused as it says, and lets go. */
  lemma AloneItCommits(s: State, id: TxId)
    requires ValidDb(s.db) && id in s.txs && s.txs[id].phase.Held? && ValidCommand(s.txs[id].command)
    ensures
      var effect := EffectOf(s.db, s.txs[id].phase.saved, s.txs[id].command);
      var after := Run(s, [Check(id)] + ([Commit(id)] + []));
      && id in after.txs && after.db.deliveries == s.db.deliveries
      && (effect.Ok? ==> after.txs[id].phase == Ended(None) && after.db.rows == After(s.db.rows, effect.value))
      && (effect.Err? ==> after.txs[id].phase == Ended(Some(effect.error)) && after.db == s.db)
      && (forall d | d in after.deliveryLocks :: after.deliveryLocks[d] != id)
      && forall r | r in after.rowLocks :: after.rowLocks[r] != id
  {
    hide EffectOf, ValidDb, After;
    var effect := EffectOf(s.db, s.txs[id].phase.saved, s.txs[id].command);
    var a := Next(s, Check(id));
    assert effect.Ok? ==>
        a == s.(txs := s.txs[id := s.txs[id].(phase := Pending(s.txs[id].phase.saved, effect.value))]);
    assert effect.Err? ==> a == End(s, id, Ended(Some(effect.error)));
    var b := Next(a, Commit(id));
    assert b == if effect.Ok? then CommitEffect(a, id) else a;
    hide Next;
    OneStep(s, Check(id), [Commit(id)] + []);
    OneStep(a, Commit(id), []);
  }
}
