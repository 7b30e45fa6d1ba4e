/**
 * The recorded composition of a biochar product
 * (`src/data-access/biochar-product-composition.ts`): comparing two compositions, drawing
 * their bins, and freezing the dry mass of every line. Masses are reals.
 */
module Composition {
  import opened Outcomes
  import opened Sorting

  type Id = string

  datatype Estimate = Estimate(moisturePercent: real, wetKg: real, dryKg: real)

  /** A stored line; a missing or malformed value is none. `rest` is everything else it stores. */
  datatype Line = Line(
    formulationLine: Option<Id>,
    feedstockType: Option<Id>,
    bin: Option<Id>,
    massKg: Option<real>,
    massDryKg: Option<real>,
    moisture: Option<real>,
    estimate: Option<Estimate>,
    rest: string)

  const GRAMS_PER_KG := 1000.0
  const PERCENT_PRECISION := 1_000_000.0

  /** `Math.round`. */
  function Round(x: real): int {
    (x + 0.5).Floor
  }

  function Scaled(x: Option<real>, factor: real): Option<int> {
    match x
    case None => None
    case Some(value) => Some(Round(value * factor))
  }

  // ---------- Comparing compositions ----------

  /** The persisted facts of a line that affect physical allocations. */
  datatype Fact = Fact(
    formulationLine: Option<Id>,
    feedstockType: Option<Id>,
    bin: Option<Id>,
    massGrams: Option<int>,
    massDryGrams: Option<int>,
    moistureBasis: Option<int>)

  function FactOf(line: Line): Fact {
    Fact(line.formulationLine, line.feedstockType, line.bin, Scaled(line.massKg, GRAMS_PER_KG),
         Scaled(line.massDryKg, GRAMS_PER_KG), Scaled(line.moisture, PERCENT_PRECISION))
  }

  function Facts(lines: seq<Line>): seq<Fact> {
    seq(|lines|, i requires 0 <= i < |lines| => FactOf(lines[i]))
  }

  function Itself(): Fact -> Fact {
    (fact: Fact) => fact
  }

  /** `le` orders facts as the comparison of their serialized forms does. */
  function Canonical(lines: seq<Line>, le: (Fact, Fact) -> bool): seq<Fact> {
    SortBy(Facts(lines), Itself(), le)
  }

  predicate AllocationChanged(previous: seq<Line>, next: seq<Line>, le: (Fact, Fact) -> bool) {
    Canonical(previous, le) != Canonical(next, le)
  }

  /** Sort, then compare, is a normal form: no change exactly when both hold the same facts, however often and in any order. */
  lemma ChangedIff(previous: seq<Line>, next: seq<Line>, le: (Fact, Fact) -> bool)
    requires TotalOrder(le)
    ensures !AllocationChanged(previous, next, le) <==> multiset(Facts(previous)) == multiset(Facts(next))
  {
    assert KeysTellApart(Facts(previous), Itself());
    SortIsNormalForm(Facts(previous), Facts(next), Itself(), le);
  }

  predicate RoundsTo(x: real, n: int) {
    n as real - 0.5 <= x < n as real + 0.5
  }

  ghost predicate RoundAlike(x: real, y: real) {
    exists n: int :: RoundsTo(x, n) && RoundsTo(y, n)
  }

  /** Both are missing, or both round to one whole number of the unit. */
  ghost predicate SameRounded(a: Option<real>, b: Option<real>, factor: real) {
    (a.Some? <==> b.Some?) && (a.Some? ==> RoundAlike(a.value * factor, b.value * factor))
  }

  lemma ScaledIff(a: Option<real>, b: Option<real>, factor: real)
    ensures Scaled(a, factor) == Scaled(b, factor) <==> SameRounded(a, b, factor)
  {
    if a.Some? && b.Some? {
      RoundAlikeIff(a.value * factor, b.value * factor);
    }
  }

  lemma RoundAlikeIff(x: real, y: real)
    ensures RoundAlike(x, y) <==> Round(x) == Round(y)
  {
    assert RoundsTo(x, Round(x)) && RoundsTo(y, Round(y));
    if n: int :| RoundsTo(x, n) && RoundsTo(y, n) {
      assert n == Round(x) && n == Round(y);
    }
  }

  /** Where a line comes from: its recipe line, its material and its bin. */
  predicate SameOrigin(a: Line, b: Line) {
    a.formulationLine == b.formulationLine && a.feedstockType == b.feedstockType && a.bin == b.bin
  }

  /**
   * Lines show the same facts exactly when they have one origin, their wet and dry masses
   * agree to the gram and their moistures to a millionth of a percent; nothing else shows.
   */
  lemma FactsAgreeIff(a: Line, b: Line)
    ensures FactOf(a) == FactOf(b)
            <==> && SameOrigin(a, b) && SameRounded(a.massKg, b.massKg, 1000.0)
                 && SameRounded(a.massDryKg, b.massDryKg, 1000.0) && SameRounded(a.moisture, b.moisture, 1000000.0)
  {
    ScaledIff(a.massKg, b.massKg, 1000.0);
    ScaledIff(a.massDryKg, b.massDryKg, 1000.0);
    ScaledIff(a.moisture, b.moisture, 1000000.0);
  }

  // ---------- Drawing bins ----------

  datatype Draw = Draw(bin: Id, massKg: real, massDryKg: Option<real>)

  datatype Mass = Mass(wetKg: real, dryKg: Option<real>)

  predicate Named(id: Option<Id>) {
    id.Some? && id.value != ""
  }

  /** A line with both references, a positive mass and a bin. */
  predicate Contributes(line: Line) {
    Named(line.formulationLine) && Named(line.feedstockType) && Named(line.bin) && line.massKg.Some? && line.massKg.value > 0.0
  }

  predicate DrawsFrom(line: Line, bin: Id) {
    Contributes(line) && line.bin.value == bin
  }

  /** Wet mass all contributing lines take from a bin. */
  function WetFrom(lines: seq<Line>, bin: Id): real {
    if lines == [] then 0.0
    else
      var last := lines[|lines| - 1];
      WetFrom(lines[..|lines| - 1], bin) + (if DrawsFrom(last, bin) then last.massKg.value else 0.0)
  }

  /** Their dry mass, unknown as soon as one of them is. */
  function DryFrom(lines: seq<Line>, bin: Id): Option<real> {
    if lines == [] then Some(0.0)
    else
      var last, earlier := lines[|lines| - 1], DryFrom(lines[..|lines| - 1], bin);
      if !DrawsFrom(last, bin) then earlier
      else if earlier.None? || last.massDryKg.None? then None
      else Some(earlier.value + last.massDryKg.value)
  }

  predicate Drawn(lines: seq<Line>, bin: Id) {
    exists i | 0 <= i < |lines| :: DrawsFrom(lines[i], bin)
  }

  /** Only a line with a named recipe line and material and a positive mass draws, and only from the bin it names. */
  lemma DrawnIff(lines: seq<Line>, bin: Id)
    ensures Drawn(lines, bin)
            <==> && bin != ""
                 && exists i :: && 0 <= i < |lines| && lines[i].bin == Some(bin)
                                && lines[i].formulationLine !in {None, Some("")} && lines[i].feedstockType !in {None, Some("")}
                                && lines[i].massKg.Some? && lines[i].massKg.value > 0.0
  {
    if Drawn(lines, bin) {
      var i :| 0 <= i < |lines| && DrawsFrom(lines[i], bin);
    }
    forall i | 0 <= i < |lines| && bin != "" && lines[i].bin == Some(bin)
               && lines[i].formulationLine !in {None, Some("")} && lines[i].feedstockType !in {None, Some("")}
               && lines[i].massKg.Some? && lines[i].massKg.value > 0.0
      ensures DrawsFrom(lines[i], bin)
    {
    }
  }

  ghost predicate Tallied(lines: seq<Line>, order: seq<Id>, mass: map<Id, Mass>) {
    && (forall i, j | 0 <= i < j < |order| :: order[i] != order[j])
    && (forall bin :: bin in order <==> bin in mass)
    && (forall bin :: bin in mass <==> Drawn(lines, bin))
    && (forall bin | bin in mass :: mass[bin] == Mass(WetFrom(lines, bin), DryFrom(lines, bin)))
  }

  lemma NothingDrawn(lines: seq<Line>, bin: Id)
    requires !Drawn(lines, bin)
    ensures WetFrom(lines, bin) == 0.0 && DryFrom(lines, bin) == Some(0.0)
  {
    if lines != [] {
      var n := |lines| - 1;
      assert !DrawsFrom(lines[n], bin);
      assert forall i | 0 <= i < n :: lines[..n][i] == lines[i];
      NothingDrawn(lines[..n], bin);
    }
  }

  lemma OneMoreLine(lines: seq<Line>, i: nat, bin: Id)
    requires i < |lines|
    ensures Drawn(lines[..i + 1], bin) <==> Drawn(lines[..i], bin) || DrawsFrom(lines[i], bin)
    ensures WetFrom(lines[..i + 1], bin)
            == WetFrom(lines[..i], bin) + (if DrawsFrom(lines[i], bin) then lines[i].massKg.value else 0.0)
    ensures !DrawsFrom(lines[i], bin) ==> DryFrom(lines[..i + 1], bin) == DryFrom(lines[..i], bin)
    ensures DrawsFrom(lines[i], bin) ==>
      DryFrom(lines[..i + 1], bin)
      == if DryFrom(lines[..i], bin).None? || lines[i].massDryKg.None? then None
         else Some(DryFrom(lines[..i], bin).value + lines[i].massDryKg.value)
  {
    assert lines[..i + 1][..i] == lines[..i] && lines[..i + 1][i] == lines[i];
    if DrawsFrom(lines[i], bin) {
      assert DrawsFrom(lines[..i + 1][i], bin);
    }
    forall k | 0 <= k < i
      ensures lines[..i + 1][k] == lines[..i][k]
    {
    }
  }

  /** One draw per bin, in the order the bins first appear. */
  method GetCompositionIngredientDraws(lines: seq<Line>) returns (draws: seq<Draw>)
    ensures forall i, j | 0 <= i < j < |draws| :: draws[i].bin != draws[j].bin
    ensures forall bin :: Drawn(lines, bin) <==> exists i :: 0 <= i < |draws| && draws[i].bin == bin
    ensures forall i | 0 <= i < |draws| ::
      draws[i].massKg == WetFrom(lines, draws[i].bin) && draws[i].massDryKg == DryFrom(lines, draws[i].bin)
  {
    var order: seq<Id>, byBin: map<Id, Mass> := [], map[];
    for i := 0 to |lines|
      invariant Tallied(lines[..i], order, byBin)
    {
      var line := lines[i];
      ghost var order0, byBin0 := order, byBin;
      if Contributes(line) {
        var bin := line.bin.value;
        if bin in byBin {
          var existing := byBin[bin];
          var dry := if existing.dryKg.None? || line.massDryKg.None? then None
                     else Some(existing.dryKg.value + line.massDryKg.value);
          byBin := byBin[bin := Mass(existing.wetKg + line.massKg.value, dry)];
        } else {
          order := order + [bin];
          byBin := byBin[bin := Mass(line.massKg.value, line.massDryKg)];
        }
      }
      TallyStep(lines, i, order0, byBin0, order, byBin);
    }
    assert lines[..|lines|] == lines;
    draws := seq(|order|, i requires 0 <= i < |order| && order[i] in byBin =>
      Draw(order[i], byBin[order[i]].wetKg, byBin[order[i]].dryKg));
    assert forall i | 0 <= i < |draws| :: draws[i].bin == order[i];
    forall bin
      ensures Drawn(lines, bin) <==> exists i :: 0 <= i < |draws| && draws[i].bin == bin
    {
      if Drawn(lines, bin) {
        assert bin in order;
        var i :| 0 <= i < |order| && order[i] == bin;
        assert draws[i].bin == bin;
      }
    }
  }

  /** What one line does to the tally. */
  lemma TallyStep(lines: seq<Line>, i: nat, order: seq<Id>, mass: map<Id, Mass>, order': seq<Id>, mass': map<Id, Mass>)
    requires i < |lines| && Tallied(lines[..i], order, mass)
    requires !Contributes(lines[i]) ==> order' == order && mass' == mass
    requires Contributes(lines[i]) ==>
      var bin := lines[i].bin.value;
      if bin in mass then
        && order' == order
        && mass' == mass[bin := Mass(mass[bin].wetKg + lines[i].massKg.value,
                                     if mass[bin].dryKg.None? || lines[i].massDryKg.None? then None
                                     else Some(mass[bin].dryKg.value + lines[i].massDryKg.value))]
      else order' == order + [bin] && mass' == mass[bin := Mass(lines[i].massKg.value, lines[i].massDryKg)]
    ensures Tallied(lines[..i + 1], order', mass')
  {
    hide WetFrom, DryFrom, Drawn;
    forall bin
      ensures bin in mass' <==> Drawn(lines[..i + 1], bin)
      ensures bin in mass' ==> mass'[bin] == Mass(WetFrom(lines[..i + 1], bin), DryFrom(lines[..i + 1], bin))
    {
      OneMoreLine(lines, i, bin);
      if !Drawn(lines[..i], bin) {
        NothingDrawn(lines[..i], bin);
      }
    }
  }

  function WetOf(draws: seq<Draw>): real {
    if draws == [] then 0.0 else WetOf(draws[..|draws| - 1]) + draws[|draws| - 1].massKg
  }

  /** All wet mass of contributing lines. */
  function WetContributed(lines: seq<Line>): real {
    if lines == [] then 0.0
    else
      var last := lines[|lines| - 1];
      WetContributed(lines[..|lines| - 1]) + (if Contributes(last) then last.massKg.value else 0.0)
  }

  ghost predicate IsDraws(lines: seq<Line>, draws: seq<Draw>) {
    && (forall i, j | 0 <= i < j < |draws| :: draws[i].bin != draws[j].bin)
    && (forall bin :: Drawn(lines, bin) ==> exists i :: 0 <= i < |draws| && draws[i].bin == bin)
    && forall i | 0 <= i < |draws| :: draws[i].massKg == WetFrom(lines, draws[i].bin)
  }

  /** The draws of the earlier lines, bin by bin. */
  function Earlier(lines: seq<Line>, draws: seq<Draw>): (earlier: seq<Draw>)
    ensures |earlier| == |draws|
  {
    seq(|draws|, i requires 0 <= i < |draws| => draws[i].(massKg := WetFrom(lines, draws[i].bin)))
  }

  lemma {:induction false} SumOverBins(lines: seq<Line>, bins: seq<Draw>)
    requires lines != [] && (forall i, j | 0 <= i < j < |bins| :: bins[i].bin != bins[j].bin)
    requires forall i | 0 <= i < |bins| :: bins[i].massKg == WetFrom(lines, bins[i].bin)
    ensures
      var last := lines[|lines| - 1];
      WetOf(bins) == WetOf(Earlier(lines[..|lines| - 1], bins))
                     + (if Contributes(last) && exists i :: 0 <= i < |bins| && bins[i].bin == last.bin.value
                        then last.massKg.value else 0.0)
    decreases |bins|
  {
    if bins != [] {
      var n := |bins| - 1;
      SumOverBins(lines, bins[..n]);
      var earlier := Earlier(lines[..|lines| - 1], bins);
      assert earlier[..n] == Earlier(lines[..|lines| - 1], bins[..n]);
      assert forall i | 0 <= i < n :: bins[..n][i] == bins[i];
    }
  }

  /** The draws conserve the total: no contributing gram is lost, none is drawn twice. */
  lemma {:induction false} DrawsConserve(lines: seq<Line>, draws: seq<Draw>)
    requires IsDraws(lines, draws)
    ensures WetOf(draws) == WetContributed(lines)
    decreases |lines|
  {
    if lines == [] {
      NoWet(draws);
    } else {
      var n := |lines| - 1;
      var earlier := Earlier(lines[..n], draws);
      SumOverBins(lines, draws);
      assert lines[..n + 1] == lines;
      forall bin | Drawn(lines[..n], bin)
        ensures exists i :: 0 <= i < |earlier| && earlier[i].bin == bin
      {
        OneMoreLine(lines, n, bin);
        var i :| 0 <= i < |draws| && draws[i].bin == bin;
        assert earlier[i].bin == bin;
      }
      DrawsConserve(lines[..n], earlier);
      if Contributes(lines[n]) {
        OneMoreLine(lines, n, lines[n].bin.value);
      }
    }
  }

  lemma NoWet(draws: seq<Draw>)
    requires forall i | 0 <= i < |draws| :: draws[i].massKg == 0.0
    ensures WetOf(draws) == 0.0
  {
  }

  /** A bin's dry mass is unknown exactly when some line that draws from it has none. */
  lemma {:induction false} DryUnknownIff(lines: seq<Line>, bin: Id)
    ensures DryFrom(lines, bin).None? <==> exists i :: 0 <= i < |lines| && DrawsFrom(lines[i], bin) && lines[i].massDryKg.None?
    decreases |lines|
  {
    if lines != [] {
      var n := |lines| - 1;
      DryUnknownIff(lines[..n], bin);
      assert forall i | 0 <= i < n :: lines[..n][i] == lines[i];
      if DrawsFrom(lines[n], bin) && lines[n].massDryKg.None? {
        assert DryFrom(lines, bin).None?;
      }
    }
  }

  // ---------- Freezing dry mass ----------

  datatype FreezeError = NegativeWetMass | MoistureRequired

  /** What a saved line is found by: the same material, from the same bin, of the same grams. */
  datatype SnapshotKey = SnapshotKey(
    formulationLine: Option<Id>, feedstockType: Option<Id>, bin: Option<Id>, massGrams: Option<int>)

  function KeyOf(line: Line): SnapshotKey {
    SnapshotKey(line.formulationLine, line.feedstockType, line.bin, Scaled(line.massKg, GRAMS_PER_KG))
  }

  /** A later line of the same key replaces an earlier one in the lookup. */
  function LastWithKey(lines: seq<Line>, key: SnapshotKey): (found: Option<Line>)
    ensures found.Some? ==> found.value in lines && KeyOf(found.value) == key
    ensures found.None? <==> forall l | l in lines :: KeyOf(l) != key
  {
    if lines == [] then None
    else
      var last := lines[|lines| - 1];
      if KeyOf(last) == key then Some(last) else LastWithKey(lines[..|lines| - 1], key)
  }

  predicate ValidMoisture(moisture: Option<real>) {
    moisture.Some? && 0.0 <= moisture.value <= 100.0
  }

  predicate HasSnapshot(line: Line) {
    line.massDryKg.Some? && line.massDryKg.value >= 0.0 && ValidMoisture(line.moisture)
  }

  /** Dry solids of a wet mass, rounded half up to the gram. */
  function SolidsKg(wetKg: real, moisture: real): real {
    Round(wetKg * (1.0 - moisture / 100.0) * GRAMS_PER_KG) as real / GRAMS_PER_KG
  }

  lemma SolidsAreNotNegative(wetKg: real, moisture: real)
    requires wetKg >= 0.0 && 0.0 <= moisture <= 100.0
    ensures SolidsKg(wetKg, moisture) >= 0.0
  {
    var fraction := 1.0 - moisture / 100.0;
    assert wetKg * fraction >= 0.0;
  }

  function WetKg(line: Line): real {
    if line.massKg.Some? then line.massKg.value else 0.0
  }

  /** `basis` is the moisture estimate of a bin at the time of the write. */
  function FreezeLine(line: Line, previous: seq<Line>, basis: Id -> Option<Estimate>): Result<Line, FreezeError> {
    var saved := LastWithKey(previous, KeyOf(line));
    if WetKg(line) < 0.0 then Err(NegativeWetMass)
    else if WetKg(line) == 0.0 then Ok(line.(massDryKg := Some(0.0), moisture := None))
    else if saved.Some? && HasSnapshot(saved.value) then
      Ok(line.(massDryKg := saved.value.massDryKg, moisture := saved.value.moisture, estimate := saved.value.estimate))
    else if !ValidMoisture(line.moisture) then Err(MoistureRequired)
    else
      Ok(line.(massDryKg := Some(SolidsKg(WetKg(line), line.moisture.value)),
               estimate := if line.bin.Some? then basis(line.bin.value) else None))
  }

  function Freeze(lines: seq<Line>, previous: seq<Line>, basis: Id -> Option<Estimate>)
    : (frozen: Result<seq<Line>, FreezeError>)
    ensures frozen.Ok? ==> |frozen.value| == |lines|
    ensures frozen.Ok? ==> forall i | 0 <= i < |lines| :: FreezeLine(lines[i], previous, basis) == Ok(frozen.value[i])
    ensures frozen.Err? ==> exists i :: 0 <= i < |lines| && FreezeLine(lines[i], previous, basis).Err?
  {
    if lines == [] then Ok([])
    else
      match Freeze(lines[..|lines| - 1], previous, basis)
      case Err(error) => Err(error)
      case Ok(earlier) =>
        match FreezeLine(lines[|lines| - 1], previous, basis)
        case Err(error) => Err(error)
        case Ok(last) => Ok(earlier + [last])
  }

  /** Freezing never touches what the operator recorded: material, bin and wet mass. */
  lemma FreezeKeepsWetFacts(lines: seq<Line>, previous: seq<Line>, basis: Id -> Option<Estimate>, i: nat)
    requires Freeze(lines, previous, basis).Ok? && i < |lines|
    ensures
      var frozen := Freeze(lines, previous, basis).value;
      && KeyOf(frozen[i]) == KeyOf(lines[i]) && frozen[i].massKg == lines[i].massKg && frozen[i].rest == lines[i].rest
      && (WetKg(lines[i]) > 0.0 ==> HasSnapshot(frozen[i]))
  {
    assert FreezeLine(lines[i], previous, basis) == Ok(Freeze(lines, previous, basis).value[i]);
    if WetKg(lines[i]) > 0.0 && ValidMoisture(lines[i].moisture) {
      SolidsAreNotNegative(WetKg(lines[i]), lines[i].moisture.value);
    }
  }

  /** A percentage. */
  predicate Measured(moisture: Option<real>) {
    match moisture
    case None => false
    case Some(percent) => 0.0 <= percent <= 100.0
  }

  /** A saved dry mass with the moisture it came from. */
  predicate Snapshotted(line: Line) {
    line.massDryKg.Some? && !(line.massDryKg.value < 0.0) && Measured(line.moisture)
  }

  /** `previous[k]` is the last saved line of the same origin and the same grams. */
  ghost predicate LastLike(previous: seq<Line>, line: Line, k: nat) {
    && k < |previous| && Alike(previous[k], line)
    && forall later | k < later < |previous| :: !Alike(previous[later], line)
  }

  ghost predicate Alike(a: Line, b: Line) {
    SameOrigin(a, b) && SameRounded(a.massKg, b.massKg, 1000.0)
  }

  lemma AlikeIff(a: Line, b: Line)
    ensures KeyOf(a) == KeyOf(b) <==> Alike(a, b)
  {
    ScaledIff(a.massKg, b.massKg, 1000.0);
  }

  lemma {:induction false} LastLikeIsFound(previous: seq<Line>, line: Line, k: nat)
    requires LastLike(previous, line, k)
    ensures LastWithKey(previous, KeyOf(line)) == Some(previous[k])
    decreases |previous|
  {
    hide Alike, KeyOf;
    var n := |previous| - 1;
    AlikeIff(previous[n], line);
    if k < n {
      assert forall later | k < later < n :: previous[..n][later] == previous[later];
      LastLikeIsFound(previous[..n], line, k);
    }
  }

  lemma NothingLikeIt(previous: seq<Line>, line: Line)
    requires forall k | 0 <= k < |previous| :: !Alike(previous[k], line)
    ensures LastWithKey(previous, KeyOf(line)) == None
  {
    hide Alike, KeyOf;
    forall l | l in previous
      ensures KeyOf(l) != KeyOf(line)
    {
      AlikeIff(l, line);
    }
  }

  predicate IsGrams(kg: real, grams: int) {
    kg * 1000.0 == grams as real
  }

  /** Dry mass in whole grams that with the water makes up the wet mass, to within half a gram. */
  ghost predicate SolidsAndWater(wetKg: real, moisture: real, dryKg: real) {
    && (exists grams: int :: IsGrams(dryKg, grams))
    && -0.0005 < dryKg + wetKg * moisture / 100.0 - wetKg <= 0.0005
  }

  lemma SolidsAddUp(wetKg: real, moisture: real)
    ensures SolidsAndWater(wetKg, moisture, SolidsKg(wetKg, moisture))
  {
    var water := wetKg * moisture / 100.0;
    var solids := (wetKg - water) * 1000.0;
    assert wetKg * (1.0 - moisture / 100.0) == wetKg - water by {
      assert wetKg * (moisture / 100.0) == water;
    }
    assert wetKg * (1.0 - moisture / 100.0) * GRAMS_PER_KG == solids;
    assert IsGrams(SolidsKg(wetKg, moisture), Round(solids));
  }

  /**
   * What freezing writes: nothing dry for no mass; the saved snapshot of the last line like
   * it; and otherwise the solids of the measured moisture, with the estimate of the bin.
   */
  lemma FrozenLine(lines: seq<Line>, previous: seq<Line>, basis: Id -> Option<Estimate>, i: nat, k: nat)
    requires Freeze(lines, previous, basis).Ok? && i < |lines|
    requires k < |previous| ==> LastLike(previous, lines[i], k)
    requires k == |previous| ==> forall l | 0 <= l < |previous| :: !Alike(previous[l], lines[i])
    requires k <= |previous|
    ensures
      var line, frozen := lines[i], Freeze(lines, previous, basis).value[i];
      && WetKg(line) >= 0.0
      && if WetKg(line) == 0.0 then frozen.massDryKg == Some(0.0) && frozen.moisture == None
         else if k < |previous| && Snapshotted(previous[k]) then SameSnapshot(frozen, previous[k])
         else
           && Measured(line.moisture) && frozen.moisture == line.moisture && frozen.massDryKg.Some?
           && SolidsAndWater(WetKg(line), line.moisture.value, frozen.massDryKg.value)
           && frozen.estimate == if line.bin.Some? then basis(line.bin.value) else None
  {
    var line := lines[i];
    assert FreezeLine(line, previous, basis) == Ok(Freeze(lines, previous, basis).value[i]);
    if k < |previous| {
      LastLikeIsFound(previous, line, k);
    } else {
      NothingLikeIt(previous, line);
    }
    if ValidMoisture(line.moisture) {
      SolidsAddUp(WetKg(line), line.moisture.value);
    }
    hide Freeze, LastWithKey, KeyOf, SolidsKg, SolidsAndWater, Alike;
  }

  /** Freezing is refused exactly for a negative mass, or a new positive one without a measured moisture. */
  lemma FreezeRefusedIff(lines: seq<Line>, previous: seq<Line>, basis: Id -> Option<Estimate>)
    ensures
      Freeze(lines, previous, basis).Err?
      <==> exists i :: 0 <= i < |lines|
             && (|| WetKg(lines[i]) < 0.0
                 || (WetKg(lines[i]) > 0.0 && !Measured(lines[i].moisture)
                     && forall k: nat | LastLike(previous, lines[i], k) :: !Snapshotted(previous[k])))
  {
    hide SolidsKg;
    forall i | 0 <= i < |lines|
      ensures
        FreezeLine(lines[i], previous, basis).Err?
        <==> || WetKg(lines[i]) < 0.0
             || (WetKg(lines[i]) > 0.0 && !Measured(lines[i].moisture)
                 && forall k: nat | LastLike(previous, lines[i], k) :: !Snapshotted(previous[k]))
    {
      var saved := SavedIsLastLike(previous, lines[i]);
      forall k: nat | LastLike(previous, lines[i], k)
        ensures LastWithKey(previous, KeyOf(lines[i])) == Some(previous[k])
      {
        LastLikeIsFound(previous, lines[i], k);
      }
    }
    hide FreezeLine, LastLike, WetKg;
  }

  lemma {:induction false} SavedIsLastLike(previous: seq<Line>, line: Line) returns (k: nat)
    ensures
      var saved := LastWithKey(previous, KeyOf(line));
      saved.Some? ==> LastLike(previous, line, k) && saved == Some(previous[k])
    decreases |previous|
  {
    hide Alike, KeyOf;
    k := 0;
    if previous != [] {
      var n := |previous| - 1;
      AlikeIff(previous[n], line);
      if Alike(previous[n], line) {
        k := n;
      } else {
        k := SavedIsLastLike(previous[..n], line);
        assert forall later | k < later < n :: previous[..n][later] == previous[later];
      }
    }
  }

  /** Masses as the columns and the input schemas keep them. */
  predicate GramPrecise(line: Line) {
    line.massKg.Some? ==> line.massKg.value * GRAMS_PER_KG == Round(line.massKg.value * GRAMS_PER_KG) as real
  }

  predicate SameSnapshot(a: Line, b: Line) {
    a.massDryKg == b.massDryKg && a.moisture == b.moisture && a.estimate == b.estimate
  }

  /** Lines of the same material, bin and positive grams were frozen alike. */
  ghost predicate SnapshotsAgree(lines: seq<Line>) {
    forall a, b | a in lines && b in lines && WetKg(a) > 0.0 && KeyOf(a) == KeyOf(b) :: SameSnapshot(a, b)
  }

  /** What freezing leaves on every line. */
  ghost predicate Frozen(line: Line) {
    && GramPrecise(line) && WetKg(line) >= 0.0
    && (WetKg(line) > 0.0 ==> HasSnapshot(line))
    && (WetKg(line) == 0.0 ==> line.massDryKg == Some(0.0) && line.moisture == None)
  }

  ghost predicate AllFrozen(lines: seq<Line>) {
    forall l | l in lines :: Frozen(l)
  }

  predicate AgreesWithLast(lines: seq<Line>, line: Line) {
    var saved := LastWithKey(lines, KeyOf(line));
    saved.Some? && (WetKg(line) > 0.0 ==> SameSnapshot(saved.value, line))
  }

  lemma SameKeySamePositive(a: Line, b: Line)
    requires Frozen(a) && Frozen(b) && KeyOf(a) == KeyOf(b)
    ensures WetKg(a) > 0.0 <==> WetKg(b) > 0.0
  {
  }

  lemma RefreezeLine(lines: seq<Line>, line: Line, again: Id -> Option<Estimate>)
    requires line in lines && AllFrozen(lines)
    ensures FreezeLine(line, lines, again).Ok?
    ensures FreezeLine(line, lines, again) == Ok(line) <==> AgreesWithLast(lines, line)
  {
    var saved := LastWithKey(lines, KeyOf(line)).value;
    SameKeySamePositive(saved, line);
  }

  /** Agreeing with the last line of one's key is agreeing with every line of it. */
  lemma AgreeingWithLast(lines: seq<Line>)
    requires AllFrozen(lines)
    ensures (forall l | l in lines :: AgreesWithLast(lines, l)) <==> SnapshotsAgree(lines)
  {
    hide KeyOf, WetKg, Frozen, HasSnapshot;
    if forall l | l in lines :: AgreesWithLast(lines, l) {
      forall a, b | a in lines && b in lines && WetKg(a) > 0.0 && KeyOf(a) == KeyOf(b)
        ensures SameSnapshot(a, b)
      {
        SameKeySamePositive(a, b);
        assert AgreesWithLast(lines, a) && AgreesWithLast(lines, b);
      }
    }
  }

  lemma FrozenAfterFreeze(lines: seq<Line>, previous: seq<Line>, basis: Id -> Option<Estimate>)
    requires Freeze(lines, previous, basis).Ok? && forall l | l in lines :: GramPrecise(l)
    ensures AllFrozen(Freeze(lines, previous, basis).value)
  {
    var frozen := Freeze(lines, previous, basis).value;
    forall i | 0 <= i < |frozen|
      ensures Frozen(frozen[i])
    {
      assert lines[i] in lines && FreezeLine(lines[i], previous, basis) == Ok(frozen[i]);
      FreezeKeepsWetFacts(lines, previous, basis, i);
    }
  }

  /**
   * Freezing a frozen composition against itself never fails, and it changes nothing exactly
   * when lines of the same material, bin and grams were frozen alike. Two such lines with
   * different measured moistures both get the later one's.
   */
  lemma RefreezeIff(
      lines: seq<Line>, previous: seq<Line>, basis: Id -> Option<Estimate>, again: Id -> Option<Estimate>)
    requires Freeze(lines, previous, basis).Ok? && forall l | l in lines :: GramPrecise(l)
    ensures
      var frozen := Freeze(lines, previous, basis).value;
      && Freeze(frozen, frozen, again).Ok?
      && (Freeze(frozen, frozen, again).value == frozen <==> SnapshotsAgree(frozen))
  {
    var frozen := Freeze(lines, previous, basis).value;
    FrozenAfterFreeze(lines, previous, basis);
    AgreeingWithLast(frozen);
    forall i | 0 <= i < |frozen|
      ensures FreezeLine(frozen[i], frozen, again).Ok?
      ensures FreezeLine(frozen[i], frozen, again) == Ok(frozen[i]) <==> AgreesWithLast(frozen, frozen[i])
    {
      RefreezeLine(frozen, frozen[i], again);
    }
    hide FreezeLine, AgreesWithLast, AllFrozen, SnapshotsAgree;
    RefreezeChangesNothing(frozen, again);
    assert (forall l | l in frozen :: AgreesWithLast(frozen, l))
           <==> forall i | 0 <= i < |frozen| :: AgreesWithLast(frozen, frozen[i]);
  }

  lemma RefreezeChangesNothing(frozen: seq<Line>, again: Id -> Option<Estimate>)
    requires forall i | 0 <= i < |frozen| :: FreezeLine(frozen[i], frozen, again).Ok?
    ensures Freeze(frozen, frozen, again).Ok?
    ensures Freeze(frozen, frozen, again).value == frozen
            <==> forall i | 0 <= i < |frozen| :: FreezeLine(frozen[i], frozen, again) == Ok(frozen[i])
  {
    hide FreezeLine;
    var twice := Freeze(frozen, frozen, again).value;
    assert forall i | 0 <= i < |frozen| :: FreezeLine(frozen[i], frozen, again) == Ok(twice[i]);
  }

  /** A validated composition names each formulation line once, so it freezes to itself. */
  lemma DistinctLinesRefreeze(
      lines: seq<Line>, previous: seq<Line>, basis: Id -> Option<Estimate>, again: Id -> Option<Estimate>)
    requires Freeze(lines, previous, basis).Ok? && forall l | l in lines :: GramPrecise(l)
    requires forall i, j | 0 <= i < j < |lines| :: lines[i].formulationLine != lines[j].formulationLine
    ensures
      var frozen := Freeze(lines, previous, basis).value;
      Freeze(frozen, frozen, again) == Ok(frozen)
  {
    var frozen := Freeze(lines, previous, basis).value;
    forall i | 0 <= i < |frozen|
      ensures frozen[i].formulationLine == lines[i].formulationLine
    {
      FreezeKeepsWetFacts(lines, previous, basis, i);
    }
    hide Freeze, GramPrecise;
    OneLinePerKey(frozen);
    RefreezeIff(lines, previous, basis, again);
  }

  lemma OneLinePerKey(lines: seq<Line>)
    requires forall i, j | 0 <= i < j < |lines| :: lines[i].formulationLine != lines[j].formulationLine
    ensures SnapshotsAgree(lines)
  {
    hide WetKg;
    forall a, b | a in lines && b in lines && KeyOf(a) == KeyOf(b)
      ensures a == b
    {
      var i :| 0 <= i < |lines| && lines[i] == a;
      var j :| 0 <= j < |lines| && lines[j] == b;
    }
  }

  const DRIER := Line(Some("line"), Some("straw"), Some("bin"), Some(100.0), None, Some(10.0), None, "")
  const WETTER := Line(Some("line"), Some("straw"), Some("bin"), Some(100.0), None, Some(20.0), None, "")

  /** Two draws of one material, bin and mass, measured at 10 and 20 percent: freezing again changes the first. */
  lemma RefreezeCanChange(again: Id -> Option<Estimate>)
    ensures
      var frozen := Freeze([DRIER, WETTER], [], again);
      && frozen.Ok? && frozen.value[0].moisture == Some(10.0)
      && Freeze(frozen.value, frozen.value, again).Ok?
      && Freeze(frozen.value, frozen.value, again).value[0].moisture == Some(20.0)
  {
    var lines := [DRIER, WETTER];
    assert lines[..1] == [DRIER] && lines[..1][..0] == [];
    assert FreezeLine(DRIER, [], again).Ok? && FreezeLine(WETTER, [], again).Ok?;
    assert Freeze([DRIER], [], again).Ok?;
    var frozen := Freeze(lines, [], again).value;
    FreezeKeepsWetFacts(lines, [], again, 0);
    FreezeKeepsWetFacts(lines, [], again, 1);
    RefreezeIff(lines, [], again, again);
    assert FreezeLine(lines[0], [], again) == Ok(frozen[0]) && FreezeLine(lines[1], [], again) == Ok(frozen[1]);
    assert LastWithKey(frozen, KeyOf(frozen[0])) == Some(frozen[1]);
    assert FreezeLine(frozen[0], frozen, again) == Ok(Freeze(frozen, frozen, again).value[0]);
  }
}
