/**
 * Projecting one application onto the production lots that supplied it
 * (`src/data-access/biochar-product-application-allocation.ts`). Masses are reals.
 */
module MassSplit {
  import opened Outcomes
  import opened Sorting

  datatype MassError = NoRecordedMass

  datatype Allocation = Allocation(run: string, wetKg: real, dryKg: real)

  datatype Application = Application(wetTons: real, dryTons: Option<real>, linkedRun: string)

  /** `source` is none for a product without allocation rows. */
  datatype Projection = Projection(wetTons: real, dryTons: Option<real>, linkedRun: string, source: Option<Allocation>)

  function Sum(xs: seq<real>): real {
    if xs == [] then 0.0 else Sum(xs[..|xs| - 1]) + xs[|xs| - 1]
  }

  /** The true proportional share. */
  function Share(total: real, weight: real, whole: real): real
    requires whole > 0.0
  {
    total * (weight / whole)
  }

  /** The specification: everyone gets the proportional share, nothing is said about a remainder. */
  function Shares(total: Option<real>, weights: seq<real>): Result<seq<Option<real>>, MassError> {
    match total
    case None => Ok(seq(|weights|, _ => None))
    case Some(mass) =>
      if Sum(weights) > 0.0 then
        Ok(seq(|weights|, i requires 0 <= i < |weights| => Some(Share(mass, weights[i], Sum(weights)))))
      else if mass == 0.0 then Ok(seq(|weights|, _ => Some(0.0)))
      else Err(NoRecordedMass)
  }

  lemma ShareOfSum(total: real, a: real, b: real, whole: real)
    requires whole > 0.0
    ensures Share(total, a + b, whole) == Share(total, a, whole) + Share(total, b, whole)
  {
    assert (a + b) / whole == a / whole + b / whole;
  }

  lemma ShareOfWhole(total: real, whole: real)
    requires whole > 0.0
    ensures Share(total, whole, whole) == total && Share(total, 0.0, whole) == 0.0
  {
  }

  /** One more share leaves the rest of the rest; after all but the last, that is the last one's share. */
  lemma RemainderAfter(total: real, weights: seq<real>, i: nat)
    requires i < |weights| && Sum(weights) > 0.0
    ensures
      var whole := Sum(weights);
      && Share(total, Sum(weights[..i + 1]), whole) == Share(total, Sum(weights[..i]), whole) + Share(total, weights[i], whole)
      && (i == |weights| - 1 ==> Share(total, Sum(weights[..i + 1]), whole) == total)
  {
    assert weights[..i + 1][..i] == weights[..i];
    ShareOfSum(total, Sum(weights[..i]), weights[i], Sum(weights));
    assert i == |weights| - 1 ==> weights[..i + 1] == weights;
    ShareOfWhole(total, Sum(weights));
  }

  /** Proportional shares, with whatever remains for the last one: the remainder is its proportional share. */
  method SplitMassByWeights(total: Option<real>, weights: seq<real>) returns (result: Result<seq<Option<real>>, MassError>)
    ensures result == Shares(total, weights)
  {
    hide Share;
    if total.None? {
      return Ok(seq(|weights|, _ => None));
    }
    var totalWeight := 0.0;
    for i := 0 to |weights|
      invariant totalWeight == Sum(weights[..i])
    {
      totalWeight := totalWeight + weights[i];
      assert weights[..i + 1][..i] == weights[..i];
    }
    assert weights[..|weights|] == weights;
    if totalWeight <= 0.0 {
      return if total.value == 0.0 then Ok(seq(|weights|, _ => Some(0.0))) else Err(NoRecordedMass);
    }
    var remaining, shares := total.value, [];
    ShareOfWhole(total.value, totalWeight);
    for i := 0 to |weights|
      invariant |shares| == i
      invariant forall k | 0 <= k < i :: shares[k] == Some(Share(total.value, weights[k], totalWeight))
      invariant remaining == total.value - Share(total.value, Sum(weights[..i]), totalWeight)
    {
      RemainderAfter(total.value, weights, i);
      if i == |weights| - 1 {
        shares := shares + [Some(remaining)];
        remaining := 0.0;
      } else {
        var share := Share(total.value, weights[i], totalWeight);
        remaining := remaining - share;
        shares := shares + [Some(share)];
      }
    }
    assert shares == seq(|weights|, i requires 0 <= i < |weights| => Some(Share(total.value, weights[i], Sum(weights))));
    result := Ok(shares);
  }

  /** The known masses of a split. */
  function Values(shares: seq<Option<real>>): seq<real>
    requires forall i | 0 <= i < |shares| :: shares[i].Some?
  {
    seq(|shares|, i requires 0 <= i < |shares| => shares[i].value)
  }

  lemma {:induction false} SumOfShares(total: real, weights: seq<real>, whole: real, values: seq<real>)
    requires whole > 0.0 && |values| == |weights|
    requires forall i | 0 <= i < |weights| :: values[i] == Share(total, weights[i], whole)
    ensures Sum(values) == Share(total, Sum(weights), whole)
    decreases |weights|
  {
    if weights != [] {
      var n := |weights| - 1;
      SumOfShares(total, weights[..n], whole, values[..n]);
      ShareOfSum(total, Sum(weights[..n]), weights[n], whole);
    }
  }

  lemma {:induction false} SumOfZeros(values: seq<real>)
    requires forall i | 0 <= i < |values| :: values[i] == 0.0
    ensures Sum(values) == 0.0
  {
    if values != [] {
      SumOfZeros(values[..|values| - 1]);
    }
  }

  /** A split that is not refused conserves the mass, and shares no negative part of a non-negative one. */
  lemma SplitConserves(mass: real, weights: seq<real>)
    requires Shares(Some(mass), weights).Ok?
    ensures
      var shares := Shares(Some(mass), weights).value;
      && |shares| == |weights| && (forall i | 0 <= i < |shares| :: shares[i].Some?)
      && Sum(Values(shares)) == mass
      && (mass >= 0.0 && (forall i | 0 <= i < |weights| :: weights[i] >= 0.0) ==>
            forall i | 0 <= i < |shares| :: shares[i].value >= 0.0)
  {
    var shares, whole := Shares(Some(mass), weights).value, Sum(weights);
    if whole > 0.0 {
      SumOfShares(mass, weights, whole, Values(shares));
      ShareOfWhole(mass, whole);
      forall i | 0 <= i < |weights| && mass >= 0.0 && weights[i] >= 0.0
        ensures Share(mass, weights[i], whole) >= 0.0
      {
        assert weights[i] / whole >= 0.0;
      }
    } else {
      SumOfZeros(Values(shares));
    }
  }

  // ---------- One application over its source lots ----------

  function RunOf(): Allocation -> string {
    (a: Allocation) => a.run
  }

  function Wets(allocations: seq<Allocation>): seq<real> {
    seq(|allocations|, i requires 0 <= i < |allocations| => allocations[i].wetKg)
  }

  function Dries(allocations: seq<Allocation>): seq<real> {
    seq(|allocations|, i requires 0 <= i < |allocations| => allocations[i].dryKg)
  }

  /** `le` is the order of run identifiers. */
  function SplitApplication(application: Application, allocations: seq<Allocation>, le: (string, string) -> bool)
    : (result: Result<seq<Projection>, MassError>)
  {
    if allocations == [] then Ok([Projection(application.wetTons, application.dryTons, application.linkedRun, None)])
    else
      var sorted := SortBy(allocations, RunOf(), le);
      match (Shares(Some(application.wetTons), Wets(sorted)), Shares(application.dryTons, Dries(sorted)))
      case (Ok(wet), Ok(dry)) =>
        Ok(seq(|sorted|, i requires 0 <= i < |sorted| && |wet| == |sorted| && |dry| == |sorted| =>
          Projection(if wet[i].Some? then wet[i].value else 0.0, dry[i], sorted[i].run, Some(sorted[i]))))
      case _ => Err(NoRecordedMass)
  }

  function WetTons(parts: seq<Projection>): seq<real> {
    seq(|parts|, i requires 0 <= i < |parts| => parts[i].wetTons)
  }

  function DryTons(parts: seq<Projection>): seq<Option<real>> {
    seq(|parts|, i requires 0 <= i < |parts| => parts[i].dryTons)
  }

  /** Wet and dry mass are conserved, each by its own weights; an unknown dry mass stays unknown on every lot. */
  lemma ProjectionConserves(application: Application, allocations: seq<Allocation>, le: (string, string) -> bool)
    requires SplitApplication(application, allocations, le).Ok?
    ensures
      var parts := SplitApplication(application, allocations, le).value;
      && Sum(WetTons(parts)) == application.wetTons
      && (application.dryTons.None? ==> forall i | 0 <= i < |parts| :: parts[i].dryTons.None?)
      && (application.dryTons.Some? ==>
            && (forall i | 0 <= i < |parts| :: DryTons(parts)[i].Some?)
            && Sum(Values(DryTons(parts))) == application.dryTons.value)
  {
    var parts := SplitApplication(application, allocations, le).value;
    if allocations == [] {
      assert WetTons(parts) == [application.wetTons];
      if application.dryTons.Some? {
        assert Values(DryTons(parts)) == [application.dryTons.value];
      }
    } else {
      var sorted := SortBy(allocations, RunOf(), le);
      var wet := Shares(Some(application.wetTons), Wets(sorted)).value;
      SplitConserves(application.wetTons, Wets(sorted));
      assert WetTons(parts) == Values(wet);
      if application.dryTons.Some? {
        SplitConserves(application.dryTons.value, Dries(sorted));
        assert DryTons(parts) == Shares(application.dryTons, Dries(sorted)).value;
      }
    }
  }

  /** The lot a part was projected onto. */
  ghost predicate IsPartOf(part: Projection, lot: Allocation) {
    part.source == Some(lot) && part.linkedRun == lot.run
  }

  /** A part of `whole` by `weight` out of `weights`: cross-multiplied, so that it also covers weights of nothing. */
  predicate Proportional(part: real, whole: real, weight: real, weights: real) {
    if weights > 0.0 then part * weights == whole * weight else part == 0.0 && whole == 0.0
  }

  /** The lots in the order of the parts. */
  ghost predicate LotsOf(parts: seq<Projection>, lots: seq<Allocation>) {
    |lots| == |parts| && forall i | 0 <= i < |lots| :: IsPartOf(parts[i], lots[i])
  }

  /**
   * Every lot gets one part, in the order of the runs: of the wet mass in proportion to the
   * wet mass it supplied, and of a known dry mass in proportion to the dry mass it supplied.
   */
  lemma LotsGetTheirShares(application: Application, allocations: seq<Allocation>, le: (string, string) -> bool)
      returns (lots: seq<Allocation>)
    requires TotalOrder(le) && allocations != [] && SplitApplication(application, allocations, le).Ok?
    ensures
      var parts := SplitApplication(application, allocations, le).value;
      && multiset(lots) == multiset(allocations) && LotsOf(parts, lots)
      && (forall i, j | 0 <= i < j < |lots| :: le(lots[i].run, lots[j].run))
      && (forall i | 0 <= i < |lots| ::
            Proportional(parts[i].wetTons, application.wetTons, lots[i].wetKg, Sum(Wets(lots))))
      && (application.dryTons.Some? ==>
            forall i | 0 <= i < |lots| :: parts[i].dryTons.Some?
              && Proportional(parts[i].dryTons.value, application.dryTons.value, lots[i].dryKg, Sum(Dries(lots))))
  {
    lots := SortBy(allocations, RunOf(), le);
    SortBySorts(allocations, RunOf(), le);
    assert |multiset(lots)| == |lots|;
    hide SortBy;
    ShareIsProportional(application.wetTons, Wets(lots));
    if application.dryTons.Some? {
      ShareIsProportional(application.dryTons.value, Dries(lots));
    }
    hide Share, Shares, Proportional, Sum;
    var wet, dry := Shares(Some(application.wetTons), Wets(lots)), Shares(application.dryTons, Dries(lots));
    var parts := SplitApplication(application, allocations, le).value;
    forall i | 0 <= i < |lots|
      ensures parts[i] == Projection(wet.value[i].value, dry.value[i], lots[i].run, Some(lots[i]))
      ensures Wets(lots)[i] == lots[i].wetKg && Dries(lots)[i] == lots[i].dryKg
    {
    }
    hide SplitApplication, Wets, Dries;
  }

  lemma ShareIsProportional(mass: real, weights: seq<real>)
    ensures Shares(Some(mass), weights).Ok? ==>
      var shares := Shares(Some(mass), weights).value;
      |shares| == |weights| && forall i | 0 <= i < |shares| ::
        shares[i].Some? && Proportional(shares[i].value, mass, weights[i], Sum(weights))
    ensures Shares(None, weights).Ok? && |Shares(None, weights).value| == |weights|
  {
    var whole := Sum(weights);
    if whole > 0.0 {
      forall i | 0 <= i < |weights|
        ensures Share(mass, weights[i], whole) * whole == mass * weights[i]
      {
        assert weights[i] / whole * whole == weights[i];
      }
    }
  }

  /** With distinct runs the input order does not show. */
  lemma ProjectionIgnoresOrder(
      application: Application, a: seq<Allocation>, b: seq<Allocation>, le: (string, string) -> bool)
    requires TotalOrder(le) && multiset(a) == multiset(b)
    requires forall i, j | 0 <= i < j < |a| :: a[i].run != a[j].run
    ensures SplitApplication(application, a, le) == SplitApplication(application, b, le)
  {
    assert KeysTellApart(a, RunOf());
    SortIsNormalForm(a, b, RunOf(), le);
    assert |multiset(a)| == |a| && |multiset(b)| == |b|;
  }
}
