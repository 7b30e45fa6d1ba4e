/**
 * Dividing a withdrawal over deliveries, to the gram (`src/lib/feedstock-draw-replay.ts`):
 * by largest remainder, or one delivery after the other.
 */
module FeedstockShares {
  import opened Sorting
  import opened FeedstockTimeline

  /** Grams of one delivery: what is left of it, or a part of one withdrawal. */
  datatype Share = Share(delivery: RecordId, grams: int)

  type Shares = seq<Share>

  datatype DrawMethod = Mix | OldestFirst | NewestFirst

  // ---------- Shares ----------

  function Total(shares: Shares): int {
    if shares == [] then 0 else Total(shares[..|shares| - 1]) + shares[|shares| - 1].grams
  }

  /** The index of a delivery, or the length. */
  function IndexOf(shares: Shares, id: RecordId): (i: nat)
    ensures i <= |shares|
    ensures forall k | 0 <= k < i :: shares[k].delivery != id
    ensures i < |shares| ==> shares[i].delivery == id
  {
    if shares == [] || shares[0].delivery == id then 0 else 1 + IndexOf(shares[1..], id)
  }

  predicate Has(shares: Shares, id: RecordId) {
    IndexOf(shares, id) < |shares|
  }

  function Held(shares: Shares, id: RecordId): int {
    if Has(shares, id) then shares[IndexOf(shares, id)].grams else 0
  }

  /** Set one delivery's grams; a new delivery goes last. */
  function Put(shares: Shares, id: RecordId, grams: int): Shares {
    if Has(shares, id) then shares[IndexOf(shares, id) := Share(id, grams)] else shares + [Share(id, grams)]
  }

  /** The shares with something in them. */
  function Positive(shares: Shares): (kept: Shares)
    ensures forall s :: s in kept <==> s in shares && s.grams > 0
  {
    if shares == [] then []
    else
      var last := shares[|shares| - 1];
      Positive(shares[..|shares| - 1]) + (if last.grams > 0 then [last] else [])
  }

  predicate NonNegative(shares: Shares) {
    forall s | s in shares :: s.grams >= 0
  }

  predicate Distinct(shares: Shares) {
    forall i, j | 0 <= i < j < |shares| :: shares[i].delivery != shares[j].delivery
  }

  function Min(a: int, b: int): int {
    if a < b then a else b
  }

  // ---------- Dividing one amount ----------

  /** A delivery's share before the last grams are handed out, and what division left over. */
  function Floor(amount: nat, grams: nat, total: nat): nat
    requires total > 0
  {
    amount * grams / total
  }

  function Remainder(amount: nat, grams: nat, total: nat): nat
    requires total > 0
  {
    amount * grams % total
  }

  function Floors(amount: nat, holdings: Shares, total: nat): (floors: seq<nat>)
    requires NonNegative(holdings) && total > 0
    ensures |floors| == |holdings|
    ensures forall i | 0 <= i < |floors| :: floors[i] == Floor(amount, holdings[i].grams, total)
  {
    seq(|holdings|, i requires 0 <= i < |holdings| => Floor(amount, holdings[i].grams, total))
  }

  function Remainders(amount: nat, holdings: Shares, total: nat): (remainders: seq<nat>)
    requires NonNegative(holdings) && total > 0
    ensures |remainders| == |holdings|
    ensures forall i | 0 <= i < |remainders| :: remainders[i] == Remainder(amount, holdings[i].grams, total)
  {
    seq(|holdings|, i requires 0 <= i < |holdings| => Remainder(amount, holdings[i].grams, total))
  }

  function Sum(xs: seq<nat>): nat {
    if xs == [] then 0 else Sum(xs[..|xs| - 1]) + xs[|xs| - 1]
  }

  datatype Row = Row(remainder: nat, index: nat)

  /** Larger remainder first, then delivery order. */
  predicate Ahead(a: Row, b: Row) {
    a.remainder > b.remainder || (a.remainder == b.remainder && a.index <= b.index)
  }

  function RowsOf(remainders: seq<nat>): (rows: seq<Row>)
    ensures |rows| == |remainders| && forall i | 0 <= i < |rows| :: rows[i] == Row(remainders[i], i)
  {
    seq(|remainders|, i requires 0 <= i < |remainders| => Row(remainders[i], i))
  }

  function Ranked(remainders: seq<nat>): seq<Row> {
    SortBy(RowsOf(remainders), (row: Row) => row, (a: Row, b: Row) => Ahead(a, b))
  }

  predicate Indexed(ranked: seq<Row>, n: nat) {
    forall k | 0 <= k < |ranked| :: ranked[k].index < n
  }

  /** One more gram to each of the first `left` rows. */
  function HandOut(units: seq<nat>, ranked: seq<Row>, left: nat): (given: seq<nat>)
    requires left <= |ranked| && Indexed(ranked, |units|)
    ensures |given| == |units|
  {
    if left == 0 then units
    else
      var before, at := HandOut(units, ranked, left - 1), ranked[left - 1].index;
      before[at := before[at] + 1]
  }

  /** The floors, and what they leave to the largest remainders. */
  function Units(amount: nat, holdings: Shares): (units: seq<nat>)
    requires NonNegative(holdings) && Total(holdings) > 0
    ensures |units| == |holdings|
  {
    var total := Total(holdings);
    var floors, ranked := Floors(amount, holdings, total), Ranked(Remainders(amount, holdings, total));
    RankedIsARanking(Remainders(amount, holdings, total));
    LeftOver(amount, holdings, total);
    HandOut(floors, ranked, amount - Sum(floors))
  }

  /** Largest remainder, in delivery order. */
  function Proportional(amount: nat, holdings: Shares): (shares: Shares)
    requires NonNegative(holdings)
  {
    if Total(holdings) <= 0 then []
    else
      var units := Units(amount, holdings);
      seq(|holdings|, i requires 0 <= i < |holdings| => Share(holdings[i].delivery, units[i]))
  }

  // ---------- Every gram is handed out ----------

  /** What the floors leave is what the remainders add up to, and less than one gram a row. */
  lemma LeftOver(amount: nat, holdings: Shares, total: nat)
    requires NonNegative(holdings) && total > 0 && total == Total(holdings)
    ensures total * (amount - Sum(Floors(amount, holdings, total))) == Sum(Remainders(amount, holdings, total))
    ensures 0 <= amount - Sum(Floors(amount, holdings, total)) <= |holdings|
  {
    var floors, remainders := Sum(Floors(amount, holdings, total)), Sum(Remainders(amount, holdings, total));
    DivisionsAddUp(amount, holdings, total);
    RemaindersAreSmall(Remainders(amount, holdings, total), total);
    LeftBounds(total, amount, floors, remainders, |holdings|);
  }

  lemma LeftBounds(total: nat, amount: nat, floors: nat, remainders: nat, n: nat)
    requires total > 0 && total * floors + remainders == amount * total && remainders <= total * n
    ensures total * (amount - floors) == remainders && 0 <= amount - floors <= n
  {
    Distribute(total, amount, 0 - floors);
    assert total * (amount - floors) == remainders;
    Times(total, amount - floors, -1);
    Times(total, n, amount - floors);
  }

  /** Scaling keeps the order. */
  lemma Times(total: nat, a: int, b: int)
    requires total > 0
    ensures a < b ==> total * a < total * b
    ensures a <= b ==> total * a <= total * b
  {
  }

  lemma {:induction false} DivisionsAddUp(amount: nat, holdings: Shares, total: nat)
    requires NonNegative(holdings) && total > 0
    ensures total * Sum(Floors(amount, holdings, total)) + Sum(Remainders(amount, holdings, total))
            == amount * Total(holdings)
    decreases |holdings|
  {
    if holdings != [] {
      var n := |holdings| - 1;
      var before, last := holdings[..n], holdings[n].grams;
      assert holdings[n] in holdings;
      assert Floors(amount, holdings, total)[..n] == Floors(amount, before, total);
      assert Remainders(amount, holdings, total)[..n] == Remainders(amount, before, total);
      DivisionsAddUp(amount, before, total);
      DivideOne(amount, last, total);
      Distribute(total, Sum(Floors(amount, before, total)), Floor(amount, last, total));
      Distribute(amount, Total(before), last);
    }
  }

  lemma DivideOne(amount: nat, grams: nat, total: nat)
    requires total > 0
    ensures total * Floor(amount, grams, total) + Remainder(amount, grams, total) == amount * grams
    ensures Remainder(amount, grams, total) < total
    ensures amount <= total ==> Floor(amount, grams, total) <= grams
    ensures amount <= total && Remainder(amount, grams, total) > 0 ==> Floor(amount, grams, total) < grams
  {
    var f := Floor(amount, grams, total);
    Times(total, grams, f);
    Times(grams + 1, amount, total);
  }

  lemma Distribute(a: int, b: int, c: int)
    ensures a * (b + c) == a * b + a * c
  {
  }

  lemma {:induction false} RemaindersAreSmall(remainders: seq<nat>, total: nat)
    requires forall r | r in remainders :: r < total
    ensures Sum(remainders) <= total * |remainders|
  {
    if remainders != [] {
      var n := |remainders| - 1;
      assert forall r | r in remainders[..n] :: r in remainders;
      RemaindersAreSmall(remainders[..n], total);
      Distribute(total, n, 1);
      assert remainders[n] in remainders;
    }
  }

  lemma RankedIsARanking(remainders: seq<nat>)
    ensures
      var ranked := Ranked(remainders);
      && |ranked| == |remainders| && Indexed(ranked, |remainders|)
      && multiset(ranked) == multiset(RowsOf(remainders))
      && (forall k, l | 0 <= k < l < |ranked| :: Ahead(ranked[k], ranked[l]))
      && (forall k | 0 <= k < |ranked| :: ranked[k].remainder == remainders[ranked[k].index])
  {
    var rows, ranked := RowsOf(remainders), Ranked(remainders);
    SortBySorts(rows, (row: Row) => row, (a: Row, b: Row) => Ahead(a, b));
    SameLength(ranked, rows);
    forall k | 0 <= k < |ranked|
      ensures ranked[k] in rows
    {
      assert ranked[k] in multiset(ranked);
    }
  }

  /** No row is ranked twice. */
  lemma RankedOnce(remainders: seq<nat>, k: nat, l: nat)
    requires k < l < |Ranked(remainders)|
    ensures Ranked(remainders)[k].index != Ranked(remainders)[l].index
  {
    RankedIsARanking(remainders);
    var rows, ranked := RowsOf(remainders), Ranked(remainders);
    if ranked[k].index == ranked[l].index {
      assert ranked[k] == ranked[l];
      CountedTwice(ranked, k, l);
      AppearsOnce(remainders, ranked[k]);
    }
  }

  lemma CountedTwice<T>(s: seq<T>, k: nat, l: nat)
    requires k < l < |s| && s[k] == s[l]
    ensures multiset(s)[s[k]] >= 2
  {
    assert s == s[..l] + s[l..];
    assert s[k] in s[..l] && s[k] == s[l..][0];
    assert s[k] in multiset(s[..l]) && s[k] in multiset(s[l..]);
  }

  lemma {:induction false} AppearsOnce(remainders: seq<nat>, row: Row)
    ensures multiset(RowsOf(remainders))[row] <= 1
    ensures row.index >= |remainders| ==> multiset(RowsOf(remainders))[row] == 0
  {
    if remainders != [] {
      var n := |remainders| - 1;
      assert RowsOf(remainders) == RowsOf(remainders[..n]) + [Row(remainders[n], n)];
      AppearsOnce(remainders[..n], row);
    }
  }

  lemma SumUpdate(xs: seq<nat>, i: nat, x: nat)
    requires i < |xs|
    ensures Sum(xs[i := x]) == Sum(xs) - xs[i] + x
  {
    var n := |xs| - 1;
    if i == n {
      assert xs[i := x][..n] == xs[..n];
    } else {
      assert xs[i := x][..n] == xs[..n][i := x];
      SumUpdate(xs[..n], i, x);
    }
  }

  lemma {:induction false} HandOutSum(units: seq<nat>, ranked: seq<Row>, left: nat)
    requires left <= |ranked| && Indexed(ranked, |units|)
    ensures Sum(HandOut(units, ranked, left)) == Sum(units) + left
  {
    if left > 0 {
      HandOutSum(units, ranked, left - 1);
      var before, at := HandOut(units, ranked, left - 1), ranked[left - 1].index;
      SumUpdate(before, at, before[at] + 1);
    }
  }

  predicate GetsGram(ranked: seq<Row>, left: nat, i: nat) {
    exists k :: 0 <= k < left && k < |ranked| && ranked[k].index == i
  }

  /** Each row handed a gram gets exactly one. */
  lemma {:induction false} HandOutOnce(units: seq<nat>, remainders: seq<nat>, left: nat, i: nat)
    requires |units| == |remainders| && left <= |Ranked(remainders)| && Indexed(Ranked(remainders), |units|)
    requires i < |units|
    ensures HandOut(units, Ranked(remainders), left)[i]
            == units[i] + if GetsGram(Ranked(remainders), left, i) then 1 else 0
    decreases left
  {
    hide Ranked;
    if left > 0 {
      var ranked := Ranked(remainders);
      HandOutOnce(units, remainders, left - 1, i);
      forall k | 0 <= k < left - 1
        ensures ranked[k].index != ranked[left - 1].index
      {
        RankedOnce(remainders, k, left - 1);
      }
      assert ranked[left - 1].index == i ==> GetsGram(ranked, left, i);
    }
  }

  function SumRows(rows: seq<Row>): nat {
    if rows == [] then 0 else SumRows(rows[..|rows| - 1]) + rows[|rows| - 1].remainder
  }

  lemma {:induction false} SumWithout(rows: seq<Row>, k: nat)
    requires k < |rows|
    ensures SumRows(rows) == SumRows(rows[..k] + rows[k + 1..]) + rows[k].remainder
    decreases |rows|
  {
    var n := |rows| - 1;
    if k == n {
      assert rows[..k] + rows[k + 1..] == rows[..n];
    } else {
      SumWithout(rows[..n], k);
      assert (rows[..k] + rows[k + 1..])[..n - 1] == rows[..n][..k] + rows[..n][k + 1..];
    }
  }

  lemma {:induction false} SumIgnoresOrder(a: seq<Row>, b: seq<Row>)
    requires multiset(a) == multiset(b)
    ensures SumRows(a) == SumRows(b)
    decreases |a|
  {
    SameLength(a, b);
    if a != [] {
      var n := |a| - 1;
      var last := a[n];
      assert last in multiset(b);
      var k :| 0 <= k < |b| && b[k] == last;
      RemoveAt(a, n);
      RemoveAt(b, k);
      assert a[..n] + a[n + 1..] == a[..n];
      var others := b[..k] + b[k + 1..];
      assert multiset(a[..n]) == multiset(others);
      SumIgnoresOrder(a[..n], others);
      SumWithout(b, k);
    }
  }

  lemma RemoveAt<T>(s: seq<T>, k: nat)
    requires k < |s|
    ensures multiset(s[..k] + s[k + 1..]) == multiset(s) - multiset{s[k]}
  {
    assert s == s[..k] + [s[k]] + s[k + 1..];
  }

  lemma {:induction false} SumOfRows(remainders: seq<nat>)
    ensures SumRows(RowsOf(remainders)) == Sum(remainders)
  {
    if remainders != [] {
      var n := |remainders| - 1;
      assert RowsOf(remainders)[..n] == RowsOf(remainders[..n]);
      SumOfRows(remainders[..n]);
    }
  }

  /** When the rows from `k` on have no remainder, the first `k` carry all of it. */
  lemma {:induction false} SumOfFirst(rows: seq<Row>, k: nat, total: nat)
    requires k <= |rows| && forall i | 0 <= i < |rows| :: rows[i].remainder < total
    requires forall i | k <= i < |rows| :: rows[i].remainder == 0
    ensures SumRows(rows) <= total * k
    decreases |rows|
  {
    if rows != [] {
      var n := |rows| - 1;
      if k == |rows| {
        SumOfFirst(rows[..n], n, total);
        Distribute(total, n, 1);
      } else {
        SumOfFirst(rows[..n], k, total);
      }
    }
  }

  /** Only a delivery with a remainder is handed a gram. */
  lemma HandedHaveRemainders(amount: nat, holdings: Shares, total: nat, k: nat)
    requires NonNegative(holdings) && total > 0 && total == Total(holdings)
    requires
      var remainders := Remainders(amount, holdings, total);
      k < |Ranked(remainders)| && k < amount - Sum(Floors(amount, holdings, total))
    ensures Ranked(Remainders(amount, holdings, total))[k].remainder > 0
  {
    var remainders := Remainders(amount, holdings, total);
    var left := amount - Sum(Floors(amount, holdings, total));
    RankedAreSmall(amount, holdings, total);
    LeftOver(amount, holdings, total);
    RankedIsARanking(remainders);
    assert forall l | k < l < |Ranked(remainders)| :: Ranked(remainders)[l].remainder <= Ranked(remainders)[k].remainder;
    hide *;
    SumIgnoresOrder(Ranked(remainders), RowsOf(remainders));
    SumOfRows(remainders);
    if Ranked(remainders)[k].remainder == 0 {
      SumOfFirst(Ranked(remainders), k, total);
      TooMany(total, k, left, Sum(remainders));
    }
  }

  lemma TooMany(total: nat, k: nat, left: nat, sum: nat)
    requires total > 0 && total * left == sum && sum <= total * k
    ensures left <= k
  {
    Times(total, k, left);
  }

  lemma RankedAreSmall(amount: nat, holdings: Shares, total: nat)
    requires NonNegative(holdings) && total > 0
    ensures forall k | 0 <= k < |Ranked(Remainders(amount, holdings, total))| ::
              Ranked(Remainders(amount, holdings, total))[k].remainder < total
  {
    RankedIsARanking(Remainders(amount, holdings, total));
    hide Ranked;
  }

  /** The largest-remainder shares add up to the amount, and take from no delivery more than it holds. */
  lemma ProportionalFacts(amount: nat, holdings: Shares)
    requires NonNegative(holdings)
    ensures
      var shares := Proportional(amount, holdings);
      && NonNegative(shares)
      && (Total(holdings) <= 0 ==> shares == [])
      && (Total(holdings) > 0 ==>
            && |shares| == |holdings| && Total(shares) == amount
            && forall i | 0 <= i < |shares| ::
                 && shares[i].delivery == holdings[i].delivery
                 && (amount <= Total(holdings) ==> shares[i].grams <= holdings[i].grams))
  {
    if Total(holdings) > 0 {
      UnitsSum(amount, holdings);
      TotalOfUnits(Proportional(amount, holdings), Units(amount, holdings));
      hide Units, NonNegative, Total, Sum;
      forall i | 0 <= i < |holdings| && amount <= Total(holdings)
        ensures Units(amount, holdings)[i] <= holdings[i].grams
      {
        UnitsWithin(amount, holdings, i);
      }
    }
  }

  lemma UnitsSum(amount: nat, holdings: Shares)
    requires NonNegative(holdings) && Total(holdings) > 0
    ensures Sum(Units(amount, holdings)) == amount
  {
    var total := Total(holdings);
    var floors, ranked := Floors(amount, holdings, total), Ranked(Remainders(amount, holdings, total));
    RankedIsARanking(Remainders(amount, holdings, total));
    LeftOver(amount, holdings, total);
    assert Units(amount, holdings) == HandOut(floors, ranked, amount - Sum(floors));
    hide *;
    HandOutSum(floors, ranked, amount - Sum(floors));
  }

  lemma {:induction false} UnitsWithin(amount: nat, holdings: Shares, i: nat)
    requires NonNegative(holdings) && Total(holdings) > 0 && amount <= Total(holdings) && i < |holdings|
    ensures Units(amount, holdings)[i] <= holdings[i].grams
  {
    var total := Total(holdings);
    var floors, remainders := Floors(amount, holdings, total), Remainders(amount, holdings, total);
    RankedIsARanking(remainders);
    LeftOver(amount, holdings, total);
    var left := amount - Sum(floors);
    HandOutOnce(floors, remainders, left, i);
    HandedHasRoom(amount, holdings, total, left, i);
  }

  lemma {:induction false} HandedHasRoom(amount: nat, holdings: Shares, total: nat, left: int, i: nat)
    requires NonNegative(holdings) && total > 0 && total == Total(holdings) && amount <= total && i < |holdings|
    requires left == amount - Sum(Floors(amount, holdings, total)) && left >= 0
    ensures Floor(amount, holdings[i].grams, total)
            + (if GetsGram(Ranked(Remainders(amount, holdings, total)), left, i) then 1 else 0) <= holdings[i].grams
  {
    var ranked := Ranked(Remainders(amount, holdings, total));
    assert holdings[i] in holdings;
    DivideOne(amount, holdings[i].grams, total);
    if GetsGram(ranked, left, i) {
      var k :| 0 <= k < left && k < |ranked| && ranked[k].index == i;
      HandedHaveRemainders(amount, holdings, total, k);
      RankedIsARanking(Remainders(amount, holdings, total));
    }
  }

  lemma {:induction false} TotalOfUnits(shares: Shares, units: seq<nat>)
    requires |shares| == |units| && forall i | 0 <= i < |units| :: shares[i].grams == units[i]
    ensures Total(shares) == Sum(units) && NonNegative(shares)
  {
    if units != [] {
      var n := |units| - 1;
      TotalOfUnits(shares[..n], units[..n]);
    }
  }

  // ---------- What largest remainder means ----------

  /** By how much, counted in parts of a gram of which `total` make one, a share is short of its exact one. */
  function Short(amount: int, total: int, held: int, given: int): int {
    amount * held - total * given
  }

  /** Two shares of one amount: each within a gram of its exact share, and the larger remainder, or else the earlier delivery, is rounded up first. */
  predicate FairBetween(amount: int, total: int, i: nat, heldI: int, givenI: int, j: nat, heldJ: int, givenJ: int) {
    var a, b := Short(amount, total, heldI, givenI), Short(amount, total, heldJ, givenJ);
    && -total < a < total && -total < b < total
    && (b - a < total || (b - a == total && i < j)) && (a - b < total || (a - b == total && j < i))
  }

  lemma RankedCovers(remainders: seq<nat>, j: nat) returns (l: nat)
    requires j < |remainders|
    ensures l < |Ranked(remainders)| && Ranked(remainders)[l] == Row(remainders[j], j)
  {
    RankedIsARanking(remainders);
    var row := RowsOf(remainders)[j];
    assert row in multiset(RowsOf(remainders));
    l :| 0 <= l < |Ranked(remainders)| && Ranked(remainders)[l] == row;
  }

  /** A delivery that is handed a gram has the larger remainder, or is earlier, than one that is not. */
  lemma HandedIsAhead(remainders: seq<nat>, left: nat, i: nat, j: nat)
    requires i < |remainders| && j < |remainders|
    requires GetsGram(Ranked(remainders), left, i) && !GetsGram(Ranked(remainders), left, j)
    ensures remainders[i] > remainders[j] || (remainders[i] == remainders[j] && i < j)
  {
    RankedIsARanking(remainders);
    var l := RankedCovers(remainders, j);
    hide Ranked;
    var k :| 0 <= k < left && k < |Ranked(remainders)| && Ranked(remainders)[k].index == i;
    assert l >= left;
    assert Ahead(Ranked(remainders)[k], Ranked(remainders)[l]);
  }

  /** How short a floor is with and without one more gram. */
  lemma ShortOfFloor(amount: nat, total: nat, held: nat, more: nat)
    requires total > 0
    ensures Short(amount, total, held, Floor(amount, held, total) + more)
            == Remainder(amount, held, total) - total * more
  {
    DivideOne(amount, held, total);
    Distribute(total, Floor(amount, held, total), more);
  }

  lemma UnitIsShort(amount: nat, holdings: Shares, i: nat) returns (handed: bool)
    requires NonNegative(holdings) && Total(holdings) > 0 && i < |holdings|
    ensures
      var total, remainders := Total(holdings), Remainders(amount, holdings, Total(holdings));
      && amount - Sum(Floors(amount, holdings, total)) >= 0
      && handed == GetsGram(Ranked(remainders), amount - Sum(Floors(amount, holdings, total)), i)
      && remainders[i] < total && (handed ==> remainders[i] > 0)
      && Short(amount, total, holdings[i].grams, Units(amount, holdings)[i]) == remainders[i] - if handed then total else 0
  {
    var total := Total(holdings);
    var floors, remainders := Floors(amount, holdings, total), Remainders(amount, holdings, total);
    RankedIsARanking(remainders);
    LeftOver(amount, holdings, total);
    var left := amount - Sum(floors);
    handed := GetsGram(Ranked(remainders), left, i);
    if handed {
      HandedRemains(amount, holdings, total, left, i);
    }
    HandOutOnce(floors, remainders, left, i);
    assert Units(amount, holdings)[i] == floors[i] + if handed then 1 else 0;
    assert holdings[i] in holdings && holdings[i].grams >= 0;
    assert remainders[i] == Remainder(amount, holdings[i].grams, total) && remainders[i] < total;
    hide *;
    ShortOfFloor(amount, total, holdings[i].grams, if handed then 1 else 0);
  }

  lemma {:induction false} HandedRemains(amount: nat, holdings: Shares, total: nat, left: int, i: nat)
    requires NonNegative(holdings) && total > 0 && total == Total(holdings) && i < |holdings|
    requires left == amount - Sum(Floors(amount, holdings, total)) && left >= 0
    requires GetsGram(Ranked(Remainders(amount, holdings, total)), left, i)
    ensures Remainders(amount, holdings, total)[i] > 0
  {
    var ranked := Ranked(Remainders(amount, holdings, total));
    RankedIsARanking(Remainders(amount, holdings, total));
    var k :| 0 <= k < left && k < |ranked| && ranked[k].index == i;
    HandedHaveRemainders(amount, holdings, total, k);
  }

  /** Every share is its exact part of the amount to within a gram, and the grams left over go to the largest remainders. */
  lemma ProportionalIsFair(amount: nat, holdings: Shares, i: nat, j: nat)
    requires NonNegative(holdings) && Total(holdings) > 0 && i < |holdings| && j < |holdings|
    ensures |Proportional(amount, holdings)| == |holdings|
    ensures FairBetween(amount, Total(holdings), i, holdings[i].grams, Proportional(amount, holdings)[i].grams,
                        j, holdings[j].grams, Proportional(amount, holdings)[j].grams)
  {
    assert Proportional(amount, holdings)[i].grams == Units(amount, holdings)[i];
    assert Proportional(amount, holdings)[j].grams == Units(amount, holdings)[j];
    hide *;
    UnitsAreFair(amount, holdings, i, j);
  }

  lemma UnitsAreFair(amount: nat, holdings: Shares, i: nat, j: nat)
    requires NonNegative(holdings) && Total(holdings) > 0 && i < |holdings| && j < |holdings|
    ensures FairBetween(amount, Total(holdings), i, holdings[i].grams, Units(amount, holdings)[i],
                        j, holdings[j].grams, Units(amount, holdings)[j])
  {
    hide *;
    var total := Total(holdings);
    var remainders := Remainders(amount, holdings, total);
    var handedI := UnitIsShort(amount, holdings, i);
    var handedJ := UnitIsShort(amount, holdings, j);
    var left := amount - Sum(Floors(amount, holdings, total));
    if handedI && !handedJ {
      HandedIsAhead(remainders, left, i, j);
    }
    if handedJ && !handedI {
      HandedIsAhead(remainders, left, j, i);
    }
    FairFromRemainders(amount, total, i, holdings[i].grams, Units(amount, holdings)[i], remainders[i], handedI,
                       j, holdings[j].grams, Units(amount, holdings)[j], remainders[j], handedJ);
  }

  lemma FairFromRemainders(
      amount: int, total: int, i: nat, heldI: int, givenI: int, remainderI: nat, handedI: bool,
      j: nat, heldJ: int, givenJ: int, remainderJ: nat, handedJ: bool)
    requires Short(amount, total, heldI, givenI) == remainderI - (if handedI then total else 0) && remainderI < total
    requires Short(amount, total, heldJ, givenJ) == remainderJ - (if handedJ then total else 0) && remainderJ < total
    requires handedI && !handedJ ==> remainderI > remainderJ || (remainderI == remainderJ && i < j)
    requires handedJ && !handedI ==> remainderJ > remainderI || (remainderJ == remainderI && j < i)
    requires handedI ==> remainderI > 0
    requires handedJ ==> remainderJ > 0
    ensures FairBetween(amount, total, i, heldI, givenI, j, heldJ, givenJ)
  {
    hide Short;
  }

  // ---------- Drawing from deliveries ----------

  function Reversed(shares: Shares): Shares {
    if shares == [] then [] else [shares[|shares| - 1]] + Reversed(shares[..|shares| - 1])
  }

  /** Use up one delivery after the other. */
  function OneByOne(left: nat, present: Shares): Shares
    requires NonNegative(present)
  {
    if present == [] then []
    else
      assert present[0] in present;
      var taken := Min(left, present[0].grams);
      (if taken > 0 then [Share(present[0].delivery, taken)] else []) + OneByOne(left - taken, present[1..])
  }

  function DrawShares(amount: nat, present: Shares, how: DrawMethod): Shares
    requires NonNegative(present)
  {
    match how
    case Mix => Proportional(amount, present)
    case OldestFirst => OneByOne(amount, present)
    case NewestFirst => ReversedMembers(present); OneByOne(amount, Reversed(present))
  }

  lemma {:induction false} ReversedMembers(shares: Shares)
    ensures |Reversed(shares)| == |shares| && Total(Reversed(shares)) == Total(shares)
    ensures forall s :: s in Reversed(shares) <==> s in shares
    ensures Distinct(shares) ==> Distinct(Reversed(shares))
  {
    if shares != [] {
      var n := |shares| - 1;
      ReversedMembers(shares[..n]);
      assert shares == shares[..n] + [shares[n]];
      TotalOfSum([shares[n]], Reversed(shares[..n]));
      assert [shares[n]][..0] == [];
      assert Distinct(shares) ==> forall s | s in shares[..n] :: s.delivery != shares[n].delivery;
    }
  }

  lemma {:induction false} TotalOfSum(a: Shares, b: Shares)
    ensures Total(a + b) == Total(a) + Total(b)
    decreases |b|
  {
    if b == [] {
      assert a + b == a;
    } else {
      var n := |b| - 1;
      assert (a + b)[..|a + b| - 1] == a + b[..n];
      TotalOfSum(a, b[..n]);
    }
  }

  /** Parts of what is present: no delivery twice, none beyond what it holds. */
  ghost predicate PartsOf(parts: Shares, present: Shares) {
    && Distinct(parts) && NonNegative(parts)
    && forall s | s in parts :: exists p | p in present :: p.delivery == s.delivery && s.grams <= p.grams
  }

  lemma {:induction false} OneByOneTakesAll(left: nat, present: Shares)
    requires NonNegative(present) && left <= Total(present)
    ensures Total(OneByOne(left, present)) == left
    decreases |present|
  {
    if present != [] {
      hide NonNegative, Total;
      var first, rest := present[0], present[1..];
      RestIsNonNegative(present);
      TotalPrepend(first, rest);
      assert present == [first] + rest;
      NothingDrawn(left, rest);
      var taken := Min(left, first.grams);
      OneByOneTakesAll(left - taken, rest);
      TotalPrepend(Share(first.delivery, taken), OneByOne(left - taken, rest));
      assert [] + OneByOne(left - taken, rest) == OneByOne(left - taken, rest);
    }
  }

  lemma RestIsNonNegative(present: Shares)
    requires present != [] && NonNegative(present)
    ensures NonNegative(present[1..]) && present[0].grams >= 0
  {
    assert present[0] in present && forall p | p in present[1..] :: p in present;
  }

  lemma RestIsDistinct(present: Shares)
    requires present != [] && Distinct(present)
    ensures Distinct(present[1..]) && forall p | p in present[1..] :: p.delivery != present[0].delivery
  {
  }

  lemma TotalPrepend(share: Share, shares: Shares)
    ensures Total([share] + shares) == share.grams + Total(shares)
  {
    TotalOfSum([share], shares);
    TotalOfOne(share);
  }

  lemma TotalOfOne(share: Share)
    ensures Total([share]) == share.grams
  {
    assert [share][..0] == [];
  }

  lemma {:induction false} OneByOneIsPart(left: nat, present: Shares)
    requires NonNegative(present) && Distinct(present)
    ensures PartsOf(OneByOne(left, present), present)
    decreases |present|
  {
    if present != [] {
      hide NonNegative, Distinct, PartsOf;
      var first, rest := present[0], present[1..];
      RestIsNonNegative(present);
      RestIsDistinct(present);
      var taken := Min(left, first.grams);
      OneByOneIsPart(left - taken, rest);
      OnePartMore(first, taken, rest, OneByOne(left - taken, rest));
      assert present == [first] + rest;
    } else {
      NothingIsPart(present);
    }
  }

  lemma NothingIsPart(present: Shares)
    ensures PartsOf([], present)
  {
  }

  lemma OnePartMore(first: Share, taken: int, rest: Shares, later: Shares)
    requires PartsOf(later, rest) && taken <= first.grams && forall p | p in rest :: p.delivery != first.delivery
    ensures PartsOf((if taken > 0 then [Share(first.delivery, taken)] else []) + later, [first] + rest)
  {
    var all := (if taken > 0 then [Share(first.delivery, taken)] else []) + later;
    forall s | s in all
      ensures exists p | p in [first] + rest :: p.delivery == s.delivery && s.grams <= p.grams
    {
      if s in later {
        var p :| p in rest && p.delivery == s.delivery && s.grams <= p.grams;
        assert p in [first] + rest;
      } else {
        assert first in [first] + rest;
      }
    }
    forall s | s in later
      ensures s.delivery != first.delivery
    {
      var p :| p in rest && p.delivery == s.delivery;
    }
  }

  lemma {:induction false} NothingDrawn(left: nat, present: Shares)
    requires NonNegative(present)
    ensures left == 0 ==> OneByOne(left, present) == []
    ensures Total(present) >= 0
    decreases |present|
  {
    if present != [] {
      assert forall p | p in present[1..] :: p in present;
      assert present[0] in present;
      NothingDrawn(left, present[1..]);
      assert present == [present[0]] + present[1..];
      TotalOfSum([present[0]], present[1..]);
      TotalOfOne(present[0]);
    }
  }

  /** Whatever the method, a draw of what is there takes exactly the amount, from no delivery more than it holds. */
  lemma DrawSharesConserve(amount: nat, present: Shares, how: DrawMethod)
    requires NonNegative(present) && Distinct(present) && amount <= Total(present)
    ensures Total(DrawShares(amount, present, how)) == amount
    ensures PartsOf(DrawShares(amount, present, how), present)
  {
    hide NonNegative, Distinct, PartsOf, Total, Proportional, OneByOne, Reversed;
    match how
    case Mix => ProportionalIsPart(amount, present);
    case OldestFirst =>
      OneByOneTakesAll(amount, present);
      OneByOneIsPart(amount, present);
    case NewestFirst =>
      ReversedMembers(present);
      ReversedIsNonNegative(present);
      OneByOneTakesAll(amount, Reversed(present));
      OneByOneIsPart(amount, Reversed(present));
      SamePresent(OneByOne(amount, Reversed(present)), Reversed(present), present);
  }

  lemma ReversedIsNonNegative(present: Shares)
    requires NonNegative(present)
    ensures NonNegative(Reversed(present))
  {
    ReversedMembers(present);
  }

  lemma SamePresent(parts: Shares, a: Shares, b: Shares)
    requires PartsOf(parts, a) && forall s :: s in a <==> s in b
    ensures PartsOf(parts, b)
  {
    forall s | s in parts
      ensures exists p | p in b :: p.delivery == s.delivery && s.grams <= p.grams
    {
      var p :| p in a && p.delivery == s.delivery && s.grams <= p.grams;
      assert p in b;
    }
  }

  lemma ProportionalIsPart(amount: nat, present: Shares)
    requires NonNegative(present) && Distinct(present) && amount <= Total(present)
    ensures Total(Proportional(amount, present)) == amount
    ensures PartsOf(Proportional(amount, present), present)
  {
    ProportionalFacts(amount, present);
    hide Proportional, NonNegative;
    var shares := Proportional(amount, present);
    forall s | s in shares
      ensures exists p | p in present :: p.delivery == s.delivery && s.grams <= p.grams
    {
      var i :| 0 <= i < |shares| && shares[i] == s;
      assert present[i] in present;
    }
  }

  // ---------- Which deliveries a draw takes from ----------

  /** Of two deliveries the one used first gives all it holds before the other gives anything. */
  predicate UsedFirst(shares: Shares, first: Share, other: Share) {
    Held(shares, other.delivery) > 0 ==> Held(shares, first.delivery) == first.grams
  }

  lemma HeldPrepend(share: Share, rest: Shares, id: RecordId)
    ensures Held([share] + rest, id) == if id == share.delivery then share.grams else Held(rest, id)
  {
    assert ([share] + rest)[1..] == rest;
  }

  lemma UntouchedIsNotHeld(shares: Shares, id: RecordId)
    requires Untouched(shares, id)
    ensures Held(shares, id) == 0
  {
  }

  lemma LaterNeverFirst(left: nat, present: Shares)
    requires present != [] && NonNegative(present) && Distinct(present)
    ensures NonNegative(present[1..]) && Distinct(present[1..])
    ensures Held(OneByOne(left, present[1..]), present[0].delivery) == 0
  {
    RestIsNonNegative(present);
    RestIsDistinct(present);
    OneByOneIsPart(left, present[1..]);
    UntouchedIsNotHeld(OneByOne(left, present[1..]), present[0].delivery);
  }

  /** What the first delivery gives, and what is left to the others. */
  lemma FirstIsUsed(left: nat, present: Shares)
    requires present != [] && NonNegative(present) && Distinct(present)
    ensures NonNegative(present[1..]) && Distinct(present[1..]) && present[0].grams >= 0
    ensures
      var first, taken := present[0], Min(left, present[0].grams);
      var shares, later := OneByOne(left, present), OneByOne(left - taken, present[1..]);
      && Held(shares, first.delivery) == taken
      && forall p | p in present[1..] :: p.delivery != first.delivery && Held(shares, p.delivery) == Held(later, p.delivery)
  {
    RestIsNonNegative(present);
    RestIsDistinct(present);
    var first, taken := present[0], Min(left, present[0].grams);
    var later := OneByOne(left - taken, present[1..]);
    LaterNeverFirst(left - taken, present);
    hide Held, NonNegative, Distinct;
    if taken > 0 {
      HeldPrepend(Share(first.delivery, taken), later, first.delivery);
      forall p | p in present[1..]
        ensures Held(OneByOne(left, present), p.delivery) == Held(later, p.delivery)
      {
        HeldPrepend(Share(first.delivery, taken), later, p.delivery);
      }
    } else {
      assert [] + later == later;
    }
  }

  lemma {:induction false} OneByOneInOrder(left: nat, present: Shares, i: nat, j: nat)
    requires NonNegative(present) && Distinct(present) && i < j < |present|
    ensures UsedFirst(OneByOne(left, present), present[i], present[j])
    decreases |present|
  {
    hide OneByOne, Held, NonNegative, Distinct;
    FirstIsUsed(left, present);
    var taken := Min(left, present[0].grams);
    var rest := present[1..];
    assert present[j] == rest[j - 1] && rest[j - 1] in rest;
    if i > 0 {
      assert present[i] == rest[i - 1] && rest[i - 1] in rest;
      OneByOneInOrder(left - taken, rest, i - 1, j - 1);
    } else if taken < present[0].grams {
      NothingDrawn(0, rest);
      UntouchedIsNotHeld([], present[j].delivery);
    }
  }

  lemma {:induction false} ReversedAt(shares: Shares, k: nat)
    requires k < |shares|
    ensures |Reversed(shares)| == |shares| && Reversed(shares)[k] == shares[|shares| - 1 - k]
    decreases |shares|
  {
    ReversedMembers(shares);
    if k > 0 {
      ReversedAt(shares[..|shares| - 1], k - 1);
    }
  }

  /**
   * Oldest first uses up each delivery before a later one gives anything, newest first before
   * an earlier one does, and a mix takes from every delivery its part of the amount.
   */
  lemma DrawSharesInOrder(amount: nat, present: Shares, how: DrawMethod, i: nat, j: nat)
    requires NonNegative(present) && Distinct(present) && i < j < |present|
    ensures
      var shares := DrawShares(amount, present, how);
      match how
      case OldestFirst => UsedFirst(shares, present[i], present[j])
      case NewestFirst => UsedFirst(shares, present[j], present[i])
      case Mix =>
        Total(present) > 0 ==>
          FairBetween(amount, Total(present), i, present[i].grams, Held(shares, present[i].delivery),
                      j, present[j].grams, Held(shares, present[j].delivery))
  {
    hide OneByOne, Reversed, Proportional, Total, Held, UsedFirst, FairBetween;
    match how
    case OldestFirst => OneByOneInOrder(amount, present, i, j);
    case NewestFirst =>
      ReversedMembers(present);
      ReversedAt(present, |present| - 1 - i);
      ReversedAt(present, |present| - 1 - j);
      ReversedIsNonNegative(present);
      OneByOneInOrder(amount, Reversed(present), |present| - 1 - j, |present| - 1 - i);
    case Mix =>
      if Total(present) > 0 {
        ProportionalIsFair(amount, present, i, j);
        ProportionalIsHeld(amount, present, i);
        ProportionalIsHeld(amount, present, j);
      }
  }

  lemma ProportionalIsHeld(amount: nat, present: Shares, i: nat)
    requires NonNegative(present) && Distinct(present) && Total(present) > 0 && i < |present|
    ensures |Proportional(amount, present)| == |present|
    ensures Held(Proportional(amount, present), present[i].delivery) == Proportional(amount, present)[i].grams
  {
    ProportionalFacts(amount, present);
    HeldIsUnique(Proportional(amount, present), i);
  }

  // ---------- Changing what deliveries hold ----------

  lemma PutTotal(shares: Shares, id: RecordId, grams: int)
    ensures Total(Put(shares, id, grams)) == Total(shares) - Held(shares, id) + grams
  {
    if Has(shares, id) {
      TotalUpdate(shares, IndexOf(shares, id), Share(id, grams));
    } else {
      TotalOfSum(shares, [Share(id, grams)]);
      TotalOfOne(Share(id, grams));
    }
  }

  lemma PutKeepsShape(shares: Shares, id: RecordId, grams: int)
    requires Distinct(shares)
    ensures Distinct(Put(shares, id, grams))
    ensures NonNegative(shares) && grams >= 0 ==> NonNegative(Put(shares, id, grams))
  {
  }

  lemma PutHeld(shares: Shares, id: RecordId, grams: int, other: RecordId)
    requires Distinct(shares) && other != id
    ensures Held(Put(shares, id, grams), other) == Held(shares, other)
  {
    var put, at := Put(shares, id, grams), IndexOf(shares, other);
    PutKeepsShape(shares, id, grams);
    if at < |shares| {
      HeldIsUnique(put, at);
    }
  }

  lemma HeldIsUnique(shares: Shares, i: nat)
    requires Distinct(shares)
    ensures i < |shares| ==> Held(shares, shares[i].delivery) == shares[i].grams
  {
  }

  lemma {:induction false} TotalUpdate(shares: Shares, i: nat, share: Share)
    requires i < |shares|
    ensures Total(shares[i := share]) == Total(shares) - shares[i].grams + share.grams
    decreases |shares|
  {
    var n := |shares| - 1;
    if i == n {
      assert shares[i := share][..n] == shares[..n];
    } else {
      assert shares[i := share][..n] == shares[..n][i := share];
      TotalUpdate(shares[..n], i, share);
    }
  }

  lemma TotalAppend(shares: Shares, share: Share)
    ensures Total(shares + [share]) == Total(shares) + share.grams
  {
    assert (shares + [share])[..|shares|] == shares;
  }

  lemma KeptOrNot(kept: Shares, last: Share)
    ensures Total(kept + (if last.grams > 0 then [last] else []))
            == Total(kept) + if last.grams > 0 then last.grams else 0
  {
    TotalAppend(kept, last);
    assert kept + [] == kept;
  }

  lemma {:induction false} PositiveTotal(shares: Shares)
    requires NonNegative(shares)
    ensures Total(Positive(shares)) == Total(shares) >= 0
    decreases |shares|
  {
    hide NonNegative;
    if shares != [] {
      var n := |shares| - 1;
      FewerNonNegative(shares);
      PositiveTotal(shares[..n]);
      KeptOrNot(Positive(shares[..n]), shares[n]);
    }
  }

  lemma FewerNonNegative(shares: Shares)
    requires shares != [] && NonNegative(shares)
    ensures NonNegative(shares[..|shares| - 1]) && shares[|shares| - 1].grams >= 0
  {
    assert shares[|shares| - 1] in shares && forall s | s in shares[..|shares| - 1] :: s in shares;
  }

  lemma {:induction false} PositiveIsDistinct(shares: Shares)
    requires Distinct(shares)
    ensures Distinct(Positive(shares))
    decreases |shares|
  {
    if shares != [] {
      var n := |shares| - 1;
      PositiveIsDistinct(shares[..n]);
      assert forall s | s in Positive(shares[..n]) :: s in shares[..n] && s.delivery != shares[n].delivery;
      if shares[n].grams <= 0 {
        assert Positive(shares) == Positive(shares[..n]);
      }
    }
  }

  datatype Charged = Charged(holdings: Shares, deficit: int)

  /** Charge shares as far as their deliveries still hold them and the withdrawal still asks. */
  function Charge(holdings: Shares, shares: Shares, requested: int): Charged {
    if shares == [] then Charged(holdings, requested)
    else ChargeOne(Charge(holdings, shares[..|shares| - 1], requested), shares[|shares| - 1])
  }

  function ChargeOne(before: Charged, share: Share): Charged {
    var held := Held(before.holdings, share.delivery);
    var taken := Min(Min(held, share.grams), before.deficit);
    Charged(if Has(before.holdings, share.delivery) then Put(before.holdings, share.delivery, held - taken)
            else before.holdings,
            before.deficit - taken)
  }

  lemma ChargeOneConserves(before: Charged, share: Share)
    requires NonNegative(before.holdings) && Distinct(before.holdings) && share.grams >= 0 && before.deficit >= 0
    ensures
      var charged := ChargeOne(before, share);
      && NonNegative(charged.holdings) && Distinct(charged.holdings)
      && 0 <= charged.deficit <= before.deficit
      && Total(charged.holdings) - charged.deficit == Total(before.holdings) - before.deficit
  {
    var held := Held(before.holdings, share.delivery);
    assert held >= 0;
    var left := held - Min(Min(held, share.grams), before.deficit);
    PutTotal(before.holdings, share.delivery, left);
    PutKeepsShape(before.holdings, share.delivery, left);
    hide Put, Total, NonNegative, Distinct;
  }

  /** What is charged leaves the deliveries, and nothing else does. */
  lemma {:induction false} ChargeConserves(holdings: Shares, shares: Shares, requested: int)
    requires NonNegative(holdings) && Distinct(holdings) && NonNegative(shares) && requested >= 0
    ensures
      var charged := Charge(holdings, shares, requested);
      && NonNegative(charged.holdings) && Distinct(charged.holdings)
      && 0 <= charged.deficit <= requested
      && Total(charged.holdings) - charged.deficit == Total(holdings) - requested
    decreases |shares|
  {
    hide Distinct, ChargeOne, Total;
    if shares != [] {
      var n := |shares| - 1;
      assert shares[n] in shares && forall s | s in shares[..n] :: s in shares;
      ChargeConserves(holdings, shares[..n], requested);
      ChargeOneConserves(Charge(holdings, shares[..n], requested), shares[n]);
    }
  }

  function MoveOne(holdings: Shares, share: Share, add: bool): Shares {
    Put(holdings, share.delivery, Held(holdings, share.delivery) + if add then share.grams else -share.grams)
  }

  /** Add or remove shares, one delivery after the other. */
  function Move(holdings: Shares, shares: Shares, add: bool): Shares {
    if shares == [] then holdings else MoveOne(Move(holdings, shares[..|shares| - 1], add), shares[|shares| - 1], add)
  }

  lemma MoveOneConserves(holdings: Shares, share: Share, add: bool)
    requires NonNegative(holdings) && Distinct(holdings)
    requires if add then share.grams >= 0 else share.grams <= Held(holdings, share.delivery)
    ensures
      var moved := MoveOne(holdings, share, add);
      && NonNegative(moved) && Distinct(moved)
      && Total(moved) == Total(holdings) + (if add then share.grams else -share.grams)
  {
    var held := Held(holdings, share.delivery);
    var now := held + if add then share.grams else -share.grams;
    assert MoveOne(holdings, share, add) == Put(holdings, share.delivery, now);
    hide *;
    HeldBounds(holdings, share.delivery);
    PutTotal(holdings, share.delivery, now);
    PutKeepsShape(holdings, share.delivery, now);
  }

  lemma {:induction false} AddConserves(holdings: Shares, shares: Shares)
    requires NonNegative(holdings) && Distinct(holdings) && NonNegative(shares)
    ensures
      var moved := Move(holdings, shares, true);
      NonNegative(moved) && Distinct(moved) && Total(moved) == Total(holdings) + Total(shares)
    decreases |shares|
  {
    hide Distinct, MoveOne;
    if shares != [] {
      var n := |shares| - 1;
      assert shares[n] in shares && forall s | s in shares[..n] :: s in shares;
      AddConserves(holdings, shares[..n]);
      MoveOneConserves(Move(holdings, shares[..n], true), shares[n], true);
    }
  }

  /** Removing parts touches only their own deliveries. */
  lemma {:induction false} RemoveConserves(holdings: Shares, shares: Shares)
    requires NonNegative(holdings) && Distinct(holdings) && PartsOf(shares, holdings)
    ensures
      var moved := Move(holdings, shares, false);
      NonNegative(moved) && Distinct(moved) && Total(moved) == Total(holdings) - Total(shares)
    ensures forall id | Untouched(shares, id) :: Held(Move(holdings, shares, false), id) == Held(holdings, id)
    decreases |shares|
  {
    hide Distinct, PartsOf, NonNegative, Put, Held, Untouched;
    if shares != [] {
      var n := |shares| - 1;
      FewerParts(shares, holdings);
      RemoveConserves(holdings, shares[..n]);
      var before, share := Move(holdings, shares[..n], false), shares[n];
      PartIsHeld(holdings, share);
      MoveOneConserves(before, share, false);
      forall id | Untouched(shares, id)
        ensures Held(Move(holdings, shares, false), id) == Held(holdings, id)
      {
        FewerUntouched(shares, id);
        PutHeld(before, share.delivery, Held(before, share.delivery) - share.grams, id);
      }
    }
  }

  lemma FewerUntouched(shares: Shares, id: RecordId)
    requires shares != [] && Untouched(shares, id)
    ensures Untouched(shares[..|shares| - 1], id) && shares[|shares| - 1].delivery != id
  {
  }

  predicate Untouched(shares: Shares, id: RecordId) {
    forall s | s in shares :: s.delivery != id
  }

  lemma FewerParts(shares: Shares, holdings: Shares)
    requires shares != [] && PartsOf(shares, holdings)
    ensures PartsOf(shares[..|shares| - 1], holdings)
    ensures Untouched(shares[..|shares| - 1], shares[|shares| - 1].delivery)
    ensures exists p :: p in holdings && p.delivery == shares[|shares| - 1].delivery && shares[|shares| - 1].grams <= p.grams
  {
    var n := |shares| - 1;
    assert shares[n] in shares && forall s | s in shares[..n] :: s in shares;
  }

  lemma PartIsHeld(holdings: Shares, share: Share)
    requires Distinct(holdings) && exists p :: p in holdings && p.delivery == share.delivery && share.grams <= p.grams
    ensures share.grams <= Held(holdings, share.delivery)
  {
    var i :| 0 <= i < |holdings| && holdings[i].delivery == share.delivery && share.grams <= holdings[i].grams;
    HeldIsUnique(holdings, i);
  }

  // ---------- What each delivery still holds ----------

  /** The same deliveries in the same order. */
  predicate SameDeliveries(a: Shares, b: Shares) {
    |a| == |b| && forall i | 0 <= i < |a| :: a[i].delivery == b[i].delivery
  }

  lemma HeldAppend(shares: Shares, share: Share, id: RecordId)
    requires Untouched(shares, share.delivery)
    ensures Held(shares + [share], id) == if id == share.delivery then share.grams else Held(shares, id)
  {
    var all := shares + [share];
    if id == share.delivery {
      assert all[|shares|] == share;
      assert forall k | 0 <= k < |shares| :: all[k] in shares;
    } else if Has(shares, id) {
      assert all[IndexOf(shares, id)] == shares[IndexOf(shares, id)];
    } else {
      assert forall k | 0 <= k < |shares| :: all[k].delivery != id;
    }
  }

  lemma LastIsHeld(shares: Shares, id: RecordId)
    requires shares != [] && Distinct(shares)
    ensures
      var n := |shares| - 1;
      && Distinct(shares[..n]) && Untouched(shares[..n], shares[n].delivery)
      && Held(shares[..n], shares[n].delivery) == 0
      && Held(shares, id) == if id == shares[n].delivery then shares[n].grams else Held(shares[..n], id)
  {
    var n := |shares| - 1;
    assert shares == shares[..n] + [shares[n]];
    HeldAppend(shares[..n], shares[n], id);
    UntouchedIsNotHeld(shares[..n], shares[n].delivery);
  }

  lemma PutSame(holdings: Shares, id: RecordId, grams: int)
    requires Distinct(holdings) && Has(holdings, id)
    ensures SameDeliveries(holdings, Put(holdings, id, grams)) && Held(Put(holdings, id, grams), id) == grams
  {
    PutKeepsShape(holdings, id, grams);
    HeldIsUnique(Put(holdings, id, grams), IndexOf(holdings, id));
  }

  lemma HeldBounds(holdings: Shares, id: RecordId)
    requires NonNegative(holdings)
    ensures Held(holdings, id) >= 0 && (!Has(holdings, id) ==> Held(holdings, id) == 0)
  {
  }

  /** One charged share takes what its delivery still holds of it. */
  lemma ChargeOneTakes(before: Charged, share: Share, id: RecordId)
    requires NonNegative(before.holdings) && Distinct(before.holdings) && 0 <= share.grams <= before.deficit
    ensures
      var charged := ChargeOne(before, share);
      && SameDeliveries(before.holdings, charged.holdings)
      && charged.deficit >= before.deficit - share.grams
      && (share.grams <= Held(before.holdings, share.delivery) ==> charged.deficit == before.deficit - share.grams)
      && Held(charged.holdings, id)
         == Held(before.holdings, id) - if id == share.delivery then Min(Held(before.holdings, id), share.grams) else 0
  {
    hide Held, Put, NonNegative, Distinct, Has, IndexOf, SameDeliveries;
    var held := Held(before.holdings, share.delivery);
    HeldBounds(before.holdings, share.delivery);
    SameAsItself(before.holdings);
    if Has(before.holdings, share.delivery) {
      PutSame(before.holdings, share.delivery, held - Min(held, share.grams));
      if id != share.delivery {
        PutHeld(before.holdings, share.delivery, held - Min(held, share.grams), id);
      }
    }
  }

  lemma SameAsItself(shares: Shares)
    ensures SameDeliveries(shares, shares)
  {
  }

  predicate AllHeld(holdings: Shares, shares: Shares) {
    forall s | s in shares :: s.grams <= Held(holdings, s.delivery)
  }

  lemma PartsAreHeld(holdings: Shares, shares: Shares)
    requires Distinct(holdings) && PartsOf(shares, holdings)
    ensures AllHeld(holdings, shares)
  {
    forall s | s in shares
      ensures s.grams <= Held(holdings, s.delivery)
    {
      PartIsHeld(holdings, s);
    }
  }

  /** Shares that the withdrawal covers are each charged as far as their delivery holds them. */
  lemma {:induction false} ChargeTakes(holdings: Shares, shares: Shares, requested: int, id: RecordId)
    requires NonNegative(holdings) && Distinct(holdings) && NonNegative(shares) && Distinct(shares)
    requires Total(shares) <= requested && requested >= 0
    ensures
      var charged := Charge(holdings, shares, requested);
      && SameDeliveries(holdings, charged.holdings) && charged.deficit >= requested - Total(shares)
      && (AllHeld(holdings, shares) ==> charged.deficit == requested - Total(shares))
      && Held(charged.holdings, id) == Held(holdings, id) - Min(Held(holdings, id), Held(shares, id))
    decreases |shares|
  {
    HeldBounds(holdings, id);
    if shares == [] {
      UntouchedIsNotHeld(shares, id);
    } else {
      var n := |shares| - 1;
      LastIsHeld(shares, id);
      FewerNonNegative(shares);
      assert shares[n] in shares && forall s | s in shares[..n] :: s in shares;
      assert AllHeld(holdings, shares) ==> AllHeld(holdings, shares[..n]) && shares[n].grams <= Held(holdings, shares[n].delivery);
      hide Held, NonNegative, Distinct, ChargeOne, AllHeld;
      ChargeTakes(holdings, shares[..n], requested, shares[n].delivery);
      ChargeTakes(holdings, shares[..n], requested, id);
      ChargeConserves(holdings, shares[..n], requested);
      ChargeOneTakes(Charge(holdings, shares[..n], requested), shares[n], id);
    }
  }

  lemma PartHeld(holdings: Shares, shares: Shares, id: RecordId)
    requires Distinct(holdings) && NonNegative(holdings) && PartsOf(shares, holdings)
    ensures 0 <= Held(shares, id) <= Held(holdings, id)
    ensures Has(shares, id) ==> Has(holdings, id)
  {
    if Has(shares, id) {
      var share := shares[IndexOf(shares, id)];
      assert share in shares;
      PartIsHeld(holdings, share);
      var p :| p in holdings && p.delivery == id;
    }
    HeldBounds(holdings, id);
  }

  /** Removed parts leave their own deliveries. */
  lemma {:induction false} RemoveTakes(holdings: Shares, shares: Shares, id: RecordId)
    requires NonNegative(holdings) && Distinct(holdings) && PartsOf(shares, holdings)
    ensures
      var moved := Move(holdings, shares, false);
      SameDeliveries(holdings, moved) && Held(moved, id) == Held(holdings, id) - Held(shares, id)
    decreases |shares|
  {
    if shares == [] {
      UntouchedIsNotHeld(shares, id);
    } else {
      var n := |shares| - 1;
      LastIsHeld(shares, id);
      FewerParts(shares, holdings);
      assert shares[n] in shares && Has(shares, shares[n].delivery);
      PartHeld(holdings, shares, shares[n].delivery);
      hide Held, NonNegative, Distinct, PartsOf;
      RemoveTakes(holdings, shares[..n], id);
      RemoveConserves(holdings, shares[..n]);
      MoveOneMoves(Move(holdings, shares[..n], false), holdings, shares[n], false, id);
    }
  }

  lemma MoveOneMoves(before: Shares, holdings: Shares, share: Share, add: bool, id: RecordId)
    requires Distinct(before) && SameDeliveries(holdings, before) && Has(holdings, share.delivery)
    ensures
      var moved, delta := MoveOne(before, share, add), if add then share.grams else -share.grams;
      && SameDeliveries(holdings, moved)
      && Held(moved, id) == Held(before, id) + if id == share.delivery then delta else 0
  {
    assert before[IndexOf(holdings, share.delivery)].delivery == share.delivery;
    var now := Held(before, share.delivery) + if add then share.grams else -share.grams;
    PutSame(before, share.delivery, now);
    if id != share.delivery {
      PutHeld(before, share.delivery, now, id);
    }
  }

  /** Added shares stay with their own deliveries. */
  lemma {:induction false} AddGives(holdings: Shares, shares: Shares, id: RecordId)
    requires NonNegative(holdings) && Distinct(holdings) && NonNegative(shares) && Distinct(shares)
    requires forall s | s in shares :: Has(holdings, s.delivery)
    ensures
      var moved := Move(holdings, shares, true);
      SameDeliveries(holdings, moved) && Held(moved, id) == Held(holdings, id) + Held(shares, id)
    decreases |shares|
  {
    if shares == [] {
      UntouchedIsNotHeld(shares, id);
    } else {
      var n := |shares| - 1;
      LastIsHeld(shares, id);
      FewerNonNegative(shares);
      assert shares[n] in shares && forall s | s in shares[..n] :: s in shares;
      hide Held, NonNegative, Distinct, MoveOne;
      AddGives(holdings, shares[..n], id);
      AddConserves(holdings, shares[..n]);
      MoveOneMoves(Move(holdings, shares[..n], true), holdings, shares[n], true, id);
    }
  }

  /** Shares of no mass give nothing. */
  lemma {:induction false} NothingHasNothing(shares: Shares, id: RecordId)
    requires NonNegative(shares) && Total(shares) == 0
    ensures Held(shares, id) == 0
  {
    if Held(shares, id) > 0 {
      PutTotal(shares, id, 0);
      TotalIsNotNegative(Put(shares, id, 0));
    }
  }

  lemma TotalIsNotNegative(shares: Shares)
    requires NonNegative(shares)
    ensures Total(shares) >= 0
  {
    PositiveTotal(shares);
  }

  /** Two deliveries with something in them keep their order among those present. */
  lemma {:induction false} PresentInOrder(holdings: Shares, i: nat, j: nat) returns (a: nat, b: nat)
    requires i < j < |holdings| && holdings[i].grams > 0 && holdings[j].grams > 0
    ensures a < b < |Positive(holdings)| && Positive(holdings)[a] == holdings[i] && Positive(holdings)[b] == holdings[j]
    decreases |holdings|
  {
    var n := |holdings| - 1;
    if j < n {
      a, b := PresentInOrder(holdings[..n], i, j);
    } else {
      var earlier := Positive(holdings[..n]);
      assert holdings[..n][i] in holdings[..n];
      assert Positive(holdings) == earlier + [holdings[n]];
      hide Positive;
      a :| 0 <= a < |earlier| && earlier[a] == holdings[i];
      b := |earlier|;
    }
  }
}
