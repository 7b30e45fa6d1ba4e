/**
 * The lock order shared by application writes, product deletions, bin losses and stock-takes
 * (`application-write-scope.ts`, `biochar-product-delete.ts`, `bin-movements.ts`,
 * `lock-bin-stocks.ts`, `feedstock-run-allocations.ts` in `src/data-access`), which of these
 * writers keep it, and why those never deadlock. `LockRetries` has the others.
 */
module LockOrder {
  import opened Outcomes

  /** Identifiers by their place in the string order. */
  type Id = nat
  type TxId = nat

  datatype Rank =
    Topology | RequestKey | Bin | Artifact | Facility | Product | RunRow | Batch | Delivery | Application | Slice | TransportOwner

  datatype Mode = Share | Update

  datatype Resource = Resource(rank: Rank, id: Id)

  datatype Request = Request(resource: Resource, mode: Mode)

  function Place(rank: Rank): nat {
    match rank
    case Topology => 0
    case RequestKey => 1
    case Bin => 2
    case Artifact => 3
    case Facility => 4
    case Product => 5
    case RunRow => 6
    case Batch => 7
    case Delivery => 8
    case Application => 9
    case Slice => 10
    case TransportOwner => 11
  }

  predicate Before(a: Resource, b: Resource) {
    Place(a.rank) < Place(b.rank) || (a.rank == b.rank && a.id < b.id)
  }

  // ---------- Sorted sets of identifiers ----------

  predicate StrictlyUp(ids: seq<Id>) {
    forall i, j | 0 <= i < j < |ids| :: ids[i] < ids[j]
  }

  function InsertId(ids: seq<Id>, id: Id): (r: seq<Id>)
    requires StrictlyUp(ids)
    ensures StrictlyUp(r) && forall x :: x in r <==> x in ids || x == id
  {
    if ids == [] then [id]
    else if id < ids[0] then [id] + ids
    else if id == ids[0] then ids
    else
      var rest := InsertId(ids[1..], id);
      PrependStaysUp(ids[0], rest);
      [ids[0]] + rest
  }

  lemma PrependStaysUp(first: Id, rest: seq<Id>)
    requires StrictlyUp(rest) && forall x | x in rest :: first < x
    ensures StrictlyUp([first] + rest)
  {
    assert forall j | 0 <= j < |rest| :: rest[j] in rest;
  }

  /** Duplicates dropped, then sorted. */
  function Sorted(ids: seq<Id>): (r: seq<Id>)
    ensures StrictlyUp(r) && forall x :: x in r <==> x in ids
  {
    if ids == [] then [] else InsertId(Sorted(ids[..|ids| - 1]), ids[|ids| - 1])
  }

  /** The order of discovery does not show: the same identifiers sort to the same list. */
  lemma {:induction false} SortedDependsOnMembersOnly(a: seq<Id>, b: seq<Id>)
    requires StrictlyUp(a) && StrictlyUp(b) && forall x :: x in a <==> x in b
    ensures a == b
  {
    hide StrictlyUp;
    assert a != [] ==> a[0] in b;
    assert b != [] ==> b[0] in a;
    if a != [] && b != [] {
      SplitFirst(a);
      SplitFirst(b);
      SortedDependsOnMembersOnly(a[1..], b[1..]);
      assert a == [a[0]] + a[1..] && b == [b[0]] + b[1..];
    }
  }

  lemma SplitFirst(ids: seq<Id>)
    requires ids != [] && StrictlyUp(ids)
    ensures StrictlyUp(ids[1..]) && forall x | x in ids :: ids[0] <= x
    ensures forall x :: x in ids[1..] <==> x in ids && x != ids[0]
  {
    assert ids == [ids[0]] + ids[1..];
    assert forall i | 0 < i < |ids| :: ids[0] < ids[i];
  }

  // ---------- What each writer locks ----------

  /** One rank's rows, in the order of their identifiers. */
  function Rows(rank: Rank, mode: Mode, ids: seq<Id>): (plan: seq<Request>)
    ensures |plan| == |ids| && forall i | 0 <= i < |ids| :: plan[i] == Request(Resource(rank, ids[i]), mode)
  {
    seq(|ids|, i requires 0 <= i < |ids| => Request(Resource(rank, ids[i]), mode))
  }

  function Present(ids: seq<Option<Id>>): (present: seq<Id>)
    ensures |present| <= |ids| && forall x :: x in present <==> Some(x) in ids
  {
    if ids == [] then []
    else if ids[0].Some? then [ids[0].value] + Present(ids[1..]) else Present(ids[1..])
  }

  /** One statement of a writer: the rows of one rank, in one mode. */
  datatype Group = Group(rank: Rank, mode: Mode, ids: seq<Id>)

  function PlanOf(groups: seq<Group>): seq<Request> {
    if groups == [] then []
    else
      var last := groups[|groups| - 1];
      PlanOf(groups[..|groups| - 1]) + Rows(last.rank, last.mode, last.ids)
  }

  /**
   * Every feedstock write ends by rebuilding the allocations of later runs: it asks for the
   * bins it changed again, then for every bin those runs draw from, for the runs, and for
   * the transport owners of their deliveries. What it finds is known only then.
   */
  datatype Rebuild = Rebuild(drawBins: seq<Id>, runs: seq<Id>, owners: seq<Id>)

  function RebuildPlan(bins: seq<Id>, found: Rebuild): seq<Request> {
    if bins == [] then []
    else
      Rows(Bin, Update, Sorted(bins)) + Rows(Bin, Update, Sorted(found.drawBins))
      + Rows(RunRow, Update, Sorted(found.runs)) + Rows(TransportOwner, Update, Sorted(found.owners))
  }

  datatype Writer =
    | ApplicationWrite(
        artifacts: seq<Id>, facilities: seq<Id>, runs: seq<Id>, batches: seq<Id>, deliveries: seq<Id>,
        application: Option<Id>, slices: seq<Id>)
    | ProductDelete(
        organization: Id, requestKey: Id, bins: seq<Option<Id>>, ingredientBins: seq<Option<Id>>,
        artifacts: seq<Id>, facility: Id, product: Id, found: Rebuild)
    | Loss(requestKey: Id, bin: Id, found: Rebuild)
    | StockTake(bin: Id, found: Rebuild)

  /** What a writer locks before it writes. */
  function Statements(w: Writer): seq<Group> {
    match w
    case ApplicationWrite(artifacts, facilities, runs, batches, deliveries, application, slices) =>
      [Group(Artifact, Update, Sorted(artifacts)), Group(Facility, Share, Sorted(facilities)),
       Group(RunRow, Share, Sorted(runs)), Group(Batch, Share, Sorted(batches)), Group(Delivery, Update, Sorted(deliveries)),
       Group(Application, Update, Present([application])), Group(Slice, Update, Sorted(slices))]
    case ProductDelete(organization, requestKey, bins, ingredientBins, artifacts, facility, product, _) =>
      [Group(Topology, Update, [organization]), Group(RequestKey, Update, [requestKey]),
       Group(Bin, Update, Sorted(Present(bins + ingredientBins))), Group(Artifact, Update, Sorted(artifacts)),
       Group(Facility, Share, [facility]), Group(Product, Update, [product])]
    case Loss(requestKey, bin, _) => [Group(RequestKey, Update, [requestKey]), Group(Bin, Update, [bin])]
    case StockTake(bin, _) => [Group(Bin, Update, [bin])]
  }

  /** The feedstock bins a writer changes. */
  function ChangedBins(w: Writer): seq<Id> {
    match w
    case ApplicationWrite(_, _, _, _, _, _, _) => []
    case ProductDelete(_, _, _, ingredientBins, _, _, _, _) => Present(ingredientBins)
    case Loss(_, bin, _) => [bin]
    case StockTake(bin, _) => [bin]
  }

  /** Every lock a writer asks for, in order. */
  function LockPlan(w: Writer): seq<Request> {
    PlanOf(Statements(w)) + if w.ApplicationWrite? then [] else RebuildPlan(ChangedBins(w), w.found)
  }

  /** The rows a writer needs to start, whatever the order: exclusive, but for rows it only reads. */
  predicate NeedsRow(w: Writer, rank: Rank, mode: Mode, id: Id) {
    match w
    case ApplicationWrite(artifacts, facilities, runs, batches, deliveries, application, slices) =>
      || (rank.Artifact? && mode.Update? && id in artifacts)
      || (rank.Facility? && mode.Share? && id in facilities)
      || (rank.RunRow? && mode.Share? && id in runs)
      || (rank.Batch? && mode.Share? && id in batches)
      || (rank.Delivery? && mode.Update? && id in deliveries)
      || (rank.Application? && mode.Update? && application == Some(id))
      || (rank.Slice? && mode.Update? && id in slices)
    case ProductDelete(organization, requestKey, bins, ingredientBins, artifacts, facility, product, _) =>
      || (rank.Topology? && mode.Update? && id == organization)
      || (rank.RequestKey? && mode.Update? && id == requestKey)
      || (rank.Bin? && mode.Update? && (Some(id) in bins || Some(id) in ingredientBins))
      || (rank.Artifact? && mode.Update? && id in artifacts)
      || (rank.Facility? && mode.Share? && id == facility)
      || (rank.Product? && mode.Update? && id == product)
    case Loss(requestKey, bin, _) =>
      (rank.RequestKey? && mode.Update? && id == requestKey) || (rank.Bin? && mode.Update? && id == bin)
    case StockTake(bin, _) => rank.Bin? && mode.Update? && id == bin
  }

  /** The rows its rebuild needs beside the bins it changed, if it changed any. */
  ghost predicate RebuildNeedsRow(w: Writer, rank: Rank, mode: Mode, id: Id) {
    && !w.ApplicationWrite? && (w.ProductDelete? ==> exists bin :: Some(bin) in w.ingredientBins)
    && mode.Update?
    && (|| (rank.Bin? && id in w.found.drawBins)
        || (rank.RunRow? && id in w.found.runs)
        || (rank.TransportOwner? && id in w.found.owners))
  }

  lemma RowsIff(rank: Rank, mode: Mode, ids: seq<Id>, request: Request)
    ensures request in Rows(rank, mode, ids)
            <==> request.resource.rank == rank && request.mode == mode && request.resource.id in ids
  {
    var rows := Rows(rank, mode, ids);
    if request.resource.id in ids {
      var i :| 0 <= i < |ids| && ids[i] == request.resource.id;
      assert rows[i] == Request(Resource(rank, request.resource.id), mode);
    }
  }

  predicate InGroup(group: Group, request: Request) {
    request.resource.rank == group.rank && request.mode == group.mode && request.resource.id in group.ids
  }

  lemma {:induction false} PlanOfIff(groups: seq<Group>, request: Request)
    ensures request in PlanOf(groups) <==> exists i | 0 <= i < |groups| :: InGroup(groups[i], request)
    decreases |groups|
  {
    if groups != [] {
      var n := |groups| - 1;
      PlanOfIff(groups[..n], request);
      RowsIff(groups[n].rank, groups[n].mode, groups[n].ids, request);
    }
  }

  lemma RebuildPlanIff(w: Writer, rank: Rank, mode: Mode, id: Id)
    requires !w.ApplicationWrite?
    ensures Request(Resource(rank, id), mode) in RebuildPlan(ChangedBins(w), w.found)
            <==> (rank.Bin? && mode.Update? && id in ChangedBins(w)) || RebuildNeedsRow(w, rank, mode, id)
  {
    var request, bins := Request(Resource(rank, id), mode), ChangedBins(w);
    RowsIff(Bin, Update, Sorted(bins), request);
    RowsIff(Bin, Update, Sorted(w.found.drawBins), request);
    RowsIff(RunRow, Update, Sorted(w.found.runs), request);
    RowsIff(TransportOwner, Update, Sorted(w.found.owners), request);
    hide Rows, Sorted, Present;
    if bins != [] {
      assert bins[0] in bins;
    }
  }

  /** Which of its statements takes a writer's rows of this rank. */
  function StatementOf(w: Writer, rank: Rank): nat {
    match rank
    case Facility => if w.ApplicationWrite? then 1 else 4
    case RunRow => 2
    case Batch => 3
    case Delivery => 4
    case Application => 5
    case Slice => 6
    case RequestKey => if w.ProductDelete? then 1 else 0
    case Bin => if w.ProductDelete? then 2 else if w.Loss? then 1 else 0
    case Artifact => if w.ProductDelete? then 3 else 0
    case Product => 5
    case _ => 0
  }

  lemma StatementsIff(w: Writer, rank: Rank, mode: Mode, id: Id)
    ensures Request(Resource(rank, id), mode) in PlanOf(Statements(w)) <==> NeedsRow(w, rank, mode, id)
    ensures rank.Bin? && mode.Update? && id in ChangedBins(w) ==> NeedsRow(w, rank, mode, id)
  {
    var request := Request(Resource(rank, id), mode);
    PlanOfIff(Statements(w), request);
    hide PlanOf;
    if NeedsRow(w, rank, mode, id) {
      NeededIsLocked(w, rank, mode, id);
    }
    if i :| 0 <= i < |Statements(w)| && InGroup(Statements(w)[i], request) {
      LockedIsNeeded(w, i, rank, mode, id);
    }
  }

  lemma NeededIsLocked(w: Writer, rank: Rank, mode: Mode, id: Id)
    requires NeedsRow(w, rank, mode, id)
    ensures StatementOf(w, rank) < |Statements(w)|
    ensures InGroup(Statements(w)[StatementOf(w, rank)], Request(Resource(rank, id), mode))
  {
    hide Sorted, Present;
  }

  lemma LockedIsNeeded(w: Writer, i: nat, rank: Rank, mode: Mode, id: Id)
    requires i < |Statements(w)| && InGroup(Statements(w)[i], Request(Resource(rank, id), mode))
    ensures NeedsRow(w, rank, mode, id)
  {
    hide Sorted, Present;
  }

  /** A plan asks for exactly the rows its writer and its rebuild need, and for each in the mode they need. */
  lemma PlanIff(w: Writer, rank: Rank, mode: Mode, id: Id)
    ensures Request(Resource(rank, id), mode) in LockPlan(w)
            <==> NeedsRow(w, rank, mode, id) || RebuildNeedsRow(w, rank, mode, id)
  {
    StatementsIff(w, rank, mode, id);
    if !w.ApplicationWrite? {
      RebuildPlanIff(w, rank, mode, id);
    }
    hide Statements, PlanOf, RebuildPlan, Sorted, Rows, Present, NeedsRow, ChangedBins;
  }

  // ---------- When a plan ascends ----------

  /** Held already and alone: asking again is granted at once. */
  predicate AskedAlready(plan: seq<Request>, resource: Resource) {
    Request(resource, Update) in plan
  }

  predicate Above(plan: seq<Request>, resource: Resource) {
    forall r | r in plan :: Before(r.resource, resource)
  }

  /** Every request is for a lock held already or comes after all before it. */
  predicate Ascending(plan: seq<Request>) {
    forall j | 0 <= j < |plan| :: AskedAlready(plan[..j], plan[j].resource) || Above(plan[..j], plan[j].resource)
  }

  ghost predicate EachFits(plan: seq<Request>, rank: Rank, ids: seq<Id>) {
    forall y: Id | y in ids :: AskedAlready(plan, Resource(rank, y)) || Above(plan, Resource(rank, y))
  }

  lemma {:induction false} AppendAscends(plan: seq<Request>, rank: Rank, mode: Mode, ids: seq<Id>)
    requires StrictlyUp(ids)
    ensures Ascending(plan + Rows(rank, mode, ids)) <==> Ascending(plan) && EachFits(plan, rank, ids)
    decreases |ids|
  {
    if ids == [] {
      assert plan + Rows(rank, mode, ids) == plan;
    } else {
      var n := |ids| - 1;
      var before, last := plan + Rows(rank, mode, ids[..n]), Request(Resource(rank, ids[n]), mode);
      assert plan + Rows(rank, mode, ids) == before + [last];
      assert ids == ids[..n] + [ids[n]];
      hide Ascending, AskedAlready, Above;
      AppendAscends(plan, rank, mode, ids[..n]);
      OneMore(before, last);
      FitsAfterRows(plan, rank, mode, ids[..n], ids[n]);
    }
  }

  lemma OneMore(plan: seq<Request>, last: Request)
    ensures Ascending(plan + [last])
            <==> Ascending(plan) && (AskedAlready(plan, last.resource) || Above(plan, last.resource))
  {
    hide AskedAlready, Above;
    var all := plan + [last];
    assert all[..|plan|] == plan;
    assert forall j | 0 <= j < |plan| :: all[..j] == plan[..j];
  }

  lemma FitsAfterRows(plan: seq<Request>, rank: Rank, mode: Mode, ids: seq<Id>, y: Id)
    requires forall i | 0 <= i < |ids| :: ids[i] < y
    ensures
      var grown := plan + Rows(rank, mode, ids);
      && (AskedAlready(grown, Resource(rank, y)) <==> AskedAlready(plan, Resource(rank, y)))
      && (Above(grown, Resource(rank, y)) <==> Above(plan, Resource(rank, y)))
  {
    var rows := Rows(rank, mode, ids);
    forall r | r in rows
      ensures Before(r.resource, Resource(rank, y))
    {
      var i :| 0 <= i < |rows| && rows[i] == r;
    }
  }

  /** Nothing in the plan is past this place in the order. */
  predicate UpToPlace(plan: seq<Request>, place: nat) {
    forall r | r in plan :: Place(r.resource.rank) <= place
  }

  lemma AppendHigher(plan: seq<Request>, rank: Rank, mode: Mode, ids: seq<Id>, place: nat)
    requires StrictlyUp(ids) && UpToPlace(plan, place) && place < Place(rank)
    ensures Ascending(plan + Rows(rank, mode, ids)) <==> Ascending(plan)
    ensures UpToPlace(plan + Rows(rank, mode, ids), Place(rank))
  {
    AppendAscends(plan, rank, mode, ids);
  }

  /** Ranks go up from statement to statement, identifiers within one. */
  predicate InOrder(groups: seq<Group>) {
    && (forall i, j | 0 <= i < j < |groups| :: Place(groups[i].rank) < Place(groups[j].rank))
    && forall i | 0 <= i < |groups| :: StrictlyUp(groups[i].ids)
  }

  lemma {:induction false} InOrderAscends(groups: seq<Group>)
    requires InOrder(groups)
    ensures Ascending(PlanOf(groups))
    ensures groups != [] ==> UpToPlace(PlanOf(groups), Place(groups[|groups| - 1].rank))
    decreases |groups|
  {
    if groups != [] {
      var n := |groups| - 1;
      var earlier, last := groups[..n], groups[n];
      InOrderAscends(earlier);
      if n == 0 {
        AppendAscends([], last.rank, last.mode, last.ids);
      } else {
        AppendHigher(PlanOf(earlier), last.rank, last.mode, last.ids, Place(groups[n - 1].rank));
      }
    }
  }

  lemma {:induction false} MembersOfPlan(groups: seq<Group>, r: Request)
    ensures r in PlanOf(groups)
            <==> exists g | g in groups :: r.resource.rank == g.rank && r.mode == g.mode && r.resource.id in g.ids
    decreases |groups|
  {
    if groups != [] {
      var n := |groups| - 1;
      var last := groups[n];
      MembersOfPlan(groups[..n], r);
      assert groups == groups[..n] + [last];
      var rows := Rows(last.rank, last.mode, last.ids);
      if r.resource.rank == last.rank && r.mode == last.mode && r.resource.id in last.ids {
        var i :| 0 <= i < |last.ids| && last.ids[i] == r.resource.id;
        assert rows[i] == r;
      }
    }
  }

  // ---------- Which writers ascend ----------

  /** After any locks in order, only the bins the runs draw from can spoil the ascent. */
  lemma RebuildAscendsIff(plan: seq<Request>, bins: seq<Id>, found: Rebuild)
    requires Ascending(plan) && UpToPlace(plan, Place(Product))
    requires bins != [] && forall b | b in bins :: AskedAlready(plan, Resource(Bin, b))
    ensures Ascending(plan + RebuildPlan(bins, found)) <==> EachFits(plan, Bin, found.drawBins)
  {
    var again := plan + Rows(Bin, Update, Sorted(bins));
    var drawn := again + Rows(Bin, Update, Sorted(found.drawBins));
    var run := drawn + Rows(RunRow, Update, Sorted(found.runs));
    hide Ascending, AskedAlready, Above, UpToPlace, Rows, Sorted, EachFits;
    Regroup(plan, Rows(Bin, Update, Sorted(bins)), Rows(Bin, Update, Sorted(found.drawBins)),
            Rows(RunRow, Update, Sorted(found.runs)), Rows(TransportOwner, Update, Sorted(found.owners)));
    HeldAgain(plan, Sorted(bins));
    AppendAscends(plan, Bin, Update, Sorted(bins));
    FitsAgain(plan, again, found.drawBins);
    AppendAscends(again, Bin, Update, Sorted(found.drawBins));
    StaysUpTo(plan, Bin, Update, Sorted(bins));
    StaysUpTo(again, Bin, Update, Sorted(found.drawBins));
    AppendHigher(drawn, RunRow, Update, Sorted(found.runs), Place(Product));
    AppendHigher(run, TransportOwner, Update, Sorted(found.owners), Place(RunRow));
  }

  lemma Regroup<T>(p: seq<T>, a: seq<T>, b: seq<T>, c: seq<T>, d: seq<T>)
    ensures p + (a + b + c + d) == p + a + b + c + d
  {
  }

  lemma StaysUpTo(plan: seq<Request>, rank: Rank, mode: Mode, ids: seq<Id>)
    requires UpToPlace(plan, Place(Product)) && rank == Bin
    ensures UpToPlace(plan + Rows(rank, mode, ids), Place(Product))
  {
  }

  lemma FitsAgain(plan: seq<Request>, again: seq<Request>, ids: seq<Id>)
    requires forall resource ::
      && (AskedAlready(again, resource) <==> AskedAlready(plan, resource))
      && (Above(again, resource) <==> Above(plan, resource))
    ensures EachFits(again, Bin, Sorted(ids)) <==> EachFits(plan, Bin, ids)
  {
    hide AskedAlready, Above;
  }

  /** Asking again for bins that are held changes nothing. */
  lemma HeldAgain(plan: seq<Request>, bins: seq<Id>)
    requires forall b | b in bins :: AskedAlready(plan, Resource(Bin, b))
    ensures EachFits(plan, Bin, bins)
    ensures forall r :: r in plan + Rows(Bin, Update, bins) <==> r in plan
    ensures forall resource ::
      && (AskedAlready(plan + Rows(Bin, Update, bins), resource) <==> AskedAlready(plan, resource))
      && (Above(plan + Rows(Bin, Update, bins), resource) <==> Above(plan, resource))
  {
    var rows := Rows(Bin, Update, bins);
    forall r | r in rows
      ensures r in plan
    {
      var i :| 0 <= i < |rows| && rows[i] == r;
      assert bins[i] in bins;
    }
  }

  /**
   * What a caller can compare: the bins the rebuild draws in against the bins held when it
   * starts. A loss or a stock-take may still go up to a higher bin; a deletion, which holds
   * later ranks by then, may not.
   */
  predicate RebuildStaysInOrder(w: Writer) {
    match w
    case ApplicationWrite(_, _, _, _, _, _, _) => true
    case ProductDelete(_, _, bins, ingredientBins, _, _, _, found) =>
      Present(ingredientBins) == [] || forall b | b in found.drawBins :: Some(b) in bins + ingredientBins
    case Loss(_, bin, found) => forall b | b in found.drawBins :: b >= bin
    case StockTake(bin, found) => forall b | b in found.drawBins :: b >= bin
  }

  lemma StatementsInOrder(w: Writer)
    ensures InOrder(Statements(w)) && Statements(w) != []
    ensures !w.ApplicationWrite? ==> Place(Statements(w)[|Statements(w)| - 1].rank) <= Place(Product)
  {
    hide InOrder;
    match w
    case ApplicationWrite(_, _, _, _, _, _, _) => ApplicationInOrder(w);
    case ProductDelete(_, _, _, _, _, _, _, _) => DeletionInOrder(w);
    case Loss(_, _, _) => StockWriteInOrder(w);
    case StockTake(_, _) => StockWriteInOrder(w);
  }

  lemma ApplicationInOrder(w: Writer)
    requires w.ApplicationWrite?
    ensures InOrder(Statements(w))
  {
    hide Sorted, Present;
  }

  lemma DeletionInOrder(w: Writer)
    requires w.ProductDelete?
    ensures InOrder(Statements(w))
  {
    hide Sorted, Present;
  }

  lemma StockWriteInOrder(w: Writer)
    requires w.Loss? || w.StockTake?
    ensures InOrder(Statements(w))
  {
  }

  /** The bins a writer changes are among those it locked. */
  lemma ChangedBinsAreHeld(w: Writer)
    ensures forall b | b in ChangedBins(w) :: AskedAlready(PlanOf(Statements(w)), Resource(Bin, b))
  {
    hide PlanOf, Statements;
    forall b | b in ChangedBins(w)
      ensures AskedAlready(PlanOf(Statements(w)), Resource(Bin, b))
    {
      MembersOfPlan(Statements(w), Request(Resource(Bin, b), Update));
      ChangedBinIsLocked(w, b);
    }
  }

  lemma ChangedBinIsLocked(w: Writer, b: Id)
    requires b in ChangedBins(w)
    ensures exists g | g in Statements(w) :: g.rank == Bin && g.mode == Update && b in g.ids
  {
    var k := if w.ProductDelete? then 2 else if w.Loss? then 1 else 0;
    assert Statements(w)[k] in Statements(w);
    assert w.ProductDelete? ==> Some(b) in w.ingredientBins && Some(b) in w.bins + w.ingredientBins;
  }

  /** Which bins the rebuild may draw in, for each kind of writer. */
  predicate MayDrawIn(w: Writer, y: Id) {
    match w
    case ApplicationWrite(_, _, _, _, _, _, _) => true
    case ProductDelete(_, _, bins, ingredientBins, _, _, _, _) => Some(y) in bins + ingredientBins
    case Loss(_, bin, _) => y >= bin
    case StockTake(bin, _) => y >= bin
  }

  lemma FitsIff(w: Writer, y: Id)
    requires !w.ApplicationWrite?
    ensures
      var plan := PlanOf(Statements(w));
      AskedAlready(plan, Resource(Bin, y)) || Above(plan, Resource(Bin, y)) <==> MayDrawIn(w, y)
  {
    hide PlanOf;
    match w
    case ProductDelete(_, _, _, _, _, _, _, _) => DeletionFitsIff(w, y);
    case Loss(requestKey, bin, _) => OwnBinOnly(w, bin);
    case StockTake(bin, _) => OwnBinOnly(w, bin);
  }

  lemma DeletionFitsIff(w: Writer, y: Id)
    requires w.ProductDelete?
    ensures
      var plan := PlanOf(Statements(w));
      AskedAlready(plan, Resource(Bin, y)) || Above(plan, Resource(Bin, y)) <==> MayDrawIn(w, y)
  {
    hide PlanOf;
    var groups, product := Statements(w), Request(Resource(Product, w.product), Update);
    MembersOfPlan(groups, Request(Resource(Bin, y), Update));
    MembersOfPlan(groups, product);
    assert groups[5] in groups && groups[2] in groups;
    assert product in PlanOf(groups) && !Before(product.resource, Resource(Bin, y));
    DeletionBins(w, y);
  }

  lemma DeletionBins(w: Writer, y: Id)
    requires w.ProductDelete?
    ensures (exists g | g in Statements(w) :: g.rank == Bin && g.mode == Update && y in g.ids) <==> MayDrawIn(w, y)
  {
    var groups := Statements(w);
    assert groups[2] in groups && groups[2].rank == Bin;
    forall g | g in groups && g.rank == Bin
      ensures g == groups[2]
    {
    }
  }

  lemma OwnBinOnly(w: Writer, bin: Id)
    requires (w.Loss? || w.StockTake?) && w.bin == bin
    ensures
      var plan := PlanOf(Statements(w));
      && Request(Resource(Bin, bin), Update) in plan
      && forall r | r in plan :: r.resource.rank == RequestKey || r == Request(Resource(Bin, bin), Update)
  {
    var groups := Statements(w);
    MembersOfPlan(groups, Request(Resource(Bin, bin), Update));
    assert groups[|groups| - 1] in groups;
    forall r | r in PlanOf(groups)
      ensures r.resource.rank == RequestKey || r == Request(Resource(Bin, bin), Update)
    {
      MembersOfPlan(groups, r);
    }
  }

  /**
   * A writer's locks go up throughout exactly when its rebuild stays in order: always for an
   * application write; for a loss or a stock-take, when every bin the affected runs draw from
   * is the one held or above it; for a deletion, when every such bin is held already.
   */
  lemma AscendsIff(w: Writer)
    ensures Ascending(LockPlan(w)) <==> RebuildStaysInOrder(w)
  {
    StatementsInOrder(w);
    InOrderAscends(Statements(w));
    var plan := PlanOf(Statements(w));
    if w.ApplicationWrite? || ChangedBins(w) == [] {
      assert LockPlan(w) == plan;
    } else {
      ChangedBinsAreHeld(w);
      assert UpToPlace(plan, Place(Product));
      hide PlanOf, Ascending, AskedAlready, Above, UpToPlace, RebuildPlan;
      RebuildAscendsIff(plan, ChangedBins(w), w.found);
      forall y: Id
        ensures AskedAlready(plan, Resource(Bin, y)) || Above(plan, Resource(Bin, y)) <==> MayDrawIn(w, y)
      {
        FitsIff(w, y);
      }
    }
  }

  // ---------- Transactions that lock ----------

  /** The first `taken` requests of the plan are held; with all of them the transaction may commit. */
  datatype Tx = Tx(plan: seq<Request>, taken: nat, finished: bool)

  type State = map<TxId, Tx>

  predicate Compatible(a: Mode, b: Mode) {
    a.Share? && b.Share?
  }

  ghost predicate Valid(s: State) {
    forall t | t in s :: s[t].taken <= |s[t].plan|
  }

  /** Every plan ascends, and what is held goes together. */
  ghost predicate Ordered(s: State) {
    Valid(s) && HeldTogether(s) && forall t | t in s :: Ascending(s[t].plan)
  }

  predicate Waiting(tx: Tx) {
    !tx.finished && tx.taken < |tx.plan|
  }

  function AskedBy(s: State, t: TxId): Request
    requires t in s && Waiting(s[t])
  {
    s[t].plan[s[t].taken]
  }

  /** `t` waits for `u`: `u` holds what `t` asks for next, in a mode that does not go with it. */
  predicate WaitsFor(s: State, t: TxId, u: TxId) {
    && t in s && u in s && t != u && Waiting(s[t]) && !s[u].finished
    && exists i | 0 <= i < s[u].taken && i < |s[u].plan| :: Conflicting(s[u].plan[i], AskedBy(s, t))
  }

  predicate Conflicting(held: Request, asked: Request) {
    held.resource == asked.resource && !Compatible(held.mode, asked.mode)
  }

  predicate CanStep(s: State, t: TxId) {
    && t in s && !s[t].finished
    && (s[t].taken < |s[t].plan| ==> forall u | u in s :: !WaitsFor(s, t, u))
  }

  /** Take the next lock, or commit and release everything. A step that must wait changes nothing. */
  function Next(s: State, t: TxId): State {
    if !CanStep(s, t) then s
    else if s[t].taken < |s[t].plan| then s[t := s[t].(taken := s[t].taken + 1)]
    else s[t := s[t].(finished := true)]
  }

  function Run(s: State, steps: seq<TxId>): State
    decreases |steps|
  {
    if steps == [] then s else Run(Next(s, steps[0]), steps[1..])
  }

  predicate Unfinished(s: State, t: TxId) {
    t in s && !s[t].finished
  }

  // ---------- No deadlock ----------

  /** A transaction that is waited for, and waits itself, waits for something later. */
  lemma WaitsForAscends(s: State, t: TxId, u: TxId)
    requires Ordered(s) && WaitsFor(s, t, u) && Waiting(s[u]) && !AsksAgain(s, u)
    ensures Before(AskedBy(s, t).resource, AskedBy(s, u).resource)
  {
    var i :| 0 <= i < s[u].taken && i < |s[u].plan| && Conflicting(s[u].plan[i], AskedBy(s, t));
    assert s[u].plan[i] in s[u].plan[..s[u].taken];
    assert Before(s[u].plan[i].resource, AskedBy(s, u).resource);
  }

  predicate AsksAgain(s: State, t: TxId)
    requires t in s && Waiting(s[t])
  {
    AskedAlready(s[t].plan[..s[t].taken], AskedBy(s, t).resource)
  }

  /** Whoever asks again for a lock it holds alone waits for no one. */
  lemma AskingAgainNeverWaits(s: State, t: TxId, u: TxId)
    requires Valid(s) && HeldTogether(s) && t in s && Waiting(s[t]) && AsksAgain(s, t)
    ensures !WaitsFor(s, t, u)
  {
    var asked := AskedBy(s, t);
    var i :| 0 <= i < s[t].taken && s[t].plan[i] == Request(asked.resource, Update);
  }

  ghost predicate Chain(s: State, path: seq<TxId>) {
    forall i | 0 <= i < |path| - 1 :: WaitsFor(s, path[i], path[i + 1])
  }

  lemma {:induction false} ChainAscends(s: State, path: seq<TxId>, n: nat)
    requires Ordered(s) && Chain(s, path) && 0 < n < |path|
    requires path[n] in s && Waiting(s[path[n]]) && !AsksAgain(s, path[n])
    ensures path[0] in s && Waiting(s[path[0]])
    ensures Before(AskedBy(s, path[0]).resource, AskedBy(s, path[n]).resource)
    decreases n
  {
    var t := path[n - 1];
    assert WaitsFor(s, t, path[n - 1 + 1]);
    if AsksAgain(s, t) {
      AskingAgainNeverWaits(s, t, path[n]);
    }
    WaitsForAscends(s, t, path[n]);
    if n > 1 {
      ChainAscends(s, path, n - 1);
    }
  }

  /** No transaction waits for itself through others: the waits-for relation has no cycle. */
  lemma NoWaitingCycle(s: State, path: seq<TxId>)
    requires Ordered(s) && |path| > 1 && Chain(s, path)
    ensures path[0] != path[|path| - 1]
  {
    if path[0] == path[|path| - 1] {
      assert WaitsFor(s, path[0], path[0 + 1]);
      if AsksAgain(s, path[0]) {
        AskingAgainNeverWaits(s, path[0], path[1]);
      }
      ChainAscends(s, path, |path| - 1);
    }
  }

  /** Among waiting transactions, one asks for the last resource of all. */
  lemma {:induction false} LastAsked(s: State, ts: set<TxId>) returns (last: TxId)
    requires ts != {} && forall t | t in ts :: t in s && Waiting(s[t])
    ensures last in ts
    ensures forall t | t in ts :: !Before(AskedBy(s, last).resource, AskedBy(s, t).resource)
  {
    var some :| some in ts;
    last := some;
    if ts != {some} {
      var other := LastAsked(s, ts - {some});
      if Before(AskedBy(s, some).resource, AskedBy(s, other).resource) {
        last := other;
      }
    }
  }

  /** Whatever has run so far, some unfinished transaction can step. */
  lemma SomeTransactionCanStep(s: State)
    requires Ordered(s) && exists t :: Unfinished(s, t)
    ensures exists t :: CanStep(s, t)
  {
    if ready: TxId :| ready in s && !s[ready].finished && s[ready].taken == |s[ready].plan| {
      assert CanStep(s, ready);
    } else if again: TxId :| again in s && Waiting(s[again]) && AsksAgain(s, again) {
      forall u | u in s
        ensures !WaitsFor(s, again, u)
      {
        AskingAgainNeverWaits(s, again, u);
      }
      assert CanStep(s, again);
    } else {
      var waiting := set t | t in s && Waiting(s[t]);
      var t0 :| Unfinished(s, t0);
      assert t0 in waiting;
      var last := LastAsked(s, waiting);
      forall u | u in s
        ensures !WaitsFor(s, last, u)
      {
        if WaitsFor(s, last, u) {
          assert u in waiting;
          WaitsForAscends(s, last, u);
        }
      }
      assert CanStep(s, last);
    }
  }

  // ---------- Every run ----------

  lemma StepStaysValid(s: State, t: TxId)
    requires Valid(s)
    ensures Valid(Next(s, t))
  {
  }

  lemma StepStaysOrdered(s: State, t: TxId)
    requires Ordered(s)
    ensures Ordered(Next(s, t))
  {
    StepKeepsHeldTogether(s, t);
    hide Ascending, HeldTogether;
  }

  lemma {:induction false} RunStaysOrdered(s: State, steps: seq<TxId>)
    requires Ordered(s)
    ensures Ordered(Run(s, steps))
    decreases |steps|
  {
    hide Next, Ordered;
    if steps != [] {
      StepStaysOrdered(s, steps[0]);
      RunStaysOrdered(Next(s, steps[0]), steps[1..]);
    }
  }

  /** However they interleave, transactions that lock in order never all stand still. */
  lemma NeverDeadlocked(s: State, steps: seq<TxId>)
    requires Ordered(s) && exists t :: Unfinished(Run(s, steps), t)
    ensures exists t :: CanStep(Run(s, steps), t)
  {
    RunStaysOrdered(s, steps);
    SomeTransactionCanStep(Run(s, steps));
  }

  /** What is held at the same time goes together. */
  ghost predicate HeldTogether(s: State) {
    forall t, u, i, j | t in s && u in s && t != u && !s[t].finished && !s[u].finished
      && 0 <= i < s[t].taken && i < |s[t].plan| && 0 <= j < s[u].taken && j < |s[u].plan| ::
      !Conflicting(s[t].plan[i], s[u].plan[j])
  }

  lemma ConflictIsMutual(a: Request, b: Request)
    ensures Conflicting(a, b) == Conflicting(b, a)
  {
  }

  lemma StepKeepsHeldTogether(s: State, t: TxId)
    requires Valid(s) && HeldTogether(s)
    ensures HeldTogether(Next(s, t))
  {
    var after := Next(s, t);
    hide Conflicting;
    if after != s && s[t].taken < |s[t].plan| {
      forall u, j | u in s && u != t && !s[u].finished && 0 <= j < s[u].taken && j < |s[u].plan|
        ensures !Conflicting(s[u].plan[j], s[t].plan[s[t].taken]) && !Conflicting(s[t].plan[s[t].taken], s[u].plan[j])
      {
        assert !WaitsFor(s, t, u);
        ConflictIsMutual(s[u].plan[j], s[t].plan[s[t].taken]);
      }
    }
  }

  /** An UPDATE lock is held alone; SHARE locks only beside SHARE locks. */
  lemma {:induction false} RunHoldsTogether(s: State, steps: seq<TxId>)
    requires Valid(s) && HeldTogether(s)
    ensures HeldTogether(Run(s, steps))
    decreases |steps|
  {
    hide HeldTogether, Next;
    if steps != [] {
      StepStaysValid(s, steps[0]);
      StepKeepsHeldTogether(s, steps[0]);
      RunHoldsTogether(Next(s, steps[0]), steps[1..]);
    }
  }

  // ---------- Every run ends ----------

  function Left(tx: Tx): nat
    requires tx.taken <= |tx.plan|
  {
    if tx.finished then 0 else |tx.plan| - tx.taken + 1
  }

  ghost function SumOf(work: map<TxId, nat>): nat
    decreases |work|
  {
    if work == map[] then 0
    else
      var t :| t in work;
      SmallerWithout(work, t);
      work[t] + SumOf(work - {t})
  }

  lemma SmallerWithout(work: map<TxId, nat>, t: TxId)
    requires t in work
    ensures |work - {t}| < |work|
  {
    assert (work - {t}).Keys == work.Keys - {t};
    assert |work.Keys| == |work| && |(work - {t}).Keys| == |work - {t}|;
  }

  lemma {:induction false} SumWithout(work: map<TxId, nat>, t: TxId)
    requires t in work
    ensures SumOf(work) == work[t] + SumOf(work - {t})
    decreases |work|
  {
    var first :| first in work && SumOf(work) == work[first] + SumOf(work - {first});
    if first != t {
      SmallerWithout(work, first);
      SmallerWithout(work, t);
      SumWithout(work - {first}, t);
      SumWithout(work - {t}, first);
      assert work - {first} - {t} == work - {t} - {first};
    }
  }

  lemma {:induction false} SumUpdate(work: map<TxId, nat>, t: TxId, now: nat)
    requires t in work
    ensures SumOf(work[t := now]) == SumOf(work) - work[t] + now
  {
    SumWithout(work, t);
    SumWithout(work[t := now], t);
    assert work[t := now] - {t} == work - {t};
  }

  function LeftOfEach(s: State): map<TxId, nat>
    requires Valid(s)
  {
    map t | t in s :: Left(s[t])
  }

  /** What is left of all transactions. */
  ghost function LeftIn(s: State): nat
    requires Valid(s)
  {
    SumOf(LeftOfEach(s))
  }

  /** Every step that is not a wait brings the end nearer by one. */
  lemma StepsAreFinite(s: State, t: TxId)
    requires Valid(s) && CanStep(s, t)
    ensures Valid(Next(s, t)) && Next(s, t).Keys == s.Keys
    ensures LeftIn(Next(s, t)) == LeftIn(s) - 1
  {
    var after := Next(s, t);
    SumUpdate(LeftOfEach(s), t, Left(after[t]));
    assert LeftOfEach(after) == LeftOfEach(s)[t := Left(after[t])];
  }

  /** From any state, steps that are not waits finish every transaction. */
  lemma {:induction false} AllFinish(s: State) returns (steps: seq<TxId>)
    requires Ordered(s)
    ensures forall t :: !Unfinished(Run(s, steps), t)
    ensures |steps| <= LeftIn(s)
    decreases LeftIn(s)
  {
    steps := [];
    if exists t :: Unfinished(s, t) {
      SomeTransactionCanStep(s);
      var t :| CanStep(s, t);
      StepsAreFinite(s, t);
      RunStaysOrdered(s, [t]);
      assert Run(s, [t]) == Next(s, t);
      var rest := AllFinish(Next(s, t));
      steps := [t] + rest;
      assert steps[1..] == rest;
    }
  }

  // ---------- The writers together ----------

  /** Any number of writers, none of which has locked anything yet. */
  function Started(writers: map<TxId, Writer>): State {
    map t | t in writers :: Tx(LockPlan(writers[t]), 0, false)
  }

  /**
   * Any application writes, product deletions, losses and stock-takes whose rebuilds stay in
   * order: whatever has run so far, some unfinished one can step.
   */
  lemma WritersNeverDeadlock(writers: map<TxId, Writer>, steps: seq<TxId>)
    requires forall t | t in writers :: RebuildStaysInOrder(writers[t])
    requires exists t :: Unfinished(Run(Started(writers), steps), t)
    ensures exists t :: CanStep(Run(Started(writers), steps), t)
  {
    WritersAreOrdered(writers);
    NeverDeadlocked(Started(writers), steps);
  }

  lemma WritersAreOrdered(writers: map<TxId, Writer>)
    requires forall t | t in writers :: RebuildStaysInOrder(writers[t])
    ensures Ordered(Started(writers))
  {
    hide LockPlan, Ascending;
    forall t | t in writers
      ensures Ascending(LockPlan(writers[t]))
    {
      AscendsIff(writers[t]);
    }
  }

  /** And from every state they reach, they all finish. */
  lemma WritersFinish(writers: map<TxId, Writer>, steps: seq<TxId>) returns (rest: seq<TxId>)
    requires forall t | t in writers :: RebuildStaysInOrder(writers[t])
    ensures forall t :: !Unfinished(Run(Run(Started(writers), steps), rest), t)
  {
    WritersAreOrdered(writers);
    RunStaysOrdered(Started(writers), steps);
    rest := AllFinish(Run(Started(writers), steps));
  }

  /** A later run draws from the bins of two losses, and from no other. */
  ghost predicate ShareARun(a: Writer, b: Writer) {
    && a.Loss? && b.Loss? && a.requestKey != b.requestKey && a.bin < b.bin
    && (forall x: Id :: x in a.found.drawBins <==> x == a.bin || x == b.bin)
    && forall x: Id :: x in b.found.drawBins <==> x == a.bin || x == b.bin
  }

  /**
   * Out of order, two losses can stop each other: each holds its own bin and asks for the
   * other's, and neither can step. Only the loss on the higher bin goes down.
   */
  lemma TwoLossesDeadlock(a: Writer, b: Writer)
    requires ShareARun(a, b)
    ensures RebuildStaysInOrder(a) && !RebuildStaysInOrder(b)
    ensures Crossed(Run(Started(map[1 := a, 2 := b]), [1, 1, 1, 1, 2, 2, 2]))
  {
    assert a.bin in b.found.drawBins;
    hide LockPlan, Run, Crossed, Started;
    LossPlanIs(a, a.bin, b.bin);
    LossPlanIs(b, a.bin, b.bin);
    StartedCross(a, b);
  }

  predicate StartsWith(plan: seq<Request>, resources: seq<Resource>) {
    |plan| >= |resources| && forall i | 0 <= i < |resources| :: plan[i] == Request(resources[i], Update)
  }

  lemma LossPlanIs(w: Writer, low: Id, high: Id)
    requires w.Loss? && low < high && forall x: Id :: x in w.found.drawBins <==> x == low || x == high
    ensures StartsWith(LockPlan(w),
      [Resource(RequestKey, w.requestKey), Resource(Bin, w.bin), Resource(Bin, w.bin), Resource(Bin, low), Resource(Bin, high)])
  {
    SortedDependsOnMembersOnly(Sorted([w.bin]), [w.bin]);
    SortedDependsOnMembersOnly(Sorted(w.found.drawBins), [low, high]);
    TwoStatements(Statements(w)[0], Statements(w)[1]);
    hide Sorted, PlanOf;
  }

  lemma TwoStatements(a: Group, b: Group)
    ensures PlanOf([a, b]) == Rows(a.rank, a.mode, a.ids) + Rows(b.rank, b.mode, b.ids)
  {
    assert [a, b][..1] == [a] && [a][..0] == [];
    assert PlanOf([a]) == PlanOf([]) + Rows(a.rank, a.mode, a.ids);
  }

  lemma StartedCross(a: Writer, b: Writer)
    requires a.Loss? && b.Loss? && a.requestKey != b.requestKey && a.bin < b.bin
    requires StartsWith(LockPlan(a),
      [Resource(RequestKey, a.requestKey), Resource(Bin, a.bin), Resource(Bin, a.bin), Resource(Bin, a.bin), Resource(Bin, b.bin)])
    requires StartsWith(LockPlan(b),
      [Resource(RequestKey, b.requestKey), Resource(Bin, b.bin), Resource(Bin, b.bin), Resource(Bin, a.bin), Resource(Bin, b.bin)])
    ensures Crossed(Run(Started(map[1 := a, 2 := b]), [1, 1, 1, 1, 2, 2, 2]))
  {
    hide LockPlan, Run;
    var s := Started(map[1 := a, 2 := b]);
    var s4 := s[1 := s[1].(taken := 4)];
    var s7 := s4[2 := s4[2].(taken := 3)];
    TakesAlone(s, 1, 4);
    TakesAlone(s4, 2, 3);
    assert Again(1, 4) + Again(2, 3) == [1, 1, 1, 1, 2, 2, 2];
    RunOn(s, Again(1, 4), Again(2, 3));
    assert Conflicting(s7[2].plan[1], AskedBy(s7, 1)) && Conflicting(s7[1].plan[1], AskedBy(s7, 2));
  }

  function Again(t: TxId, n: nat): (steps: seq<TxId>)
    ensures |steps| == n && forall i | 0 <= i < n :: steps[i] == t
  {
    seq(n, _ => t)
  }

  lemma {:induction false} RunOn(s: State, first: seq<TxId>, rest: seq<TxId>)
    ensures Run(s, first + rest) == Run(Run(s, first), rest)
    decreases |first|
  {
    hide Next;
    if first == [] {
      assert first + rest == rest;
    } else {
      assert (first + rest)[1..] == first[1..] + rest;
      RunOn(Next(s, first[0]), first[1..], rest);
    }
  }

  /** Unhindered by what the others hold, a transaction takes its next locks one after the other. */
  lemma {:induction false} TakesAlone(s: State, t: TxId, n: nat)
    requires t in s && !s[t].finished && s[t].taken + n <= |s[t].plan|
    requires forall u, i, k | u in s && u != t && !s[u].finished && 0 <= i < s[u].taken && i < |s[u].plan|
      && s[t].taken <= k < s[t].taken + n :: !Conflicting(s[u].plan[i], s[t].plan[k])
    ensures Run(s, Again(t, n)) == s[t := s[t].(taken := s[t].taken + n)]
    decreases n
  {
    if n == 0 {
      assert s[t := s[t].(taken := s[t].taken + n)] == s;
    } else {
      var next := s[t := s[t].(taken := s[t].taken + 1)];
      assert CanStep(s, t) && Next(s, t) == next;
      TakesAlone(next, t, n - 1);
      assert Again(t, n)[1..] == Again(t, n - 1);
      assert next[t := next[t].(taken := next[t].taken + (n - 1))] == s[t := s[t].(taken := s[t].taken + n)];
    }
  }

  /** Two transactions that wait for each other. */
  predicate Crossed(s: State) {
    && s.Keys == {1, 2} && Unfinished(s, 1) && Unfinished(s, 2) && WaitsFor(s, 1, 2) && WaitsFor(s, 2, 1)
    && !CanStep(s, 1) && !CanStep(s, 2)
  }
}
