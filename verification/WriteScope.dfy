/**
 * Discover, lock, rediscover: the scope of an application write
 * (`src/data-access/application-write-scope.ts`).
 *
 * What a write must lock is only known by reading, and the reads come before the locks. The
 * state machine lets every other transaction change the lineage between any two statements,
 * as long as it holds the row lock the change needs. The first discovery is arbitrary.
 */
module WriteScope {
  import opened Outcomes
  import opened LockOrder

  /** A delivery's facility and the runs of its saved provenance. */
  datatype DeliveryRow = DeliveryRow(facility: Id, provenance: set<Id>)

  /** An application's delivery, version, the runs of its shares and the batches that own its slices. */
  datatype ApplicationRow = ApplicationRow(delivery: Id, version: nat, shares: set<Id>, slices: set<Id>)

  /** `links`: the batches a run is a member of. */
  datatype Db = Db(deliveries: map<Id, DeliveryRow>, applications: map<Id, ApplicationRow>, links: map<Id, set<Id>>)

  datatype Lineage = Lineage(facilities: map<Id, Id>, runs: set<Id>, batches: set<Id>, applicationBatches: set<Id>)

  datatype Refusal = NotFound | StaleVersion | RetryableConflict

  /** Each statement of the rediscovery sees the rows committed by then. */
  datatype Phase =
    | Locking
    | RowsChecked
    | DeliveriesRead(facilities: map<Id, Id>)
    | ProvenanceRead(facilities: map<Id, Id>, provenance: set<Id>)
    | RunsRead(facilities: map<Id, Id>, runs: set<Id>, shares: set<Id>)
    | LinksRead(facilities: map<Id, Id>, runs: set<Id>, shares: set<Id>, linked: set<Id>, ofShares: set<Id>)
    | Returned
    | Ended(refusal: Option<Refusal>)

  /** `saved` is the delivery of the unlocked snapshot, `chosen` the one the write names. */
  datatype Scope = Scope(
    application: Option<Id>, saved: Option<Id>, chosen: Option<Id>, expectedVersion: nat, discovered: Lineage, phase: Phase)

  datatype State = State(db: Db, held: map<Resource, map<TxId, Mode>>, scopes: map<TxId, Scope>)

  datatype Change =
    | SetDelivery(delivery: Id, row: DeliveryRow)
    | SetApplication(application: Id, delivery: Id, shares: set<Id>)
    | DropApplication(application: Id)
    | SetSlices(application: Id, slices: set<Id>)
    | SetLinks(run: Id, batches: set<Id>)

  datatype Step =
    | Begin(tx: TxId, application: Option<Id>, chosen: Option<Id>, expectedVersion: nat, guess: Lineage)
    | Acquire(tx: TxId, request: Request)
    | CheckRows(tx: TxId)
    | ReadDeliveries(tx: TxId)
    | ReadProvenance(tx: TxId)
    | ReadShares(tx: TxId)
    | ReadLinks(tx: TxId)
    | ReadSlicesAndCompare(tx: TxId)
    | Write(tx: TxId, change: Change)
    | End(tx: TxId)

  // ---------- The true lineage ----------

  function DeliveryIds(scope: Scope): set<Id> {
    (if scope.saved.Some? then {scope.saved.value} else {}) + (if scope.chosen.Some? then {scope.chosen.value} else {})
  }

  function FacilitiesOf(db: Db, deliveries: set<Id>): map<Id, Id> {
    map d | d in deliveries && d in db.deliveries :: db.deliveries[d].facility
  }

  function ProvenanceOf(db: Db, deliveries: set<Id>): set<Id> {
    set d, r | d in deliveries && d in db.deliveries && r in db.deliveries[d].provenance :: r
  }

  function SharesOf(db: Db, application: Option<Id>): set<Id> {
    if application.Some? && application.value in db.applications then db.applications[application.value].shares else {}
  }

  function SlicesOf(db: Db, application: Option<Id>): set<Id> {
    if application.Some? && application.value in db.applications then db.applications[application.value].slices else {}
  }

  function LinkedTo(db: Db, runs: set<Id>): set<Id> {
    set r, b | r in runs && r in db.links && b in db.links[r] :: b
  }

  /** What the application and its deliveries really reach. */
  function TrueLineage(db: Db, deliveries: set<Id>, application: Option<Id>): Lineage {
    var shares, slices := SharesOf(db, application), SlicesOf(db, application);
    var runs := ProvenanceOf(db, deliveries) + shares;
    Lineage(FacilitiesOf(db, deliveries), runs, LinkedTo(db, runs) + slices, LinkedTo(db, shares) + slices)
  }

  /** A run some lot of the deliveries came from. */
  ghost predicate Supplied(db: Db, deliveries: set<Id>, run: Id) {
    exists d :: d in deliveries && d in db.deliveries && run in db.deliveries[d].provenance
  }

  /** A run that has a share in the application. */
  predicate Shared(db: Db, application: Option<Id>, run: Id) {
    application.Some? && application.value in db.applications && run in db.applications[application.value].shares
  }

  predicate OwnsSlice(db: Db, application: Option<Id>, batch: Id) {
    application.Some? && application.value in db.applications && batch in db.applications[application.value].slices
  }

  predicate IsMember(db: Db, run: Id, batch: Id) {
    run in db.links && batch in db.links[run]
  }

  /**
   * The true lineage, row by row: the facility of every delivery that is there; the runs that
   * supplied the deliveries or share in the application; and the batches that have such a run
   * as a member or own a slice.
   */
  lemma TrueLineageIff(db: Db, deliveries: set<Id>, application: Option<Id>)
    ensures
      var lineage := TrueLineage(db, deliveries, application);
      && (forall d :: d in lineage.facilities <==> d in deliveries && d in db.deliveries)
      && (forall d | d in lineage.facilities :: lineage.facilities[d] == db.deliveries[d].facility)
      && (forall r :: r in lineage.runs <==> Supplied(db, deliveries, r) || Shared(db, application, r))
      && (forall b :: b in lineage.batches
            <==> || OwnsSlice(db, application, b)
                 || exists r :: (Supplied(db, deliveries, r) || Shared(db, application, r)) && IsMember(db, r, b))
      && (forall b :: b in lineage.applicationBatches
            <==> OwnsSlice(db, application, b) || exists r :: Shared(db, application, r) && IsMember(db, r, b))
  {
    var shares, runs := SharesOf(db, application), ProvenanceOf(db, deliveries) + SharesOf(db, application);
    LinkedIff(db, shares);
    LinkedIff(db, runs);
    assert forall r :: r in shares <==> Shared(db, application, r);
    assert forall r :: r in runs <==> Supplied(db, deliveries, r) || Shared(db, application, r);
    assert forall b :: b in SlicesOf(db, application) <==> OwnsSlice(db, application, b);
    hide LinkedTo, ProvenanceOf, SharesOf, SlicesOf, Supplied, Shared, OwnsSlice, IsMember;
  }

  lemma LinkedIff(db: Db, runs: set<Id>)
    ensures forall b :: b in LinkedTo(db, runs) <==> exists r :: r in runs && IsMember(db, r, b)
  {
  }

  // ---------- Locks ----------

  predicate Free(s: State, tx: TxId, request: Request) {
    request.resource !in s.held
    || forall t | t in s.held[request.resource] && t != tx :: Compatible(s.held[request.resource][t], request.mode)
  }

  predicate HeldIn(s: State, tx: TxId, resource: Resource, mode: Mode) {
    resource in s.held && tx in s.held[resource] && (s.held[resource][tx] == mode || s.held[resource][tx].Update?)
  }

  /** Locks are only ever strengthened before the end of the transaction. */
  function Taken(s: State, tx: TxId, request: Request): map<Resource, map<TxId, Mode>> {
    var holders := if request.resource in s.held then s.held[request.resource] else map[];
    s.held[request.resource := holders[tx := if HeldIn(s, tx, request.resource, Update) then Update else request.mode]]
  }

  function Released(held: map<Resource, map<TxId, Mode>>, tx: TxId): map<Resource, map<TxId, Mode>> {
    map r | r in held :: map t | t in held[r] && t != tx :: held[r][t]
  }

  /** The rows step 2 to 7 of the lock sequence hold, for the discovered sets. */
  ghost predicate HoldsScope(s: State, tx: TxId, scope: Scope) {
    && (forall f | f in scope.discovered.facilities.Values :: HeldIn(s, tx, Resource(Facility, f), Share))
    && (forall r | r in scope.discovered.runs :: HeldIn(s, tx, Resource(RunRow, r), Share))
    && (forall b | b in scope.discovered.batches :: HeldIn(s, tx, Resource(Batch, b), Share))
    && (forall d | d in DeliveryIds(scope) :: HeldIn(s, tx, Resource(Delivery, d), Update))
    && (scope.application.Some? ==> HeldIn(s, tx, Resource(Application, scope.application.value), Update))
  }

  /** What a writer must hold to change a row: its own lock, or for slices the run of one of the shares. */
  predicate MayWrite(s: State, tx: TxId, change: Change) {
    match change
    case SetDelivery(d, _) => HeldIn(s, tx, Resource(Delivery, d), Update)
    case SetApplication(a, _, _) => HeldIn(s, tx, Resource(Application, a), Update)
    case DropApplication(a) => HeldIn(s, tx, Resource(Application, a), Update)
    case SetSlices(a, _) =>
      || HeldIn(s, tx, Resource(Application, a), Update)
      || exists r | r in SharesOf(s.db, Some(a)) :: HeldIn(s, tx, Resource(RunRow, r), Update)
    case SetLinks(r, _) => HeldIn(s, tx, Resource(RunRow, r), Update)
  }

  function Applied(db: Db, change: Change): Db {
    match change
    case SetDelivery(d, row) => db.(deliveries := db.deliveries[d := row])
    case SetApplication(a, delivery, shares) =>
      var saved := if a in db.applications then db.applications[a] else ApplicationRow(delivery, 0, {}, {});
      db.(applications := db.applications[a := ApplicationRow(delivery, saved.version + 1, shares, saved.slices)])
    case DropApplication(a) => db.(applications := db.applications - {a})
    case SetSlices(a, slices) =>
      if a in db.applications then db.(applications := db.applications[a := db.applications[a].(slices := slices)]) else db
    case SetLinks(r, batches) => db.(links := db.links[r := batches])
  }

  // ---------- Steps ----------

  function To(s: State, tx: TxId, phase: Phase): State
    requires tx in s.scopes
  {
    s.(scopes := s.scopes[tx := s.scopes[tx].(phase := phase)])
  }

  /** A refusal rolls the transaction back. */
  function Refuse(s: State, tx: TxId, refusal: Refusal): State
    requires tx in s.scopes
  {
    To(s, tx, Ended(Some(refusal))).(held := Released(s.held, tx))
  }

  function BeginScope(s: State, step: Step): State
    requires step.Begin? && step.tx !in s.scopes
  {
    var missing := step.application.Some? && step.application.value !in s.db.applications;
    var saved := if step.application.Some? && !missing then Some(s.db.applications[step.application.value].delivery) else None;
    var scope := Scope(step.application, saved, step.chosen, step.expectedVersion, step.guess, Locking);
    var lost := missing || exists d | d in DeliveryIds(scope) :: d !in s.db.deliveries;
    s.(scopes := s.scopes[step.tx := if lost then scope.(phase := Ended(Some(NotFound))) else scope])
  }

  /** The application row, read again under its lock. */
  ghost function CheckRowsIn(s: State, tx: TxId): State
    requires tx in s.scopes
  {
    var scope := s.scopes[tx];
    if !HoldsScope(s, tx, scope) then s
    else if scope.application.None? then To(s, tx, RowsChecked)
    else if scope.application.value !in s.db.applications then Refuse(s, tx, NotFound)
    else
      var row := s.db.applications[scope.application.value];
      if row.version != scope.expectedVersion then Refuse(s, tx, StaleVersion)
      else if Some(row.delivery) != scope.saved then Refuse(s, tx, RetryableConflict)
      else To(s, tx, RowsChecked)
  }

  function Compare(s: State, tx: TxId): State
    requires tx in s.scopes && s.scopes[tx].phase.LinksRead?
  {
    var scope, phase, slices := s.scopes[tx], s.scopes[tx].phase, SlicesOf(s.db, s.scopes[tx].application);
    var current := Lineage(phase.facilities, phase.runs, phase.linked + slices, phase.ofShares + slices);
    if current == scope.discovered then To(s, tx, Returned) else Refuse(s, tx, RetryableConflict)
  }

  /** A step that is not enabled changes nothing: the statement waits or is never sent. */
  ghost function Next(s: State, step: Step): State {
    match step
    case Begin(tx, _, _, _, _) => if tx in s.scopes then s else BeginScope(s, step)
    case Acquire(tx, request) =>
      if Free(s, tx, request) && !(tx in s.scopes && s.scopes[tx].phase.Ended?) then s.(held := Taken(s, tx, request)) else s
    case CheckRows(tx) => if tx in s.scopes && s.scopes[tx].phase.Locking? then CheckRowsIn(s, tx) else s
    case ReadDeliveries(tx) =>
      if tx in s.scopes && s.scopes[tx].phase.RowsChecked?
      then To(s, tx, DeliveriesRead(FacilitiesOf(s.db, DeliveryIds(s.scopes[tx])))) else s
    case ReadProvenance(tx) =>
      if tx in s.scopes && s.scopes[tx].phase.DeliveriesRead?
      then To(s, tx, ProvenanceRead(s.scopes[tx].phase.facilities, ProvenanceOf(s.db, DeliveryIds(s.scopes[tx])))) else s
    case ReadShares(tx) =>
      if tx in s.scopes && s.scopes[tx].phase.ProvenanceRead? then
        var shares := SharesOf(s.db, s.scopes[tx].application);
        To(s, tx, RunsRead(s.scopes[tx].phase.facilities, s.scopes[tx].phase.provenance + shares, shares))
      else s
    case ReadLinks(tx) =>
      if tx in s.scopes && s.scopes[tx].phase.RunsRead? then
        var phase := s.scopes[tx].phase;
        To(s, tx, LinksRead(phase.facilities, phase.runs, phase.shares, LinkedTo(s.db, phase.runs), LinkedTo(s.db, phase.shares)))
      else s
    case ReadSlicesAndCompare(tx) => if tx in s.scopes && s.scopes[tx].phase.LinksRead? then Compare(s, tx) else s
    case Write(tx, change) =>
      if !MayWrite(s, tx, change) then s
      else if tx !in s.scopes then s.(db := Applied(s.db, change))
      else if s.scopes[tx].phase.Returned? || s.scopes[tx].phase == Ended(None)
      then To(s.(db := Applied(s.db, change)), tx, Ended(None))
      else s
    case End(tx) =>
      (if tx in s.scopes then To(s, tx, if s.scopes[tx].phase.Ended? then s.scopes[tx].phase else Ended(None)) else s).(
        held := Released(s.held, tx))
  }

  ghost function Run(s: State, steps: seq<Step>): State
    decreases |steps|
  {
    if steps == [] then s else Run(Next(s, steps[0]), steps[1..])
  }

  /** A scope opens on the saved delivery of its application, unless that row or a delivery it needs is not there. */
  lemma BeginIff(s: State, tx: TxId, application: Option<Id>, chosen: Option<Id>, version: nat, guess: Lineage)
    requires tx !in s.scopes
    ensures
      var after := Next(s, Begin(tx, application, chosen, version, guess));
      var row := if application.Some? && application.value in s.db.applications
                 then Some(s.db.applications[application.value].delivery) else None;
      var lost := || (application.Some? && row.None?)
                  || (row.Some? && row.value !in s.db.deliveries)
                  || (chosen.Some? && chosen.value !in s.db.deliveries);
      && after.db == s.db && after.held == s.held
      && after.scopes == s.scopes[tx := Scope(application, row, chosen, version, guess,
                                              if lost then Ended(Some(NotFound)) else Locking)]
  {
  }

  // ---------- Invariant ----------

  /** Holders of one row go together. */
  ghost predicate HeldTogether(held: map<Resource, map<TxId, Mode>>) {
    forall r, t, u | r in held && t in held[r] && u in held[r] && t != u :: Compatible(held[r][t], held[r][u])
  }

  predicate Locked(phase: Phase) {
    !phase.Locking? && !phase.Ended?
  }

  /** What has been read so far is still what is there. */
  ghost predicate ReadsHold(db: Db, scope: Scope) {
    var deliveries := DeliveryIds(scope);
    match scope.phase
    case DeliveriesRead(facilities) => facilities == FacilitiesOf(db, deliveries)
    case ProvenanceRead(facilities, provenance) =>
      facilities == FacilitiesOf(db, deliveries) && provenance == ProvenanceOf(db, deliveries)
    case RunsRead(facilities, runs, shares) =>
      && facilities == FacilitiesOf(db, deliveries) && shares == SharesOf(db, scope.application)
      && runs == ProvenanceOf(db, deliveries) + shares
    case LinksRead(facilities, runs, shares, linked, ofShares) =>
      && facilities == FacilitiesOf(db, deliveries) && shares == SharesOf(db, scope.application)
      && runs == ProvenanceOf(db, deliveries) + shares
      && (runs == scope.discovered.runs ==> linked == LinkedTo(db, runs) && ofShares == LinkedTo(db, shares))
    case Returned => scope.discovered == TrueLineage(db, deliveries, scope.application)
    case _ => true
  }

  ghost predicate RowHolds(db: Db, scope: Scope) {
    scope.application.Some? ==>
      && scope.application.value in db.applications
      && db.applications[scope.application.value].version == scope.expectedVersion
      && Some(db.applications[scope.application.value].delivery) == scope.saved
  }

  ghost predicate ScopeSound(s: State, tx: TxId)
    requires tx in s.scopes
  {
    Locked(s.scopes[tx].phase) ==>
      HoldsScope(s, tx, s.scopes[tx]) && RowHolds(s.db, s.scopes[tx]) && ReadsHold(s.db, s.scopes[tx])
  }

  ghost predicate Inv(s: State) {
    HeldTogether(s.held) && forall tx | tx in s.scopes :: ScopeSound(s, tx)
  }

  // ---------- Every step keeps it ----------

  lemma AcquireKeepsTogether(s: State, tx: TxId, request: Request)
    requires HeldTogether(s.held) && Free(s, tx, request)
    ensures HeldTogether(Taken(s, tx, request))
  {
  }

  lemma AcquireKeepsHeld(s: State, tx: TxId, request: Request, t: TxId, resource: Resource, mode: Mode)
    requires HeldIn(s, t, resource, mode)
    ensures HeldIn(s.(held := Taken(s, tx, request)), t, resource, mode)
  {
  }

  lemma AcquireKeepsScope(s: State, tx: TxId, request: Request, t: TxId, scope: Scope)
    requires HoldsScope(s, t, scope)
    ensures HoldsScope(s.(held := Taken(s, tx, request)), t, scope)
  {
    hide HeldIn, Taken;
    forall resource, mode | HeldIn(s, t, resource, mode)
      ensures HeldIn(s.(held := Taken(s, tx, request)), t, resource, mode)
    {
      AcquireKeepsHeld(s, tx, request, t, resource, mode);
    }
  }

  lemma ReleaseKeepsTogether(s: State, tx: TxId)
    requires HeldTogether(s.held)
    ensures HeldTogether(Released(s.held, tx))
  {
  }

  lemma ReleaseKeepsScope(s: State, tx: TxId, t: TxId, scope: Scope)
    requires HoldsScope(s, t, scope) && t != tx
    ensures HoldsScope(s.(held := Released(s.held, tx)), t, scope)
  {
    assert forall resource, mode :: HeldIn(s, t, resource, mode) ==> HeldIn(s.(held := Released(s.held, tx)), t, resource, mode);
    hide HeldIn, Released;
  }

  /** Two transactions never hold one row when one of them holds it for update. */
  lemma HeldApart(s: State, t: TxId, u: TxId, resource: Resource, mode: Mode)
    requires HeldTogether(s.held) && t != u && HeldIn(s, u, resource, Update)
    ensures !HeldIn(s, t, resource, mode)
  {
  }

  /** A change another transaction may make touches nothing a locked scope has read. */
  lemma ForeignWriteKeepsScope(s: State, tx: TxId, change: Change, t: TxId)
    requires Inv(s) && MayWrite(s, tx, change) && t in s.scopes && t != tx && Locked(s.scopes[t].phase)
    ensures RowHolds(Applied(s.db, change), s.scopes[t]) && ReadsHold(Applied(s.db, change), s.scopes[t])
  {
    var scope := s.scopes[t];
    assert ScopeSound(s, t);
    match change
    case SetDelivery(d, row) => ForeignDelivery(s, tx, t, d, row);
    case SetLinks(r, batches) => ForeignLinks(s, tx, t, r, batches);
    case SetApplication(a, delivery, shares) => ForeignApplication(s, tx, t, a, change);
    case DropApplication(a) => ForeignApplication(s, tx, t, a, change);
    case SetSlices(a, slices) =>
      if scope.application == Some(a) {
        ForeignSlices(s, tx, t, a, slices);
      } else {
        SameApplication(s.db, Applied(s.db, change), scope);
      }
  }

  /** Rows that differ only in other applications. */
  lemma SameApplication(before: Db, after: Db, scope: Scope)
    requires after.deliveries == before.deliveries && after.links == before.links
    requires scope.application.Some? ==>
      var a := scope.application.value;
      (a in after.applications <==> a in before.applications)
      && (a in before.applications ==> after.applications[a] == before.applications[a])
    ensures RowHolds(before, scope) ==> RowHolds(after, scope)
    ensures ReadsHold(before, scope) ==> ReadsHold(after, scope)
  {
    hide TrueLineage;
    SameReads(before, after, scope, DeliveryIds(scope));
    forall runs
      ensures LinkedTo(after, runs) == LinkedTo(before, runs)
    {
    }
  }

  lemma SameReads(before: Db, after: Db, scope: Scope, deliveries: set<Id>)
    requires after.deliveries == before.deliveries && after.links == before.links
    requires scope.application.Some? ==>
      var a := scope.application.value;
      (a in after.applications <==> a in before.applications)
      && (a in before.applications ==> after.applications[a] == before.applications[a])
    ensures TrueLineage(after, deliveries, scope.application) == TrueLineage(before, deliveries, scope.application)
    ensures FacilitiesOf(after, deliveries) == FacilitiesOf(before, deliveries)
    ensures ProvenanceOf(after, deliveries) == ProvenanceOf(before, deliveries)
    ensures SharesOf(after, scope.application) == SharesOf(before, scope.application)
  {
    assert SlicesOf(after, scope.application) == SlicesOf(before, scope.application);
    assert forall runs :: LinkedTo(after, runs) == LinkedTo(before, runs);
  }

  lemma ForeignApplication(s: State, tx: TxId, t: TxId, a: Id, change: Change)
    requires Inv(s) && MayWrite(s, tx, change) && t in s.scopes && t != tx && Locked(s.scopes[t].phase)
    requires (change.SetApplication? || change.DropApplication?) && change.application == a
    ensures RowHolds(Applied(s.db, change), s.scopes[t]) && ReadsHold(Applied(s.db, change), s.scopes[t])
  {
    assert ScopeSound(s, t);
    HeldApart(s, t, tx, Resource(Application, a), Update);
    hide ReadsHold, RowHolds, HeldIn, HeldTogether;
    SameApplication(s.db, Applied(s.db, change), s.scopes[t]);
  }

  lemma ForeignDelivery(s: State, tx: TxId, t: TxId, d: Id, row: DeliveryRow)
    requires Inv(s) && MayWrite(s, tx, SetDelivery(d, row)) && t in s.scopes && t != tx && Locked(s.scopes[t].phase)
    ensures
      var after := Applied(s.db, SetDelivery(d, row));
      RowHolds(after, s.scopes[t]) && ReadsHold(after, s.scopes[t])
  {
    var scope, after := s.scopes[t], Applied(s.db, SetDelivery(d, row));
    var deliveries := DeliveryIds(scope);
    assert ScopeSound(s, t);
    HeldApart(s, t, tx, Resource(Delivery, d), Update);
    assert d !in deliveries;
    assert FacilitiesOf(after, deliveries) == FacilitiesOf(s.db, deliveries);
    assert ProvenanceOf(after, deliveries) == ProvenanceOf(s.db, deliveries);
    forall runs
      ensures LinkedTo(after, runs) == LinkedTo(s.db, runs)
    {
    }
  }

  lemma LinksElsewhere(db: Db, r: Id, batches: set<Id>, runs: set<Id>)
    requires r !in runs
    ensures LinkedTo(Applied(db, SetLinks(r, batches)), runs) == LinkedTo(db, runs)
  {
    var after := Applied(db, SetLinks(r, batches));
    assert forall x | x in runs :: (x in after.links <==> x in db.links) && (x in db.links ==> after.links[x] == db.links[x]);
  }

  /** Only links of runs outside the locked ones can change. */
  lemma ForeignLinks(s: State, tx: TxId, t: TxId, r: Id, batches: set<Id>)
    requires Inv(s) && MayWrite(s, tx, SetLinks(r, batches)) && t in s.scopes && t != tx && Locked(s.scopes[t].phase)
    ensures
      var after := Applied(s.db, SetLinks(r, batches));
      RowHolds(after, s.scopes[t]) && ReadsHold(after, s.scopes[t])
  {
    var scope, after := s.scopes[t], Applied(s.db, SetLinks(r, batches));
    assert ScopeSound(s, t);
    HeldApart(s, t, tx, Resource(RunRow, r), Share);
    assert r !in scope.discovered.runs;
    forall runs: set<Id> | r !in runs
      ensures LinkedTo(after, runs) == LinkedTo(s.db, runs)
    {
      LinksElsewhere(s.db, r, batches, runs);
    }
  }

  /** Whoever changes slices through a run of the shares is kept out by the lock on that run. */
  lemma ForeignSlices(s: State, tx: TxId, t: TxId, a: Id, slices: set<Id>)
    requires Inv(s) && MayWrite(s, tx, SetSlices(a, slices)) && t in s.scopes && t != tx && Locked(s.scopes[t].phase)
    requires s.scopes[t].application == Some(a)
    ensures
      var after := Applied(s.db, SetSlices(a, slices));
      RowHolds(after, s.scopes[t]) && ReadsHold(after, s.scopes[t])
  {
    var scope, after := s.scopes[t], Applied(s.db, SetSlices(a, slices));
    assert ScopeSound(s, t);
    HeldApart(s, tx, t, Resource(Application, a), Update);
    var r :| r in SharesOf(s.db, Some(a)) && HeldIn(s, tx, Resource(RunRow, r), Update);
    HeldApart(s, t, tx, Resource(RunRow, r), Share);
    assert r !in scope.discovered.runs;
    forall runs
      ensures LinkedTo(after, runs) == LinkedTo(s.db, runs)
    {
    }
  }

  /** A step of one scope that only moves its phase. */
  lemma PhaseStep(s: State, tx: TxId, phase: Phase)
    requires Inv(s) && tx in s.scopes && ScopeSound(To(s, tx, phase), tx)
    ensures Inv(To(s, tx, phase))
  {
    hide HeldTogether, RowHolds, ReadsHold;
    forall t | t in To(s, tx, phase).scopes
      ensures ScopeSound(To(s, tx, phase), t)
    {
      if t != tx {
        assert ScopeSound(s, t);
        assert HoldsScope(s, t, s.scopes[t]) ==> HoldsScope(To(s, tx, phase), t, s.scopes[t]);
      }
    }
  }

  lemma ReleaseKeepsInv(s: State, tx: TxId)
    requires Inv(s) && (tx in s.scopes ==> !Locked(s.scopes[tx].phase))
    ensures Inv(s.(held := Released(s.held, tx)))
  {
    hide RowHolds, ReadsHold;
    ReleaseKeepsTogether(s, tx);
    forall t | t in s.scopes
      ensures ScopeSound(s.(held := Released(s.held, tx)), t)
    {
      assert ScopeSound(s, t);
      if t != tx && Locked(s.scopes[t].phase) {
        ReleaseKeepsScope(s, tx, t, s.scopes[t]);
      }
    }
  }

  lemma RefuseKeepsInv(s: State, tx: TxId, refusal: Refusal)
    requires Inv(s) && tx in s.scopes
    ensures Inv(Refuse(s, tx, refusal))
  {
    PhaseStep(s, tx, Ended(Some(refusal)));
    ReleaseKeepsInv(To(s, tx, Ended(Some(refusal))), tx);
  }

  lemma AcquireKeepsInv(s: State, tx: TxId, request: Request)
    requires Inv(s) && Free(s, tx, request)
    ensures Inv(s.(held := Taken(s, tx, request)))
  {
    hide RowHolds, ReadsHold;
    AcquireKeepsTogether(s, tx, request);
    forall t | t in s.scopes
      ensures ScopeSound(s.(held := Taken(s, tx, request)), t)
    {
      assert ScopeSound(s, t);
      if Locked(s.scopes[t].phase) {
        AcquireKeepsScope(s, tx, request, t, s.scopes[t]);
      }
    }
  }

  lemma CheckRowsKeepsInv(s: State, tx: TxId)
    requires Inv(s) && tx in s.scopes && s.scopes[tx].phase.Locking?
    ensures Inv(CheckRowsIn(s, tx))
  {
    hide HoldsScope, HeldTogether;
    var scope, after := s.scopes[tx], CheckRowsIn(s, tx);
    if after != s {
      match after.scopes[tx].phase
      case RowsChecked =>
        SamePhaseLocks(s, tx, RowsChecked);
        PhaseStep(s, tx, RowsChecked);
      case Ended(Some(refusal)) => RefuseKeepsInv(s, tx, refusal);
      case _ =>
    }
  }

  lemma SamePhaseLocks(s: State, tx: TxId, phase: Phase)
    requires tx in s.scopes
    ensures HoldsScope(s, tx, s.scopes[tx]) ==> HoldsScope(To(s, tx, phase), tx, To(s, tx, phase).scopes[tx])
  {
  }

  lemma ReadKeepsInv(s: State, step: Step)
    requires Inv(s) && (step.ReadDeliveries? || step.ReadProvenance? || step.ReadShares? || step.ReadLinks?)
    ensures Inv(Next(s, step))
  {
    var after := Next(s, step);
    if after != s {
      var tx := step.tx;
      assert ScopeSound(s, tx);
      SamePhaseLocks(s, tx, after.scopes[tx].phase);
      hide HoldsScope, HeldTogether, FacilitiesOf, ProvenanceOf, SharesOf, LinkedTo;
      PhaseStep(s, tx, after.scopes[tx].phase);
    }
  }

  lemma CompareKeepsInv(s: State, tx: TxId)
    requires Inv(s) && tx in s.scopes && s.scopes[tx].phase.LinksRead?
    ensures Inv(Compare(s, tx))
  {
    assert ScopeSound(s, tx);
    var after := Compare(s, tx);
    SamePhaseLocks(s, tx, Returned);
    hide HoldsScope, HeldTogether, FacilitiesOf, ProvenanceOf, SharesOf, LinkedTo, SlicesOf;
    if after.scopes[tx].phase.Returned? {
      PhaseStep(s, tx, Returned);
    } else {
      RefuseKeepsInv(s, tx, RetryableConflict);
    }
  }

  lemma WriteKeepsInv(s: State, tx: TxId, change: Change)
    requires Inv(s) && MayWrite(s, tx, change) && (tx in s.scopes ==> !Locked(s.scopes[tx].phase))
    ensures Inv(s.(db := Applied(s.db, change)))
  {
    hide RowHolds, ReadsHold, MayWrite;
    var after := s.(db := Applied(s.db, change));
    forall t | t in s.scopes
      ensures ScopeSound(after, t)
    {
      assert ScopeSound(s, t);
      if Locked(s.scopes[t].phase) {
        ForeignWriteKeepsScope(s, tx, change, t);
        assert HoldsScope(after, t, s.scopes[t]) == HoldsScope(s, t, s.scopes[t]);
      }
    }
  }

  lemma BeginKeepsInv(s: State, step: Step)
    requires Inv(s) && step.Begin? && step.tx !in s.scopes
    ensures Inv(BeginScope(s, step))
  {
    hide HeldTogether, RowHolds, ReadsHold;
    var after := BeginScope(s, step);
    forall t | t in after.scopes
      ensures ScopeSound(after, t)
    {
      if t != step.tx {
        assert ScopeSound(s, t);
        assert HoldsScope(s, t, s.scopes[t]) ==> HoldsScope(after, t, s.scopes[t]);
      }
    }
  }

  lemma StepKeepsInv(s: State, step: Step)
    requires Inv(s)
    ensures Inv(Next(s, step))
  {
    hide Inv, MayWrite, Free, Taken, Released, Applied;
    match step
    case Begin(tx, _, _, _, _) =>
      if tx !in s.scopes {
        BeginKeepsInv(s, step);
      }
    case Acquire(tx, request) =>
      if Free(s, tx, request) {
        AcquireKeepsInv(s, tx, request);
      }
    case CheckRows(tx) =>
      if tx in s.scopes && s.scopes[tx].phase.Locking? {
        CheckRowsKeepsInv(s, tx);
      }
    case ReadSlicesAndCompare(tx) =>
      if tx in s.scopes && s.scopes[tx].phase.LinksRead? {
        CompareKeepsInv(s, tx);
      }
    case Write(tx, change) => WriteStepKeepsInv(s, tx, change);
    case End(tx) => EndKeepsInv(s, tx);
    case _ => ReadKeepsInv(s, step);
  }

  lemma WriteStepKeepsInv(s: State, tx: TxId, change: Change)
    requires Inv(s)
    ensures Inv(Next(s, Write(tx, change)))
  {
    hide Inv, MayWrite, Applied;
    if MayWrite(s, tx, change) {
      if tx !in s.scopes {
        WriteKeepsInv(s, tx, change);
      } else if s.scopes[tx].phase.Returned? || s.scopes[tx].phase == Ended(None) {
        EndedIsSound(s, tx);
        PhaseStep(s, tx, Ended(None));
        SameMayWrite(s, tx, change);
        WriteKeepsInv(To(s, tx, Ended(None)), tx, change);
        assert To(s.(db := Applied(s.db, change)), tx, Ended(None))
               == To(s, tx, Ended(None)).(db := Applied(s.db, change));
      }
    }
  }

  lemma EndedIsSound(s: State, tx: TxId)
    requires tx in s.scopes
    ensures ScopeSound(To(s, tx, Ended(None)), tx)
  {
  }

  lemma SameMayWrite(s: State, tx: TxId, change: Change)
    requires tx in s.scopes
    ensures MayWrite(To(s, tx, Ended(None)), tx, change) == MayWrite(s, tx, change)
  {
  }

  lemma EndKeepsInv(s: State, tx: TxId)
    requires Inv(s)
    ensures Inv(Next(s, End(tx)))
  {
    hide HeldTogether, RowHolds, ReadsHold, HoldsScope, Released;
    if tx in s.scopes && !s.scopes[tx].phase.Ended? {
      PhaseStep(s, tx, Ended(None));
      ReleaseKeepsInv(To(s, tx, Ended(None)), tx);
    } else {
      ReleaseKeepsInv(s, tx);
      if tx in s.scopes {
        assert To(s, tx, s.scopes[tx].phase) == s;
      }
    }
  }

  lemma {:induction false} RunKeepsInv(s: State, steps: seq<Step>)
    requires Inv(s)
    ensures Inv(Run(s, steps))
    decreases |steps|
  {
    hide Inv, Next;
    if steps != [] {
      StepKeepsInv(s, steps[0]);
      RunKeepsInv(Next(s, steps[0]), steps[1..]);
    }
  }

  /** No scope, no lock, any rows. */
  function Initial(db: Db): State {
    State(db, map[], map[])
  }

  ghost function Reached(db: Db, steps: seq<Step>): State
  {
    Run(Initial(db), steps)
  }

  lemma ReachedIsSound(db: Db, steps: seq<Step>)
    ensures Inv(Reached(db, steps))
  {
    assert Inv(Initial(db));
    RunKeepsInv(Initial(db), steps);
  }

  // ---------- What a returned scope means ----------

  /**
   * From its return to the write's own first change, what a scope locked is exactly the true
   * lineage, and the application row is the version the caller expected.
   */
  lemma ReturnedScopeIsTrue(db: Db, steps: seq<Step>, tx: TxId)
    requires tx in Reached(db, steps).scopes && Reached(db, steps).scopes[tx].phase.Returned?
    ensures
      var s, scope := Reached(db, steps), Reached(db, steps).scopes[tx];
      && scope.discovered == TrueLineage(s.db, DeliveryIds(scope), scope.application)
      && HoldsScope(s, tx, scope) && RowHolds(s.db, scope)
  {
    ReachedIsSound(db, steps);
    assert ScopeSound(Reached(db, steps), tx);
  }

  /** The last comparison refuses exactly when the discovered lineage is not the true one, and then retryably. */
  lemma ComparisonIsExact(db: Db, steps: seq<Step>, tx: TxId)
    requires tx in Reached(db, steps).scopes && Reached(db, steps).scopes[tx].phase.LinksRead?
    ensures
      var s, scope := Reached(db, steps), Reached(db, steps).scopes[tx];
      var phase := Next(s, ReadSlicesAndCompare(tx)).scopes[tx].phase;
      && (phase.Returned? <==> scope.discovered == TrueLineage(s.db, DeliveryIds(scope), scope.application))
      && (!phase.Returned? ==> phase == Ended(Some(RetryableConflict)))
  {
    ReachedIsSound(db, steps);
    assert ScopeSound(Reached(db, steps), tx);
  }

  /**
   * A writer that has taken every lock of its plan holds the scope it discovered: nothing the
   * rediscovery relies on is missing from the plan.
   */
  lemma PlanHoldsScope(s: State, tx: TxId, scope: Scope, w: Writer)
    requires w.ApplicationWrite? && forall request | request in LockPlan(w) :: HeldIn(s, tx, request.resource, request.mode)
    requires forall f | f in scope.discovered.facilities.Values :: f in w.facilities
    requires forall r | r in scope.discovered.runs :: r in w.runs
    requires forall b | b in scope.discovered.batches :: b in w.batches
    requires forall d | d in DeliveryIds(scope) :: d in w.deliveries
    requires w.application == scope.application
    ensures HoldsScope(s, tx, scope)
  {
    hide LockPlan, HeldIn;
    forall rank, mode, id | NeedsRow(w, rank, mode, id)
      ensures HeldIn(s, tx, Resource(rank, id), mode)
    {
      PlanIff(w, rank, mode, id);
    }
  }

  // ---------- A scope on its own ----------

  lemma OneStep(s: State, step: Step, rest: seq<Step>)
    ensures Run(s, [step] + rest) == Run(Next(s, step), rest)
  {
    assert ([step] + rest)[1..] == rest;
  }

  /** The rediscovery, statement by statement. */
  function Rediscovery(tx: TxId): seq<Step> {
    [CheckRows(tx)] + ([ReadDeliveries(tx)] + ([ReadProvenance(tx)] + ([ReadShares(tx)] + ([ReadLinks(tx)]
      + ([ReadSlicesAndCompare(tx)] + [])))))
  }

  /** The row the scope was opened for is as it was expected. */
  predicate RowAsExpected(s: State, scope: Scope) {
    scope.application.Some? ==>
      && scope.application.value in s.db.applications
      && s.db.applications[scope.application.value].version == scope.expectedVersion
      && Some(s.db.applications[scope.application.value].delivery) == scope.saved
  }

  lemma ReturnedWrites(s: State, tx: TxId, change: Change)
    requires tx in s.scopes && MayWrite(s, tx, change)
    ensures
      var returned := To(s, tx, Returned);
      Next(returned, Write(tx, change)) == To(s.(db := Applied(s.db, change)), tx, Ended(None))
  {
    assert MayWrite(To(s, tx, Returned), tx, change);
    hide Applied, MayWrite;
  }

  /** Undisturbed, a scope that holds its rows and discovered the true lineage of an expected row returns, and then writes. */
  lemma AloneItReturns(s: State, tx: TxId, change: Change)
    requires tx in s.scopes && s.scopes[tx].phase.Locking? && HoldsScope(s, tx, s.scopes[tx])
    requires RowAsExpected(s, s.scopes[tx]) && MayWrite(s, tx, change)
    requires s.scopes[tx].discovered == TrueLineage(s.db, DeliveryIds(s.scopes[tx]), s.scopes[tx].application)
    ensures
      var after := Run(s, Rediscovery(tx));
      after == To(s, tx, Returned) && Next(after, Write(tx, change)) == To(s.(db := Applied(s.db, change)), tx, Ended(None))
  {
    hide HoldsScope, MayWrite, Applied, FacilitiesOf, ProvenanceOf, SharesOf, SlicesOf, LinkedTo;
    var a := Next(s, CheckRows(tx));
    assert a == To(s, tx, RowsChecked);
    var b := Next(a, ReadDeliveries(tx));
    var c := Next(b, ReadProvenance(tx));
    var d := Next(c, ReadShares(tx));
    var e := Next(d, ReadLinks(tx));
    var f := Next(e, ReadSlicesAndCompare(tx));
    assert f == To(s, tx, Returned);
    ReturnedWrites(s, tx, change);
    hide Next;
    OneStep(s, CheckRows(tx), [ReadDeliveries(tx)] + ([ReadProvenance(tx)] + ([ReadShares(tx)] + ([ReadLinks(tx)]
      + ([ReadSlicesAndCompare(tx)] + [])))));
    OneStep(a, ReadDeliveries(tx), [ReadProvenance(tx)] + ([ReadShares(tx)] + ([ReadLinks(tx)]
      + ([ReadSlicesAndCompare(tx)] + []))));
    OneStep(b, ReadProvenance(tx), [ReadShares(tx)] + ([ReadLinks(tx)] + ([ReadSlicesAndCompare(tx)] + [])));
    OneStep(c, ReadShares(tx), [ReadLinks(tx)] + ([ReadSlicesAndCompare(tx)] + []));
    OneStep(d, ReadLinks(tx), [ReadSlicesAndCompare(tx)] + []);
    OneStep(e, ReadSlicesAndCompare(tx), []);
  }
}
