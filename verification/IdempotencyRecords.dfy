/**
 * Idempotency keys claimed by concurrent write transactions
 * (`src/data-access/api-idempotency-records.ts`).
 *
 * A state machine over database statements at Read Committed: an insert waits for an
 * uncommitted record of its key and cannot see it, a delete or update locks the committed
 * row, a wait may time out, and any transaction may be rolled back at any point. Each
 * transaction has its own clock reading, so readings need not be ordered.
 */
module IdempotencyRecords {
  import opened Outcomes
  import opened Retention

  type RecordId = nat
  type TxId = nat
  type Instant = int
  type Fingerprint = string

  const RETENTION_MS: Instant := 7 * 86_400_000
  const PURGE_BATCH_SIZE: nat := 1_000

  datatype Key = Key(organization: string, credential: string, key: string)

  /** `Foreign` is any stored outcome that is not a success envelope. */
  datatype Stored = Success(data: string, effect: Option<string>) | Foreign

  datatype Claim = Claim(key: Key, fingerprint: Fingerprint)

  /** What a record is inserted with; only its outcome ever changes. */
  datatype Birth = Birth(key: Key, fingerprint: Fingerprint, version: nat, expiresAt: Instant)

  datatype Record = Record(birth: Birth, outcome: Option<Stored>)

  type Table = map<RecordId, Record>

  /** `seenAt`: how much of the history had been committed when the replayed record was read. */
  datatype Answer =
    | Owned(id: RecordId)
    | Replayed(id: RecordId, outcome: Stored, seenAt: nat)
    | InProgress
    | KeyReused
    | ReplayUnavailable
    | Failed

  /** `removed` is the expired row this transaction deleted; `update` an uncommitted outcome of a replayed row. */
  datatype Phase =
    | Inserting
    | Finding
    | InsertingAgain
    | Deleting(id: RecordId)
    | Reclaiming(removed: Option<RecordId>)
    | Owning(id: RecordId, removed: Option<RecordId>, result: Option<Stored>)
    | Replaying(id: RecordId, outcome: Stored, seenAt: nat, update: Option<Stored>)
    | Ended(answer: Answer)

  /** `version`: the outcome schema version of the code that runs the transaction. */
  datatype Tx = Tx(claim: Claim, now: Instant, version: nat, phase: Phase)

  /** The committed history. */
  datatype Event =
    | Claimed(id: RecordId, birth: Birth, result: Option<Stored>)
    | Recorded(id: RecordId, outcome: Stored)
    | Removed(id: RecordId, at: Instant)

  datatype State = State(
    records: Table,
    txs: map<TxId, Tx>,
    nextId: RecordId,
    births: map<RecordId, Birth>,
    log: seq<Event>)

  const Initial := State(map[], map[], 0, map[], [])

  datatype Step =
    | Begin(tx: TxId, claim: Claim, now: Instant, version: nat)
    | Insert(tx: TxId)
    | Find(tx: TxId)
    | Delete(tx: TxId)
    | RecordOutcome(tx: TxId, data: string, effect: Option<string>)
    | Commit(tx: TxId)
    | Timeout(tx: TxId)
    | Fail(tx: TxId)
    | PurgeRow(now: Instant, id: RecordId)

  // ---------- Locks ----------

  function RemovedRow(tx: Tx): Option<RecordId> {
    match tx.phase
    case Reclaiming(removed) => removed
    case Owning(_, removed, _) => removed
    case _ => None
  }

  /** An uncommitted record of this key exists. */
  predicate Owns(tx: Tx, key: Key) {
    tx.phase.Owning? && tx.claim.key == key
  }

  /** The transaction deleted or updated this committed row. */
  predicate Holds(tx: Tx, id: RecordId) {
    RemovedRow(tx) == Some(id) || (tx.phase.Replaying? && tx.phase.update.Some? && tx.phase.id == id)
  }

  predicate RowBusy(s: State, me: TxId, id: RecordId) {
    exists t | t in s.txs :: t != me && Holds(s.txs[t], id)
  }

  predicate KeyBusy(s: State, me: TxId, key: Key) {
    exists t | t in s.txs :: t != me && Owns(s.txs[t], key)
  }

  predicate IsOf(records: Table, id: RecordId, key: Key) {
    id in records && records[id].birth.key == key
  }

  /** The insert waits on another transaction: its uncommitted record, or a committed one it changed. */
  predicate MustWait(s: State, me: TxId)
    requires me in s.txs
  {
    var key := s.txs[me].claim.key;
    KeyBusy(s, me, key) || exists id | id in s.records :: IsOf(s.records, id, key) && RowBusy(s, me, id)
  }

  predicate Conflicts(s: State, me: TxId, id: RecordId)
    requires me in s.txs
  {
    IsOf(s.records, id, s.txs[me].claim.key) && RemovedRow(s.txs[me]) != Some(id)
  }

  // ---------- Steps ----------

  function Advance(s: State, id: TxId, phase: Phase): State
    requires id in s.txs
  {
    s.(txs := s.txs[id := s.txs[id].(phase := phase)])
  }

  function InsertClaim(s: State, id: TxId): State
    requires id in s.txs
  {
    var phase := s.txs[id].phase;
    if MustWait(s, id) then s
    else if exists rec | rec in s.records :: Conflicts(s, id, rec) then
      Advance(s, id, if phase.Inserting? then Finding else Ended(InProgress))
    else Advance(s, id, Owning(s.nextId, RemovedRow(s.txs[id]), None)).(nextId := s.nextId + 1)
  }

  /** What a claim does with the committed record it found. */
  function Judge(s: State, tx: Tx, id: RecordId): Phase
    requires id in s.records
  {
    var record := s.records[id];
    if record.birth.expiresAt <= tx.now then Deleting(id)
    else if record.birth.fingerprint != tx.claim.fingerprint then Ended(KeyReused)
    else if record.outcome.None? then Ended(InProgress)
    else if record.birth.version != tx.version || !record.outcome.value.Success? then Ended(ReplayUnavailable)
    else Replaying(id, record.outcome.value, |s.log|, None)
  }

  ghost function FindRecord(s: State, id: TxId): State
    requires id in s.txs
  {
    if rec :| IsOf(s.records, rec, s.txs[id].claim.key) then Advance(s, id, Judge(s, s.txs[id], rec))
    else Advance(s, id, InsertingAgain)
  }

  function BirthOf(tx: Tx): Birth {
    Birth(tx.claim.key, tx.claim.fingerprint, tx.version, tx.now + RETENTION_MS)
  }

  function WithoutRow(records: Table, removed: Option<RecordId>): Table {
    match removed
    case None => records
    case Some(id) => records - {id}
  }

  function RemovalLog(tx: Tx): seq<Event> {
    match RemovedRow(tx)
    case None => []
    case Some(id) => [Removed(id, tx.now)]
  }

  function CommitOwner(s: State, id: TxId): State
    requires id in s.txs && s.txs[id].phase.Owning?
  {
    var tx := s.txs[id];
    var record, birth, outcome := tx.phase.id, BirthOf(tx), tx.phase.result;
    State(WithoutRow(s.records, tx.phase.removed)[record := Record(birth, outcome)],
          s.txs[id := tx.(phase := Ended(Owned(record)))],
          s.nextId,
          s.births[record := birth],
          s.log + RemovalLog(tx) + [Claimed(record, birth, outcome)])
  }

  function CommitReplay(s: State, id: TxId): State
    requires id in s.txs && s.txs[id].phase.Replaying?
  {
    var phase := s.txs[id].phase;
    var ended := Advance(s, id, Ended(Replayed(phase.id, phase.outcome, phase.seenAt)));
    if phase.update.None? || phase.id !in s.records then ended
    else ended.(records := s.records[phase.id := s.records[phase.id].(outcome := phase.update)],
                log := s.log + [Recorded(phase.id, phase.update.value)])
  }

  /** A step that is not enabled changes nothing: the statement waits or is never sent. */
  ghost function Next(s: State, step: Step): State {
    match step
    case Begin(id, claim, now, version) =>
      if id in s.txs then s else s.(txs := s.txs[id := Tx(claim, now, version, Inserting)])
    case Insert(id) =>
      if id in s.txs && (s.txs[id].phase.Inserting? || s.txs[id].phase.InsertingAgain? || s.txs[id].phase.Reclaiming?)
      then InsertClaim(s, id) else s
    case Find(id) => if id in s.txs && s.txs[id].phase.Finding? then FindRecord(s, id) else s
    case Delete(id) =>
      if id in s.txs && s.txs[id].phase.Deleting? && !RowBusy(s, id, s.txs[id].phase.id) then
        var row := s.txs[id].phase.id;
        Advance(s, id, Reclaiming(if row in s.records then Some(row) else None))
      else s
    case RecordOutcome(id, data, effect) =>
      if id !in s.txs then s
      else (match s.txs[id].phase
            case Owning(row, removed, _) => Advance(s, id, Owning(row, removed, Some(Success(data, effect))))
            case Replaying(row, outcome, seenAt, _) =>
              if row in s.records && !RowBusy(s, id, row)
              then Advance(s, id, Replaying(row, outcome, seenAt, Some(Success(data, effect)))) else s
            case _ => s)
    case Commit(id) =>
      if id in s.txs && s.txs[id].phase.Owning? then CommitOwner(s, id)
      else if id in s.txs && s.txs[id].phase.Replaying? then CommitReplay(s, id)
      else s
    case Timeout(id) =>
      if id in s.txs
         && (match s.txs[id].phase
             case Inserting | InsertingAgain | Reclaiming(_) => MustWait(s, id)
             case Deleting(row) => RowBusy(s, id, row)
             case _ => false)
      then Advance(s, id, Ended(InProgress)) else s
    case Fail(id) => if id in s.txs && !s.txs[id].phase.Ended? then Advance(s, id, Ended(Failed)) else s
    case PurgeRow(now, row) =>
      if row in s.records && s.records[row].birth.expiresAt <= now && (forall t | t in s.txs :: !Holds(s.txs[t], row))
      then s.(records := s.records - {row}, log := s.log + [Removed(row, now)]) else s
  }

  ghost function Run(s: State, steps: seq<Step>): State
    decreases |steps|
  {
    if steps == [] then s else Run(Next(s, steps[0]), steps[1..])
  }

  // ---------- Invariant ----------

  /** The outcome last committed on a record. */
  function LastOutcome(log: seq<Event>, id: RecordId): Option<Stored> {
    if log == [] then None
    else
      match log[|log| - 1]
      case Claimed(at, _, outcome) => if at == id then outcome else LastOutcome(log[..|log| - 1], id)
      case Recorded(at, outcome) => if at == id then Some(outcome) else LastOutcome(log[..|log| - 1], id)
      case Removed(_, _) => LastOutcome(log[..|log| - 1], id)
  }

  lemma AppendEvent(log: seq<Event>, event: Event, id: RecordId)
    ensures LastOutcome(log + [event], id) ==
      match event
      case Claimed(at, _, outcome) => if at == id then outcome else LastOutcome(log, id)
      case Recorded(at, outcome) => if at == id then Some(outcome) else LastOutcome(log, id)
      case Removed(_, _) => LastOutcome(log, id)
  {
    assert (log + [event])[..|log|] == log;
  }

  /** Between two points of the history the record was removed at a reading at or past its expiry. */
  ghost predicate ExpiredBetween(log: seq<Event>, after: int, before: int, id: RecordId, expiresAt: Instant) {
    exists m | after < m < before && 0 <= m < |log| :: log[m].Removed? && log[m].id == id && log[m].at >= expiresAt
  }

  ghost predicate RecordsSound(s: State) {
    && (forall a, b | a in s.records && b in s.records :: s.records[a].birth.key == s.records[b].birth.key ==> a == b)
    && (forall a | a in s.records ::
          a in s.births && s.births[a] == s.records[a].birth && LastOutcome(s.log, a) == s.records[a].outcome)
    && (forall a | a in s.births :: a < s.nextId)
  }

  /** Every record ever committed is still there, or was removed past its expiry. */
  ghost predicate ClaimSound(s: State, i: nat)
    requires i < |s.log| && s.log[i].Claimed?
  {
    var event := s.log[i];
    && event.id in s.births && s.births[event.id] == event.birth
    && (event.id in s.records || ExpiredBetween(s.log, i, |s.log|, event.id, event.birth.expiresAt))
  }

  ghost predicate Separated(log: seq<Event>) {
    forall i, j | 0 <= i < j < |log| && log[i].Claimed? && log[j].Claimed? && log[i].birth.key == log[j].birth.key ::
      ExpiredBetween(log, i, j, log[i].id, log[i].birth.expiresAt)
  }

  ghost predicate LogSound(s: State) {
    && (forall i | 0 <= i < |s.log| && s.log[i].Claimed? :: ClaimSound(s, i))
    && Separated(s.log)
  }

  /** A row this claim deletes: of its key, and expired at its reading. */
  ghost predicate Expired(s: State, tx: Tx, id: RecordId) {
    id in s.births && s.births[id].key == tx.claim.key && s.births[id].expiresAt <= tx.now
  }

  ghost predicate RemovedSound(s: State, tx: Tx, removed: Option<RecordId>) {
    removed.Some? ==> removed.value in s.records && Expired(s, tx, removed.value)
  }

  /** A replay answers an unexpired record of the same request, with the outcome last committed on it. */
  ghost predicate ReplaySound(s: State, tx: Tx, id: RecordId, outcome: Stored, seenAt: nat) {
    && id in s.births && s.births[id].key == tx.claim.key && s.births[id].fingerprint == tx.claim.fingerprint
    && s.births[id].expiresAt > tx.now && s.births[id].version == tx.version
    && seenAt <= |s.log| && LastOutcome(s.log[..seenAt], id) == Some(outcome) && outcome.Success?
  }

  ghost predicate TxSound(s: State, tx: Tx) {
    match tx.phase
    case Deleting(id) => Expired(s, tx, id)
    case Reclaiming(removed) => RemovedSound(s, tx, removed)
    case Owning(id, removed, _) =>
      && id < s.nextId && id !in s.births && RemovedSound(s, tx, removed)
      && forall a: RecordId | IsOf(s.records, a, tx.claim.key) :: removed == Some(a)
    case Replaying(id, outcome, seenAt, update) =>
      ReplaySound(s, tx, id, outcome, seenAt) && (update.Some? ==> id in s.records)
    case Ended(Replayed(id, outcome, seenAt)) => ReplaySound(s, tx, id, outcome, seenAt)
    case _ => true
  }

  /** Two transactions never own one key, hold one row or insert one id. */
  ghost predicate PairSound(a: Tx, b: Tx) {
    && !(a.phase.Owning? && b.phase.Owning? && (a.claim.key == b.claim.key || a.phase.id == b.phase.id))
    && forall id :: !(Holds(a, id) && Holds(b, id))
  }

  ghost predicate TxsSound(s: State) {
    && (forall t | t in s.txs :: TxSound(s, s.txs[t]))
    && forall t, u | t in s.txs && u in s.txs && t != u :: PairSound(s.txs[t], s.txs[u])
  }

  ghost predicate Inv(s: State) {
    RecordsSound(s) && LogSound(s) && TxsSound(s)
  }

  // ---------- Every step keeps it ----------

  /** A step that changes one transaction only. */
  lemma TxChangeKeepsInv(s: State, id: TxId, tx: Tx, nextId: RecordId)
    requires Inv(s) && nextId >= s.nextId
    requires TxSound(s.(nextId := nextId), tx)
    requires forall u | u in s.txs && u != id :: PairSound(tx, s.txs[u]) && PairSound(s.txs[u], tx)
    ensures Inv(s.(txs := s.txs[id := tx], nextId := nextId))
  {
    hide PairSound, Separated, ExpiredBetween, LastOutcome;
    var after := s.(txs := s.txs[id := tx], nextId := nextId);
    assert forall i | 0 <= i < |s.log| && s.log[i].Claimed? :: ClaimSound(s, i) ==> ClaimSound(after, i);
  }

  /** Ending, or going back to no lock and no record, is always sound for the others. */
  lemma IdleIsPairSound(s: State, id: TxId, tx: Tx)
    requires !tx.phase.Owning? && forall row :: !Holds(tx, row)
    ensures forall u | u in s.txs && u != id :: PairSound(tx, s.txs[u]) && PairSound(s.txs[u], tx)
  {
  }

  lemma InsertKeepsInv(s: State, id: TxId)
    requires Inv(s) && id in s.txs
    requires s.txs[id].phase.Inserting? || s.txs[id].phase.InsertingAgain? || s.txs[id].phase.Reclaiming?
    ensures Inv(InsertClaim(s, id))
  {
    var tx, after := s.txs[id], InsertClaim(s, id);
    if after != s {
      var changed := after.txs[id];
      if changed.phase.Owning? {
        assert forall row :: Holds(changed, row) ==> Holds(tx, row);
        forall u | u in s.txs && u != id
          ensures PairSound(changed, s.txs[u]) && PairSound(s.txs[u], changed)
        {
          assert PairSound(tx, s.txs[u]) && PairSound(s.txs[u], tx) && TxSound(s, s.txs[u]);
          assert !Owns(s.txs[u], tx.claim.key);
        }
      } else {
        IdleIsPairSound(s, id, changed);
      }
      TxChangeKeepsInv(s, id, changed, after.nextId);
    }
  }

  lemma FindKeepsInv(s: State, id: TxId)
    requires Inv(s) && id in s.txs && s.txs[id].phase.Finding?
    ensures Inv(FindRecord(s, id))
  {
    var after := FindRecord(s, id);
    assert s.log[..|s.log|] == s.log;
    IdleIsPairSound(s, id, after.txs[id]);
    TxChangeKeepsInv(s, id, after.txs[id], s.nextId);
  }

  /** Taking the lock of one free row. */
  lemma LockKeepsInv(s: State, id: TxId, tx: Tx, row: RecordId)
    requires Inv(s) && id in s.txs && TxSound(s, tx) && !tx.phase.Owning?
    requires !RowBusy(s, id, row) && forall other :: Holds(tx, other) ==> other == row
    ensures Inv(s.(txs := s.txs[id := tx]))
  {
    forall u | u in s.txs && u != id
      ensures PairSound(tx, s.txs[u]) && PairSound(s.txs[u], tx)
    {
      assert !Holds(s.txs[u], row);
    }
    TxChangeKeepsInv(s, id, tx, s.nextId);
  }

  lemma RecordOutcomeKeepsInv(s: State, id: TxId, data: string, effect: Option<string>)
    requires Inv(s) && id in s.txs
    ensures Inv(Next(s, RecordOutcome(id, data, effect)))
  {
    var tx, after := s.txs[id], Next(s, RecordOutcome(id, data, effect));
    match tx.phase
    case Owning(_, _, _) =>
      assert forall row :: Holds(after.txs[id], row) == Holds(tx, row);
      assert forall u | u in s.txs && u != id :: PairSound(tx, s.txs[u]) && PairSound(s.txs[u], tx);
      TxChangeKeepsInv(s, id, after.txs[id], s.nextId);
    case Replaying(row, _, _, _) =>
      if after != s {
        LockKeepsInv(s, id, after.txs[id], row);
      }
    case _ =>
  }

  /** Removing an expired row nobody holds. */
  lemma PurgeKeepsInv(s: State, now: Instant, row: RecordId)
    requires Inv(s)
    ensures Inv(Next(s, PurgeRow(now, row)))
  {
    var after := Next(s, PurgeRow(now, row));
    if after != s {
      var event := Removed(row, now);
      forall a | a in after.records
        ensures LastOutcome(after.log, a) == LastOutcome(s.log, a)
      {
        AppendEvent(s.log, event, a);
      }
      assert after.log[|s.log|] == event;
      assert ExpiredBetween(after.log, |s.log| - 1, |after.log|, row, s.births[row].expiresAt);
      LogAfter(s, after, [event]);
      TxsAfterRemoval(s, after, row);
    }
  }

  /** The history grows by removals of the rows that went, and no claim loses its proof. */
  lemma LogAfter(s: State, after: State, events: seq<Event>)
    requires LogSound(s) && after.log == s.log + events
    requires forall e | e in events :: !e.Claimed?
    requires forall a | a in s.births :: a in after.births && after.births[a] == s.births[a]
    requires forall a | a in s.records && a !in after.records ::
      a in s.births && ExpiredBetween(after.log, |s.log| - 1, |after.log|, a, s.births[a].expiresAt)
    ensures LogSound(after)
  {
    hide ExpiredBetween;
    forall i | 0 <= i < |after.log| && after.log[i].Claimed?
      ensures ClaimSound(after, i)
    {
      assert i < |s.log| && ClaimSound(s, i);
      WiderRange(s.log, after.log, i, |s.log|, i, |after.log|, s.log[i].id, s.log[i].birth.expiresAt);
      WiderRange(after.log, after.log, |s.log| - 1, |after.log|, i, |after.log|, s.log[i].id, s.log[i].birth.expiresAt);
    }
    forall i, j | 0 <= i < j < |after.log| && after.log[i].Claimed? && after.log[j].Claimed?
                  && after.log[i].birth.key == after.log[j].birth.key
      ensures ExpiredBetween(after.log, i, j, after.log[i].id, after.log[i].birth.expiresAt)
    {
      assert j < |s.log|;
      WiderRange(s.log, after.log, i, j, i, j, s.log[i].id, s.log[i].birth.expiresAt);
    }
  }

  lemma WiderRange(a: seq<Event>, b: seq<Event>, lo: int, hi: int, lo': int, hi': int, id: RecordId, expiresAt: Instant)
    requires a <= b && lo' <= lo && hi <= hi'
    ensures ExpiredBetween(a, lo, hi, id, expiresAt) ==> ExpiredBetween(b, lo', hi', id, expiresAt)
  {
    if ExpiredBetween(a, lo, hi, id, expiresAt) {
      var m :| lo < m < hi && 0 <= m < |a| && a[m].Removed? && a[m].id == id && a[m].at >= expiresAt;
      assert b[m] == a[m];
    }
  }

  lemma TxsAfterRemoval(s: State, after: State, row: RecordId)
    requires TxsSound(s) && after.records == s.records - {row} && after.births == s.births && after.nextId == s.nextId
    requires s.log <= after.log && after.txs == s.txs && forall t | t in s.txs :: !Holds(s.txs[t], row)
    ensures TxsSound(after)
  {
    hide LastOutcome, PairSound;
    forall t | t in after.txs
      ensures TxSound(after, after.txs[t])
    {
      assert TxSound(s, s.txs[t]) && !Holds(s.txs[t], row);
      if s.txs[t].phase.Replaying? || (s.txs[t].phase.Ended? && s.txs[t].phase.answer.Replayed?) {
        var seenAt := if s.txs[t].phase.Replaying? then s.txs[t].phase.seenAt else s.txs[t].phase.answer.seenAt;
        assert after.log[..seenAt] == s.log[..seenAt];
      }
    }
  }

  lemma CommitRecordsSound(s: State, id: TxId)
    requires Inv(s) && id in s.txs && s.txs[id].phase.Owning?
    ensures RecordsSound(CommitOwner(s, id))
  {
    var tx, after := s.txs[id], CommitOwner(s, id);
    assert TxSound(s, tx);
    var claimed := Claimed(tx.phase.id, BirthOf(tx), tx.phase.result);
    forall a | a in after.records
      ensures LastOutcome(after.log, a) == after.records[a].outcome
    {
      AppendEvent(s.log + RemovalLog(tx), claimed, a);
      if tx.phase.removed.Some? {
        AppendEvent(s.log, Removed(tx.phase.removed.value, tx.now), a);
      } else {
        assert s.log + RemovalLog(tx) == s.log;
      }
    }
    var removed, added := tx.phase.removed, tx.phase.id;
    assert forall a: RecordId | IsOf(s.records, a, tx.claim.key) :: removed == Some(a);
    assert forall a | a in after.records && a != added :: a in s.records && removed != Some(a);
  }

  lemma CommitLogSound(s: State, id: TxId)
    requires Inv(s) && id in s.txs && s.txs[id].phase.Owning?
    ensures LogSound(CommitOwner(s, id))
  {
    var tx, after := s.txs[id], CommitOwner(s, id);
    var removals, key := RemovalLog(tx), tx.claim.key;
    var mid := after.(log := s.log + removals);
    assert TxSound(s, tx);
    if tx.phase.removed.Some? {
      var row := tx.phase.removed.value;
      assert mid.log[|s.log|] == Removed(row, tx.now);
      assert ExpiredBetween(mid.log, |s.log| - 1, |mid.log|, row, s.births[row].expiresAt);
    }
    LogAfter(s, mid, removals);
    hide ExpiredBetween, LastOutcome;
    var last := |mid.log|;
    forall i | 0 <= i < last && mid.log[i].Claimed?
      ensures ClaimSound(after, i)
      ensures after.log[i].birth.key == key ==> ExpiredBetween(after.log, i, last, after.log[i].id, after.log[i].birth.expiresAt)
    {
      var event := mid.log[i];
      assert ClaimSound(mid, i) && after.log[i] == event;
      WiderRange(mid.log, after.log, i, last, i, |after.log|, event.id, event.birth.expiresAt);
      WiderRange(mid.log, after.log, i, last, i, last, event.id, event.birth.expiresAt);
      assert i < |s.log| && ClaimSound(s, i);
      assert IsOf(s.records, event.id, key) ==> tx.phase.removed == Some(event.id);
    }
    forall i, j | 0 <= i < j < last && after.log[i].Claimed? && after.log[j].Claimed?
                  && after.log[i].birth.key == after.log[j].birth.key
      ensures ExpiredBetween(after.log, i, j, after.log[i].id, after.log[i].birth.expiresAt)
    {
      assert mid.log[i] == after.log[i] && mid.log[j] == after.log[j];
      WiderRange(mid.log, after.log, i, j, i, j, mid.log[i].id, mid.log[i].birth.expiresAt);
    }
  }

  lemma CommitTxsSound(s: State, id: TxId)
    requires Inv(s) && id in s.txs && s.txs[id].phase.Owning?
    ensures TxsSound(CommitOwner(s, id))
  {
    var tx, after := s.txs[id], CommitOwner(s, id);
    assert TxSound(s, tx);
    forall t | t in after.txs
      ensures TxSound(after, after.txs[t])
    {
      if t != id {
        assert TxSound(s, s.txs[t]) && PairSound(s.txs[t], tx);
        CommitTxSound(s, id, s.txs[t]);
      }
    }
    IdleIsPairSound(s, id, after.txs[id]);
  }

  /** Another transaction after an owner committed. */
  lemma CommitTxSound(s: State, id: TxId, other: Tx)
    requires Inv(s) && id in s.txs && s.txs[id].phase.Owning? && TxSound(s, other) && PairSound(other, s.txs[id])
    ensures TxSound(CommitOwner(s, id), other)
  {
    hide LastOutcome;
    var tx, after := s.txs[id], CommitOwner(s, id);
    assert TxSound(s, tx);
    assert tx.phase.removed.Some? ==> Holds(tx, tx.phase.removed.value);
    match other.phase
    case Reclaiming(removed) => assert removed.Some? ==> Holds(other, removed.value);
    case Owning(_, removed, _) =>
      assert removed.Some? ==> Holds(other, removed.value);
      assert forall a: RecordId | IsOf(after.records, a, other.claim.key) :: IsOf(s.records, a, other.claim.key);
    case Replaying(row, _, seenAt, update) =>
      assert update.Some? ==> Holds(other, row);
      assert after.log[..seenAt] == s.log[..seenAt];
    case Ended(Replayed(_, _, seenAt)) => assert after.log[..seenAt] == s.log[..seenAt];
    case _ =>
  }

  lemma CommitReplayKeepsInv(s: State, id: TxId)
    requires Inv(s) && id in s.txs && s.txs[id].phase.Replaying?
    ensures Inv(CommitReplay(s, id))
  {
    var tx, after := s.txs[id], CommitReplay(s, id);
    var phase, ended := tx.phase, Advance(s, id, Ended(Replayed(tx.phase.id, tx.phase.outcome, tx.phase.seenAt)));
    assert TxSound(s, tx);
    IdleIsPairSound(s, id, ended.txs[id]);
    TxChangeKeepsInv(s, id, ended.txs[id], s.nextId);
    if after != ended {
      var event := Recorded(phase.id, phase.update.value);
      forall a | a in after.records
        ensures LastOutcome(after.log, a) == after.records[a].outcome
      {
        AppendEvent(s.log, event, a);
      }
      LogAfter(ended, after, [event]);
      TxsAfterOutcome(ended, after);
    }
  }

  /** A new outcome on a record changes no key and no expiry. */
  lemma TxsAfterOutcome(s: State, after: State)
    requires TxsSound(s) && after.births == s.births && after.nextId == s.nextId && after.txs == s.txs
    requires after.records.Keys == s.records.Keys && s.log <= after.log
    requires forall a | a in s.records :: after.records[a].birth == s.records[a].birth
    ensures TxsSound(after)
  {
    hide LastOutcome, PairSound;
    forall t | t in after.txs
      ensures TxSound(after, after.txs[t])
    {
      assert TxSound(s, s.txs[t]);
      if s.txs[t].phase.Replaying? || (s.txs[t].phase.Ended? && s.txs[t].phase.answer.Replayed?) {
        var seenAt := if s.txs[t].phase.Replaying? then s.txs[t].phase.seenAt else s.txs[t].phase.answer.seenAt;
        assert after.log[..seenAt] == s.log[..seenAt];
      }
    }
  }

  lemma StepKeepsInv(s: State, step: Step)
    requires Inv(s)
    ensures Inv(Next(s, step))
  {
    hide Inv, TxsSound, RecordsSound, LogSound, MustWait, RowBusy;
    match step
    case Begin(id, claim, now, version) => BeginKeepsInv(s, id, claim, now, version);
    case Insert(id) =>
      if id in s.txs && (s.txs[id].phase.Inserting? || s.txs[id].phase.InsertingAgain? || s.txs[id].phase.Reclaiming?) {
        InsertKeepsInv(s, id);
      }
    case Find(id) =>
      if id in s.txs && s.txs[id].phase.Finding? {
        FindKeepsInv(s, id);
      }
    case Delete(id) => DeleteKeepsInv(s, id);
    case RecordOutcome(id, data, effect) =>
      if id in s.txs {
        RecordOutcomeKeepsInv(s, id, data, effect);
      }
    case Commit(id) => CommitKeepsInv(s, id);
    case Timeout(id) =>
      if id in s.txs {
        EndKeepsInv(s, id, InProgress);
      }
    case Fail(id) =>
      if id in s.txs {
        EndKeepsInv(s, id, Failed);
      }
    case PurgeRow(now, row) => PurgeKeepsInv(s, now, row);
  }

  lemma BeginKeepsInv(s: State, id: TxId, claim: Claim, now: Instant, version: nat)
    requires Inv(s)
    ensures Inv(Next(s, Begin(id, claim, now, version)))
  {
    if id !in s.txs {
      var tx := Tx(claim, now, version, Inserting);
      IdleIsPairSound(s, id, tx);
      TxChangeKeepsInv(s, id, tx, s.nextId);
    }
  }

  lemma DeleteKeepsInv(s: State, id: TxId)
    requires Inv(s)
    ensures Inv(Next(s, Delete(id)))
  {
    var after := Next(s, Delete(id));
    if after != s {
      assert TxSound(s, s.txs[id]);
      LockKeepsInv(s, id, after.txs[id], s.txs[id].phase.id);
    }
  }

  lemma CommitKeepsInv(s: State, id: TxId)
    requires Inv(s)
    ensures Inv(Next(s, Commit(id)))
  {
    if id in s.txs && s.txs[id].phase.Owning? {
      CommitRecordsSound(s, id);
      CommitLogSound(s, id);
      CommitTxsSound(s, id);
    } else if id in s.txs && s.txs[id].phase.Replaying? {
      CommitReplayKeepsInv(s, id);
    }
  }

  lemma EndKeepsInv(s: State, id: TxId, answer: Answer)
    requires Inv(s) && id in s.txs && !answer.Replayed?
    ensures Inv(Advance(s, id, Ended(answer)))
  {
    var after := Advance(s, id, Ended(answer));
    IdleIsPairSound(s, id, after.txs[id]);
    TxChangeKeepsInv(s, id, after.txs[id], s.nextId);
  }

  lemma {:induction false} RunKeepsInv(s: State, steps: seq<Step>)
    requires Inv(s)
    ensures Inv(Run(s, steps))
    decreases |steps|
  {
    hide Inv, Next;
    if steps != [] {
      StepKeepsInv(s, steps[0]);
      RunKeepsInv(Next(s, steps[0]), steps[1..]);
    }
  }

  ghost function Reached(steps: seq<Step>): State
  {
    Run(Initial, steps)
  }

  lemma ReachedIsSound(steps: seq<Step>)
    ensures Inv(Reached(steps))
  {
    RunKeepsInv(Initial, steps);
  }

  // ---------- What every run guarantees ----------

  /** At most one transaction owns a key, and while it does no other record of that key can be seen but the one it removes. */
  lemma AtMostOneOwner(steps: seq<Step>, t: TxId, u: TxId, key: Key)
    requires t in Reached(steps).txs && u in Reached(steps).txs && Owns(Reached(steps).txs[t], key)
    ensures Owns(Reached(steps).txs[u], key) ==> t == u
    ensures forall id: RecordId | IsOf(Reached(steps).records, id, key) ::
      RemovedRow(Reached(steps).txs[t]) == Some(id) && Reached(steps).records[id].birth.expiresAt <= Reached(steps).txs[t].now
  {
    ReachedIsSound(steps);
    var s := Reached(steps);
    assert TxSound(s, s.txs[t]);
    assert t != u ==> PairSound(s.txs[t], s.txs[u]);
  }

  /** Two committed owners of one key are separated by a removal read at or past the first one's expiry. */
  lemma OwnersSeparatedByExpiry(steps: seq<Step>, i: nat, j: nat)
    requires i < j < |Reached(steps).log| && Reached(steps).log[i].Claimed? && Reached(steps).log[j].Claimed?
    requires Reached(steps).log[i].birth.key == Reached(steps).log[j].birth.key
    ensures
      var log := Reached(steps).log;
      exists m :: i < m < j && log[m].Removed? && log[m].id == log[i].id && log[m].at >= log[i].birth.expiresAt
  {
    ReachedIsSound(steps);
    var log := Reached(steps).log;
    assert ExpiredBetween(log, i, j, log[i].id, log[i].birth.expiresAt);
  }

  /** A replay answers with the outcome last committed on a record of the same key and fingerprint. */
  lemma ReplayReturnsLastCommitted(steps: seq<Step>, t: TxId)
    requires t in Reached(steps).txs
    requires Reached(steps).txs[t].phase.Ended? && Reached(steps).txs[t].phase.answer.Replayed?
    ensures
      var s := Reached(steps);
      var tx, answer := s.txs[t], s.txs[t].phase.answer;
      && answer.id in s.births && s.births[answer.id].key == tx.claim.key
      && s.births[answer.id].fingerprint == tx.claim.fingerprint && s.births[answer.id].expiresAt > tx.now
      && answer.seenAt <= |s.log| && LastOutcome(s.log[..answer.seenAt], answer.id) == Some(answer.outcome)
  {
    ReachedIsSound(steps);
    var s := Reached(steps);
    assert TxSound(s, s.txs[t]);
  }

  ghost predicate StepOf(step: Step, id: TxId) {
    match step
    case Insert(t) => t == id
    case Find(t) => t == id
    case Delete(t) => t == id
    case RecordOutcome(t, _, _) => t == id
    case Timeout(t) => t == id
    case Fail(t) => t == id
    case _ => false
  }

  /** Everything another statement can see. */
  ghost predicate SameForOthers(s: State, after: State, id: TxId) {
    && after.records == s.records && after.log == s.log && after.births == s.births
    && after.txs.Keys == s.txs.Keys && forall t | t in s.txs && t != id :: after.txs[t] == s.txs[t]
  }

  lemma UncommittedStepIsPrivate(s: State, id: TxId, step: Step)
    requires id in s.txs && StepOf(step, id)
    ensures SameForOthers(s, Next(s, step), id)
  {
  }

  function ApplyEvent(table: Table, event: Event): Table {
    match event
    case Claimed(row, birth, outcome) => table[row := Record(birth, outcome)]
    case Recorded(row, outcome) => if row in table then table[row := table[row].(outcome := Some(outcome))] else table
    case Removed(row, _) => table - {row}
  }

  /** The table that a history leaves behind. */
  function TableFrom(log: seq<Event>): Table {
    if log == [] then map[] else ApplyEvent(TableFrom(log[..|log| - 1]), log[|log| - 1])
  }

  lemma TableAfter(log: seq<Event>, event: Event)
    ensures TableFrom(log + [event]) == ApplyEvent(TableFrom(log), event)
  {
    assert (log + [event])[..|log|] == log;
  }

  lemma StepFollowsLog(s: State, step: Step)
    requires s.records == TableFrom(s.log)
    ensures Next(s, step).records == TableFrom(Next(s, step).log) && s.log <= Next(s, step).log
  {
    hide TableFrom;
    match step
    case PurgeRow(now, id) => TableAfter(s.log, Removed(id, now));
    case Commit(id) =>
      if id in s.txs && s.txs[id].phase.Owning? {
        OwnerFollowsLog(s, id);
      } else if id in s.txs && s.txs[id].phase.Replaying? && s.txs[id].phase.update.Some? {
        TableAfter(s.log, Recorded(s.txs[id].phase.id, s.txs[id].phase.update.value));
      }
    case _ =>
  }

  lemma OwnerFollowsLog(s: State, id: TxId)
    requires s.records == TableFrom(s.log) && id in s.txs && s.txs[id].phase.Owning?
    ensures CommitOwner(s, id).records == TableFrom(CommitOwner(s, id).log)
  {
    hide TableFrom;
    var tx := s.txs[id];
    if tx.phase.removed.Some? {
      TableAfter(s.log, Removed(tx.phase.removed.value, tx.now));
    }
    assert tx.phase.removed.None? ==> s.log + RemovalLog(tx) == s.log;
    TableAfter(s.log + RemovalLog(tx), Claimed(tx.phase.id, BirthOf(tx), tx.phase.result));
  }

  lemma {:induction false} RunFollowsLog(s: State, steps: seq<Step>)
    requires s.records == TableFrom(s.log)
    ensures Run(s, steps).records == TableFrom(Run(s, steps).log) && s.log <= Run(s, steps).log
    decreases |steps|
  {
    hide TableFrom, Next;
    if steps != [] {
      StepFollowsLog(s, steps[0]);
      RunFollowsLog(Next(s, steps[0]), steps[1..]);
    }
  }

  /** Event `k` of the history was committed by a step that is not one of `id`'s own. */
  ghost predicate ByAnother(s: State, steps: seq<Step>, id: TxId, k: nat) {
    exists j | 0 <= j < |steps| ::
      && !StepOf(steps[j], id) && steps[j] != Commit(id)
      && |Run(s, steps[..j]).log| <= k < |Run(s, steps[..j + 1]).log|
  }

  lemma {:induction false} RunLast(s: State, steps: seq<Step>)
    requires steps != []
    ensures Run(s, steps) == Next(Run(s, steps[..|steps| - 1]), steps[|steps| - 1])
    decreases |steps|
  {
    hide Next;
    if |steps| > 1 {
      var n := |steps| - 1;
      RunLast(Next(s, steps[0]), steps[1..]);
      assert steps[1..][..n - 1] == steps[..n][1..];
    } else {
      assert steps[1..] == [] && steps[..0] == [];
    }
  }

  lemma {:induction false} TxStaysKnown(s: State, id: TxId, steps: seq<Step>)
    requires id in s.txs
    ensures id in Run(s, steps).txs
    decreases |steps|
  {
    if steps != [] {
      TxStaysKnown(Next(s, steps[0]), id, steps[1..]);
    }
  }

  lemma {:induction false} EventsAreOthers(s: State, id: TxId, steps: seq<Step>, k: nat)
    requires id in s.txs && Commit(id) !in steps && |s.log| <= k < |Run(s, steps).log|
    ensures ByAnother(s, steps, id, k)
    decreases |steps|
  {
    hide Next, StepOf;
    if steps != [] {
      var n := |steps| - 1;
      var before := steps[..n];
      RunLast(s, steps);
      TxStaysKnown(s, id, before);
      if k < |Run(s, before).log| {
        EventsAreOthers(s, id, before, k);
        var j :| 0 <= j < n && !StepOf(before[j], id) && before[j] != Commit(id)
                 && |Run(s, before[..j]).log| <= k < |Run(s, before[..j + 1]).log|;
        assert before[..j] == steps[..j] && before[..j + 1] == steps[..j + 1];
      } else {
        assert steps[..n + 1] == steps;
        if StepOf(steps[n], id) {
          UncommittedStepIsPrivate(Run(s, before), id, steps[n]);
        }
      }
    }
  }

  /**
   * A rolled-back write leaves no trace, however it was interleaved: when it fails, the
   * table is what the committed history says, everything added to the history since it was
   * last looked at was committed by others, and it holds no key and no row.
   */
  lemma RollbackLeavesNoTrace(before: seq<Step>, id: TxId, between: seq<Step>)
    requires id in Reached(before).txs && id in Run(Reached(before), between).txs
    requires !Run(Reached(before), between).txs[id].phase.Ended? && Commit(id) !in between
    ensures
      var s, after := Reached(before), Next(Run(Reached(before), between), Fail(id));
      && after.records == TableFrom(after.log) && s.log <= after.log
      && (forall k: nat | |s.log| <= k < |after.log| :: ByAnother(s, between, id, k))
      && after.txs[id].phase.Ended? && !Owns(after.txs[id], after.txs[id].claim.key)
      && forall row :: !Holds(after.txs[id], row)
  {
    var s := Reached(before);
    var last := Run(s, between);
    RunFollowsLog(Initial, before);
    RunFollowsLog(s, between);
    forall k: nat | |s.log| <= k < |last.log|
      ensures ByAnother(s, between, id, k)
    {
      EventsAreOthers(s, id, between, k);
    }
    hide Run, TableFrom, ByAnother;
  }

  // ---------- What was recorded is what is replayed ----------

  /** The record whose outcome an event sets. */
  predicate Sets(event: Event, id: RecordId) {
    (event.Claimed? || event.Recorded?) && event.id == id
  }

  /** Every outcome in the history belongs to a committed record, which is claimed once. */
  ghost predicate HistoryKnown(s: State) {
    && (forall k | 0 <= k < |s.log| && !s.log[k].Removed? :: s.log[k].id in s.births)
    && forall i, j | 0 <= i < j < |s.log| && s.log[j].Claimed? && !s.log[i].Removed? :: s.log[i].id != s.log[j].id
  }

  ghost predicate Sound(s: State) {
    Inv(s) && HistoryKnown(s)
  }

  lemma StepKeepsSound(s: State, step: Step)
    requires Sound(s)
    ensures Sound(Next(s, step)) && s.log <= Next(s, step).log
  {
    StepKeepsInv(s, step);
    hide Inv;
    if step.Commit? {
      CommitKeepsHistory(s, step.tx);
    } else {
      OtherStepsKeepHistory(s, step);
    }
  }

  lemma CommitKeepsHistory(s: State, id: TxId)
    requires Sound(s)
    ensures HistoryKnown(Next(s, Commit(id))) && s.log <= Next(s, Commit(id)).log
  {
    hide LogSound, LastOutcome;
    if id in s.txs {
      assert TxSound(s, s.txs[id]);
    }
  }

  lemma OtherStepsKeepHistory(s: State, step: Step)
    requires HistoryKnown(s) && !step.Commit?
    ensures HistoryKnown(Next(s, step)) && s.log <= Next(s, step).log
  {
    hide MustWait, RowBusy, Judge;
    if step.PurgeRow? {
      assert Next(s, step).births == s.births;
    } else {
      assert Next(s, step).births == s.births && Next(s, step).log == s.log;
    }
  }

  lemma {:induction false} RunKeepsSound(s: State, steps: seq<Step>)
    requires Sound(s)
    ensures Sound(Run(s, steps)) && s.log <= Run(s, steps).log
    decreases |steps|
  {
    hide Sound, Next;
    if steps != [] {
      StepKeepsSound(s, steps[0]);
      RunKeepsSound(Next(s, steps[0]), steps[1..]);
    }
  }

  lemma ReachedIsKnown(steps: seq<Step>)
    ensures Sound(Reached(steps))
  {
    RunKeepsSound(Initial, steps);
  }

  /** An outcome is recorded, and not yet committed, on the record this transaction claims or replays. */
  predicate Pending(tx: Tx, row: RecordId, outcome: Stored) {
    match tx.phase
    case Owning(id, _, result) => id == row && result == Some(outcome)
    case Replaying(id, _, _, update) => id == row && update == Some(outcome)
    case _ => false
  }

  /** The transaction may record an outcome on the record: it owns it, or replays it and no one else holds it. */
  predicate MayRecord(s: State, id: TxId, row: RecordId) {
    && id in s.txs
    && (match s.txs[id].phase
        case Owning(own, _, _) => own == row
        case Replaying(found, _, _, _) => found == row && row in s.records && !RowBusy(s, id, row)
        case _ => false)
  }

  /** Nothing in these steps commits the transaction or records another outcome in it. */
  predicate LeavesPending(steps: seq<Step>, id: TxId) {
    forall step | step in steps :: step != Commit(id) && !(step.RecordOutcome? && step.tx == id)
  }

  /** Until then a recorded outcome stays recorded, or the transaction ends without committing. */
  lemma {:induction false} OutcomeStaysPending(s: State, steps: seq<Step>, id: TxId, row: RecordId, outcome: Stored)
    requires id in s.txs && (Pending(s.txs[id], row, outcome) || s.txs[id].phase.Ended?) && LeavesPending(steps, id)
    ensures
      var after := Run(s, steps);
      && id in after.txs
      && (|| after.txs[id].phase.Ended?
          || (Pending(after.txs[id], row, outcome) && !s.txs[id].phase.Ended?
              && (after.txs[id].phase.Owning? <==> s.txs[id].phase.Owning?)))
    decreases |steps|
  {
    hide MustWait, RowBusy, Judge;
    if steps != [] {
      assert steps[0] in steps;
      OutcomeStaysPending(Next(s, steps[0]), steps[1..], id, row, outcome);
    }
  }

  /** Committing it makes it the outcome last committed on the record. */
  lemma PendingIsCommitted(s: State, id: TxId, row: RecordId, outcome: Stored)
    requires Sound(s) && id in s.txs && Pending(s.txs[id], row, outcome)
    ensures
      var after := Next(s, Commit(id));
      && row in after.records && after.records[row].outcome == Some(outcome)
      && LastOutcome(after.log, row) == Some(outcome)
      && row in after.births
  {
    StepKeepsInv(s, Commit(id));
    assert TxSound(s, s.txs[id]);
    hide LogSound, TxsSound, LastOutcome;
  }

  lemma {:induction false} LastOutcomeStays(log: seq<Event>, m: nat, n: nat, row: RecordId)
    requires m <= n <= |log| && forall k | m <= k < n :: !Sets(log[k], row)
    ensures LastOutcome(log[..n], row) == LastOutcome(log[..m], row)
    decreases n
  {
    if m < n {
      LastOutcomeStays(log, m, n - 1, row);
      assert log[..n] == log[..n - 1] + [log[n - 1]];
      AppendEvent(log[..n - 1], log[n - 1], row);
    }
  }

  lemma {:induction false} UnsetHasNoOutcome(log: seq<Event>, row: RecordId)
    requires forall k | 0 <= k < |log| :: !Sets(log[k], row)
    ensures LastOutcome(log, row) == None
    decreases |log|
  {
    if log != [] {
      UnsetHasNoOutcome(log[..|log| - 1], row);
    }
  }

  /** The replay ended by answering with this record, as the history stood at `seenAt`. */
  predicate Answered(s: State, t: TxId, row: RecordId, outcome: Stored, seenAt: nat) {
    t in s.txs && s.txs[t].phase == Ended(Replayed(row, outcome, seenAt))
  }

  /** No outcome is recorded on the record between two points of the history. */
  predicate NotRecordedIn(log: seq<Event>, from: nat, to: nat, row: RecordId) {
    forall k | from <= k < to && k < |log| :: !(log[k].Recorded? && log[k].id == row)
  }

  /** The state in which the transaction that recorded the outcome has committed. */
  ghost function Committed(before: seq<Step>, id: TxId, data: string, effect: Option<string>, between: seq<Step>): State {
    Next(Run(Next(Reached(before), RecordOutcome(id, data, effect)), between), Commit(id))
  }

  /** The transaction was still alive when it committed. */
  ghost predicate Lives(before: seq<Step>, id: TxId, data: string, effect: Option<string>, between: seq<Step>) {
    var s := Run(Next(Reached(before), RecordOutcome(id, data, effect)), between);
    id in s.txs && !s.txs[id].phase.Ended?
  }

  lemma RecordedIsCommitted(
      before: seq<Step>, id: TxId, row: RecordId, data: string, effect: Option<string>, between: seq<Step>)
    requires MayRecord(Reached(before), id, row) && LeavesPending(between, id) && Lives(before, id, data, effect, between)
    ensures
      var s := Committed(before, id, data, effect, between);
      && Sound(s) && row in s.records && row in s.births
      && s.records[row].outcome == Some(Success(data, effect))
      && LastOutcome(s.log, row) == Some(Success(data, effect))
  {
    var s0 := Reached(before);
    var s1 := Next(s0, RecordOutcome(id, data, effect));
    assert Pending(s1.txs[id], row, Success(data, effect));
    ReachedIsKnown(before);
    hide Sound, Reached, Next, Run, Pending;
    StepKeepsSound(s0, RecordOutcome(id, data, effect));
    OutcomeStaysPending(s1, between, id, row, Success(data, effect));
    RunKeepsSound(s1, between);
    PendingIsCommitted(Run(s1, between), id, row, Success(data, effect));
    StepKeepsSound(Run(s1, between), Commit(id));
  }

  /**
   * Exactly what a committed transaction recorded last is replayed, however the writes are
   * interleaved: by every replay that looks at the record after the commit and before the
   * next outcome committed on it.
   */
  lemma RecordedOutcomeIsReplayed(
      before: seq<Step>, id: TxId, row: RecordId, data: string, effect: Option<string>, between: seq<Step>,
      later: seq<Step>, t: TxId, outcome: Stored, seenAt: nat)
    requires MayRecord(Reached(before), id, row) && LeavesPending(between, id) && Lives(before, id, data, effect, between)
    requires Answered(Run(Committed(before, id, data, effect, between), later), t, row, outcome, seenAt)
    requires |Committed(before, id, data, effect, between).log| <= seenAt
    requires NotRecordedIn(Run(Committed(before, id, data, effect, between), later).log,
                           |Committed(before, id, data, effect, between).log|, seenAt, row)
    ensures outcome == Success(data, effect)
  {
    RecordedIsCommitted(before, id, row, data, effect, between);
    var s := Committed(before, id, data, effect, between);
    hide Committed, Lives, MayRecord, LeavesPending;
    RunKeepsSound(s, later);
    ReplayedFrom(s, Run(s, later), t, row, outcome, seenAt);
  }

  lemma ReplayedFrom(s: State, last: State, t: TxId, row: RecordId, outcome: Stored, seenAt: nat)
    requires Sound(last) && s.log <= last.log && LastOutcome(s.log, row).Some?
    requires Answered(last, t, row, outcome, seenAt) && |s.log| <= seenAt && NotRecordedIn(last.log, |s.log|, seenAt, row)
    ensures LastOutcome(s.log, row) == Some(outcome)
  {
    assert TxSound(last, last.txs[t]);
    if forall k | 0 <= k < |s.log| :: !Sets(s.log[k], row) {
      UnsetHasNoOutcome(s.log, row);
    }
    var i :| 0 <= i < |s.log| && Sets(s.log[i], row);
    assert last.log[i] == s.log[i] && last.log[..|s.log|] == s.log;
    LastOutcomeStays(last.log, |s.log|, seenAt, row);
  }

  /** The owner's record is new: nothing before the last event of its commit sets an outcome on it. */
  lemma OwnersRecordIsNew(
      before: seq<Step>, id: TxId, row: RecordId, data: string, effect: Option<string>, between: seq<Step>)
    requires MayRecord(Reached(before), id, row) && LeavesPending(between, id) && Lives(before, id, data, effect, between)
    requires Reached(before).txs[id].phase.Owning?
    ensures
      var log := Committed(before, id, data, effect, between).log;
      |log| > 0 && forall k | 0 <= k < |log| - 1 :: !Sets(log[k], row)
  {
    var s0 := Reached(before);
    var s1 := Next(s0, RecordOutcome(id, data, effect));
    assert Pending(s1.txs[id], row, Success(data, effect));
    ReachedIsKnown(before);
    StepKeepsSound(s0, RecordOutcome(id, data, effect));
    OutcomeStaysPending(s1, between, id, row, Success(data, effect));
    RunKeepsSound(s1, between);
    hide Reached, Run;
    CommitOfNewRecord(Run(s1, between), id);
  }

  lemma CommitOfNewRecord(s: State, id: TxId)
    requires Sound(s) && id in s.txs && s.txs[id].phase.Owning?
    ensures
      var log := Next(s, Commit(id)).log;
      |log| > 0 && forall k | 0 <= k < |log| - 1 :: !Sets(log[k], s.txs[id].phase.id)
  {
    assert TxSound(s, s.txs[id]);
  }

  /** Only a replay that looked after the owner's commit can answer with its record, so nothing else is asked of it. */
  lemma OwnersOutcomeIsReplayed(
      before: seq<Step>, id: TxId, row: RecordId, data: string, effect: Option<string>, between: seq<Step>,
      later: seq<Step>, t: TxId, outcome: Stored, seenAt: nat)
    requires MayRecord(Reached(before), id, row) && LeavesPending(between, id) && Lives(before, id, data, effect, between)
    requires Reached(before).txs[id].phase.Owning?
    requires Answered(Run(Committed(before, id, data, effect, between), later), t, row, outcome, seenAt)
    requires NotRecordedIn(Run(Committed(before, id, data, effect, between), later).log,
                           |Committed(before, id, data, effect, between).log|, seenAt, row)
    ensures outcome == Success(data, effect)
  {
    OwnersRecordIsNew(before, id, row, data, effect, between);
    RecordedIsCommitted(before, id, row, data, effect, between);
    var s := Committed(before, id, data, effect, between);
    RunKeepsSound(s, later);
    var last := Run(s, later);
    assert |s.log| <= seenAt by {
      hide Committed, Reached, Run, Lives, MayRecord, LeavesPending;
      assert TxSound(last, last.txs[t]);
      if seenAt < |s.log| {
        assert last.log[..seenAt] == s.log[..seenAt];
        UnsetHasNoOutcome(last.log[..seenAt], row);
      }
    }
    RecordedOutcomeIsReplayed(before, id, row, data, effect, between, later, t, outcome, seenAt);
  }

  // ---------- Waiting claims and dry runs ----------

  /** The committed check of a dry run. */
  predicate DryRunRefused(records: Table, key: Key, now: Instant) {
    exists id | id in records :: records[id].birth.key == key && records[id].birth.expiresAt > now
  }

  /** No other transaction owns the key or holds a committed record of it. */
  ghost predicate FreeFor(s: State, id: TxId, key: Key) {
    && (forall t | t in s.txs && t != id :: !Owns(s.txs[t], key))
    && forall t, row | t in s.txs && t != id && IsOf(s.records, row, key) :: !Holds(s.txs[t], row)
  }

  lemma FreeNeverWaits(s: State, id: TxId)
    requires id in s.txs && FreeFor(s, id, s.txs[id].claim.key)
    ensures !MustWait(s, id)
  {
  }

  /** A claim that does not wait judges the one committed record of its key. */
  lemma ClaimJudgesRecord(s: State, id: TxId, rec: RecordId)
    requires id in s.txs && s.txs[id].phase.Inserting? && !MustWait(s, id) && IsOf(s.records, rec, s.txs[id].claim.key)
    requires forall a: RecordId | IsOf(s.records, a, s.txs[id].claim.key) :: a == rec
    ensures Next(Next(s, Insert(id)), Find(id)) == Advance(s, id, Judge(s, s.txs[id], rec))
  {
    hide Judge, MustWait;
    assert Conflicts(s, id, rec);
    var looked := Next(s, Insert(id));
    assert looked == Advance(s, id, Finding);
    assert Next(looked, Find(id)) == Advance(looked, id, Judge(looked, looked.txs[id], rec));
    JudgeIgnoresPhase(s, id, rec);
  }

  lemma JudgeIgnoresPhase(s: State, id: TxId, rec: RecordId)
    requires id in s.txs && rec in s.records
    ensures Judge(Advance(s, id, Finding), Advance(s, id, Finding).txs[id], rec) == Judge(s, s.txs[id], rec)
  {
  }

  predicate IsOwner(s: State, id: TxId) {
    id in s.txs && s.txs[id].phase.Owning?
  }

  predicate IsReplay(s: State, id: TxId, row: RecordId, outcome: Stored) {
    id in s.txs && s.txs[id].phase.Replaying? && s.txs[id].phase.id == row && s.txs[id].phase.outcome == outcome
  }

  /** What a claim comes to when it has its key to itself: insert, look, delete, insert again. */
  ghost function AfterClaim(s: State, id: TxId): State {
    Next(Next(Next(Next(s, Insert(id)), Find(id)), Delete(id)), Insert(id))
  }

  /** With no other write of its key in progress, a claim becomes an owner exactly when a dry run would not be refused. */
  lemma DryRunAgreesWithClaim(s: State, id: TxId)
    requires Inv(s) && id in s.txs && s.txs[id].phase.Inserting?
    requires FreeFor(s, id, s.txs[id].claim.key)
    ensures IsOwner(AfterClaim(s, id), id) <==> !DryRunRefused(s.records, s.txs[id].claim.key, s.txs[id].now)
  {
    var key := s.txs[id].claim.key;
    FreeNeverWaits(s, id);
    if rec: RecordId :| IsOf(s.records, rec, key) {
      ClaimJudgesRecord(s, id, rec);
      ReclaimAlone(Next(Next(s, Insert(id)), Find(id)), id, rec);
    }
  }

  /** Deleting the one record of a key leaves nothing to wait for. */
  lemma ReclaimAlone(s: State, id: TxId, rec: RecordId)
    requires id in s.txs && IsOf(s.records, rec, s.txs[id].claim.key)
    requires forall a: RecordId | IsOf(s.records, a, s.txs[id].claim.key) :: a == rec
    requires FreeFor(s, id, s.txs[id].claim.key)
    requires s.txs[id].phase == Deleting(rec) || s.txs[id].phase.Ended? || s.txs[id].phase.Replaying?
    ensures IsOwner(Next(Next(s, Delete(id)), Insert(id)), id) <==> s.txs[id].phase.Deleting?
  {
    var deleted := Next(s, Delete(id));
    assert s.txs[id].phase.Deleting? ==> deleted == Advance(s, id, Reclaiming(Some(rec)));
    FreeNeverWaits(deleted, id);
  }

  /** The phase of a transaction that is known. */
  predicate IsIn(s: State, id: TxId, phase: Phase) {
    id in s.txs && s.txs[id].phase == phase
  }

  /** How a claim that waited for an owner, and looked after its commit, is answered. */
  lemma WaiterIsAnswered(s: State, owner: TxId, waiter: TxId)
    requires Inv(s) && owner in s.txs && waiter in s.txs && owner != waiter && s.txs[owner].phase.Owning?
    requires s.txs[waiter].phase.Inserting? && s.txs[waiter].claim.key == s.txs[owner].claim.key
    ensures
      var mine, other, after := s.txs[waiter], s.txs[owner], Next(Next(Next(s, Commit(owner)), Insert(waiter)), Find(waiter));
      var committed := other.phase.result;
      if mine.now - other.now >= 7 * 24 * 60 * 60 * 1000 then IsIn(after, waiter, Deleting(other.phase.id))
      else if mine.claim.fingerprint != other.claim.fingerprint then IsIn(after, waiter, Ended(KeyReused))
      else if committed == None then IsIn(after, waiter, Ended(InProgress))
      else if mine.version != other.version || committed == Some(Foreign) then
        IsIn(after, waiter, Ended(ReplayUnavailable))
      else IsReplay(after, waiter, other.phase.id, committed.value)
  {
    hide Inv, ClaimSound, LogSound, RecordsSound, TxsSound, LastOutcome;
    var committed, rec := Next(s, Commit(owner)), s.txs[owner].phase.id;
    CommitKeepsInv(s, owner);
    NothingHoldsNewRecord(s, owner, committed, waiter);
    ClaimJudgesRecord(committed, waiter, rec);
  }

  /** A claim that waited for a write that committed replays its outcome. */
  lemma WaiterReplaysAfterCommit(s: State, owner: TxId, waiter: TxId)
    requires Inv(s) && owner in s.txs && waiter in s.txs && owner != waiter
    requires s.txs[owner].phase.Owning? && s.txs[owner].phase.result.Some? && s.txs[owner].phase.result.value.Success?
    requires s.txs[waiter].phase.Inserting? && s.txs[waiter].claim == s.txs[owner].claim
    requires s.txs[waiter].version == s.txs[owner].version && s.txs[waiter].now < s.txs[owner].now + RETENTION_MS
    ensures Next(s, Insert(waiter)) == s
    ensures IsReplay(Next(Next(Next(s, Commit(owner)), Insert(waiter)), Find(waiter)), waiter,
                     s.txs[owner].phase.id, s.txs[owner].phase.result.value)
  {
    assert Owns(s.txs[owner], s.txs[waiter].claim.key);
    hide Inv, IsReplay;
    WaiterIsAnswered(s, owner, waiter);
  }

  lemma NothingHoldsNewRecord(s: State, owner: TxId, committed: State, waiter: TxId)
    requires Inv(s) && owner in s.txs && waiter in s.txs && s.txs[owner].phase.Owning? && owner != waiter
    requires committed == CommitOwner(s, owner) && Inv(committed)
    requires s.txs[waiter].claim.key == s.txs[owner].claim.key && s.txs[waiter].phase.Inserting?
    ensures !MustWait(committed, waiter)
    ensures IsOf(committed.records, s.txs[owner].phase.id, s.txs[owner].claim.key)
    ensures forall a: RecordId | IsOf(committed.records, a, s.txs[owner].claim.key) :: a == s.txs[owner].phase.id
  {
    var rec, key := s.txs[owner].phase.id, s.txs[owner].claim.key;
    assert TxSound(s, s.txs[owner]);
    forall t | t in committed.txs && t != owner
      ensures !Owns(committed.txs[t], key) && !Holds(committed.txs[t], rec)
    {
      assert PairSound(s.txs[t], s.txs[owner]) && TxSound(s, s.txs[t]);
    }
    assert forall a: RecordId | IsOf(committed.records, a, key) :: a == rec;
  }

  /**
   * A claim that waited for a write that rolled back judges what the rollback restored: it
   * becomes the owner exactly when the write had removed no record, or one that is expired
   * at the waiter's own reading too.
   */
  lemma WaiterOwnsAfterRollback(s: State, owner: TxId, waiter: TxId)
    requires Inv(s) && owner in s.txs && waiter in s.txs && owner != waiter
    requires s.txs[owner].phase.Owning?
    requires s.txs[waiter].phase.Inserting? && s.txs[waiter].claim.key == s.txs[owner].claim.key
    ensures Next(s, Insert(waiter)) == s
    ensures
      var removed := s.txs[owner].phase.removed;
      && (removed.Some? ==> removed.value in s.records)
      && (IsOwner(AfterClaim(Next(s, Fail(owner)), waiter), waiter)
          <==> removed.None? || s.records[removed.value].birth.expiresAt <= s.txs[waiter].now)
  {
    assert Owns(s.txs[owner], s.txs[waiter].claim.key) && TxSound(s, s.txs[owner]);
    var failed, key := Next(s, Fail(owner)), s.txs[waiter].claim.key;
    EndKeepsInv(s, owner, Failed);
    FreeAfterRollback(s, owner, waiter);
    RestoredRecord(s, owner);
    hide Inv, FreeFor, AfterClaim;
    DryRunAgreesWithClaim(failed, waiter);
  }

  lemma FreeAfterRollback(s: State, owner: TxId, waiter: TxId)
    requires Inv(s) && owner in s.txs && waiter in s.txs && owner != waiter
    requires s.txs[owner].phase.Owning? && s.txs[waiter].claim.key == s.txs[owner].claim.key
    ensures FreeFor(Next(s, Fail(owner)), waiter, s.txs[waiter].claim.key)
  {
    var failed, key := Next(s, Fail(owner)), s.txs[waiter].claim.key;
    assert TxSound(s, s.txs[owner]);
    forall t | t in failed.txs && t != waiter
      ensures !Owns(failed.txs[t], key)
      ensures forall row: RecordId | IsOf(failed.records, row, key) :: !Holds(failed.txs[t], row)
    {
      assert t != owner ==> PairSound(s.txs[t], s.txs[owner]);
    }
  }

  /** The only record of the key is the one the owner had removed. */
  lemma RestoredRecord(s: State, owner: TxId)
    requires Inv(s) && owner in s.txs && s.txs[owner].phase.Owning?
    ensures
      var key, removed := s.txs[owner].claim.key, s.txs[owner].phase.removed;
      && (removed.Some? ==> IsOf(s.records, removed.value, key))
      && forall now :: DryRunRefused(s.records, key, now)
           <==> removed.Some? && s.records[removed.value].birth.expiresAt > now
  {
    assert TxSound(s, s.txs[owner]);
    forall id | id in s.records && s.records[id].birth.key == s.txs[owner].claim.key
      ensures s.txs[owner].phase.removed == Some(id)
    {
      assert IsOf(s.records, id, s.txs[owner].claim.key);
    }
  }

  lemma OneStep(s: State, step: Step, rest: seq<Step>)
    ensures Run(s, [step] + rest) == Run(Next(s, step), rest)
  {
    assert ([step] + rest)[1..] == rest;
  }

  /** A write under an unused key that nobody disturbs is committed with its outcome, to be kept for seven days. */
  lemma AloneItCommits(
      s: State, id: TxId, claim: Claim, now: Instant, version: nat, data: string, effect: Option<string>)
    requires id !in s.txs && (forall t | t in s.txs :: !Owns(s.txs[t], claim.key))
    requires forall row: RecordId :: !IsOf(s.records, row, claim.key)
    ensures
      var after := Run(s, [Begin(id, claim, now, version)] + ([Insert(id)] + ([RecordOutcome(id, data, effect)]
        + ([Commit(id)] + []))));
      var birth := Birth(claim.key, claim.fingerprint, version, now + 7 * 24 * 60 * 60 * 1000);
      && id in after.txs && after.txs[id].phase == Ended(Owned(s.nextId))
      && after.records == s.records[s.nextId := Record(birth, Some(Success(data, effect)))]
  {
    var a := Next(s, Begin(id, claim, now, version));
    assert !MustWait(a, id);
    var b := Next(a, Insert(id));
    assert b == Advance(a, id, Owning(a.nextId, None, None)).(nextId := a.nextId + 1);
    hide MustWait;
    var c := Next(b, RecordOutcome(id, data, effect));
    var d := Next(c, Commit(id));
    hide Next;
    OneStep(s, Begin(id, claim, now, version), [Insert(id)] + ([RecordOutcome(id, data, effect)] + ([Commit(id)] + [])));
    OneStep(a, Insert(id), [RecordOutcome(id, data, effect)] + ([Commit(id)] + []));
    OneStep(b, RecordOutcome(id, data, effect), [Commit(id)] + []);
    OneStep(c, Commit(id), []);
  }

  // ---------- The retention job ----------

  function ExpiredIds(records: Table, now: Instant, locked: set<RecordId>): set<RecordId> {
    set id | id in records && records[id].birth.expiresAt <= now && id !in locked
  }

  class RecordTable {
    var records: Table

    constructor ()
      ensures records == map[]
    {
      records := map[];
    }

    /** One delete statement: up to `limit` expired, unlocked rows, earliest expiry first. */
    method DeleteBatch(now: Instant, limit: nat, locked: set<RecordId>) returns (removed: set<RecordId>)
      modifies this
      ensures removed <= ExpiredIds(old(records), now, locked)
      ensures records == old(records) - removed
      ensures |removed| == if |ExpiredIds(old(records), now, locked)| < limit
                           then |ExpiredIds(old(records), now, locked)| else limit
      ensures OldestGone(old(records), (r: Record) => r.birth.expiresAt as real, removed,
                         ExpiredIds(old(records), now, locked) - removed)
    {
      removed := PickOldest(records, (r: Record) => r.birth.expiresAt as real, ExpiredIds(records, now, locked), limit);
      records := records - removed;
    }

    /** Batches until one comes back short; counts exactly the rows that are gone. */
    method PurgeExpired(now: Instant, locked: set<RecordId>) returns (count: nat)
      modifies this
      ensures records == old(records) - ExpiredIds(old(records), now, locked)
      ensures forall id | id in old(records) :: id in records <==> id in locked || old(records)[id].birth.expiresAt > now
      ensures count == |old(records)| - |records|
    {
      ghost var due := ExpiredIds(records, now, locked);
      count := 0;
      while true
        invariant PartlyPurged(old(records), records, due)
        invariant count == |old(records)| - |records|
        decreases |records|
      {
        ghost var before := records;
        var removed := DeleteBatch(now, PURGE_BATCH_SIZE, locked);
        assert ExpiredIds(before, now, locked) == due * before.Keys;
        PurgeContinues(old(records), before, due, removed);
        count := count + |removed|;
        if |removed| < PURGE_BATCH_SIZE {
          return;
        }
      }
    }
  }
}
