/**
 * Keyed API-key issuance (`src/data-access/api-keys.ts`, `api-credential-auth.ts`).
 *
 * A saga: the key row is committed by an external service in the middle of a database
 * transaction that may still fail, and a failure is compensated afterwards. The state machine
 * interleaves any number of issuances, management updates and member removals, and any
 * attempt may fail or crash after any step. One organization.
 */
module ApiKeys {
  import opened Outcomes

  type KeyId = nat
  type RecordId = nat
  type TxId = nat
  type UserId = nat
  type MemberId = nat

  /** What an issuance is keyed by: the user's form credential and the intent key. */
  datatype Intent = Intent(user: UserId, key: string)

  datatype Owner = Owner(user: UserId, member: MemberId, revoked: bool, version: nat)

  /** A committed intent record; its outcome is the key it issued last. */
  datatype Record = Record(intent: Intent, outcome: KeyId)

  datatype Claim = NewRecord(id: RecordId) | Replay(id: RecordId, previous: KeyId)

  /** What became of a commit that took effect: reported, reported as failed, or disabled after that. */
  datatype Report = Told | Lost | Disabled

  datatype IssuePhase =
    | Begun
    | Locked
    | Claimed(claim: Claim)
    | Issued(claim: Claim, key: KeyId)
    | MemberLocked(claim: Claim, key: KeyId)
    | PreviousDeleted(claim: Claim, key: KeyId)
    | Bound(claim: Claim, key: KeyId)
    | Recorded(claim: Claim, key: KeyId)
    | Failing(key: KeyId)
    | Done(key: KeyId, report: Report)
    | Stopped

  datatype Issuer = Issuer(intent: Intent, member: MemberId, phase: IssuePhase)

  datatype Statement = DeleteMember | DisableKeys | CommitStatements

  /** A membership writer: `done` statements of its plan, with what it has not committed yet. */
  datatype Removal = Removal(
    member: MemberId, plan: seq<Statement>, done: nat, deleting: bool, disabling: set<KeyId>, stopped: bool)

  /** Committed rows; `keys` says whether a key is enabled. */
  datatype Db = Db(
    keys: map<KeyId, bool>, owners: map<KeyId, Owner>, records: map<RecordId, Record>, members: set<MemberId>)

  datatype Locks = Locks(intents: map<Intent, TxId>, members: map<MemberId, TxId>)

  /** Every member's user, every record's intent, the record each key was issued for, every key ever bound, ever revoked. */
  datatype Past = Past(
    users: map<MemberId, UserId>,
    intents: map<RecordId, Intent>,
    origins: map<KeyId, RecordId>,
    bound: set<KeyId>,
    revoked: set<KeyId>,
    nextKey: KeyId,
    nextRecord: RecordId)

  datatype State = State(db: Db, locks: Locks, issuers: map<TxId, Issuer>, removals: map<TxId, Removal>, past: Past)

  const Initial := State(Db(map[], map[], map[], {}), Locks(map[], map[]), map[], map[],
                         Past(map[], map[], map[], {}, {}, 0, 0))

  datatype Step =
    | AddMember(member: MemberId, user: UserId)
    | BeginIssue(tx: TxId, intent: Intent, member: MemberId)
    | TryIntentLock(tx: TxId)
    | TakeClaim(tx: TxId)
    | Issue(tx: TxId)
    | LockMember(tx: TxId)
    | DeletePrevious(tx: TxId)
    | BindOwner(tx: TxId, stillManager: bool)
    | RecordOutcome(tx: TxId)
    | CommitIssue(tx: TxId)
    | LoseCommit(tx: TxId)
    | FailIssue(tx: TxId)
    | Compensate(tx: TxId)
    | CrashIssue(tx: TxId)
    | BeginRemoval(tx: TxId, member: MemberId, plan: seq<Statement>)
    | RunStatement(tx: TxId)
    | StopRemoval(tx: TxId)
    | UpdateKey(key: KeyId, expectedVersion: nat)
    | RevokeKey(key: KeyId, expectedVersion: nat)
    | PurgeRecord(id: RecordId)

  // ---------- What a key can do ----------

  /** The credential lookup joins keys and owners. */
  predicate LookedUp(db: Db, key: KeyId) {
    key in db.keys && key in db.owners
  }

  predicate Usable(db: Db, key: KeyId) {
    LookedUp(db, key) && db.keys[key] && !db.owners[key].revoked
  }

  // ---------- Phases ----------

  predicate Active(phase: IssuePhase) {
    !phase.Begun? && !phase.Failing? && !phase.Done? && !phase.Stopped?
  }

  predicate HasClaim(phase: IssuePhase) {
    Active(phase) && !phase.Locked?
  }

  /** The key has been issued and is neither bound nor compensated. */
  predicate Unbound(phase: IssuePhase) {
    (HasClaim(phase) && !phase.Claimed?) || phase.Failing?
  }

  predicate HoldsMember(phase: IssuePhase) {
    phase.MemberLocked? || phase.PreviousDeleted? || phase.Bound? || phase.Recorded?
  }

  /** The issuance deleted the previous key's row and has not committed. */
  predicate Deletes(phase: IssuePhase, key: KeyId) {
    (phase.PreviousDeleted? || phase.Bound? || phase.Recorded?) && phase.claim.Replay? && phase.claim.previous == key
  }

  predicate RowLocked(s: State, key: KeyId) {
    || (exists t | t in s.issuers :: Deletes(s.issuers[t].phase, key))
    || (exists t | t in s.removals :: key in s.removals[t].disabling)
  }

  // ---------- Steps ----------

  function To(s: State, id: TxId, phase: IssuePhase): State
    requires id in s.issuers
  {
    s.(issuers := s.issuers[id := s.issuers[id].(phase := phase)])
  }

  /** The end of a transaction releases its locks. */
  function Release(locks: Locks, id: TxId): Locks {
    Locks(map i | i in locks.intents && locks.intents[i] != id :: locks.intents[i],
          map m | m in locks.members && locks.members[m] != id :: locks.members[m])
  }

  function EndIssue(s: State, id: TxId, phase: IssuePhase): State
    requires id in s.issuers
  {
    To(s, id, phase).(locks := Release(s.locks, id))
  }

  /** Rolled back; an issued key is still to be compensated. */
  function RollBack(s: State, id: TxId): State
    requires id in s.issuers
  {
    var phase := s.issuers[id].phase;
    EndIssue(s, id, if Unbound(phase) then Failing(phase.key) else Stopped)
  }

  /** A record id set aside for an intent. */
  function GrownPast(past: Past, intent: Intent): Past {
    past.(nextRecord := past.nextRecord + 1, intents := past.intents[past.nextRecord := intent])
  }

  ghost function ClaimIntent(s: State, id: TxId): State
    requires id in s.issuers
  {
    var intent := s.issuers[id].intent;
    if r :| r in s.db.records && s.db.records[r].intent == intent then
      To(s, id, Claimed(Replay(r, s.db.records[r].outcome)))
    else
      To(s, id, Claimed(NewRecord(s.past.nextRecord))).(past := GrownPast(s.past, intent))
  }

  /** The service commits the key on its own: enabled, and without an owner. */
  function IssueKey(s: State, id: TxId): State
    requires id in s.issuers && s.issuers[id].phase.Claimed?
  {
    var claim, key := s.issuers[id].phase.claim, s.past.nextKey;
    To(s, id, Issued(claim, key)).(
      db := s.db.(keys := s.db.keys[key := true]),
      past := s.past.(origins := s.past.origins[key := claim.id], nextKey := key + 1))
  }

  function Previous(claim: Claim): set<KeyId> {
    if claim.Replay? then {claim.previous} else {}
  }

  /** The previous key goes, the owner appears and the outcome is recorded, all at once. */
  function BoundIn(db: Db, issuer: Issuer): Db
    requires issuer.phase.Recorded?
  {
    var key, claim := issuer.phase.key, issuer.phase.claim;
    Db(db.keys - Previous(claim),
       (db.owners - Previous(claim))[key := Owner(issuer.intent.user, issuer.member, false, 1)],
       if claim.NewRecord? || claim.id in db.records then db.records[claim.id := Record(issuer.intent, key)] else db.records,
       db.members)
  }

  function CommitIssued(s: State, id: TxId, report: Report): State
    requires id in s.issuers && s.issuers[id].phase.Recorded?
  {
    var issuer := s.issuers[id];
    EndIssue(s, id, Done(issuer.phase.key, report)).(
      db := BoundIn(s.db, issuer), past := s.past.(bound := s.past.bound + {issuer.phase.key}))
  }

  function Revoked(owner: Owner): Owner {
    if owner.revoked then owner else owner.(revoked := true, version := owner.version + 1)
  }

  /** Keys disabled and their owners revoked. */
  function RevokedIn(db: Db, disabled: set<KeyId>): Db {
    Db(map k | k in db.keys :: if k in disabled then false else db.keys[k],
       map k | k in db.owners :: if k in disabled then Revoked(db.owners[k]) else db.owners[k],
       db.records, db.members)
  }

  function OwnedBy(db: Db, user: UserId): set<KeyId> {
    set k | k in db.owners && db.owners[k].user == user
  }

  function RemovalTo(s: State, id: TxId, removal: Removal): State {
    s.(removals := s.removals[id := removal])
  }

  function StopRemovalIn(s: State, id: TxId): State
    requires id in s.removals
  {
    RemovalTo(s, id, s.removals[id].(deleting := false, disabling := {}, stopped := true)).(locks := Release(s.locks, id))
  }

  function RunDeleteMember(s: State, id: TxId): State
    requires id in s.removals
  {
    var removal := s.removals[id];
    if removal.member in s.locks.members then s
    else if removal.member !in s.db.members then StopRemovalIn(s, id)
    else RemovalTo(s, id, removal.(done := removal.done + 1, deleting := true)).(
           locks := s.locks.(members := s.locks.members[removal.member := id]))
  }

  function RunDisableKeys(s: State, id: TxId): State
    requires id in s.removals && s.removals[id].member in s.past.users
  {
    var removal := s.removals[id];
    var owned := OwnedBy(s.db, s.past.users[removal.member]);
    if exists k | k in owned :: RowLocked(s, k) then s
    else RemovalTo(s, id, removal.(done := removal.done + 1, disabling := owned))
  }

  function RunCommit(s: State, id: TxId): State
    requires id in s.removals
  {
    var removal := s.removals[id];
    var revoked := RevokedIn(s.db, removal.disabling);
    State(revoked.(members := if removal.deleting then s.db.members - {removal.member} else s.db.members),
          Release(s.locks, id),
          s.issuers,
          s.removals[id := removal.(done := removal.done + 1, deleting := false, disabling := {})],
          s.past.(revoked := s.past.revoked + (removal.disabling * s.db.owners.Keys)))
  }

  function RunStatementIn(s: State, id: TxId): State
    requires id in s.removals && s.removals[id].done < |s.removals[id].plan| && s.removals[id].member in s.past.users
  {
    match s.removals[id].plan[s.removals[id].done]
    case DeleteMember => RunDeleteMember(s, id)
    case DisableKeys => RunDisableKeys(s, id)
    case CommitStatements => RunCommit(s, id)
  }

  /** A step that is not enabled changes nothing: the statement waits or is never sent. */
  ghost function Next(s: State, step: Step): State {
    match step
    case AddMember(member, user) =>
      if member in s.past.users then s
      else s.(db := s.db.(members := s.db.members + {member}), past := s.past.(users := s.past.users[member := user]))
    case BeginIssue(id, intent, member) =>
      if id !in s.issuers && id !in s.removals && member in s.db.members
         && member in s.past.users && s.past.users[member] == intent.user
      then s.(issuers := s.issuers[id := Issuer(intent, member, Begun)]) else s
    case BeginRemoval(id, member, plan) =>
      if id in s.issuers || id in s.removals || member !in s.past.users then s
      else RemovalTo(s, id, Removal(member, plan, 0, false, {}, false))
    case RunStatement(id) =>
      if id in s.removals && !s.removals[id].stopped && s.removals[id].done < |s.removals[id].plan|
         && s.removals[id].member in s.past.users
      then RunStatementIn(s, id) else s
    case StopRemoval(id) => if id in s.removals && !s.removals[id].stopped then StopRemovalIn(s, id) else s
    case UpdateKey(key, version) =>
      if ManagedAt(s, key, version) then s.(db := UpdatedIn(s.db, key)) else s
    case RevokeKey(key, version) =>
      if ManagedAt(s, key, version)
      then s.(db := RevokedAt(s.db, key), past := s.past.(revoked := s.past.revoked + {key})) else s
    case PurgeRecord(r) => s.(db := s.db.(records := s.db.records - {r}))
    case _ => if step.tx in s.issuers then NextIssue(s, step, step.tx) else s
  }

  /** The row of this version, not locked by another writer. */
  predicate ManagedAt(s: State, key: KeyId, version: nat) {
    LookedUp(s.db, key) && !RowLocked(s, key) && s.db.owners[key].version == version
  }

  function UpdatedIn(db: Db, key: KeyId): Db
    requires key in db.owners
  {
    db.(owners := db.owners[key := db.owners[key].(version := db.owners[key].version + 1)])
  }

  function RevokedAt(db: Db, key: KeyId): Db
    requires key in db.owners
  {
    db.(keys := db.keys[key := false],
        owners := db.owners[key := db.owners[key].(revoked := true, version := db.owners[key].version + 1)])
  }

  /** The compensation's update, which asks nothing about owners. */
  function DisabledIn(db: Db, key: KeyId): Db {
    if key in db.keys then db.(keys := db.keys[key := false]) else db
  }

  /** The steps of one issuance, in the order of its statements. */
  ghost function NextIssue(s: State, step: Step, id: TxId): State
    requires id in s.issuers
  {
    var issuer := s.issuers[id];
    var phase := issuer.phase;
    match step
    case TryIntentLock(_) =>
      if !phase.Begun? then s
      else if issuer.intent in s.locks.intents then To(s, id, Stopped)
      else To(s, id, Locked).(locks := s.locks.(intents := s.locks.intents[issuer.intent := id]))
    case TakeClaim(_) => if phase.Locked? then ClaimIntent(s, id) else s
    case Issue(_) => if phase.Claimed? then IssueKey(s, id) else s
    case LockMember(_) =>
      if !phase.Issued? || issuer.member in s.locks.members then s
      else if issuer.member !in s.db.members then RollBack(s, id)
      else To(s, id, MemberLocked(phase.claim, phase.key)).(
             locks := s.locks.(members := s.locks.members[issuer.member := id]))
    case DeletePrevious(_) =>
      if !phase.MemberLocked? || (phase.claim.Replay? && RowLocked(s, phase.claim.previous)) then s
      else To(s, id, PreviousDeleted(phase.claim, phase.key))
    case BindOwner(_, stillManager) =>
      if !phase.PreviousDeleted? then s
      else if stillManager then To(s, id, Bound(phase.claim, phase.key)) else RollBack(s, id)
    case RecordOutcome(_) => if phase.Bound? then To(s, id, Recorded(phase.claim, phase.key)) else s
    case CommitIssue(_) => if phase.Recorded? then CommitIssued(s, id, Told) else s
    case LoseCommit(_) => if phase.Recorded? then CommitIssued(s, id, Lost) else s
    case FailIssue(_) => if Active(phase) || phase.Begun? then RollBack(s, id) else s
    case Compensate(_) =>
      if phase.Failing? then To(s, id, Stopped).(db := DisabledIn(s.db, phase.key))
      else if phase.Done? && phase.report.Lost? && !RowLocked(s, phase.key) then
        To(s, id, Done(phase.key, Disabled)).(db := DisabledIn(s.db, phase.key))
      else s
    case CrashIssue(_) => if Active(phase) || phase.Begun? || phase.Failing? then EndIssue(s, id, Stopped) else s
    case _ => s
  }

  ghost function Run(s: State, steps: seq<Step>): State
    decreases |steps|
  {
    if steps == [] then s else Run(Next(s, steps[0]), steps[1..])
  }

  // ---------- Invariant ----------

  ghost predicate OwnersSound(db: Db, past: Past)
    requires PastSound(past)
  {
    forall k | k in db.owners ::
      && k in db.keys && k in past.bound && db.owners[k].member in past.users
      && db.owners[k].user == past.users[db.owners[k].member]
      && (past.origins[k] in db.records ==> db.records[past.origins[k]].outcome == k)
  }

  ghost predicate RecordsSound(db: Db, past: Past)
    requires PastSound(past)
  {
    && (forall r | r in db.records ::
          && r in past.intents && past.intents[r] == db.records[r].intent
          && db.records[r].outcome in past.bound && past.origins[db.records[r].outcome] == r)
    && (forall r, q | r in db.records && q in db.records && db.records[r].intent == db.records[q].intent :: r == q)
  }

  ghost predicate RevokedSound(db: Db, past: Past) {
    forall k | k in past.revoked :: k in past.bound && !Usable(db, k)
  }

  /** What is committed, and what has ever been. */
  ghost predicate DbSound(db: Db, past: Past)
    requires PastSound(past)
  {
    OwnersSound(db, past) && RecordsSound(db, past) && RevokedSound(db, past) && db.members <= past.users.Keys
  }

  ghost predicate PastSound(past: Past) {
    && (forall k | k in past.bound :: k in past.origins)
    && (forall k | k in past.origins :: k < past.nextKey && past.origins[k] in past.intents)
    && (forall r | r in past.intents :: r < past.nextRecord)
  }

  /** A claim stands on the committed record of its intent, which only the lock holder changes. */
  ghost predicate ClaimSound(db: Db, past: Past, claim: Claim, intent: Intent)
    requires PastSound(past)
  {
    && claim.id in past.intents && past.intents[claim.id] == intent
    && match claim
       case NewRecord(id) =>
         && (forall r | r in db.records :: db.records[r].intent != intent)
         && (forall k | k in past.bound :: past.origins[k] != id)
       case Replay(id, previous) => previous in past.bound && (id in db.records ==> db.records[id].outcome == previous)
  }

  ghost predicate IssuerSound(s: State, id: TxId)
    requires id in s.issuers && PastSound(s.past)
  {
    var issuer := s.issuers[id];
    var phase := issuer.phase;
    && id !in s.removals
    && issuer.member in s.past.users && s.past.users[issuer.member] == issuer.intent.user
    && (Active(phase) ==> issuer.intent in s.locks.intents && s.locks.intents[issuer.intent] == id)
    && (HasClaim(phase) ==> ClaimSound(s.db, s.past, phase.claim, issuer.intent))
    && (Unbound(phase) ==> phase.key in s.past.origins && phase.key !in s.past.bound)
    && (Unbound(phase) && !phase.Failing? ==> phase.key in s.db.keys && s.past.origins[phase.key] == phase.claim.id)
    && (HoldsMember(phase) ==>
          issuer.member in s.locks.members && s.locks.members[issuer.member] == id && issuer.member in s.db.members)
    && (phase.Done? ==> phase.key in s.past.bound)
  }

  /** Two issuances never carry the same unbound key. */
  ghost predicate DistinctKeys(issuers: map<TxId, Issuer>) {
    forall t, u | t in issuers && u in issuers && t != u && Unbound(issuers[t].phase) && Unbound(issuers[u].phase) ::
      issuers[t].phase.key != issuers[u].phase.key
  }

  /** Every bound key belongs to an issuance whose commit took effect. */
  ghost predicate BoundByCommit(s: State) {
    forall k | k in s.past.bound :: exists t | t in s.issuers :: Committed(s.issuers[t].phase, k)
  }

  predicate Committed(phase: IssuePhase, key: KeyId) {
    phase.Done? && phase.key == key
  }

  /** Nothing bound to the member is usable once its keys are revoked. */
  ghost predicate NothingUsable(db: Db, member: MemberId) {
    forall k | Usable(db, k) :: db.owners[k].member != member
  }

  const TOGETHER := [DeleteMember, DisableKeys, CommitStatements]
  const IN_TURN := [DeleteMember, CommitStatements, DisableKeys, CommitStatements]
  const DISABLE_FIRST := [DisableKeys, DeleteMember, CommitStatements]

  /** The removal takes the member row before it disables any key: in one transaction, or in two. */
  predicate MemberFirst(removal: Removal) {
    removal.plan == TOGETHER || removal.plan == IN_TURN
  }

  predicate Finished(removal: Removal) {
    !removal.stopped && removal.done == |removal.plan|
  }

  /** The keys of the member are all in the uncommitted revocation. */
  ghost predicate AllDisabling(db: Db, removal: Removal) {
    forall k | k in db.owners && db.owners[k].member == removal.member :: k in removal.disabling
  }

  ghost predicate RemovalSound(s: State, id: TxId)
    requires id in s.removals
  {
    var removal := s.removals[id];
    && removal.member in s.past.users && removal.done <= |removal.plan|
    && (removal.deleting ==>
          removal.member in s.locks.members && s.locks.members[removal.member] == id && removal.member in s.db.members)
    && (MemberFirst(removal) && !removal.stopped ==>
          && (removal.plan == TOGETHER && 1 <= removal.done <= 2 ==> removal.deleting)
          && (removal.plan == TOGETHER && removal.done == 2 ==> AllDisabling(s.db, removal))
          && (removal.plan == IN_TURN && removal.done == 1 ==> removal.deleting)
          && (removal.plan == IN_TURN && removal.done >= 2 ==> removal.member !in s.db.members)
          && (removal.plan == IN_TURN && removal.done == 3 ==> AllDisabling(s.db, removal))
          && (Finished(removal) ==> removal.member !in s.db.members && NothingUsable(s.db, removal.member)))
  }

  ghost predicate Inv(s: State) {
    && PastSound(s.past) && DbSound(s.db, s.past) && DistinctKeys(s.issuers) && BoundByCommit(s)
    && (forall t | t in s.issuers :: IssuerSound(s, t))
    && (forall t | t in s.removals :: RemovalSound(s, t))
  }

  // ---------- Every step keeps it ----------

  /** No other transaction loses a lock. */
  ghost predicate OthersKeepLocks(before: Locks, after: Locks, id: TxId) {
    && (forall i | i in before.intents && before.intents[i] != id :: i in after.intents && after.intents[i] == before.intents[i])
    && (forall m | m in before.members && before.members[m] != id :: m in after.members && after.members[m] == before.members[m])
  }

  /** A step of one issuance that changes its phase and its locks only. */
  lemma IssuerStep(s: State, id: TxId, issuer: Issuer, locks: Locks)
    requires Inv(s) && id !in s.removals
    requires id in s.issuers && s.issuers[id].phase.Done? ==> Committed(issuer.phase, s.issuers[id].phase.key)
    requires OthersKeepLocks(s.locks, locks, id)
    requires IssuerSound(s.(issuers := s.issuers[id := issuer], locks := locks), id)
    requires Unbound(issuer.phase) ==>
      forall u | u in s.issuers && u != id && Unbound(s.issuers[u].phase) :: s.issuers[u].phase.key != issuer.phase.key
    ensures Inv(s.(issuers := s.issuers[id := issuer], locks := locks))
  {
    hide DbSound, ClaimSound, NothingUsable, AllDisabling, PastSound;
    var after := s.(issuers := s.issuers[id := issuer], locks := locks);
    forall t | t in after.issuers
      ensures IssuerSound(after, t)
    {
      assert t != id ==> IssuerSound(s, t);
    }
    forall t | t in after.removals
      ensures RemovalSound(after, t)
    {
      assert RemovalSound(s, t);
    }
    forall k | k in after.past.bound
      ensures exists t | t in after.issuers :: Committed(after.issuers[t].phase, k)
    {
      var t :| t in s.issuers && Committed(s.issuers[t].phase, k);
      assert Committed(after.issuers[t].phase, k);
    }
  }

  /** A step that moves one issuance from phase to phase. */
  lemma PhaseStep(s: State, id: TxId, phase: IssuePhase, locks: Locks)
    requires Inv(s) && id in s.issuers
    requires s.issuers[id].phase.Done? ==> Committed(phase, s.issuers[id].phase.key)
    requires OthersKeepLocks(s.locks, locks, id)
    requires IssuerSound(To(s, id, phase).(locks := locks), id)
    requires Unbound(phase) ==> Unbound(s.issuers[id].phase) && s.issuers[id].phase.key == phase.key
    ensures Inv(To(s, id, phase).(locks := locks))
  {
    hide ClaimSound, DbSound, PastSound;
    assert IssuerSound(s, id);
    var issuer := s.issuers[id].(phase := phase);
    assert To(s, id, phase).(locks := locks) == s.(issuers := s.issuers[id := issuer], locks := locks);
    IssuerStep(s, id, issuer, locks);
  }

  lemma RollBackKeepsInv(s: State, id: TxId)
    requires Inv(s) && id in s.issuers && (Active(s.issuers[id].phase) || s.issuers[id].phase.Begun?)
    ensures Inv(RollBack(s, id))
  {
    hide ClaimSound, DbSound, PastSound;
    assert IssuerSound(s, id);
    var phase := s.issuers[id].phase;
    PhaseStep(s, id, if Unbound(phase) then Failing(phase.key) else Stopped, Release(s.locks, id));
  }

  lemma GrownPastSound(db: Db, past: Past, intent: Intent)
    requires PastSound(past) && DbSound(db, past)
    ensures PastSound(GrownPast(past, intent)) && DbSound(db, GrownPast(past, intent))
    ensures forall claim, i | ClaimSound(db, past, claim, i) :: ClaimSound(db, GrownPast(past, intent), claim, i)
  {
  }

  /** A fresh record id for an intent that has no record. */
  lemma AllocateRecord(s: State, intent: Intent)
    requires Inv(s)
    ensures Inv(s.(past := GrownPast(s.past, intent)))
  {
    hide NothingUsable, AllDisabling, DbSound, ClaimSound, PastSound;
    GrownPastSound(s.db, s.past, intent);
    var after := s.(past := GrownPast(s.past, intent));
    forall t | t in after.issuers
      ensures IssuerSound(after, t)
    {
      assert IssuerSound(s, t);
    }
    forall t | t in after.removals
      ensures RemovalSound(after, t)
    {
      assert RemovalSound(s, t);
    }
  }

  lemma ReplayIsSound(db: Db, past: Past, r: RecordId)
    requires PastSound(past) && DbSound(db, past) && r in db.records
    ensures ClaimSound(db, past, Replay(r, db.records[r].outcome), db.records[r].intent)
  {
  }

  lemma NewRecordIsSound(db: Db, past: Past, intent: Intent)
    requires PastSound(past) && forall r | r in db.records :: db.records[r].intent != intent
    ensures PastSound(GrownPast(past, intent))
    ensures ClaimSound(db, GrownPast(past, intent), NewRecord(past.nextRecord), intent)
  {
  }

  lemma ClaimKeepsInv(s: State, id: TxId)
    requires Inv(s) && id in s.issuers && s.issuers[id].phase.Locked?
    ensures Inv(ClaimIntent(s, id))
  {
    hide DbSound, ClaimSound, PastSound, RemovalSound, BoundByCommit, DistinctKeys;
    assert IssuerSound(s, id);
    var intent := s.issuers[id].intent;
    if r :| r in s.db.records && s.db.records[r].intent == intent {
      ReplayStepKeepsInv(s, id);
    } else {
      var r := s.past.nextRecord;
      var grown := s.(past := GrownPast(s.past, intent));
      AllocateRecord(s, intent);
      NewRecordIsSound(s.db, s.past, intent);
      assert IssuerSound(grown, id);
      PhaseStep(grown, id, Claimed(NewRecord(r)), s.locks);
      assert ClaimIntent(s, id) == To(grown, id, Claimed(NewRecord(r))).(locks := s.locks);
    }
  }

  lemma ReplayStepKeepsInv(s: State, id: TxId)
    requires Inv(s) && id in s.issuers && s.issuers[id].phase.Locked?
    requires exists r :: r in s.db.records && s.db.records[r].intent == s.issuers[id].intent
    ensures Inv(ClaimIntent(s, id))
  {
    hide DbSound, ClaimSound, PastSound, RemovalSound, BoundByCommit, DistinctKeys;
    assert IssuerSound(s, id);
    var after := ClaimIntent(s, id);
    var phase := after.issuers[id].phase;
    ReplayIsSound(s.db, s.past, phase.claim.id);
    PhaseStep(s, id, phase, s.locks);
    assert after == To(s, id, phase).(locks := s.locks);
  }

  /** A fresh enabled key without an owner. */
  lemma AllocateKey(s: State, r: RecordId)
    requires Inv(s) && r in s.past.intents
    ensures
      var key := s.past.nextKey;
      Inv(s.(db := s.db.(keys := s.db.keys[key := true]),
             past := s.past.(origins := s.past.origins[key := r], nextKey := key + 1)))
  {
    hide Usable, NothingUsable, AllDisabling, DbSound;
    var key := s.past.nextKey;
    var after := s.(db := s.db.(keys := s.db.keys[key := true]),
                    past := s.past.(origins := s.past.origins[key := r], nextKey := key + 1));
    assert PastSound(after.past);
    FreshKeyDb(s.db, s.past, r);
    forall t | t in after.issuers
      ensures IssuerSound(after, t)
    {
      assert IssuerSound(s, t);
    }
    forall t | t in after.removals
      ensures RemovalSound(after, t)
    {
      assert RemovalSound(s, t);
      FreshKeyUnusable(s.db, s.past, s.removals[t]);
    }
  }

  lemma FreshKeyUnusable(db: Db, past: Past, removal: Removal)
    requires PastSound(past) && DbSound(db, past)
    ensures
      var after := db.(keys := db.keys[past.nextKey := true]);
      && (forall k | Usable(after, k) :: Usable(db, k))
      && (NothingUsable(db, removal.member) ==> NothingUsable(after, removal.member))
      && (AllDisabling(db, removal) ==> AllDisabling(after, removal))
  {
    var after := db.(keys := db.keys[past.nextKey := true]);
    assert forall k | Usable(after, k) :: k != past.nextKey && Usable(db, k);
  }

  lemma FreshKeyDb(db: Db, past: Past, r: RecordId)
    requires PastSound(past) && DbSound(db, past) && r in past.intents
    ensures
      var after := past.(origins := past.origins[past.nextKey := r], nextKey := past.nextKey + 1);
      PastSound(after) && DbSound(db.(keys := db.keys[past.nextKey := true]), after)
  {
    FreshKeyUnusable(db, past, Removal(0, [], 0, false, {}, true));
    hide Usable;
    assert forall k | k in past.bound :: k != past.nextKey;
  }

  lemma IssueKeepsInv(s: State, id: TxId)
    requires Inv(s) && id in s.issuers && s.issuers[id].phase.Claimed?
    ensures Inv(IssueKey(s, id))
  {
    hide NothingUsable, AllDisabling, DbSound, RemovalSound;
    var claim, key := s.issuers[id].phase.claim, s.past.nextKey;
    assert IssuerSound(s, id);
    AllocateKey(s, claim.id);
    var grown := s.(db := s.db.(keys := s.db.keys[key := true]),
                        past := s.past.(origins := s.past.origins[key := claim.id], nextKey := key + 1));
    assert forall u | u in s.issuers && Unbound(s.issuers[u].phase) :: IssuerSound(s, u);
    var issuer := s.issuers[id].(phase := Issued(claim, key));
    assert IssuerSound(grown.(issuers := s.issuers[id := issuer], locks := s.locks), id) by {
      assert IssuerSound(grown, id);
    }
    IssuerStep(grown, id, issuer, s.locks);
    assert IssueKey(s, id) == grown.(issuers := s.issuers[id := issuer], locks := s.locks);
  }

  // ---------- Commit of an issuance ----------

  /** What the committing issuance stands on. */
  ghost predicate ReadyToCommit(s: State, id: TxId) {
    Inv(s) && id in s.issuers && s.issuers[id].phase.Recorded?
  }

  /** The database as the commit finds it. */
  ghost predicate Bindable(db: Db, past: Past, issuer: Issuer) {
    && PastSound(past) && DbSound(db, past) && issuer.phase.Recorded?
    && ClaimSound(db, past, issuer.phase.claim, issuer.intent)
    && issuer.phase.key in db.keys && issuer.phase.key in past.origins && issuer.phase.key !in past.bound
    && past.origins[issuer.phase.key] == issuer.phase.claim.id
    && issuer.member in past.users && past.users[issuer.member] == issuer.intent.user
  }

  function BoundPast(past: Past, key: KeyId): Past {
    past.(bound := past.bound + {key})
  }

  lemma BoundOwners(db: Db, past: Past, issuer: Issuer)
    requires Bindable(db, past, issuer) && PastSound(BoundPast(past, issuer.phase.key))
    ensures OwnersSound(BoundIn(db, issuer), BoundPast(past, issuer.phase.key))
  {
    hide RevokedSound;
    var key, claim, after := issuer.phase.key, issuer.phase.claim, BoundIn(db, issuer);
    forall k | k in after.owners && k != key
      ensures k in db.owners && k !in Previous(claim) && (claim.id in after.records ==> past.origins[k] != claim.id)
    {
      assert k in db.owners && k in past.bound;
    }
  }

  lemma BoundRecords(db: Db, past: Past, issuer: Issuer)
    requires Bindable(db, past, issuer) && PastSound(BoundPast(past, issuer.phase.key))
    ensures RecordsSound(BoundIn(db, issuer), BoundPast(past, issuer.phase.key))
  {
    hide RevokedSound, OwnersSound;
    var claim, after := issuer.phase.claim, BoundIn(db, issuer);
    assert forall r | r in after.records && r != claim.id :: r in db.records && after.records[r] == db.records[r];
  }

  lemma BoundDbSound(db: Db, past: Past, issuer: Issuer)
    requires Bindable(db, past, issuer)
    ensures
      var after := BoundPast(past, issuer.phase.key);
      PastSound(after) && DbSound(BoundIn(db, issuer), after)
  {
    var key := issuer.phase.key;
    assert PastSound(BoundPast(past, key));
    BoundOwners(db, past, issuer);
    BoundRecords(db, past, issuer);
    BoundUsable(db, issuer);
    hide Usable, OwnersSound, RecordsSound, ClaimSound;
    assert forall k | k in past.bound :: k != key;
  }

  lemma BoundUsable(db: Db, issuer: Issuer)
    requires issuer.phase.Recorded?
    ensures forall k | Usable(BoundIn(db, issuer), k) && k != issuer.phase.key :: Usable(db, k)
  {
  }

  lemma CommitDb(s: State, id: TxId, report: Report)
    requires ReadyToCommit(s, id)
    ensures PastSound(CommitIssued(s, id, report).past) && DbSound(CommitIssued(s, id, report).db, CommitIssued(s, id, report).past)
  {
    assert IssuerSound(s, id);
    hide RemovalSound, BoundByCommit, DistinctKeys, PastSound, DbSound, ClaimSound, BoundIn;
    BoundDbSound(s.db, s.past, s.issuers[id]);
  }

  lemma CommitOthers(s: State, id: TxId, report: Report)
    requires ReadyToCommit(s, id) && PastSound(CommitIssued(s, id, report).past)
    ensures forall t | t in CommitIssued(s, id, report).issuers :: IssuerSound(CommitIssued(s, id, report), t)
  {
    hide DbSound, RemovalSound, BoundByCommit;
    var after := CommitIssued(s, id, report);
    var key, claim := s.issuers[id].phase.key, s.issuers[id].phase.claim;
    assert IssuerSound(s, id);
    forall t | t in after.issuers
      ensures IssuerSound(after, t)
    {
      assert IssuerSound(s, t);
      if t != id && HasClaim(s.issuers[t].phase) {
        assert s.issuers[t].intent != s.issuers[id].intent;
        assert s.issuers[t].phase.claim.id != claim.id;
      }
    }
  }

  lemma CommitRemovals(s: State, id: TxId, report: Report)
    requires ReadyToCommit(s, id)
    ensures forall t | t in CommitIssued(s, id, report).removals :: RemovalSound(CommitIssued(s, id, report), t)
  {
    hide DbSound, BoundByCommit, ClaimSound, DistinctKeys;
    var issuer, after := s.issuers[id], CommitIssued(s, id, report);
    assert IssuerSound(s, id);
    forall t | t in after.removals
      ensures RemovalSound(after, t)
    {
      assert RemovalSound(s, t) && t != id;
      assert forall k | Usable(after.db, k) :: k == issuer.phase.key || (Usable(s.db, k) && after.db.owners[k] == s.db.owners[k]);
    }
  }

  lemma CommitKeepsInv(s: State, id: TxId, report: Report)
    requires ReadyToCommit(s, id)
    ensures Inv(CommitIssued(s, id, report))
  {
    CommitDb(s, id, report);
    CommitOthers(s, id, report);
    CommitRemovals(s, id, report);
    CommitBounds(s, id, report);
    hide DbSound, PastSound, IssuerSound, RemovalSound, BoundByCommit, BoundIn, Release;
  }

  lemma CommitBounds(s: State, id: TxId, report: Report)
    requires ReadyToCommit(s, id)
    ensures BoundByCommit(CommitIssued(s, id, report))
  {
    hide DbSound, PastSound, IssuerSound, RemovalSound, BoundIn, Release;
    var after := CommitIssued(s, id, report);
    forall k | k in after.past.bound
      ensures exists t | t in after.issuers :: Committed(after.issuers[t].phase, k)
    {
      if k == s.issuers[id].phase.key {
        assert Committed(after.issuers[id].phase, k);
      } else {
        var t :| t in s.issuers && Committed(s.issuers[t].phase, k);
        assert Committed(after.issuers[t].phase, k);
      }
    }
  }

  // ---------- Revocations ----------

  /** Same rows, and nothing becomes usable. */
  ghost predicate OnlyWeaker(before: Db, after: Db) {
    && after.records == before.records && after.members == before.members
    && after.keys.Keys == before.keys.Keys && after.owners.Keys == before.owners.Keys
    && (forall k | k in before.owners ::
          after.owners[k].user == before.owners[k].user && after.owners[k].member == before.owners[k].member)
    && forall k | Usable(after, k) :: Usable(before, k)
  }

  lemma WeakerDb(db: Db, past: Past, weaker: Db, revoked: set<KeyId>)
    requires PastSound(past) && DbSound(db, past) && OnlyWeaker(db, weaker)
    requires forall k | k in revoked :: k in db.owners && !Usable(weaker, k)
    ensures
      var after := past.(revoked := past.revoked + revoked);
      PastSound(after) && DbSound(weaker, after)
  {
    hide Usable;
  }

  lemma WeakerRemoval(before: Db, after: Db, removal: Removal)
    requires OnlyWeaker(before, after)
    ensures AllDisabling(before, removal) ==> AllDisabling(after, removal)
    ensures NothingUsable(before, removal.member) ==> NothingUsable(after, removal.member)
  {
    UsableIsOwned(before);
    hide Usable;
    assert forall k | Usable(after, k) :: Usable(before, k) && k in before.owners;
  }

  lemma WeakerKeepsInv(s: State, db: Db, revoked: set<KeyId>)
    requires Inv(s) && OnlyWeaker(s.db, db)
    requires forall k | k in revoked :: k in s.db.owners && !Usable(db, k)
    ensures Inv(s.(db := db, past := s.past.(revoked := s.past.revoked + revoked)))
  {
    WeakerDb(s.db, s.past, db, revoked);
    hide Usable, DbSound, PastSound, AllDisabling, NothingUsable;
    var after := s.(db := db, past := s.past.(revoked := s.past.revoked + revoked));
    forall t | t in after.issuers
      ensures IssuerSound(after, t)
    {
      assert IssuerSound(s, t);
    }
    forall t | t in after.removals
      ensures RemovalSound(after, t)
    {
      assert RemovalSound(s, t);
      WeakerRemoval(s.db, db, s.removals[t]);
    }
  }

  lemma UsableIsOwned(db: Db)
    ensures forall k | Usable(db, k) :: k in db.owners
  {
  }

  lemma PurgedDb(db: Db, past: Past, r: RecordId)
    requires PastSound(past) && DbSound(db, past)
    ensures DbSound(db.(records := db.records - {r}), past)
  {
    SameUsable(db, db.(records := db.records - {r}));
    hide Usable;
  }

  lemma SameUsable(before: Db, after: Db)
    requires after.keys == before.keys && after.owners == before.owners
    ensures forall k :: Usable(after, k) <==> Usable(before, k)
  {
  }

  lemma PurgedClaim(db: Db, past: Past, r: RecordId, claim: Claim, intent: Intent)
    requires PastSound(past) && ClaimSound(db, past, claim, intent)
    ensures ClaimSound(db.(records := db.records - {r}), past, claim, intent)
  {
  }

  lemma PurgeKeepsInv(s: State, r: RecordId)
    requires Inv(s)
    ensures Inv(s.(db := s.db.(records := s.db.records - {r})))
  {
    PurgedDb(s.db, s.past, r);
    hide NothingUsable, AllDisabling, DbSound, PastSound, ClaimSound;
    var after := s.(db := s.db.(records := s.db.records - {r}));
    forall t | t in after.issuers
      ensures IssuerSound(after, t)
    {
      assert IssuerSound(s, t);
      if HasClaim(s.issuers[t].phase) {
        PurgedClaim(s.db, s.past, r, s.issuers[t].phase.claim, s.issuers[t].intent);
      }
    }
    forall t | t in after.removals
      ensures RemovalSound(after, t)
    {
      assert RemovalSound(s, t);
      SameOwners(s.db, after.db, s.removals[t]);
    }
  }

  lemma SameOwners(before: Db, after: Db, removal: Removal)
    requires after.keys == before.keys && after.owners == before.owners
    ensures AllDisabling(before, removal) ==> AllDisabling(after, removal)
    ensures NothingUsable(before, removal.member) ==> NothingUsable(after, removal.member)
  {
    assert forall k | Usable(after, k) :: Usable(before, k);
  }

  // ---------- Removals ----------

  /** A step of one removal that changes it and its locks only. */
  lemma RemovalStep(s: State, id: TxId, removal: Removal, locks: Locks)
    requires Inv(s) && id !in s.issuers && OthersKeepLocks(s.locks, locks, id)
    requires RemovalSound(s.(removals := s.removals[id := removal], locks := locks), id)
    ensures Inv(s.(removals := s.removals[id := removal], locks := locks))
  {
    hide DbSound, ClaimSound, NothingUsable, AllDisabling, PastSound;
    var after := s.(removals := s.removals[id := removal], locks := locks);
    forall t | t in after.issuers
      ensures IssuerSound(after, t)
    {
      assert IssuerSound(s, t);
    }
    forall t | t in after.removals
      ensures RemovalSound(after, t)
    {
      assert t != id ==> RemovalSound(s, t);
    }
  }

  lemma DeleteMemberKeepsInv(s: State, id: TxId)
    requires Inv(s) && id in s.removals && id !in s.issuers && !s.removals[id].stopped
    requires s.removals[id].done < |s.removals[id].plan| && s.removals[id].plan[s.removals[id].done] == DeleteMember
    ensures Inv(RunDeleteMember(s, id))
  {
    hide DbSound, ClaimSound, PastSound, NothingUsable, AllDisabling;
    assert RemovalSound(s, id);
    var after := RunDeleteMember(s, id);
    if after != s {
      RemovalStep(s, id, after.removals[id], after.locks);
    }
  }

  lemma DisableKeepsInv(s: State, id: TxId)
    requires Inv(s) && id in s.removals && id !in s.issuers && !s.removals[id].stopped
    requires s.removals[id].done < |s.removals[id].plan| && s.removals[id].plan[s.removals[id].done] == DisableKeys
    requires s.removals[id].member in s.past.users
    ensures Inv(RunDisableKeys(s, id))
  {
    hide ClaimSound, PastSound, NothingUsable;
    assert RemovalSound(s, id);
    var after := RunDisableKeys(s, id);
    if after != s {
      RemovalStep(s, id, after.removals[id], s.locks);
      assert after == s.(removals := s.removals[id := after.removals[id]], locks := s.locks);
    }
  }

  lemma RevokedIsWeaker(db: Db, disabled: set<KeyId>)
    ensures OnlyWeaker(db, RevokedIn(db, disabled))
    ensures forall k | Usable(RevokedIn(db, disabled), k) :: k !in disabled
  {
  }

  lemma FewerMembersDb(db: Db, past: Past, gone: set<MemberId>)
    requires PastSound(past) && DbSound(db, past)
    ensures DbSound(db.(members := db.members - gone), past)
  {
    SameUsable(db, db.(members := db.members - gone));
    hide Usable;
  }

  /** The member row goes with the commit of the transaction that holds it. */
  lemma MemberGoneKeepsInv(s: State, id: TxId, gone: set<MemberId>)
    requires Inv(s) && id !in s.issuers
    requires forall m | m in gone :: m in s.locks.members && s.locks.members[m] == id
    requires id in s.removals && s.removals[id].stopped && !s.removals[id].deleting
    ensures Inv(s.(db := s.db.(members := s.db.members - gone)))
  {
    var after := s.(db := s.db.(members := s.db.members - gone));
    FewerMembersDb(s.db, s.past, gone);
    hide ClaimSound, PastSound, NothingUsable, AllDisabling, DbSound;
    forall t | t in after.issuers
      ensures IssuerSound(after, t)
    {
      assert IssuerSound(s, t);
      ClaimIgnoresMembers(s.db, after.db, s.past, s.issuers[t]);
    }
    forall t | t in after.removals
      ensures RemovalSound(after, t)
    {
      assert RemovalSound(s, t);
      SameOwners(s.db, after.db, s.removals[t]);
    }
  }

  lemma ClaimIgnoresMembers(before: Db, after: Db, past: Past, issuer: Issuer)
    requires PastSound(past) && after.records == before.records
    ensures HasClaim(issuer.phase) && ClaimSound(before, past, issuer.phase.claim, issuer.intent) ==>
      ClaimSound(after, past, issuer.phase.claim, issuer.intent)
  {
  }

  /** What a committing removal leaves to be proved of itself. */
  lemma CommittedRemovalSound(s: State, id: TxId)
    requires Inv(s) && id in s.removals && id !in s.issuers && !s.removals[id].stopped
    requires s.removals[id].done < |s.removals[id].plan| && s.removals[id].plan[s.removals[id].done] == CommitStatements
    ensures RemovalSound(RunCommit(s, id), id)
  {
    hide DbSound, ClaimSound, PastSound, IssuerSound;
    assert RemovalSound(s, id);
    var removal, after := s.removals[id], RunCommit(s, id);
    RevokedIsWeaker(s.db, removal.disabling);
    assert forall k | Usable(after.db, k) :: Usable(RevokedIn(s.db, removal.disabling), k);
  }

  lemma RunCommitKeepsInv(s: State, id: TxId)
    requires Inv(s) && id in s.removals && id !in s.issuers && !s.removals[id].stopped
    requires s.removals[id].done < |s.removals[id].plan| && s.removals[id].plan[s.removals[id].done] == CommitStatements
    ensures Inv(RunCommit(s, id))
  {
    CommittedRemovalSound(s, id);
    hide DbSound, ClaimSound, PastSound, IssuerSound, NothingUsable, AllDisabling, RevokedIn, Usable;
    assert RemovalSound(s, id);
    var removal, after := s.removals[id], RunCommit(s, id);
    RevokedIsWeaker(s.db, removal.disabling);
    var owned := removal.disabling * s.db.owners.Keys;
    WeakerKeepsInv(s, RevokedIn(s.db, removal.disabling), owned);
    var weaker := s.(db := RevokedIn(s.db, removal.disabling), past := s.past.(revoked := s.past.revoked + owned));
    var paused := removal.(deleting := false, disabling := {}, stopped := true);
    RemovalStep(weaker, id, paused, s.locks);
    var stopped := weaker.(removals := s.removals[id := paused], locks := s.locks);
    var gone := if removal.deleting then {removal.member} else {};
    MemberGoneKeepsInv(stopped, id, gone);
    var without := stopped.(db := stopped.db.(members := stopped.db.members - gone));
    var final := without.(removals := without.removals[id := after.removals[id]], locks := after.locks);
    assert final.db == after.db;
    assert final.removals == after.removals;
    assert final == after;
    RemovalStep(without, id, after.removals[id], after.locks);
  }

  lemma AddMemberDb(db: Db, past: Past, member: MemberId, user: UserId)
    requires PastSound(past) && DbSound(db, past) && member !in past.users
    ensures
      var after := past.(users := past.users[member := user]);
      PastSound(after) && DbSound(db.(members := db.members + {member}), after)
  {
    SameUsable(db, db.(members := db.members + {member}));
    hide Usable;
  }

  lemma AddMemberKeepsInv(s: State, member: MemberId, user: UserId)
    requires Inv(s)
    ensures Inv(Next(s, AddMember(member, user)))
  {
    var after := Next(s, AddMember(member, user));
    if after != s {
      AddMemberDb(s.db, s.past, member, user);
      hide NothingUsable, AllDisabling, DbSound, PastSound;
      forall t | t in after.issuers
        ensures IssuerSound(after, t)
      {
        assert IssuerSound(s, t);
      }
      forall t | t in after.removals
        ensures RemovalSound(after, t)
      {
        assert RemovalSound(s, t);
        SameOwners(s.db, after.db, s.removals[t]);
      }
    }
  }

  lemma CompensateKeepsInv(s: State, id: TxId)
    requires Inv(s) && id in s.issuers && (s.issuers[id].phase.Failing? || s.issuers[id].phase.Done?)
    ensures Inv(NextIssue(s, Compensate(id), id))
  {
    hide ClaimSound, DbSound, PastSound, RemovalSound, BoundByCommit, DistinctKeys, RowLocked;
    assert IssuerSound(s, id);
    var phase := s.issuers[id].phase;
    var after := NextIssue(s, Compensate(id), id);
    if after != s {
      var db := DisabledIn(s.db, phase.key);
      assert OnlyWeaker(s.db, db);
      WeakerKeepsInv(s, db, {});
      var weaker := s.(db := db, past := s.past.(revoked := s.past.revoked + {}));
      assert weaker.past == s.past;
      PhaseStep(weaker, id, if phase.Failing? then Stopped else Done(phase.key, Disabled), s.locks);
    }
  }

  lemma ManageKeepsInv(s: State, key: KeyId)
    requires Inv(s) && LookedUp(s.db, key)
    ensures Inv(s.(db := UpdatedIn(s.db, key)))
    ensures Inv(s.(db := RevokedAt(s.db, key), past := s.past.(revoked := s.past.revoked + {key})))
  {
    hide PastSound, DbSound, IssuerSound, RemovalSound, DistinctKeys, BoundByCommit;
    WeakerKeepsInv(s, UpdatedIn(s.db, key), {});
    assert s.past.(revoked := s.past.revoked + {}) == s.past;
    WeakerKeepsInv(s, RevokedAt(s.db, key), {key});
  }

  lemma LockStepsKeepInv(s: State, step: Step, id: TxId)
    requires Inv(s) && id in s.issuers
    requires step.TryIntentLock? || step.LockMember? || step.DeletePrevious? || step.BindOwner? || step.RecordOutcome?
    ensures Inv(NextIssue(s, step, id))
  {
    hide ClaimSound, DbSound, PastSound, RemovalSound, BoundByCommit, DistinctKeys, RowLocked;
    assert IssuerSound(s, id);
    var after := NextIssue(s, step, id);
    if after != s {
      if after.locks == Release(s.locks, id) && (step.LockMember? || step.BindOwner?) && after.issuers[id].phase.Failing? {
        RollBackKeepsInv(s, id);
      } else {
        PhaseStep(s, id, after.issuers[id].phase, after.locks);
      }
    }
  }

  lemma IssueStepKeepsInv(s: State, step: Step, id: TxId)
    requires Inv(s) && id in s.issuers && Next(s, step) == NextIssue(s, step, id)
    ensures Inv(NextIssue(s, step, id))
  {
    hide Inv, Next, RowLocked;
    var phase := s.issuers[id].phase;
    match step
    case TakeClaim(_) =>
      if phase.Locked? {
        ClaimKeepsInv(s, id);
      }
    case Issue(_) =>
      if phase.Claimed? {
        IssueKeepsInv(s, id);
      }
    case CommitIssue(_) =>
      if phase.Recorded? {
        CommitKeepsInv(s, id, Told);
      }
    case LoseCommit(_) =>
      if phase.Recorded? {
        CommitKeepsInv(s, id, Lost);
      }
    case FailIssue(_) =>
      if Active(phase) || phase.Begun? {
        RollBackKeepsInv(s, id);
      }
    case Compensate(_) =>
      if phase.Failing? || phase.Done? {
        CompensateKeepsInv(s, id);
      }
    case CrashIssue(_) =>
      if Active(phase) || phase.Begun? || phase.Failing? {
        CrashKeepsInv(s, id);
      }
    case TryIntentLock(_) => LockStepsKeepInv(s, step, id);
    case LockMember(_) => LockStepsKeepInv(s, step, id);
    case DeletePrevious(_) => LockStepsKeepInv(s, step, id);
    case BindOwner(_, _) => LockStepsKeepInv(s, step, id);
    case RecordOutcome(_) => LockStepsKeepInv(s, step, id);
    case _ =>
  }

  lemma CrashKeepsInv(s: State, id: TxId)
    requires Inv(s) && id in s.issuers && !s.issuers[id].phase.Done?
    ensures Inv(EndIssue(s, id, Stopped))
  {
    hide ClaimSound, DbSound, PastSound, RemovalSound;
    assert IssuerSound(s, id);
    PhaseStep(s, id, Stopped, Release(s.locks, id));
  }

  lemma RemovalStepKeepsInv(s: State, id: TxId)
    requires Inv(s) && id in s.removals && !s.removals[id].stopped
    ensures s.removals[id].done < |s.removals[id].plan| && s.removals[id].member in s.past.users ==> Inv(RunStatementIn(s, id))
    ensures Inv(StopRemovalIn(s, id))
  {
    assert RemovalSound(s, id);
    RemovalsAreNotIssuers(s);
    var removal := s.removals[id];
    hide DbSound, ClaimSound, PastSound, IssuerSound, NothingUsable, AllDisabling, DistinctKeys, BoundByCommit;
    RemovalStep(s, id, removal.(deleting := false, disabling := {}, stopped := true), Release(s.locks, id));
    if removal.done < |removal.plan| {
      match removal.plan[removal.done]
      case DeleteMember => DeleteMemberKeepsInv(s, id);
      case DisableKeys => DisableKeepsInv(s, id);
      case CommitStatements => RunCommitKeepsInv(s, id);
    }
  }

  lemma RemovalsAreNotIssuers(s: State)
    requires Inv(s)
    ensures forall t | t in s.issuers :: t !in s.removals
  {
    forall t | t in s.issuers
      ensures t !in s.removals
    {
      assert IssuerSound(s, t);
    }
  }

  lemma BeginKeepsInv(s: State, step: Step)
    requires Inv(s) && (step.BeginIssue? || step.BeginRemoval?)
    ensures Inv(Next(s, step))
  {
    hide DbSound, ClaimSound, PastSound, NothingUsable, AllDisabling, DistinctKeys, BoundByCommit;
    var after := Next(s, step);
    if after != s {
      if step.BeginIssue? {
        IssuerStep(s, step.tx, after.issuers[step.tx], s.locks);
        assert after == s.(issuers := s.issuers[step.tx := after.issuers[step.tx]], locks := s.locks);
      } else {
        RemovalStep(s, step.tx, after.removals[step.tx], s.locks);
        assert after == s.(removals := s.removals[step.tx := after.removals[step.tx]], locks := s.locks);
      }
    }
  }

  lemma StepKeepsInv(s: State, step: Step)
    requires Inv(s)
    ensures Inv(Next(s, step))
  {
    hide Inv, NextIssue, RunStatementIn, StopRemovalIn, RowLocked, UpdatedIn, RevokedAt;
    match step
    case AddMember(member, user) => AddMemberKeepsInv(s, member, user);
    case BeginIssue(_, _, _) => BeginKeepsInv(s, step);
    case BeginRemoval(_, _, _) => BeginKeepsInv(s, step);
    case RunStatement(id) =>
      if id in s.removals && !s.removals[id].stopped {
        RemovalStepKeepsInv(s, id);
      }
    case StopRemoval(id) =>
      if id in s.removals && !s.removals[id].stopped {
        RemovalStepKeepsInv(s, id);
      }
    case UpdateKey(key, version) =>
      if LookedUp(s.db, key) {
        ManageKeepsInv(s, key);
      }
    case RevokeKey(key, version) =>
      if LookedUp(s.db, key) {
        ManageKeepsInv(s, key);
      }
    case PurgeRecord(r) => PurgeKeepsInv(s, r);
    case _ =>
      if step.tx in s.issuers {
        IssueStepKeepsInv(s, step, step.tx);
      }
  }

  lemma {:induction false} RunKeepsInv(s: State, steps: seq<Step>)
    requires Inv(s)
    ensures Inv(Run(s, steps))
    decreases |steps|
  {
    hide Inv, Next;
    if steps != [] {
      StepKeepsInv(s, steps[0]);
      RunKeepsInv(Next(s, steps[0]), steps[1..]);
    }
  }

  ghost function Reached(steps: seq<Step>): State
  {
    Run(Initial, steps)
  }

  lemma ReachedIsSound(steps: seq<Step>)
    ensures Inv(Reached(steps))
  {
    RunKeepsInv(Initial, steps);
  }

  // ---------- What every run guarantees ----------

  /** At most one usable key per live intent record: the one its outcome names. */
  lemma OneUsableKeyPerRecord(steps: seq<Step>, key: KeyId)
    requires Usable(Reached(steps).db, key)
    ensures
      var s := Reached(steps);
      && key in s.past.origins
      && (s.past.origins[key] in s.db.records ==> s.db.records[s.past.origins[key]].outcome == key)
  {
    ReachedIsSound(steps);
    var s := Reached(steps);
    assert OwnersSound(s.db, s.past);
  }

  /** The lookup only returns keys whose commit took effect: never one of an issuance that rolled back or crashed before it. */
  lemma LookedUpWasIssued(steps: seq<Step>, key: KeyId)
    requires LookedUp(Reached(steps).db, key)
    ensures exists t | t in Reached(steps).issuers :: Committed(Reached(steps).issuers[t].phase, key)
  {
    ReachedIsSound(steps);
    var s := Reached(steps);
    assert OwnersSound(s.db, s.past) && BoundByCommit(s);
  }

  /** The issued key is bound and named in its record, the key it replaces is gone, and every other key is as it was. */
  ghost predicate KeyReplaced(before: Db, after: Db, issuer: Issuer)
    requires issuer.phase.Recorded?
  {
    var key, claim := issuer.phase.key, issuer.phase.claim;
    && LookedUp(after, key) && after.owners[key] == Owner(issuer.intent.user, issuer.member, false, 1)
    && (claim.Replay? ==> claim.previous !in after.keys)
    && (claim.NewRecord? || claim.id in before.records ==>
          claim.id in after.records && after.records[claim.id] == Record(issuer.intent, key))
    && (forall k | LookedUp(before, k) && k !in Previous(claim) :: Usable(after, k) == Usable(before, k))
  }

  /** A commit that replays an intent leaves one key where there was one. */
  lemma CommitReplacesPreviousKey(steps: seq<Step>, id: TxId)
    requires id in Reached(steps).issuers && Reached(steps).issuers[id].phase.Recorded?
    ensures KeyReplaced(Reached(steps).db, Next(Reached(steps), CommitIssue(id)).db, Reached(steps).issuers[id])
  {
    ReachedIsSound(steps);
    var s := Reached(steps);
    assert IssuerSound(s, id);
    assert Next(s, CommitIssue(id)) == CommitIssued(s, id, Told);
    hide RecordsSound, RevokedSound, PastSound, Next, RemovalSound, KeyReplaced, Reached;
    BoundDirectly(s.db, s.past, s.issuers[id]);
  }

  lemma BoundDirectly(db: Db, past: Past, issuer: Issuer)
    requires PastSound(past) && OwnersSound(db, past) && issuer.phase.Recorded?
    requires ClaimSound(db, past, issuer.phase.claim, issuer.intent)
    requires issuer.phase.key in db.keys && issuer.phase.key !in past.bound
    ensures KeyReplaced(db, BoundIn(db, issuer), issuer)
  {
  }

  /** A revoked key is never usable again. */
  lemma {:induction false} RevokedForGood(s: State, steps: seq<Step>, key: KeyId)
    requires Inv(s) && key in s.past.revoked
    ensures key in Run(s, steps).past.revoked && !Usable(Run(s, steps).db, key)
    decreases |steps|
  {
    hide Next;
    if steps == [] {
      assert RevokedSound(s.db, s.past);
    } else {
      hide Inv;
      StepKeepsInv(s, steps[0]);
      RevokedOnlyGrows(s, steps[0]);
      RevokedForGood(Next(s, steps[0]), steps[1..], key);
    }
  }

  lemma RevokedOnlyGrows(s: State, step: Step)
    ensures s.past.revoked <= Next(s, step).past.revoked
  {
  }

  /** Revoking does revoke: the row is in the set the previous lemma speaks of. */
  lemma RevokeRevokes(s: State, key: KeyId, version: nat)
    requires ManagedAt(s, key, version)
    ensures key in Next(s, RevokeKey(key, version)).past.revoked
    ensures Next(s, RevokeKey(key, version)).db.owners[key].version == version + 1
  {
  }

  /** An update changes a version and nothing that can be done; a revocation takes one key out of use; a stale version changes nothing. */
  lemma ManagedWrites(s: State, key: KeyId, version: nat)
    requires LookedUp(s.db, key) && !RowLocked(s, key)
    ensures
      var updated, revoked := Next(s, UpdateKey(key, version)).db, Next(s, RevokeKey(key, version)).db;
      if s.db.owners[key].version != version then updated == s.db && revoked == s.db
      else
        && updated.owners[key].version == revoked.owners[key].version == version + 1
        && updated.keys == s.db.keys && LookedUp(revoked, key) && !revoked.keys[key] && revoked.owners[key].revoked
        && (forall k :: Usable(updated, k) <==> Usable(s.db, k))
        && (forall k | k != key :: Usable(revoked, k) <==> Usable(s.db, k))
        && updated.records == revoked.records == s.db.records && updated.members == revoked.members == s.db.members
  {
    hide RowLocked;
  }

  /** The row of a revoked key: a new version, unless it was revoked before. */
  predicate IsRevocationOf(before: Owner, after: Owner) {
    && after.revoked && after.user == before.user && after.member == before.member
    && after.version == before.version + if before.revoked then 0 else 1
  }

  /** A member-first removal that finds its locks free deletes the member, and revokes every key bound to it and no other. */
  lemma RemovalRunsThrough(s: State, id: TxId)
    requires Inv(s) && id in s.removals && s.removals[id] == Removal(s.removals[id].member, TOGETHER, 0, false, {}, false)
    requires s.removals[id].member in s.db.members && s.removals[id].member !in s.locks.members
    requires forall k :: !RowLocked(s, k)
    ensures
      var member := s.removals[id].member;
      var after := Run(s, [RunStatement(id), RunStatement(id), RunStatement(id)]);
      && member in s.past.users && id in after.removals && Finished(after.removals[id]) && member !in after.db.members
      && (forall k | LookedUp(s.db, k) && s.db.owners[k].user == s.past.users[member] ::
            && k in after.past.revoked && LookedUp(after.db, k) && !after.db.keys[k]
            && IsRevocationOf(s.db.owners[k], after.db.owners[k]))
      && forall k | LookedUp(s.db, k) && s.db.owners[k].user != s.past.users[member] :: Usable(after.db, k) == Usable(s.db, k)
  {
    var member, owned := s.removals[id].member, OwnedBy(s.db, s.past.users[s.removals[id].member]);
    var two := MemberGoneKeysHeld(s, id);
    var three := RunCommit(two, id);
    assert Next(two, RunStatement(id)) == three;
    ThreeSteps(s, RunStatement(id));
    RevokedKeys(s.db, owned);
    hide Run, Next, RowLocked, Inv, RevokedIn;
    var revoked := RevokedIn(s.db, owned);
    assert three.db.keys == revoked.keys && three.db.owners == revoked.owners;
    assert forall k :: Usable(three.db, k) == Usable(revoked, k);
    assert forall k | LookedUp(s.db, k) :: k in owned <==> s.db.owners[k].user == s.past.users[member];
    assert three.past.revoked == s.past.revoked + owned * s.db.owners.Keys;
    hide RunCommit;
  }

  /** After its first two statements the removal holds the member row, and every key bound to the member's user. */
  lemma MemberGoneKeysHeld(s: State, id: TxId) returns (two: State)
    requires Inv(s) && id in s.removals && s.removals[id] == Removal(s.removals[id].member, TOGETHER, 0, false, {}, false)
    requires s.removals[id].member in s.db.members && s.removals[id].member !in s.locks.members
    requires forall k :: !RowLocked(s, k)
    ensures two == Next(Next(s, RunStatement(id)), RunStatement(id))
    ensures two.db == s.db && two.past == s.past && id in two.removals && s.removals[id].member in s.past.users
    ensures two.removals[id]
            == Removal(s.removals[id].member, TOGETHER, 2, true, OwnedBy(s.db, s.past.users[s.removals[id].member]), false)
  {
    assert RemovalSound(s, id);
    var one := RunDeleteMember(s, id);
    assert Next(s, RunStatement(id)) == one;
    assert forall k :: RowLocked(one, k) ==> RowLocked(s, k);
    hide Inv, RowLocked;
    two := RunDisableKeys(one, id);
    assert Next(one, RunStatement(id)) == two;
  }

  lemma RevokedKeys(db: Db, disabled: set<KeyId>)
    ensures
      var after := RevokedIn(db, disabled);
      && (forall k | LookedUp(db, k) && k in disabled ::
            LookedUp(after, k) && !after.keys[k] && IsRevocationOf(db.owners[k], after.owners[k]))
      && forall k | LookedUp(db, k) && k !in disabled :: Usable(after, k) == Usable(db, k)
  {
  }

  lemma ThreeSteps(s: State, step: Step)
    ensures Run(s, [step, step, step]) == Next(Next(Next(s, step), step), step)
  {
    hide Next;
    assert [step] + [step, step] == [step, step, step] && [step] + [step] == [step, step] && [step] + [] == [step];
    OneMore(s, step, [step, step]);
    OneMore(Next(s, step), step, [step]);
    OneMore(Next(Next(s, step), step), step, []);
  }

  lemma OneMore(s: State, step: Step, rest: seq<Step>)
    ensures Run(s, [step] + rest) == Run(Next(s, step), rest)
  {
    assert ([step] + rest)[1..] == rest;
  }

  /** Once a member-first removal is finished, no key bound to that member is usable, whatever ran beside it. */
  lemma RemovedMemberHasNoUsableKey(steps: seq<Step>, t: TxId, key: KeyId)
    requires t in Reached(steps).removals
    requires MemberFirst(Reached(steps).removals[t]) && Finished(Reached(steps).removals[t])
    requires Usable(Reached(steps).db, key)
    ensures Reached(steps).db.owners[key].member != Reached(steps).removals[t].member
  {
    ReachedIsSound(steps);
    assert RemovalSound(Reached(steps), t);
  }

  /** The steps of one attempt, its commit apart. */
  predicate AttemptStep(step: Step, id: TxId) {
    match step
    case TryIntentLock(t) => t == id
    case TakeClaim(t) => t == id
    case Issue(t) => t == id
    case LockMember(t) => t == id
    case DeletePrevious(t) => t == id
    case BindOwner(t, _) => t == id
    case RecordOutcome(t) => t == id
    case FailIssue(t) => t == id
    case Compensate(t) => t == id
    case CrashIssue(t) => t == id
    case _ => false
  }

  /** Owners, recorded outcomes and members are as they were, and so is what the lookup and the check of every key say. */
  ghost predicate Harmless(before: Db, after: Db) {
    && after.owners == before.owners && after.records == before.records && after.members == before.members
    && forall k :: LookedUp(after, k) == LookedUp(before, k) && Usable(after, k) == Usable(before, k)
  }

  lemma AttemptStepIsHarmless(s: State, id: TxId, step: Step)
    requires Inv(s) && id in s.issuers && !s.issuers[id].phase.Done? && AttemptStep(step, id)
    ensures Harmless(s.db, Next(s, step).db)
    ensures id in Next(s, step).issuers && !Next(s, step).issuers[id].phase.Done?
  {
    AttemptStepDb(s, id, step);
    OwnKeyIsNotLookedUp(s, id);
    var phase := s.issuers[id].phase;
    hide Next, Inv, AttemptStep;
    KeyWithoutOwner(s.db, s.past.nextKey, true);
    if Unbound(phase) {
      KeyWithoutOwner(s.db, phase.key, false);
    }
  }

  lemma AttemptStepDb(s: State, id: TxId, step: Step)
    requires id in s.issuers && !s.issuers[id].phase.Done? && AttemptStep(step, id)
    ensures
      var phase, db := s.issuers[id].phase, Next(s, step).db;
      || db == s.db || db == s.db.(keys := s.db.keys[s.past.nextKey := true])
      || (Unbound(phase) && db == s.db.(keys := s.db.keys[phase.key := false]))
    ensures id in Next(s, step).issuers && !Next(s, step).issuers[id].phase.Done?
  {
    hide RowLocked;
    assert Next(s, step) == NextIssue(s, step, id);
  }

  lemma KeyWithoutOwner(db: Db, key: KeyId, enabled: bool)
    requires key !in db.owners
    ensures Harmless(db, db.(keys := db.keys[key := enabled])) && Harmless(db, db)
  {
  }

  /** Neither the key an attempt has issued nor the one it is about to issue has an owner. */
  lemma OwnKeyIsNotLookedUp(s: State, id: TxId)
    requires Inv(s) && id in s.issuers
    ensures s.past.nextKey !in s.db.owners
    ensures Unbound(s.issuers[id].phase) ==> s.issuers[id].phase.key !in s.db.owners
    ensures forall k | k in s.db.owners :: k in s.db.keys
  {
    assert IssuerSound(s, id) && OwnersSound(s.db, s.past);
  }

  lemma OthersLeaveUncommitted(s: State, id: TxId, step: Step)
    requires id in s.issuers && !s.issuers[id].phase.Done? && !AttemptStep(step, id)
    requires step != CommitIssue(id) && step != LoseCommit(id)
    ensures id in Next(s, step).issuers && !Next(s, step).issuers[id].phase.Done?
  {
    hide RowLocked;
  }

  /** What is recorded for an intent, and whether a key is usable. */
  predicate SameFor(before: Db, after: Db, r: RecordId, key: KeyId) {
    && (r in after.records <==> r in before.records) && (r in before.records ==> after.records[r] == before.records[r])
    && Usable(after, key) == Usable(before, key)
  }

  /** Some step that is not the attempt's changed it. */
  ghost predicate ChangedByAnother(s: State, steps: seq<Step>, id: TxId, r: RecordId, key: KeyId) {
    exists j | 0 <= j < |steps| ::
      !AttemptStep(steps[j], id) && !SameFor(Run(s, steps[..j]).db, Run(s, steps[..j + 1]).db, r, key)
  }

  lemma {:induction false} RunLast(s: State, steps: seq<Step>)
    requires steps != []
    ensures Run(s, steps) == Next(Run(s, steps[..|steps| - 1]), steps[|steps| - 1])
  {
    hide Next;
    var n := |steps| - 1;
    assert steps == steps[..n] + [steps[n]];
    RunOne(s, steps[..n], steps[n]);
  }

  lemma {:induction false} AttemptChangesNothing(s: State, id: TxId, steps: seq<Step>, r: RecordId, key: KeyId)
    requires Inv(s) && id in s.issuers && !s.issuers[id].phase.Done?
    requires CommitIssue(id) !in steps && LoseCommit(id) !in steps
    ensures id in Run(s, steps).issuers && !Run(s, steps).issuers[id].phase.Done?
    ensures SameFor(s.db, Run(s, steps).db, r, key) || ChangedByAnother(s, steps, id, r, key)
    decreases |steps|
  {
    hide Next, AttemptStep, Inv, Usable;
    if steps != [] {
      var n := |steps| - 1;
      var before, last := steps[..n], steps[n];
      AttemptChangesNothing(s, id, before, r, key);
      RunLast(s, steps);
      RunKeepsInv(s, before);
      assert steps[..n + 1] == steps && last in steps;
      if AttemptStep(last, id) {
        AttemptStepIsHarmless(Run(s, before), id, last);
      } else {
        OthersLeaveUncommitted(Run(s, before), id, last);
      }
      if j :| 0 <= j < n && !AttemptStep(before[j], id)
              && !SameFor(Run(s, before[..j]).db, Run(s, before[..j + 1]).db, r, key) {
        assert before[..j] == steps[..j] && before[..j + 1] == steps[..j + 1];
      }
    }
  }

  /**
   * However it is interleaved, an attempt whose commit does not take effect leaves what is
   * recorded for every intent and the usability of every key as they were, the previous key
   * included: if they are different at the end, a step of someone else changed them.
   */
  lemma FailedAttemptKeepsPreviousKey(steps: seq<Step>, id: TxId, between: seq<Step>, r: RecordId, key: KeyId)
    requires id in Reached(steps).issuers && !Reached(steps).issuers[id].phase.Done?
    requires CommitIssue(id) !in between && LoseCommit(id) !in between
    ensures SameFor(Reached(steps).db, Run(Reached(steps), between).db, r, key)
            || ChangedByAnother(Reached(steps), between, id, r, key)
  {
    ReachedIsSound(steps);
    AttemptChangesNothing(Reached(steps), id, between, r, key);
  }

  /** No key issued for this record can be used. */
  ghost predicate NoUsableKeyFor(s: State, r: RecordId) {
    forall k | Usable(s.db, k) :: k in s.past.origins && s.past.origins[k] != r
  }

  /**
   * A commit that took effect and was reported as failed is the exception. The previous key
   * went with it, and the compensation disables the bound, recorded key: the intent that
   * record stands for is left without a usable key, until it is issued again.
   */
  lemma LostCommitLeavesNoUsableKey(steps: seq<Step>, id: TxId)
    requires
      var s := Reached(steps);
      && id in s.issuers && s.issuers[id].phase.Done? && s.issuers[id].phase.report.Lost?
      && s.issuers[id].phase.key in s.db.owners && s.issuers[id].phase.key in s.past.origins
      && s.past.origins[s.issuers[id].phase.key] in s.db.records && !RowLocked(s, s.issuers[id].phase.key)
    ensures
      var s, key := Reached(steps), Reached(steps).issuers[id].phase.key;
      var after := Next(s, Compensate(id));
      && after.db.records[s.past.origins[key]].outcome == key && LookedUp(after.db, key)
      && NoUsableKeyFor(after, s.past.origins[key])
  {
    ReachedIsSound(steps);
    var s, key := Reached(steps), Reached(steps).issuers[id].phase.key;
    assert OwnersSound(s.db, s.past);
    hide RowLocked, RemovalSound, BoundByCommit, DistinctKeys, ClaimSound, IssuerSound;
    assert Next(s, Compensate(id)) == NextIssue(s, Compensate(id), id);
    assert forall k | Usable(Next(s, Compensate(id)).db, k) :: k != key && Usable(s.db, k);
  }

  // ---------- Issued keys work, compensated keys do not ----------

  /** Only bound keys are being disabled, and a key that is issued and still to be bound is enabled. */
  ghost predicate IssuedWork(s: State) {
    && (forall t | t in s.removals :: s.removals[t].disabling <= s.past.bound)
    && forall t | t in s.issuers && Unbound(s.issuers[t].phase) && !s.issuers[t].phase.Failing? ::
         s.issuers[t].phase.key in s.db.keys && s.db.keys[s.issuers[t].phase.key]
  }

  /** Keys that are not bound are left as they are. */
  ghost predicate UnboundUntouched(s: State, after: State) {
    forall k | k in s.db.keys && k !in s.past.bound :: k in after.db.keys && after.db.keys[k] == s.db.keys[k]
  }

  /** A step that adds no issued key, and at most disables bound ones. */
  lemma IssuedStillWork(s: State, after: State)
    requires Inv(s) && IssuedWork(s) && UnboundUntouched(s, after) && s.past.bound <= after.past.bound
    requires forall t | t in after.removals && (t !in s.removals || after.removals[t].disabling != s.removals[t].disabling) ::
      after.removals[t].disabling <= s.past.bound
    requires forall t | t in after.issuers && Unbound(after.issuers[t].phase) && !after.issuers[t].phase.Failing? ::
      && t in s.issuers && Unbound(s.issuers[t].phase) && !s.issuers[t].phase.Failing?
      && s.issuers[t].phase.key == after.issuers[t].phase.key
    ensures IssuedWork(after)
  {
    forall t | t in after.issuers && Unbound(after.issuers[t].phase) && !after.issuers[t].phase.Failing?
      ensures after.issuers[t].phase.key in after.db.keys && after.db.keys[after.issuers[t].phase.key]
    {
      assert IssuerSound(s, t);
    }
  }

  lemma RemovalsKeepWorking(s: State, step: Step)
    requires Inv(s) && IssuedWork(s) && (step.RunStatement? || step.StopRemoval? || step.BeginRemoval?)
    ensures IssuedWork(Next(s, step))
  {
    hide IssuerSound, RemovalSound, BoundByCommit, DistinctKeys, RowLocked, RecordsSound, RevokedSound;
    assert OwnersSound(s.db, s.past);
    hide OwnersSound, RunStatementIn;
    var after := Next(s, step);
    if step.RunStatement? {
      if after != s {
        StatementKeepsWorking(s, step.tx);
      }
    } else {
      IssuedStillWork(s, after);
    }
  }

  lemma StatementKeepsWorking(s: State, id: TxId)
    requires Inv(s) && IssuedWork(s) && id in s.removals
    requires s.removals[id].done < |s.removals[id].plan| && s.removals[id].member in s.past.users
    ensures IssuedWork(RunStatementIn(s, id))
  {
    hide IssuerSound, RemovalSound, BoundByCommit, DistinctKeys, RowLocked, RecordsSound, RevokedSound;
    assert forall k | k in s.db.owners :: k in s.past.bound by {
      assert OwnersSound(s.db, s.past);
    }
    hide OwnersSound, Inv;
    var after := RunStatementIn(s, id);
    assert after.issuers == s.issuers;
    assert UnboundUntouched(s, after);
    assert s.past.bound == after.past.bound;
    IssuedStillWork(s, after);
  }

  lemma ManagementKeepsWorking(s: State, step: Step)
    requires Inv(s) && IssuedWork(s)
    requires step.AddMember? || step.BeginIssue? || step.UpdateKey? || step.RevokeKey? || step.PurgeRecord?
    ensures IssuedWork(Next(s, step))
  {
    hide Inv, RowLocked, UnboundUntouched;
    var after := Next(s, step);
    ManagementTouchesBound(s, step);
    assert after.removals == s.removals && s.past.bound == after.past.bound;
    assert forall t | t in after.issuers ::
      (t in s.issuers && after.issuers[t] == s.issuers[t]) || after.issuers[t].phase.Begun?;
    hide Next;
    IssuedStillWork(s, after);
  }

  lemma ManagementTouchesBound(s: State, step: Step)
    requires Inv(s)
    requires step.AddMember? || step.BeginIssue? || step.UpdateKey? || step.RevokeKey? || step.PurgeRecord?
    ensures UnboundUntouched(s, Next(s, step))
  {
    assert forall k | k in s.db.owners :: k in s.past.bound by {
      assert OwnersSound(s.db, s.past);
    }
    hide Inv, RowLocked, Usable;
    assert step.RevokeKey? || Next(s, step).db.keys == s.db.keys;
  }

  lemma IssuanceKeepsWorking(s: State, step: Step, id: TxId)
    requires Inv(s) && IssuedWork(s) && id in s.issuers
    requires AttemptStep(step, id) || step == CommitIssue(id) || step == LoseCommit(id)
    ensures IssuedWork(NextIssue(s, step, id))
  {
    hide Inv, IssuedWork;
    if step.Issue? {
      NewKeyWorks(s, id);
    } else if step.Compensate? {
      CompensationKeepsWorking(s, id);
    } else if step.CommitIssue? || step.LoseCommit? {
      if s.issuers[id].phase.Recorded? {
        CommitKeepsWorking(s, id, if step.CommitIssue? then Told else Lost);
      }
    } else {
      PhaseKeepsWorking(s, step, id);
    }
  }

  lemma CommitKeepsWorking(s: State, id: TxId, report: Report)
    requires Inv(s) && IssuedWork(s) && id in s.issuers && s.issuers[id].phase.Recorded?
    ensures IssuedWork(CommitIssued(s, id, report))
  {
    hide RemovalSound, BoundByCommit, DistinctKeys, RowLocked, RecordsSound, RevokedSound, OwnersSound;
    assert IssuerSound(s, id);
    hide IssuerSound;
    IssuedStillWork(s, CommitIssued(s, id, report));
  }

  /** Before its commit an attempt moves on or ends, and only issuing gives it a key. */
  lemma PhaseKeepsWorking(s: State, step: Step, id: TxId)
    requires Inv(s) && IssuedWork(s) && id in s.issuers
    requires AttemptStep(step, id) && !step.Issue? && !step.Compensate?
    ensures IssuedWork(NextIssue(s, step, id))
  {
    hide Inv, RowLocked, Release;
    var after := NextIssue(s, step, id);
    PhaseMoves(s, step, id);
    hide NextIssue;
    IssuedStillWork(s, after);
  }

  lemma PhaseMoves(s: State, step: Step, id: TxId)
    requires id in s.issuers && AttemptStep(step, id) && !step.Issue? && !step.Compensate?
    ensures
      var after := NextIssue(s, step, id);
      && after.db == s.db && after.removals == s.removals && after.past.bound == s.past.bound
      && after.issuers.Keys == s.issuers.Keys && (forall t | t in s.issuers && t != id :: after.issuers[t] == s.issuers[t])
      && var phase, next := s.issuers[id].phase, after.issuers[id].phase;
         Unbound(next) && !next.Failing? ==> Unbound(phase) && !phase.Failing? && phase.key == next.key
  {
    hide RowLocked, Release;
  }

  lemma NewKeyWorks(s: State, id: TxId)
    requires Inv(s) && IssuedWork(s) && id in s.issuers
    ensures IssuedWork(NextIssue(s, Issue(id), id))
  {
    hide RemovalSound, BoundByCommit, RowLocked, RecordsSound, RevokedSound, OwnersSound;
    forall t | t in s.issuers
      ensures Unbound(s.issuers[t].phase) ==> s.issuers[t].phase.key < s.past.nextKey
    {
      assert IssuerSound(s, t);
    }
  }

  lemma CompensationKeepsWorking(s: State, id: TxId)
    requires Inv(s) && IssuedWork(s) && id in s.issuers
    ensures IssuedWork(NextIssue(s, Compensate(id), id))
  {
    hide RemovalSound, BoundByCommit, RowLocked, RecordsSound, RevokedSound, OwnersSound, ClaimSound;
    assert IssuerSound(s, id);
    forall t | t in s.issuers && t != id
      ensures Unbound(s.issuers[t].phase) && (s.issuers[id].phase.Failing? || s.issuers[id].phase.Done?) ==>
        s.issuers[t].phase.key != s.issuers[id].phase.key
    {
      assert IssuerSound(s, t);
    }
  }

  lemma StepKeepsWorking(s: State, step: Step)
    requires Inv(s) && IssuedWork(s)
    ensures IssuedWork(Next(s, step))
  {
    hide Inv, IssuedWork, NextIssue, RunStatementIn;
    match step
    case AddMember(_, _) => ManagementKeepsWorking(s, step);
    case BeginIssue(_, _, _) => ManagementKeepsWorking(s, step);
    case UpdateKey(_, _) => ManagementKeepsWorking(s, step);
    case RevokeKey(_, _) => ManagementKeepsWorking(s, step);
    case PurgeRecord(_) => ManagementKeepsWorking(s, step);
    case BeginRemoval(_, _, _) => RemovalsKeepWorking(s, step);
    case RunStatement(_) => RemovalsKeepWorking(s, step);
    case StopRemoval(_) => RemovalsKeepWorking(s, step);
    case _ =>
      if step.tx in s.issuers {
        IssuanceKeepsWorking(s, step, step.tx);
      }
  }

  lemma {:induction false} RunKeepsWorking(s: State, steps: seq<Step>)
    requires Inv(s) && IssuedWork(s)
    ensures IssuedWork(Run(s, steps))
    decreases |steps|
  {
    hide Inv, IssuedWork, Next;
    if steps != [] {
      StepKeepsInv(s, steps[0]);
      StepKeepsWorking(s, steps[0]);
      RunKeepsWorking(Next(s, steps[0]), steps[1..]);
    }
  }

  /** Whatever ran beside it, the key of an issuance that commits can be used from then on. */
  lemma CommittedKeyIsUsable(steps: seq<Step>, id: TxId)
    requires id in Reached(steps).issuers && Reached(steps).issuers[id].phase.Recorded?
    ensures Usable(Next(Reached(steps), CommitIssue(id)).db, Reached(steps).issuers[id].phase.key)
  {
    ReachedKeysWork(steps);
    hide Inv, IssuedWork, Reached;
    var s := Reached(steps);
    RecordedKeyWorks(s, id);
    hide Usable, BoundIn;
    assert Next(s, CommitIssue(id)) == CommitIssued(s, id, Told);
  }

  lemma ReachedKeysWork(steps: seq<Step>)
    ensures Inv(Reached(steps)) && IssuedWork(Reached(steps))
  {
    ReachedIsSound([]);
    ReachedIsSound(steps);
    hide Inv;
    assert Reached([]) == Initial;
    RunKeepsWorking(Initial, steps);
  }

  lemma RecordedKeyWorks(s: State, id: TxId)
    requires Inv(s) && IssuedWork(s) && id in s.issuers && s.issuers[id].phase.Recorded?
    ensures Usable(BoundIn(s.db, s.issuers[id]), s.issuers[id].phase.key)
  {
    assert IssuerSound(s, id);
    hide Inv;
  }

  predicate Enabled(db: Db, key: KeyId) {
    key in db.keys && db.keys[key]
  }

  /** Keys are numbered once, so a key that is not enabled never is again. */
  lemma {:induction false} DisabledForGood(s: State, steps: seq<Step>, key: KeyId)
    requires key < s.past.nextKey && !Enabled(s.db, key)
    ensures !Enabled(Run(s, steps).db, key)
    decreases |steps|
  {
    if steps != [] {
      StepEnablesNothing(s, steps[0], key);
      DisabledForGood(Next(s, steps[0]), steps[1..], key);
    }
  }

  lemma StepEnablesNothing(s: State, step: Step, key: KeyId)
    requires key < s.past.nextKey && !Enabled(s.db, key)
    ensures key < Next(s, step).past.nextKey && !Enabled(Next(s, step).db, key)
  {
    hide RowLocked;
  }

  /** The key of an attempt that failed, or that was told so, is disabled by the compensation and stays disabled. */
  lemma CompensatedStaysDisabled(steps: seq<Step>, id: TxId, later: seq<Step>)
    requires id in Reached(steps).issuers
    requires
      var phase := Reached(steps).issuers[id].phase;
      phase.Failing? || (phase.Done? && phase.report.Lost? && !RowLocked(Reached(steps), phase.key))
    ensures
      var s, key := Reached(steps), Reached(steps).issuers[id].phase.key;
      var after := Next(s, Compensate(id));
      && after.db.keys.Keys == s.db.keys.Keys && !Enabled(after.db, key)
      && !Enabled(Run(after, later).db, key) && !Usable(Run(after, later).db, key)
  {
    ReachedIsSound(steps);
    var s, key := Reached(steps), Reached(steps).issuers[id].phase.key;
    assert IssuerSound(s, id);
    assert key < s.past.nextKey;
    hide Reached, RowLocked, Inv, IssuerSound;
    var after := Next(s, Compensate(id));
    assert after == NextIssue(s, Compensate(id), id);
    DisabledForGood(after, later, key);
  }

  // ---------- The other order ----------

  lemma RunTwice(s: State, a: seq<Step>, b: seq<Step>)
    ensures Run(s, a + b) == Run(Run(s, a), b)
    decreases |a|
  {
    hide Next;
    if a == [] {
      assert a + b == b;
    } else {
      assert (a + b)[0] == a[0] && (a + b)[1..] == a[1..] + b;
      RunTwice(Next(s, a[0]), a[1..], b);
    }
  }

  lemma RunOne(s: State, done: seq<Step>, step: Step)
    ensures Run(s, done + [step]) == Next(Run(s, done), step)
  {
    hide Next;
    RunTwice(s, done, [step]);
  }

  const INTENT := Intent(1, "k")

  /** Member 7 of user 1 has issued key 0 and bound nothing yet. */
  const KEY_ISSUED := State(
    Db(map[0 := true], map[], map[], {7}), Locks(map[INTENT := 0], map[]),
    map[0 := Issuer(INTENT, 7, Issued(NewRecord(0), 0))], map[],
    Past(map[7 := 1], map[0 := INTENT], map[0 := 0], {}, {}, 1, 1))

  lemma IssueOneKey() returns (steps: seq<Step>)
    ensures Run(Initial, steps) == KEY_ISSUED
  {
    steps := [AddMember(7, 1), BeginIssue(0, INTENT, 7), TryIntentLock(0), TakeClaim(0), Issue(0)];
    var added := State(Db(map[], map[], map[], {7}), Locks(map[], map[]), map[], map[],
                       Past(map[7 := 1], map[], map[], {}, {}, 0, 0));
    var begun := added.(issuers := map[0 := Issuer(INTENT, 7, Begun)]);
    var locked := added.(issuers := map[0 := Issuer(INTENT, 7, Locked)], locks := Locks(map[INTENT := 0], map[]));
    var claimed := locked.(issuers := map[0 := Issuer(INTENT, 7, Claimed(NewRecord(0)))],
                           past := locked.past.(intents := map[0 := INTENT], nextRecord := 1));
    assert Next(Initial, steps[0]) == added;
    assert Next(added, steps[1]) == begun;
    assert Next(begun, steps[2]) == locked;
    assert Next(locked, steps[3]) == claimed;
    assert Next(claimed, steps[4]) == KEY_ISSUED;
    RunOne(Initial, steps[..0], steps[0]);
    RunOne(Initial, steps[..1], steps[1]);
    RunOne(Initial, steps[..2], steps[2]);
    RunOne(Initial, steps[..3], steps[3]);
    RunOne(Initial, steps[..4], steps[4]);
    assert steps[..0] == [] && steps[..0] + [steps[0]] == steps[..1] && steps[..1] + [steps[1]] == steps[..2];
    assert steps[..2] + [steps[2]] == steps[..3] && steps[..3] + [steps[3]] == steps[..4] && steps[..4] + [steps[4]] == steps;
  }

  /** The removal disabled what there was, namely nothing, and then the issuance bound its key. */
  const KEY_BOUND := State(
    Db(map[0 := true], map[0 := Owner(1, 7, false, 1)], map[0 := Record(INTENT, 0)], {7}), Locks(map[], map[]),
    map[0 := Issuer(INTENT, 7, Done(0, Told))], map[1 := Removal(7, DISABLE_FIRST, 1, false, {}, false)],
    KEY_ISSUED.past.(bound := {0}))

  /** The same after two statements: nothing was there to disable. */
  const NONE_DISABLED := KEY_ISSUED.(removals := map[1 := Removal(7, DISABLE_FIRST, 1, false, {}, false)])

  lemma DisableNothing() returns (steps: seq<Step>)
    ensures Run(KEY_ISSUED, steps) == NONE_DISABLED
  {
    var begin := BeginRemoval(1, 7, DISABLE_FIRST);
    steps := [begin] + [RunStatement(1)];
    var removing := KEY_ISSUED.(removals := map[1 := Removal(7, DISABLE_FIRST, 0, false, {}, false)]);
    assert Next(KEY_ISSUED, begin) == removing;
    assert OwnedBy(KEY_ISSUED.db, 1) == {};
    assert Next(removing, RunStatement(1)) == NONE_DISABLED;
    RunOne(KEY_ISSUED, [], begin);
    RunOne(KEY_ISSUED, [begin], RunStatement(1));
    assert [] + [begin] == [begin];
  }

  function Binding(phase: IssuePhase): State {
    NONE_DISABLED.(locks := Locks(map[INTENT := 0], map[7 := 0]), issuers := map[0 := Issuer(INTENT, 7, phase)])
  }

  lemma BindStates()
    ensures Next(NONE_DISABLED, LockMember(0)) == Binding(MemberLocked(NewRecord(0), 0))
    ensures Next(Binding(MemberLocked(NewRecord(0), 0)), DeletePrevious(0)) == Binding(PreviousDeleted(NewRecord(0), 0))
  {
  }

  lemma OwnerStates()
    ensures Next(Binding(PreviousDeleted(NewRecord(0), 0)), BindOwner(0, true)) == Binding(Bound(NewRecord(0), 0))
    ensures Next(Binding(Bound(NewRecord(0), 0)), RecordOutcome(0)) == Binding(Recorded(NewRecord(0), 0))
  {
  }

  lemma BindCommits()
    ensures Next(Binding(Recorded(NewRecord(0), 0)), CommitIssue(0)) == KEY_BOUND
  {
  }

  lemma BindAfterDisable() returns (steps: seq<Step>)
    ensures Run(NONE_DISABLED, steps) == KEY_BOUND
  {
    steps := [LockMember(0), DeletePrevious(0), BindOwner(0, true), RecordOutcome(0), CommitIssue(0)];
    BindStates();
    OwnerStates();
    BindCommits();
    hide Next, Binding;
    RunOne(NONE_DISABLED, steps[..0], steps[0]);
    RunOne(NONE_DISABLED, steps[..1], steps[1]);
    RunOne(NONE_DISABLED, steps[..2], steps[2]);
    RunOne(NONE_DISABLED, steps[..3], steps[3]);
    RunOne(NONE_DISABLED, steps[..4], steps[4]);
    assert steps[..0] == [] && steps[..0] + [steps[0]] == steps[..1] && steps[..1] + [steps[1]] == steps[..2];
    assert steps[..2] + [steps[2]] == steps[..3] && steps[..3] + [steps[3]] == steps[..4] && steps[..4] + [steps[4]] == steps;
  }

  lemma RemoveAfterBind()
    ensures
      var after := Next(Next(KEY_BOUND, RunStatement(1)), RunStatement(1));
      && after.removals == map[1 := Removal(7, DISABLE_FIRST, 3, false, {}, false)]
      && after.issuers == KEY_BOUND.issuers && Usable(after.db, 0) && after.db.owners[0].member == 7
  {
    var deleting := Next(KEY_BOUND, RunStatement(1));
    assert deleting == KEY_BOUND.(
        removals := map[1 := Removal(7, DISABLE_FIRST, 2, true, {}, false)], locks := Locks(map[], map[7 := 1]));
  }

  /** Disabling the keys before taking the member row lets an issuance slip in: both finish, and a key stays usable. */
  lemma DisableFirstLeavesUsableKey() returns (steps: seq<Step>)
    ensures 1 in Reached(steps).removals && Reached(steps).removals[1].plan == DISABLE_FIRST
    ensures Finished(Reached(steps).removals[1]) && Usable(Reached(steps).db, 0)
    ensures Reached(steps).db.owners[0].member == Reached(steps).removals[1].member
    ensures 0 in Reached(steps).issuers && Reached(steps).issuers[0].phase == Done(0, Told)
  {
    var issue := IssueOneKey();
    var disable := DisableNothing();
    var bind := BindAfterDisable();
    RemoveAfterBind();
    hide Next;
    RunTwice(Initial, issue, disable);
    RunTwice(Initial, issue + disable, bind);
    var bound := issue + disable + bind;
    RunOne(Initial, bound, RunStatement(1));
    RunOne(Initial, bound + [RunStatement(1)], RunStatement(1));
    steps := bound + [RunStatement(1)] + [RunStatement(1)];
  }
}
