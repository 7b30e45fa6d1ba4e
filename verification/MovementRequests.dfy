/**
 * Bin movements posted by concurrent transactions
 * (`src/data-access/bin-movement-requests.ts`, `bin-movements.ts`).
 *
 * A state machine over the database steps: each transaction takes the advisory lock of its
 * request key, looks the key up, takes the advisory lock of its bin, checks the committed
 * timeline, writes its row and replays, and commits or is rolled back. Any transaction may
 * take the next step, and any one may be aborted at any point.
 */
module MovementRequests {
  import opened Outcomes
  import opened FeedstockTimeline
  import opened FeedstockReplay
  import opened FeedstockLedger

  type TxId = nat

  datatype Command =
    | SubmitLoss(input: LossInput)
    | SubmitCount(bin: BinId, counted: nat)
    | SubmitIntake(bin: BinId, occurredAt: Instant, mass: nat)
    | SubmitDraw(bin: BinId, byRun: bool, occurredAt: Instant, mass: nat)

  /** What a finished transaction answered; `row` is the place of the movement in the table. */
  datatype Answer = Posted(row: nat) | Replayed(row: nat) | Conflict | Refused | Aborted

  datatype Phase = Begun | HoldsRequest | FirstSubmit | HoldsBin | Pending(entry: Entry) | Ended(answer: Answer)

  /** `startedAt` is the transaction's own timestamp, stored as the recording time. */
  datatype Tx = Tx(command: Command, startedAt: Instant, phase: Phase)

  datatype Request = Request(key: RequestKey, payload: Payload)

  /** One committed movement. Rows are only ever appended. */
  datatype Row = Row(bin: BinId, entry: Entry, request: Option<Request>)

  datatype State = State(
    rows: seq<Row>,
    requestLocks: map<RequestKey, TxId>,
    binLocks: map<BinId, TxId>,
    txs: map<TxId, Tx>,
    clock: Instant)

  datatype Step =
    | Tick(to: Instant)
    | Begin(tx: TxId, command: Command)
    | TakeRequestLock(tx: TxId)
    | LookUp(tx: TxId)
    | TakeBinLock(tx: TxId)
    | Check(tx: TxId, id: RecordId)
    | Commit(tx: TxId)
    | Abort(tx: TxId)

  function BinOf(command: Command): BinId {
    if command.SubmitLoss? then command.input.bin else command.bin
  }

  /** The bin's entries as a read of the committed rows shows them. */
  function TimelineOf(rows: seq<Row>, bin: BinId): Timeline {
    if rows == [] then []
    else
      var last := |rows| - 1;
      var earlier := TimelineOf(rows[..last], bin);
      if rows[last].bin == bin then Insert(earlier, rows[last].entry) else earlier
  }

  lemma AppendToTimeline(rows: seq<Row>, row: Row, bin: BinId)
    ensures TimelineOf(rows + [row], bin)
            == if row.bin == bin then Insert(TimelineOf(rows, bin), row.entry) else TimelineOf(rows, bin)
  {
    assert (rows + [row])[..|rows|] == rows;
  }

  predicate Stored(rows: seq<Row>, key: RequestKey, at: nat) {
    at < |rows| && rows[at].request.Some? && rows[at].request.value.key == key
  }

  // ---------- Steps ----------

  predicate HoldsRequestLock(tx: Tx) {
    tx.command.SubmitLoss? && !tx.phase.Begun? && !tx.phase.Ended?
  }

  predicate HoldsBinLock(tx: Tx) {
    tx.phase.HoldsBin? || tx.phase.Pending?
  }

  /** Ending a transaction releases its locks. */
  function End(s: State, id: TxId, answer: Answer): State
    requires id in s.txs
  {
    s.(txs := s.txs[id := s.txs[id].(phase := Ended(answer))],
       requestLocks := map key | key in s.requestLocks && s.requestLocks[key] != id :: s.requestLocks[key],
       binLocks := map bin | bin in s.binLocks && s.binLocks[bin] != id :: s.binLocks[bin])
  }

  function Advance(s: State, id: TxId, phase: Phase): State
    requires id in s.txs
  {
    s.(txs := s.txs[id := s.txs[id].(phase := phase)])
  }

  /** What a command asks of its bin, none for a loss that is not negative. */
  function PostingOf(command: Command): Option<Posting> {
    match command
    case SubmitLoss(input) => if input.massDelta < 0 then Some(PostLoss(input.occurredAt, -input.massDelta)) else None
    case SubmitCount(_, counted) => Some(PostCount(counted))
    case SubmitIntake(_, occurredAt, mass) => Some(PostIntake(occurredAt, mass))
    case SubmitDraw(_, byRun, occurredAt, mass) => Some(PostDraw(byRun, occurredAt, mass))
  }

  /** The entry a command posts on the current timeline under identifier `id`, if its check and the replay pass. */
  ghost function CheckedEntry(slack: nat, tx: Tx, entries: Timeline, id: RecordId): Option<Entry> {
    match PostingOf(tx.command)
    case None => None
    case Some(posting) =>
      var submitted := Submitted(posting, tx.startedAt, id);
      if Posts(slack, entries, submitted) then Some(EntryOf(entries, submitted)) else None
  }

  function RowOf(tx: Tx): Row
    requires tx.phase.Pending?
  {
    Row(BinOf(tx.command), tx.phase.entry,
        if tx.command.SubmitLoss? then Some(Request(tx.command.input.key, PayloadOf(tx.command.input))) else None)
  }

  /** A step that is not enabled changes nothing: the statement waits or is never sent. */
  ghost function Next(slack: nat, s: State, step: Step): State {
    match step
    case Tick(to) => if to >= s.clock then s.(clock := to) else s
    case Begin(id, command) =>
      if id in s.txs || (command.SubmitLoss? && command.input.occurredAt > s.clock) then s
      else s.(txs := s.txs[id := Tx(command, s.clock, Begun)])
    case TakeRequestLock(id) =>
      if id in s.txs && s.txs[id].phase.Begun? && s.txs[id].command.SubmitLoss?
         && s.txs[id].command.input.key !in s.requestLocks
      then Advance(s, id, HoldsRequest).(requestLocks := s.requestLocks[s.txs[id].command.input.key := id])
      else s
    case LookUp(id) =>
      if id in s.txs && s.txs[id].phase.HoldsRequest? && s.txs[id].command.SubmitLoss? then
        var input := s.txs[id].command.input;
        if at: nat :| Stored(s.rows, input.key, at) then
          End(s, id, if s.rows[at].request.value.payload == PayloadOf(input) then Replayed(at) else Conflict)
        else Advance(s, id, FirstSubmit)
      else s
    case TakeBinLock(id) =>
      if id in s.txs && (s.txs[id].phase.FirstSubmit? || (s.txs[id].phase.Begun? && !s.txs[id].command.SubmitLoss?))
         && BinOf(s.txs[id].command) !in s.binLocks
      then Advance(s, id, HoldsBin).(binLocks := s.binLocks[BinOf(s.txs[id].command) := id])
      else s
    case Check(id, rowId) =>
      if id in s.txs && s.txs[id].phase.HoldsBin? then
        match CheckedEntry(slack, s.txs[id], TimelineOf(s.rows, BinOf(s.txs[id].command)), rowId) {
          case Some(entry) => Advance(s, id, Pending(entry))
          case None => End(s, id, Refused)
        }
      else s
    case Commit(id) =>
      if id in s.txs && s.txs[id].phase.Pending?
      then End(s, id, Posted(|s.rows|)).(rows := s.rows + [RowOf(s.txs[id])])
      else s
    case Abort(id) =>
      if id in s.txs && !s.txs[id].phase.Ended? then End(s, id, Aborted) else s
  }

  const Initial := State([], map[], map[], map[], 0)

  ghost function Run(slack: nat, s: State, steps: seq<Step>): State
    decreases |steps|
  {
    if steps == [] then s else Run(slack, Next(slack, s, steps[0]), steps[1..])
  }

  // ---------- Invariant ----------

  /** A transaction holds the locks of its phase and still stands on what it read. */
  ghost predicate TxSound(slack: nat, s: State, id: TxId)
    requires id in s.txs
  {
    var tx := s.txs[id];
    && (HoldsRequestLock(tx) ==> tx.command.input.key in s.requestLocks && s.requestLocks[tx.command.input.key] == id)
    && (HoldsBinLock(tx) ==> BinOf(tx.command) in s.binLocks && s.binLocks[BinOf(tx.command)] == id)
    && (HoldsRequestLock(tx) && !tx.phase.HoldsRequest? ==> forall at: nat :: !Stored(s.rows, tx.command.input.key, at))
    && (tx.phase.Pending? ==>
          CheckedEntry(slack, tx, TimelineOf(s.rows, BinOf(tx.command)), tx.phase.entry.id) == Some(tx.phase.entry))
    && (tx.phase.Ended? && tx.command.SubmitLoss? && (tx.phase.answer.Posted? || tx.phase.answer.Replayed?) ==>
          && tx.phase.answer.row < |s.rows|
          && s.rows[tx.phase.answer.row].request == Some(Request(tx.command.input.key, PayloadOf(tx.command.input))))
  }

  /** No two rows carry the same request key. */
  ghost predicate OneRowPerKey(rows: seq<Row>) {
    forall i: nat, j: nat, key | Stored(rows, key, i) && Stored(rows, key, j) :: i == j
  }

  ghost predicate Inv(slack: nat, s: State) {
    && OneRowPerKey(s.rows)
    && forall id | id in s.txs :: TxSound(slack, s, id)
  }

  lemma EndKeepsInv(slack: nat, s: State, id: TxId, answer: Answer)
    requires Inv(slack, s) && id in s.txs
    requires s.txs[id].command.SubmitLoss? && (answer.Posted? || answer.Replayed?) ==>
      && answer.row < |s.rows|
      && s.rows[answer.row].request
         == Some(Request(s.txs[id].command.input.key, PayloadOf(s.txs[id].command.input)))
    ensures Inv(slack, End(s, id, answer))
  {
    var next := End(s, id, answer);
    forall other | other in next.txs
      ensures TxSound(slack, next, other)
    {
      assert TxSound(slack, s, other);
    }
  }

  lemma AdvanceKeepsInv(slack: nat, s: State, id: TxId, phase: Phase, next: State)
    requires Inv(slack, s) && id in s.txs
    requires next.rows == s.rows && next.txs == s.txs[id := s.txs[id].(phase := phase)]
    requires forall key | key in s.requestLocks :: key in next.requestLocks && next.requestLocks[key] == s.requestLocks[key]
    requires forall bin | bin in s.binLocks :: bin in next.binLocks && next.binLocks[bin] == s.binLocks[bin]
    requires TxSound(slack, next, id)
    ensures Inv(slack, next)
  {
    forall other | other in next.txs
      ensures TxSound(slack, next, other)
    {
      if other != id {
        assert TxSound(slack, s, other);
      }
    }
  }

  /** Publishing a row disturbs no other transaction: its key and bin are locked by the committer. */
  lemma CommitKeepsInv(slack: nat, s: State, id: TxId)
    requires Inv(slack, s) && id in s.txs && s.txs[id].phase.Pending?
    ensures Inv(slack, Next(slack, s, Commit(id)))
  {
    var next, row := Next(slack, s, Commit(id)), RowOf(s.txs[id]);
    assert TxSound(slack, s, id);
    forall i: nat, key | Stored(next.rows, key, i)
      ensures i < |s.rows| ==> Stored(s.rows, key, i)
      ensures i == |s.rows| ==> s.txs[id].command.SubmitLoss? && key == s.txs[id].command.input.key
    {
    }
    forall other | other in next.txs
      ensures TxSound(slack, next, other)
    {
      assert TxSound(slack, s, other);
      if other != id {
        AppendToTimeline(s.rows, row, BinOf(s.txs[other].command));
      }
    }
  }

  lemma LookUpKeepsInv(slack: nat, s: State, id: TxId)
    requires Inv(slack, s)
    ensures Inv(slack, Next(slack, s, LookUp(id)))
  {
    hide CheckedEntry;
    if id in s.txs && s.txs[id].phase.HoldsRequest? && s.txs[id].command.SubmitLoss? {
      assert TxSound(slack, s, id);
      var input, next := s.txs[id].command.input, Next(slack, s, LookUp(id));
      if at: nat :| Stored(s.rows, input.key, at) {
        assert forall other: nat | Stored(s.rows, input.key, other) :: other == at;
        EndKeepsInv(slack, s, id,
          if s.rows[at].request.value.payload == PayloadOf(input) then Replayed(at) else Conflict);
      } else {
        AdvanceKeepsInv(slack, s, id, FirstSubmit, next);
      }
    }
  }

  lemma CheckKeepsInv(slack: nat, s: State, id: TxId, rowId: RecordId)
    requires Inv(slack, s)
    ensures Inv(slack, Next(slack, s, Check(id, rowId)))
  {
    hide OneRowPerKey;
    if id in s.txs && s.txs[id].phase.HoldsBin? {
      assert TxSound(slack, s, id);
      match CheckedEntry(slack, s.txs[id], TimelineOf(s.rows, BinOf(s.txs[id].command)), rowId)
      case Some(entry) => AdvanceKeepsInv(slack, s, id, Pending(entry), Next(slack, s, Check(id, rowId)));
      case None => EndKeepsInv(slack, s, id, Refused);
    }
  }

  lemma BeginKeepsInv(slack: nat, s: State, step: Step)
    requires Inv(slack, s) && (step.Tick? || step.Begin?)
    ensures Inv(slack, Next(slack, s, step))
  {
    hide OneRowPerKey, CheckedEntry;
    var next := Next(slack, s, step);
    forall other | other in next.txs
      ensures TxSound(slack, next, other)
    {
      assert other in s.txs ==> TxSound(slack, s, other);
    }
  }

  lemma LockKeepsInv(slack: nat, s: State, step: Step)
    requires Inv(slack, s) && (step.TakeRequestLock? || step.TakeBinLock?)
    ensures Inv(slack, Next(slack, s, step))
  {
    hide OneRowPerKey, CheckedEntry;
    var next := Next(slack, s, step);
    if next != s {
      assert TxSound(slack, s, step.tx);
      AdvanceKeepsInv(slack, s, step.tx, next.txs[step.tx].phase, next);
    }
  }

  lemma NextKeepsInv(slack: nat, s: State, step: Step)
    requires Inv(slack, s)
    ensures Inv(slack, Next(slack, s, step))
  {
    match step
    case Tick(_) => BeginKeepsInv(slack, s, step);
    case Begin(_, _) => BeginKeepsInv(slack, s, step);
    case TakeRequestLock(_) => LockKeepsInv(slack, s, step);
    case LookUp(id) => LookUpKeepsInv(slack, s, id);
    case TakeBinLock(_) => LockKeepsInv(slack, s, step);
    case Check(id, rowId) => CheckKeepsInv(slack, s, id, rowId);
    case Commit(id) =>
      hide Inv, CheckedEntry;
      if id in s.txs && s.txs[id].phase.Pending? {
        CommitKeepsInv(slack, s, id);
      }
    case Abort(id) =>
      hide Inv, CheckedEntry;
      if id in s.txs && !s.txs[id].phase.Ended? {
        EndKeepsInv(slack, s, id, Aborted);
      }
  }

  lemma {:induction false} RunKeepsInv(slack: nat, s: State, steps: seq<Step>)
    requires Inv(slack, s)
    ensures Inv(slack, Run(slack, s, steps))
    decreases |steps|
  {
    if steps != [] {
      NextKeepsInv(slack, s, steps[0]);
      RunKeepsInv(slack, Next(slack, s, steps[0]), steps[1..]);
    }
  }

  // ---------- Exactly once ----------

  /**
   * In every interleaving: a key has at most one movement, and any two transactions with
   * that key that answered with a movement answered with the same one and the same payload.
   */
  lemma ExactlyOnce(slack: nat, steps: seq<Step>, a: TxId, b: TxId)
    requires
      var s := Run(slack, Initial, steps);
      && a in s.txs && b in s.txs
      && s.txs[a].command.SubmitLoss? && s.txs[b].command.SubmitLoss?
      && s.txs[a].command.input.key == s.txs[b].command.input.key
      && s.txs[a].phase.Ended? && (s.txs[a].phase.answer.Posted? || s.txs[a].phase.answer.Replayed?)
      && s.txs[b].phase.Ended? && (s.txs[b].phase.answer.Posted? || s.txs[b].phase.answer.Replayed?)
    ensures
      var s := Run(slack, Initial, steps);
      && s.txs[a].phase.answer.row == s.txs[b].phase.answer.row
      && s.txs[a].command.input == s.txs[b].command.input
      && OneRowPerKey(s.rows)
  {
    RunKeepsInv(slack, Initial, steps);
    var s := Run(slack, Initial, steps);
    assert TxSound(slack, s, a) && TxSound(slack, s, b);
    var key := s.txs[a].command.input.key;
    assert Stored(s.rows, key, s.txs[a].phase.answer.row) && Stored(s.rows, key, s.txs[b].phase.answer.row);
  }

  /** A look-up under a stored key never leads to a second row: it replays an equal payload and refuses a changed one. */
  lemma StoredKeyIsReplayedOrRefused(slack: nat, s: State, id: TxId, at: nat)
    requires Inv(slack, s) && id in s.txs && s.txs[id].phase.HoldsRequest? && s.txs[id].command.SubmitLoss?
    requires Stored(s.rows, s.txs[id].command.input.key, at)
    ensures
      var next := Next(slack, s, LookUp(id));
      && next.rows == s.rows
      && var input := s.txs[id].command.input;
         next.txs[id].phase == Ended(
           if s.rows[at].request.value.payload == Payload(input.bin, input.occurredAt, input.massDelta, input.reason)
           then Replayed(at) else Conflict)
  {
    var key := s.txs[id].command.input.key;
    assert forall other: nat | Stored(s.rows, key, other) :: other == at;
  }

  // ---------- A posted movement is what was asked for ----------

  /** Row `at` is the movement this command asks for, recorded when its transaction began. */
  ghost predicate IsMovementOf(rows: seq<Row>, at: nat, tx: Tx) {
    && at < |rows| && rows[at].entry.recordedAt == tx.startedAt
    && var entry := rows[at].entry;
       match tx.command
       case SubmitLoss(input) =>
         && rows[at].bin == input.bin && entry.kind.Loss? && entry.occurredAt == input.occurredAt <= tx.startedAt
         && entry.wetDelta == input.massDelta < 0 && rows[at].request.Some? && rows[at].request.value.key == input.key
       case SubmitCount(bin, counted) =>
         && rows[at].bin == bin && entry.kind.Count? && entry.occurredAt == tx.startedAt
         && entry.wetDelta == counted - DerivedStock(TimelineOf(rows[..at], bin)) && rows[at].request.None?
       case SubmitIntake(bin, occurredAt, mass) =>
         && rows[at].bin == bin && entry.kind.Intake? && entry.occurredAt == occurredAt && entry.wetDelta == mass
         && rows[at].request.None?
       case SubmitDraw(bin, byRun, occurredAt, mass) =>
         && rows[at].bin == bin && entry.kind == (if byRun then RunDraw else IngredientDraw)
         && entry.occurredAt == occurredAt && entry.wetDelta == 0 - mass && rows[at].request.None?
  }

  /** Losses are not in the future, and every movement answered is the one asked for. */
  ghost predicate PostedSound(s: State) {
    && (forall id | id in s.txs :: s.txs[id].startedAt <= s.clock)
    && (forall id | id in s.txs && s.txs[id].command.SubmitLoss? ::
          s.txs[id].command.input.occurredAt <= s.txs[id].startedAt)
    && forall id | id in s.txs && s.txs[id].phase.Ended? && s.txs[id].phase.answer.Posted? ::
         IsMovementOf(s.rows, s.txs[id].phase.answer.row, s.txs[id])
  }

  lemma StaysAfterMoreRows(rows: seq<Row>, more: seq<Row>, at: nat, tx: Tx)
    requires rows <= more && IsMovementOf(rows, at, tx)
    ensures IsMovementOf(more, at, tx)
  {
    assert more[..at] == rows[..at];
  }

  lemma StepKeepsPosted(slack: nat, s: State, step: Step)
    requires Inv(slack, s) && PostedSound(s)
    ensures PostedSound(Next(slack, s, step))
  {
    var next := Next(slack, s, step);
    if step.Commit? && next != s {
      assert TxSound(slack, s, step.tx);
      CommittedIsAskedFor(slack, s, step.tx);
      forall id | id in s.txs && s.txs[id].phase.Ended? && s.txs[id].phase.answer.Posted?
        ensures IsMovementOf(next.rows, s.txs[id].phase.answer.row, s.txs[id])
      {
        StaysAfterMoreRows(s.rows, next.rows, s.txs[id].phase.answer.row, s.txs[id]);
      }
    } else {
      OnlyCommitAppends(slack, s, step);
    }
    hide IsMovementOf, Inv, CheckedEntry, TimelineOf;
  }

  lemma CommittedIsAskedFor(slack: nat, s: State, id: TxId)
    requires id in s.txs && s.txs[id].phase.Pending? && TxSound(slack, s, id)
    requires s.txs[id].command.SubmitLoss? ==> s.txs[id].command.input.occurredAt <= s.txs[id].startedAt
    ensures
      var next := Next(slack, s, Commit(id));
      IsMovementOf(next.rows, |s.rows|, next.txs[id])
  {
    var tx, next := s.txs[id], Next(slack, s, Commit(id));
    assert next.rows[..|s.rows|] == s.rows;
    hide Posts;
  }

  lemma {:induction false} RunKeepsPosted(slack: nat, s: State, steps: seq<Step>)
    requires Inv(slack, s) && PostedSound(s)
    ensures PostedSound(Run(slack, s, steps))
    decreases |steps|
  {
    hide Inv, PostedSound, Next;
    if steps != [] {
      NextKeepsInv(slack, s, steps[0]);
      StepKeepsPosted(slack, s, steps[0]);
      RunKeepsPosted(slack, Next(slack, s, steps[0]), steps[1..]);
    }
  }

  /** In every interleaving a submit that answers with a posted movement posted what it was asked to, in its bin. */
  lemma PostedIsAskedFor(slack: nat, steps: seq<Step>, id: TxId)
    requires id in Run(slack, Initial, steps).txs
    requires Run(slack, Initial, steps).txs[id].phase.Ended? && Run(slack, Initial, steps).txs[id].phase.answer.Posted?
    ensures
      var s := Run(slack, Initial, steps);
      IsMovementOf(s.rows, s.txs[id].phase.answer.row, s.txs[id])
  {
    RunKeepsPosted(slack, Initial, steps);
  }

  // ---------- The checks still hold at commit ----------

  /** What a row's own check asks, the replay aside. */
  ghost predicate FitsItsCheck(slack: nat, entries: Timeline, entry: Entry) {
    match entry.kind
    case Intake => entry.wetDelta >= 0
    case RunDraw => true
    case IngredientDraw => true
    case Loss => entry.wetDelta < 0 && LossFits(slack, entries, entry.occurredAt, -entry.wetDelta)
    case Count =>
      var counted := entry.wetDelta + DerivedStock(entries);
      && entry.occurredAt == entry.recordedAt && counted >= 0
      && !IsOverdraw(slack, counted, DerivedStock(entries))
  }

  ghost predicate CheckedAt(slack: nat, entries: Timeline, entry: Entry) {
    FitsItsCheck(slack, entries, entry) && ReplayAccepts(Insert(entries, entry), entry)
  }

  /** Every committed row passed its check and the replay against exactly the rows committed before it. */
  ghost predicate EachCheckedAtCommit(slack: nat, rows: seq<Row>) {
    forall n | 0 <= n < |rows| :: CheckedAt(slack, TimelineOf(rows[..n], rows[n].bin), rows[n].entry)
  }

  /** No interleaving commits a movement whose check a concurrent commit had made stale. */
  lemma {:induction false} ChecksHoldAtCommit(slack: nat, s: State, steps: seq<Step>)
    requires Inv(slack, s) && EachCheckedAtCommit(slack, s.rows)
    ensures EachCheckedAtCommit(slack, Run(slack, s, steps).rows)
    decreases |steps|
  {
    if steps != [] {
      var next := Next(slack, s, steps[0]);
      NextKeepsInv(slack, s, steps[0]);
      if steps[0].Commit? && next != s {
        assert TxSound(slack, s, steps[0].tx);
        CommittedRowWasChecked(slack, s.rows, RowOf(s.txs[steps[0].tx]));
      }
      ChecksHoldAtCommit(slack, next, steps[1..]);
    }
  }

  lemma CommittedRowWasChecked(slack: nat, rows: seq<Row>, row: Row)
    requires EachCheckedAtCommit(slack, rows)
    requires CheckedAt(slack, TimelineOf(rows, row.bin), row.entry)
    ensures EachCheckedAtCommit(slack, rows + [row])
  {
    var grown := rows + [row];
    forall n | 0 <= n < |grown|
      ensures CheckedAt(slack, TimelineOf(grown[..n], grown[n].bin), grown[n].entry)
    {
      assert grown[..n] == rows[..n];
      if n == |rows| {
        assert rows[..n] == rows;
      }
    }
  }

  // ---------- No balance goes below zero ----------

  lemma {:induction false} CheckedRowsStayCovered(slack: nat, rows: seq<Row>, bin: BinId)
    requires EachCheckedAtCommit(slack, rows)
    ensures Ordered(TimelineOf(rows, bin)) && Covered(0, TimelineOf(rows, bin))
    decreases |rows|
  {
    if rows != [] {
      var last := |rows| - 1;
      var before, row := rows[..last], rows[last];
      assert forall n | 0 <= n < last :: before[..n] == rows[..n];
      CheckedRowsStayCovered(slack, before, bin);
      if row.bin == bin {
        InsertKeepsOrder(TimelineOf(before, bin), row.entry);
        AcceptedIffCovered(TimelineOf(before, bin), row.entry);
      }
    }
  }

  /**
   * Over every interleaving, whatever the clock, the ties and the identifiers, each bin's
   * timeline is in order and none of its running balances is below zero, now or at any earlier commit.
   */
  lemma InterleavingsStayCovered(slack: nat, steps: seq<Step>, bin: BinId, n: nat)
    requires n <= |Run(slack, Initial, steps).rows|
    ensures Ordered(TimelineOf(Run(slack, Initial, steps).rows[..n], bin))
    ensures Covered(0, TimelineOf(Run(slack, Initial, steps).rows[..n], bin))
  {
    var rows := Run(slack, Initial, steps).rows;
    ChecksHoldAtCommit(slack, Initial, steps);
    assert forall k | 0 <= k < n :: rows[..n][..k] == rows[..k];
    CheckedRowsStayCovered(slack, rows[..n], bin);
  }

  /**
   * And nothing else is refused: in every reachable state a loss that holds its bin is
   * refused exactly when it is not negative or would take a running balance below zero.
   */
  lemma LossRefusedIff(slack: nat, steps: seq<Step>, id: TxId, rowId: RecordId)
    requires
      var s := Run(slack, Initial, steps);
      id in s.txs && s.txs[id].phase.HoldsBin? && s.txs[id].command.SubmitLoss?
    ensures
      var s := Run(slack, Initial, steps);
      var tx, input := s.txs[id], s.txs[id].command.input;
      var entry := Entry(rowId, Loss, input.occurredAt, tx.startedAt, input.massDelta);
      var next := Next(slack, s, Check(id, rowId));
      && id in next.txs
      && next.txs[id].phase
         == if input.massDelta < 0 && Covered(0, Insert(TimelineOf(s.rows, input.bin), entry)) then Pending(entry)
            else Ended(Refused)
  {
    var s := Run(slack, Initial, steps);
    var tx, input := s.txs[id], s.txs[id].command.input;
    InterleavingsStayCovered(slack, steps, input.bin, |s.rows|);
    assert s.rows[..|s.rows|] == s.rows;
    hide Run, Covered, Ordered, TimelineOf, Insert, Next;
    LossCheckOutcome(slack, s, id, rowId);
  }

  lemma LossCheckOutcome(slack: nat, s: State, id: TxId, rowId: RecordId)
    requires id in s.txs && s.txs[id].phase.HoldsBin? && s.txs[id].command.SubmitLoss?
    requires
      var entries := TimelineOf(s.rows, s.txs[id].command.input.bin);
      Ordered(entries) && Covered(0, entries)
    ensures
      var tx, input := s.txs[id], s.txs[id].command.input;
      var entry := Entry(rowId, Loss, input.occurredAt, tx.startedAt, input.massDelta);
      var next := Next(slack, s, Check(id, rowId));
      && id in next.txs
      && next.txs[id].phase
         == if input.massDelta < 0 && Covered(0, Insert(TimelineOf(s.rows, input.bin), entry)) then Pending(entry)
            else Ended(Refused)
  {
    hide Covered, Ordered, TimelineOf, Posts, Insert;
    var tx, input := s.txs[id], s.txs[id].command.input;
    if input.massDelta < 0 {
      PostsIff(slack, TimelineOf(s.rows, input.bin),
               Submitted(PostLoss(input.occurredAt, -input.massDelta), tx.startedAt, rowId));
    }
  }

  // ---------- What the replay adds ----------

  ghost predicate EachFitsItsCheck(slack: nat, rows: seq<Row>) {
    forall n | 0 <= n < |rows| ::
      !IsDraw(rows[n].entry) && FitsItsCheck(slack, TimelineOf(rows[..n], rows[n].bin), rows[n].entry)
  }

  predicate IsDraw(entry: Entry) {
    entry.kind.RunDraw? || entry.kind.IngredientDraw?
  }

  /** A loss is covered by the entries of its own time; a count by what comes after it. */
  ghost predicate FallsInPlace(slack: nat, entries: Timeline, entry: Entry) {
    match entry.kind
    case Loss => TiesCover(slack, entries, entry)
    case Count => LaterStockWithin(entries, Position(entries, entry), entry.wetDelta + DerivedStock(entries) + slack)
    case _ => true
  }

  ghost predicate EachFallsInPlace(slack: nat, rows: seq<Row>, bin: BinId) {
    forall n | 0 <= n < |rows| && rows[n].bin == bin :: FallsInPlace(slack, TimelineOf(rows[..n], bin), rows[n].entry)
  }

  ghost predicate EveryPrefixCovered(slack: nat, rows: seq<Row>, bin: BinId) {
    forall n | 0 <= n <= |rows| :: Covered(slack, TimelineOf(rows[..n], bin))
  }

  /**
   * Without the replay the checks alone would not do: intakes, losses and counts that pass
   * them keep a bin covered at every commit exactly when each loss is covered by the entries
   * of its own event time and each count takes what comes after it.
   */
  lemma {:induction false} ChecksAloneCoverIff(slack: nat, rows: seq<Row>, bin: BinId)
    requires EachFitsItsCheck(slack, rows)
    ensures EveryPrefixCovered(slack, rows, bin) <==> EachFallsInPlace(slack, rows, bin)
    ensures Ordered(TimelineOf(rows, bin))
    decreases |rows|
  {
    hide FitsItsCheck, FallsInPlace, Covered, Ordered, Insert, EveryPrefixCovered, EachFallsInPlace;
    if rows == [] {
      NoRows(slack, rows, bin);
    } else {
      var last := |rows| - 1;
      var before, row := rows[..last], rows[last];
      OneRowMore(slack, before, row, bin);
      assert before + [row] == rows && before == rows[..last];
      assert forall n | 0 <= n < last :: before[..n] == rows[..n];
      ChecksAloneCoverIff(slack, before, bin);
      if row.bin == bin {
        InsertKeepsOrder(TimelineOf(before, bin), row.entry);
        if Covered(slack, TimelineOf(before, bin)) {
          FittingEntryCoversIff(slack, TimelineOf(before, bin), row.entry);
        }
      }
    }
  }

  lemma NoRows(slack: nat, rows: seq<Row>, bin: BinId)
    requires rows == []
    ensures EveryPrefixCovered(slack, rows, bin) && EachFallsInPlace(slack, rows, bin) && Ordered(TimelineOf(rows, bin))
  {
  }

  lemma OneRowMore(slack: nat, rows: seq<Row>, row: Row, bin: BinId)
    ensures EveryPrefixCovered(slack, rows + [row], bin)
            <==> EveryPrefixCovered(slack, rows, bin) && Covered(slack, TimelineOf(rows + [row], bin))
    ensures EveryPrefixCovered(slack, rows, bin) ==> Covered(slack, TimelineOf(rows, bin))
    ensures EachFallsInPlace(slack, rows + [row], bin)
            <==> EachFallsInPlace(slack, rows, bin)
                 && (row.bin == bin ==> FallsInPlace(slack, TimelineOf(rows, bin), row.entry))
  {
    hide Covered, FallsInPlace, TimelineOf;
    var grown := rows + [row];
    assert grown[..|grown|] == grown && rows[..|rows|] == rows && grown[..|rows|] == rows;
    assert forall n | 0 <= n <= |rows| :: grown[..n] == rows[..n];
  }

  lemma FittingEntryCoversIff(slack: nat, entries: Timeline, entry: Entry)
    requires Ordered(entries) && Covered(slack, entries) && !IsDraw(entry) && FitsItsCheck(slack, entries, entry)
    ensures Covered(slack, Insert(entries, entry)) <==> FallsInPlace(slack, entries, entry)
  {
    match entry.kind
    case Loss => LossCheckIff(slack, entries, entry);
    case Count =>
      var counted := entry.wetDelta + DerivedStock(entries);
      assert entry == CountEntry(entries, entry.id, counted, entry.recordedAt);
      CountKeepsCoveredIff(slack, entries, entry.id, counted, entry.recordedAt);
    case _ => InsertCoveredIff(slack, entries, entry);
  }

  /** A transaction that ends without posting leaves the table as it was. */
  lemma OnlyCommitAppends(slack: nat, s: State, step: Step)
    ensures Next(slack, s, step).rows == s.rows || (step.Commit? && |Next(slack, s, step).rows| == |s.rows| + 1)
    ensures s.rows <= Next(slack, s, step).rows
  {
  }

  // ---------- A submit on its own ----------

  lemma OneStep(slack: nat, s: State, step: Step, rest: seq<Step>)
    ensures Run(slack, s, [step] + rest) == Run(slack, Next(slack, s, step), rest)
  {
    assert ([step] + rest)[1..] == rest;
  }

  /** The statements up to the bin lock: a loss looks up its request key first. */
  function TakeLocks(id: TxId, command: Command): seq<Step> {
    if command.SubmitLoss? then
      [Begin(id, command)] + ([TakeRequestLock(id)] + ([LookUp(id)] + ([TakeBinLock(id)] + [])))
    else [Begin(id, command)] + ([TakeBinLock(id)] + [])
  }

  /** A command whose locks are free and whose key is new gets them. */
  lemma TakesItsLocks(slack: nat, s: State, id: TxId, command: Command)
    requires id !in s.txs && BinOf(command) !in s.binLocks
    requires command.SubmitLoss? ==>
      && command.input.occurredAt <= s.clock && command.input.key !in s.requestLocks
      && forall at: nat :: !Stored(s.rows, command.input.key, at)
    ensures
      var after := Run(slack, s, TakeLocks(id, command));
      && id in after.txs && after.txs[id] == Tx(command, s.clock, HoldsBin) && after.rows == s.rows
      && BinOf(command) in after.binLocks && after.binLocks[BinOf(command)] == id
  {
    var a := Next(slack, s, Begin(id, command));
    if command.SubmitLoss? {
      var b := Next(slack, a, TakeRequestLock(id));
      var c := Next(slack, b, LookUp(id));
      assert c == Advance(b, id, FirstSubmit);
      var d := Next(slack, c, TakeBinLock(id));
      hide Next;
      OneStep(slack, s, Begin(id, command), [TakeRequestLock(id)] + ([LookUp(id)] + ([TakeBinLock(id)] + [])));
      OneStep(slack, a, TakeRequestLock(id), [LookUp(id)] + ([TakeBinLock(id)] + []));
      OneStep(slack, b, LookUp(id), [TakeBinLock(id)] + []);
      OneStep(slack, c, TakeBinLock(id), []);
    } else {
      var b := Next(slack, a, TakeBinLock(id));
      hide Next;
      OneStep(slack, s, Begin(id, command), [TakeBinLock(id)] + []);
      OneStep(slack, a, TakeBinLock(id), []);
    }
  }

  /** Undisturbed from there, it posts exactly when its check and the replay pass, and lets go of its bin. */
  lemma AloneItPostsIff(slack: nat, s: State, id: TxId, rowId: RecordId)
    requires id in s.txs && s.txs[id].phase.HoldsBin?
    ensures
      var tx, after := s.txs[id], Run(slack, s, [Check(id, rowId)] + ([Commit(id)] + []));
      var posting := PostingOf(tx.command);
      var passes := posting.Some? && Posts(slack, TimelineOf(s.rows, BinOf(tx.command)),
                                           Submitted(posting.value, tx.startedAt, rowId));
      && id in after.txs && (passes ==> after.txs[id].phase == Ended(Posted(|s.rows|)) && |after.rows| == |s.rows| + 1)
      && (!passes ==> after.txs[id].phase == Ended(Refused) && after.rows == s.rows)
      && forall bin | bin in after.binLocks :: after.binLocks[bin] != id
  {
    hide Posts, TimelineOf;
    var a := Next(slack, s, Check(id, rowId));
    var b := Next(slack, a, Commit(id));
    var tx := s.txs[id];
    var checked := CheckedEntry(slack, tx, TimelineOf(s.rows, BinOf(tx.command)), rowId);
    assert a == if checked.Some? then Advance(s, id, Pending(checked.value)) else End(s, id, Refused);
    assert b == if checked.Some? then End(a, id, Posted(|s.rows|)).(rows := s.rows + [RowOf(a.txs[id])]) else a;
    hide Next;
    OneStep(slack, s, Check(id, rowId), [Commit(id)] + []);
    OneStep(slack, a, Commit(id), []);
  }
}
