/**
 * The two commands that post to one feedstock bin (`src/data-access/bin-movements.ts`), and
 * what their checks and the closing replay keep of its timeline.
 *
 * `slack` stands for the tolerance of the overdraw test; the replay has none.
 */
module FeedstockLedger {
  import opened Outcomes
  import opened FeedstockTimeline
  import opened FeedstockShares
  import opened FeedstockReplay

  type RequestKey = string

  /** True when `requested` exceeds `available` beyond the slack. */
  predicate IsOverdraw(slack: nat, requested: int, available: int) {
    requested - available > slack
  }

  // ---------- The loss check ----------

  /** What a loss of `requested` must pass: current stock, stock at its time, and every later balance. */
  ghost predicate LossFits(slack: nat, entries: Timeline, occurredAt: Instant, requested: int) {
    && !IsOverdraw(slack, requested, DerivedStock(entries))
    && !IsOverdraw(slack, requested, StockAt(entries, occurredAt))
    && forall i | 0 <= i < |entries| && entries[i].occurredAt > occurredAt ::
         !IsOverdraw(slack, requested, Balance(entries, i + 1))
  }

  /** Above every entry of its own event time, in recording time and then identifier. */
  predicate LastAtItsTime(entries: Timeline, entry: Entry) {
    forall e | e in entries && e.occurredAt == entry.occurredAt :: NotAfter(e, entry)
  }

  /** The balances between an entry's place and the end of its own event time. */
  ghost predicate TiesCover(slack: nat, entries: Timeline, entry: Entry) {
    forall n | Position(entries, entry) <= n < CountUpTo(entries, entry.occurredAt) ::
      Balance(entries, n) + entry.wetDelta + slack >= 0
  }

  lemma PositionWithinItsTime(entries: Timeline, entry: Entry)
    requires Ordered(entries)
    ensures Position(entries, entry) <= CountUpTo(entries, entry.occurredAt)
    ensures LastAtItsTime(entries, entry) <==> Position(entries, entry) == CountUpTo(entries, entry.occurredAt)
  {
    var at, upTo := Position(entries, entry), CountUpTo(entries, entry.occurredAt);
    LaterEntriesFollow(entries, entry.occurredAt);
    LaterPlacesFollow(entries, entry);
    if at < upTo {
      assert entries[at] in entries && entries[at].occurredAt == entry.occurredAt;
    }
  }

  /**
   * The check is sound and complete up to ties: a loss leaves every running balance
   * covered exactly when it fits and the entries of its own event time cover it too.
   */
  lemma LossCheckIff(slack: nat, entries: Timeline, loss: Entry)
    requires Ordered(entries) && Covered(slack, entries) && loss.wetDelta < 0
    ensures Covered(slack, Insert(entries, loss))
            <==> LossFits(slack, entries, loss.occurredAt, -loss.wetDelta) && TiesCover(slack, entries, loss)
  {
    InsertCoveredIff(slack, entries, loss);
    CanTakeIffFits(slack, entries, loss);
  }

  lemma CanTakeIffFits(slack: nat, entries: Timeline, loss: Entry)
    requires Ordered(entries) && loss.wetDelta < 0
    ensures CanTake(slack, entries, Position(entries, loss), loss.wetDelta)
            <==> LossFits(slack, entries, loss.occurredAt, -loss.wetDelta) && TiesCover(slack, entries, loss)
  {
    var at, upTo, requested := Position(entries, loss), CountUpTo(entries, loss.occurredAt), -loss.wetDelta;
    PositionWithinItsTime(entries, loss);
    LaterEntriesFollow(entries, loss.occurredAt);
    hide Ordered, Position, CountUpTo;
    if LossFits(slack, entries, loss.occurredAt, requested) && TiesCover(slack, entries, loss) {
      forall n | at <= n <= |entries|
        ensures Balance(entries, n) + loss.wetDelta + slack >= 0
      {
        if n > upTo {
          assert entries[n - 1].occurredAt > loss.occurredAt;
          assert !IsOverdraw(slack, requested, Balance(entries, (n - 1) + 1));
        }
      }
    }
    if CanTake(slack, entries, at, loss.wetDelta) {
      assert Balance(entries, upTo) + loss.wetDelta + slack >= 0;
      assert Balance(entries, |entries|) + loss.wetDelta + slack >= 0;
      forall i | 0 <= i < |entries| && entries[i].occurredAt > loss.occurredAt
        ensures !IsOverdraw(slack, requested, Balance(entries, i + 1))
      {
        assert Balance(entries, i + 1) + loss.wetDelta + slack >= 0;
      }
    }
  }

  /** For a loss that sorts last at its own time, the check alone decides. */
  lemma LossCheckExact(slack: nat, entries: Timeline, loss: Entry)
    requires Ordered(entries) && Covered(slack, entries) && loss.wetDelta < 0
    requires LastAtItsTime(entries, loss)
    ensures Covered(slack, Insert(entries, loss)) <==> LossFits(slack, entries, loss.occurredAt, -loss.wetDelta)
  {
    LossCheckIff(slack, entries, loss);
    PositionWithinItsTime(entries, loss);
  }

  /**
   * The check and the replay together decide cover, whatever the ties and the slack; the
   * replay refuses a loss that fits exactly when an entry of the same event time does not cover it.
   */
  lemma LossPostsIffCovered(slack: nat, entries: Timeline, loss: Entry)
    requires Ordered(entries) && Covered(0, entries) && loss.wetDelta < 0
    ensures LossFits(slack, entries, loss.occurredAt, -loss.wetDelta) && ReplayAccepts(Insert(entries, loss), loss)
            <==> Covered(0, Insert(entries, loss))
    ensures LossFits(0, entries, loss.occurredAt, -loss.wetDelta) ==>
      (ReplayAccepts(Insert(entries, loss), loss) <==> TiesCover(0, entries, loss))
  {
    AcceptedIffCovered(entries, loss);
    LossCheckIff(0, entries, loss);
  }

  /**
   * A recording time is the start of the transaction. One that began before an entry at the
   * same event time was recorded passes the check and would leave a negative balance; so
   * would one recorded in the same millisecond under a smaller identifier. The replay refuses both.
   */
  lemma TieEscapesCheckOnly(loss: Entry)
    requires loss == Entry(7, Loss, 5, 10, -40) || loss == Entry(3, Loss, 5, 11, -40)
    ensures
      var entries := [Entry(4, Intake, 5, 11, 100)];
      && Covered(0, entries) && LossFits(0, entries, 5, 40)
      && !Covered(0, Insert(entries, loss))
      && !ReplayAccepts(Insert(entries, loss), loss)
  {
    var entries := [Entry(4, Intake, 5, 11, 100)];
    assert Insert(entries, loss) == [loss] + entries;
    assert Balance(Insert(entries, loss), 0) == 0;
    assert Balance(Insert(entries, loss), 1) == -40;
    assert CountUpTo(entries, 5) == 1;
    assert Balance(entries, 0) == 0;
    LossPostsIffCovered(0, entries, loss);
  }

  // ---------- Stock-takes ----------

  /** The adjustment a count posts: it closes the gap to the derived stock. */
  function CountEntry(entries: Timeline, id: RecordId, counted: int, recordedAt: Instant): Entry {
    Entry(id, Count, recordedAt, recordedAt, counted - DerivedStock(entries))
  }

  /** Whatever its time, a count leaves the derived stock equal to the counted mass. */
  lemma CountSetsDerivedStock(entries: Timeline, id: RecordId, counted: int, recordedAt: Instant)
    ensures DerivedStock(Insert(entries, CountEntry(entries, id, counted, recordedAt))) == counted
  {
    InsertAddsToDerivedStock(entries, CountEntry(entries, id, counted, recordedAt));
  }

  /** Everything received less everything withdrawn by `entries`. */
  function NetOf(entries: Timeline): int {
    if entries == [] then 0 else entries[0].wetDelta + NetOf(entries[1..])
  }

  lemma {:induction false} NetOfLater(entries: Timeline, n: nat)
    requires n <= |entries|
    ensures NetOf(entries[n..]) == DerivedStock(entries) - Balance(entries, n)
    decreases |entries| - n
  {
    if n < |entries| {
      NetOfLater(entries, n + 1);
      assert entries[n..][1..] == entries[n + 1..];
    }
  }

  /** From wherever one starts after the count's place, no more was received than was counted. */
  ghost predicate LaterStockWithin(entries: Timeline, from: nat, counted: int) {
    forall n | from <= n <= |entries| :: NetOf(entries[n..]) <= counted
  }

  /**
   * A count keeps every balance covered exactly when the entries after it, counted from any
   * later point to the end, never add more than the counted mass. The replay accepts exactly these.
   */
  lemma CountKeepsCoveredIff(slack: nat, entries: Timeline, id: RecordId, counted: int, recordedAt: Instant)
    requires Covered(slack, entries)
    ensures
      var entry := CountEntry(entries, id, counted, recordedAt);
      && (Covered(slack, Insert(entries, entry))
          <==> LaterStockWithin(entries, Position(entries, entry), counted + slack))
      && (slack == 0 && Ordered(entries) ==>
            (ReplayAccepts(Insert(entries, entry), entry)
             <==> LaterStockWithin(entries, Position(entries, entry), counted)))
  {
    var entry := CountEntry(entries, id, counted, recordedAt);
    InsertCoveredIff(slack, entries, entry);
    forall n | 0 <= n <= |entries|
      ensures NetOf(entries[n..]) <= counted + slack <==> Balance(entries, n) + entry.wetDelta + slack >= 0
    {
      NetOfLater(entries, n);
    }
    if slack == 0 && Ordered(entries) {
      AcceptedIffCovered(entries, entry);
    }
  }

  /** With nothing dated after the count this always holds. */
  lemma CountAtTheEndKeepsCovered(slack: nat, entries: Timeline, id: RecordId, counted: nat, recordedAt: Instant)
    requires Ordered(entries) && Covered(slack, entries)
    requires forall entry | entry in entries :: NotAfter(entry, CountEntry(entries, id, counted, recordedAt))
    ensures Covered(slack, Insert(entries, CountEntry(entries, id, counted, recordedAt)))
  {
    assert Position(entries, CountEntry(entries, id, counted, recordedAt)) == |entries|;
    CountKeepsCoveredIff(slack, entries, id, counted, recordedAt);
  }

  /**
   * A count whose transaction began before a later-dated intake commits passes its own test,
   * would push its own balance below zero, and is refused by the replay.
   */
  lemma CountBeforeLaterIntakeIsRefused()
    ensures
      var entries := [Entry(4, Intake, 20, 20, 100)];
      var entry := CountEntry(entries, 7, 30, 10);
      && Covered(0, entries)
      && !IsOverdraw(0, 30, DerivedStock(entries))
      && !Covered(0, Insert(entries, entry))
      && !ReplayAccepts(Insert(entries, entry), entry)
  {
    var entries := [Entry(4, Intake, 20, 20, 100)];
    assert Balance(entries, 0) == 0 && Balance(entries, 1) == 100;
    var entry := CountEntry(entries, 7, 30, 10);
    assert Insert(entries, entry) == [entry] + entries;
    assert Balance(Insert(entries, entry), 0) == 0;
    assert Balance(Insert(entries, entry), 1) == -70;
    AcceptedIffCovered(entries, entry);
  }

  // ---------- Runs ----------

  /** A run or an ingredient draw, an intake, a loss or a stock-take. */
  datatype Posting =
    | PostIntake(occurredAt: Instant, mass: nat)
    | PostDraw(byRun: bool, occurredAt: Instant, mass: nat)
    | PostLoss(occurredAt: Instant, mass: nat)
    | PostCount(counted: nat)

  /** A command with the start of its transaction and the identifier its row is given. */
  datatype Submitted = Submitted(posting: Posting, now: Instant, id: RecordId)

  /** The entry a command would write. */
  function EntryOf(entries: Timeline, command: Submitted): Entry {
    match command.posting
    case PostIntake(occurredAt, mass) => Entry(command.id, Intake, occurredAt, command.now, mass)
    case PostDraw(byRun, occurredAt, mass) =>
      Entry(command.id, if byRun then RunDraw else IngredientDraw, occurredAt, command.now, 0 - mass)
    case PostLoss(occurredAt, mass) => Entry(command.id, Loss, occurredAt, command.now, 0 - mass)
    case PostCount(counted) => CountEntry(entries, command.id, counted, command.now)
  }

  /** The command's own check, before the replay. */
  ghost predicate PassesCheck(slack: nat, entries: Timeline, posting: Posting) {
    match posting
    case PostIntake(_, _) => true
    case PostDraw(_, _, _) => true
    case PostLoss(occurredAt, mass) => mass > 0 && LossFits(slack, entries, occurredAt, mass)
    case PostCount(counted) => !IsOverdraw(slack, counted, DerivedStock(entries))
  }

  ghost predicate Posts(slack: nat, entries: Timeline, command: Submitted) {
    && PassesCheck(slack, entries, command.posting)
    && ReplayAccepts(Insert(entries, EntryOf(entries, command)), EntryOf(entries, command))
  }

  /** One command; a refused one leaves the timeline alone. */
  ghost function Apply(slack: nat, entries: Timeline, command: Submitted): Timeline {
    if Posts(slack, entries, command) then Insert(entries, EntryOf(entries, command)) else entries
  }

  /** The timeline after a whole run of commands. */
  ghost function Run(slack: nat, entries: Timeline, commands: seq<Submitted>): Timeline
    decreases |commands|
  {
    if commands == [] then entries else Run(slack, Apply(slack, entries, commands[0]), commands[1..])
  }

  /**
   * What a command that posts does to the stock: an intake adds its mass, a draw or a loss
   * takes it, and a count leaves what was counted. One that does not post does nothing.
   */
  lemma PostingMovesStock(slack: nat, entries: Timeline, command: Submitted)
    ensures
      var before, after := DerivedStock(entries), DerivedStock(Apply(slack, entries, command));
      if !Posts(slack, entries, command) then Apply(slack, entries, command) == entries
      else
        match command.posting
        case PostIntake(_, mass) => after == before + mass
        case PostDraw(_, _, mass) => after == before - mass
        case PostLoss(_, mass) => after == before - mass
        case PostCount(counted) => after == counted
  {
    InsertAddsToDerivedStock(entries, EntryOf(entries, command));
  }

  /**
   * Over every run of intakes, draws, losses and counts, in any order of their times and
   * identifiers, no running balance goes below zero.
   */
  lemma {:induction false} EveryRunStaysCovered(slack: nat, entries: Timeline, commands: seq<Submitted>)
    requires Ordered(entries) && Covered(0, entries)
    ensures Ordered(Run(slack, entries, commands)) && Covered(0, Run(slack, entries, commands))
    decreases |commands|
  {
    if commands != [] {
      var entry := EntryOf(entries, commands[0]);
      InsertKeepsOrder(entries, entry);
      AcceptedIffCovered(entries, entry);
      EveryRunStaysCovered(slack, Apply(slack, entries, commands[0]), commands[1..]);
    }
  }

  /**
   * Nothing more is refused: intakes always post; a draw or a loss posts exactly when no
   * balance goes below zero; a count also has to stay within the derived stock.
   */
  lemma PostsIff(slack: nat, entries: Timeline, command: Submitted)
    requires Ordered(entries) && Covered(0, entries)
    ensures
      var covered := Covered(0, Insert(entries, EntryOf(entries, command)));
      match command.posting
      case PostIntake(_, _) => Posts(slack, entries, command)
      case PostDraw(_, _, _) => Posts(slack, entries, command) <==> covered
      case PostLoss(_, mass) => Posts(slack, entries, command) <==> mass > 0 && covered
      case PostCount(counted) =>
        Posts(slack, entries, command) <==> covered && counted <= DerivedStock(entries) + slack
  {
    var entry := EntryOf(entries, command);
    AcceptedIffCovered(entries, entry);
    match command.posting
    case PostIntake(_, _) => InsertCoveredIff(0, entries, entry);
    case PostDraw(_, _, _) =>
    case PostLoss(_, mass) =>
      if mass > 0 {
        LossPostsIffCovered(slack, entries, entry);
      }
    case PostCount(_) =>
  }

  // ---------- The ledger ----------

  datatype LossInput = LossInput(key: RequestKey, bin: BinId, occurredAt: Instant, massDelta: int, reason: string)

  /** The values a request key stands for; a fingerprint is equal exactly when these are. */
  datatype Payload = Payload(bin: BinId, occurredAt: Instant, massDelta: int, reason: string)

  function PayloadOf(input: LossInput): Payload {
    Payload(input.bin, input.occurredAt, input.massDelta, input.reason)
  }

  datatype StoredMovement = StoredMovement(id: RecordId, payload: Payload)

  datatype Bin = Bin(holdsFeedstock: bool, archived: bool)

  datatype LedgerError =
    | FutureTime | RequestConflict | BinMissing | BinArchived | WrongMaterial
    | Overdraw | NotEnoughAtThisTime | ReplayOverdraw | LossNotNegative | StockTakeIncrease | BadSnapshot

  class MovementLedger {
    const slack: nat
    const bins: map<BinId, Bin>
    var timelines: map<BinId, Timeline>
    var stored: map<RequestKey, StoredMovement>

    /** Every timeline is in order and covered. */
    ghost predicate Valid()
      reads this
    {
      && timelines.Keys == bins.Keys
      && forall bin | bin in timelines :: Ordered(timelines[bin]) && Covered(0, timelines[bin])
    }

    constructor (slack: nat, bins: map<BinId, Bin>)
      ensures Valid() && this.bins == bins && this.slack == slack
      ensures stored == map[] && forall bin | bin in bins :: timelines[bin] == []
    {
      this.slack, this.bins := slack, bins;
      timelines := map bin | bin in bins :: [];
      stored := map[];
    }

    /** Why a first submit is refused, in the order the checks run; none when it posts. */
    ghost function LossRefusal(input: LossInput, entry: Entry): Option<LedgerError>
      requires Valid()
      reads this
    {
      if input.bin in bins && bins[input.bin].archived then Some(BinArchived)
      else if input.bin !in bins then Some(BinMissing)
      else if !bins[input.bin].holdsFeedstock then Some(WrongMaterial)
      else if input.massDelta >= 0 then Some(LossNotNegative)
      else if IsOverdraw(slack, -input.massDelta, DerivedStock(timelines[input.bin])) then Some(Overdraw)
      else if !LossFits(slack, timelines[input.bin], input.occurredAt, -input.massDelta) then Some(NotEnoughAtThisTime)
      else if !Covered(0, Insert(timelines[input.bin], entry)) then Some(ReplayOverdraw)
      else None
    }

    /**
     * Record a loss once. A repeated key returns the saved movement or is refused for a
     * changed payload, and neither writes. A first submit posts exactly when nothing refuses
     * it; its identifier may sort anywhere. No balance of any bin ever goes below zero.
     */
    method CreateBinMovement(
        input: LossInput, id: RecordId, createdAt: Instant, now: Instant,
        saved: RecordId -> Shares, methodAt: Instant -> DrawMethod)
        returns (result: Result<RecordId, LedgerError>)
      requires Valid()
      modifies this
      ensures Valid()
      ensures input.occurredAt > now ==> result == Err(FutureTime)
      ensures input.occurredAt <= now && input.key in old(stored) ==>
        result == if old(stored)[input.key].payload == PayloadOf(input)
                  then Ok(old(stored)[input.key].id) else Err(RequestConflict)
      ensures input.occurredAt <= now && input.key !in old(stored) ==>
        match old(LossRefusal(input, Entry(id, Loss, input.occurredAt, createdAt, input.massDelta)))
        { case Some(error) => result == Err(error) case None => result == Ok(id) }
      ensures result.Err? || input.key in old(stored) ==> timelines == old(timelines) && stored == old(stored)
      ensures result.Ok? && input.key !in old(stored) ==>
        && timelines == old(timelines)[
             input.bin := Insert(old(timelines)[input.bin], Entry(id, Loss, input.occurredAt, createdAt, input.massDelta))]
        && stored == old(stored)[input.key := StoredMovement(id, PayloadOf(input))]
    {
      if input.occurredAt > now {
        return Err(FutureTime);
      }
      if input.key in stored {
        var existing := stored[input.key];
        return if existing.payload == PayloadOf(input) then Ok(existing.id) else Err(RequestConflict);
      }
      if input.bin in bins && bins[input.bin].archived {
        return Err(BinArchived);
      }
      if input.bin !in bins {
        return Err(BinMissing);
      }
      if !bins[input.bin].holdsFeedstock {
        return Err(WrongMaterial);
      }
      if input.massDelta >= 0 {
        return Err(LossNotNegative);
      }
      var entries := timelines[input.bin];
      var afterWet := AfterBalances(entries);
      var requested := -input.massDelta;
      if IsOverdraw(slack, requested, if |entries| == 0 then 0 else afterWet[|entries| - 1]) {
        return Err(Overdraw);
      }
      var availableAtTime := 0;
      LaterEntriesFollow(entries, input.occurredAt);
      for i := 0 to |entries|
        invariant availableAtTime == Balance(entries, if i <= CountUpTo(entries, input.occurredAt) then i
                                                      else CountUpTo(entries, input.occurredAt))
      {
        if entries[i].occurredAt <= input.occurredAt {
          availableAtTime := afterWet[i];
        }
      }
      if IsOverdraw(slack, requested, availableAtTime)
        || exists i | 0 <= i < |entries| ::
             entries[i].occurredAt > input.occurredAt && IsOverdraw(slack, requested, afterWet[i])
      {
        return Err(NotEnoughAtThisTime);
      }
      var posted := AppendMovement(input.bin, Entry(id, Loss, input.occurredAt, createdAt, input.massDelta), saved, methodAt);
      if !posted {
        return Err(ReplayOverdraw);
      }
      stored := stored[input.key := StoredMovement(id, PayloadOf(input))];
      result := Ok(id);
    }

    /** The running balance after each entry, as the timeline read computes it. */
    method AfterBalances(entries: Timeline) returns (after: seq<int>)
      ensures |after| == |entries|
      ensures forall i | 0 <= i < |entries| :: after[i] == Balance(entries, i + 1)
    {
      after := [];
      var wet := 0;
      for i := 0 to |entries|
        invariant |after| == i && wet == Balance(entries, i)
        invariant forall k | 0 <= k < i :: after[k] == Balance(entries, k + 1)
      {
        wet := wet + entries[i].wetDelta;
        after := after + [wet];
      }
    }

    /** Append one row and replay the timeline that shows it; an overdraw takes the row back with the transaction. */
    method AppendMovement(bin: BinId, entry: Entry, saved: RecordId -> Shares, methodAt: Instant -> DrawMethod)
        returns (posted: bool)
      requires Valid() && bin in bins
      modifies this`timelines
      ensures Valid()
      ensures posted <==> Covered(0, Insert(old(timelines)[bin], entry))
      ensures timelines == if posted then old(timelines)[bin := Insert(old(timelines)[bin], entry)] else old(timelines)
    {
      var grown := Insert(timelines[bin], entry);
      InsertKeepsOrder(timelines[bin], entry);
      AcceptedIffCovered(timelines[bin], entry);
      posted := ReplayTimeline(grown, entry, saved, methodAt);
      if posted {
        timelines := timelines[bin := grown];
      }
    }

    /**
     * Record a physical count: it confirms or reduces the derived stock, which afterwards
     * equals the counted mass. Its event time is its recording time. It posts when the
     * entries after that time never add more than was counted.
     */
    method RecordStockTakeMovement(
        bin: BinId, countedWet: Option<int>, moistureRatio: Option<real>, id: RecordId, createdAt: Instant,
        saved: RecordId -> Shares, methodAt: Instant -> DrawMethod)
        returns (result: Result<RecordId, LedgerError>)
      requires Valid()
      modifies this
      ensures Valid() && stored == old(stored)
      ensures result.Ok? <==>
        && bin in bins && !bins[bin].archived && bins[bin].holdsFeedstock
        && countedWet.Some? && moistureRatio.Some?
        && countedWet.value >= 0 && 0.0 <= moistureRatio.value <= 1.0
        && !IsOverdraw(slack, countedWet.value, DerivedStock(old(timelines)[bin]))
        && LaterStockWithin(old(timelines)[bin],
             Position(old(timelines)[bin], CountEntry(old(timelines)[bin], id, countedWet.value, createdAt)),
             countedWet.value)
      ensures result.Err? ==> timelines == old(timelines)
      ensures result.Ok? ==>
        && result.value == id
        && timelines == old(timelines)[bin := Insert(old(timelines)[bin],
             CountEntry(old(timelines)[bin], id, countedWet.value, createdAt))]
        && DerivedStock(timelines[bin]) == countedWet.value
    {
      if bin in bins && bins[bin].archived {
        return Err(BinArchived);
      }
      if bin !in bins {
        return Err(BinMissing);
      }
      if !bins[bin].holdsFeedstock {
        return Err(WrongMaterial);
      }
      if countedWet.None? || moistureRatio.None? || countedWet.value < 0
        || moistureRatio.value < 0.0 || moistureRatio.value > 1.0
      {
        return Err(BadSnapshot);
      }
      var entries := timelines[bin];
      var afterWet := AfterBalances(entries);
      var derived := if |entries| == 0 then 0 else afterWet[|entries| - 1];
      if IsOverdraw(slack, countedWet.value, derived) {
        return Err(StockTakeIncrease);
      }
      CountSetsDerivedStock(entries, id, countedWet.value, createdAt);
      CountKeepsCoveredIff(0, entries, id, countedWet.value, createdAt);
      var posted := AppendMovement(bin, Entry(id, Count, createdAt, createdAt, countedWet.value - derived), saved, methodAt);
      result := if posted then Ok(id) else Err(ReplayOverdraw);
    }
  }
}
