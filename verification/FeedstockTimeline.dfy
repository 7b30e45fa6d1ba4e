/**
 * One feedstock bin's timeline (`src/data-access/feedstock-bin-ledger.ts`).
 *
 * A bin's stock is never stored: it is the running sum of its entries, ordered by event
 * time, then recording time, then identifier. Masses are whole grams, the unit the tables
 * store; identifiers are given by their place in the string order.
 */
module FeedstockTimeline {
  import opened Sorting

  type Instant = int
  type BinId = string
  type RecordId = nat

  datatype EntryKind = Intake | RunDraw | IngredientDraw | Loss | Count

  /** Recording times have millisecond precision, so two entries may share one. */
  datatype Entry = Entry(id: RecordId, kind: EntryKind, occurredAt: Instant, recordedAt: Instant, wetDelta: int)

  type Timeline = seq<Entry>

  // ---------- Order ----------

  datatype Key = Key(occurredAt: Instant, recordedAt: Instant, id: RecordId)

  function KeyOf(entry: Entry): Key {
    Key(entry.occurredAt, entry.recordedAt, entry.id)
  }

  predicate UpTo(a: Key, b: Key) {
    || a.occurredAt < b.occurredAt
    || (a.occurredAt == b.occurredAt
        && (a.recordedAt < b.recordedAt || (a.recordedAt == b.recordedAt && a.id <= b.id)))
  }

  /** The sort of the timeline read. */
  predicate NotAfter(a: Entry, b: Entry) {
    UpTo(KeyOf(a), KeyOf(b))
  }

  predicate Ordered(entries: Timeline) {
    forall i, j | 0 <= i < j < |entries| :: NotAfter(entries[i], entries[j])
  }

  /** Where a new entry falls in the order. */
  function Position(entries: Timeline, entry: Entry): (n: nat)
    ensures n <= |entries|
    ensures forall i | 0 <= i < n :: NotAfter(entries[i], entry)
    ensures n < |entries| ==> !NotAfter(entries[n], entry)
  {
    if entries == [] || !NotAfter(entries[0], entry) then 0 else 1 + Position(entries[1..], entry)
  }

  function Insert(entries: Timeline, entry: Entry): Timeline {
    var at := Position(entries, entry);
    entries[..at] + [entry] + entries[at..]
  }

  lemma InsertKeepsOrder(entries: Timeline, entry: Entry)
    requires Ordered(entries)
    ensures Ordered(Insert(entries, entry))
    ensures multiset(Insert(entries, entry)) == multiset(entries) + multiset{entry}
  {
    var at := Position(entries, entry);
    assert entries == entries[..at] + entries[at..];
    LaterPlacesFollow(entries, entry);
    PlacedBetweenStaysOrdered(entries, entry, at);
  }

  lemma PlacedBetweenStaysOrdered(entries: Timeline, entry: Entry, at: nat)
    requires Ordered(entries) && at <= |entries|
    requires forall i | 0 <= i < |entries| :: NotAfter(entries[i], entry) <==> i < at
    ensures Ordered(entries[..at] + [entry] + entries[at..])
  {
    var grown := entries[..at] + [entry] + entries[at..];
    forall i, j | 0 <= i < j < |grown|
      ensures NotAfter(grown[i], grown[j])
    {
      var before, after := if i < at then i else i - 1, if j < at then j else j - 1;
      if i != at && j != at {
        assert NotAfter(entries[before], entries[after]);
      }
    }
  }

  /** In an ordered timeline everything from the place on comes after the entry. */
  lemma LaterPlacesFollow(entries: Timeline, entry: Entry)
    requires Ordered(entries)
    ensures forall i | 0 <= i < |entries| :: NotAfter(entries[i], entry) <==> i < Position(entries, entry)
  {
    var at := Position(entries, entry);
    forall i | at < i < |entries|
      ensures !NotAfter(entries[i], entry)
    {
      assert NotAfter(entries[at], entries[i]);
    }
  }

  ghost predicate DistinctIds(entries: Timeline) {
    forall a, b | a in entries && b in entries && a.id == b.id :: a == b
  }

  /** The order does not depend on how the rows were read: one set of rows has one timeline. */
  lemma ReadsTheSameTimeline(entries: Timeline, entry: Entry, read: Timeline)
    requires Ordered(entries) && DistinctIds(Insert(entries, entry))
    requires Ordered(read) && multiset(read) == multiset(entries) + multiset{entry}
    ensures read == Insert(entries, entry)
  {
    InsertKeepsOrder(entries, entry);
    var all := Insert(entries, entry);
    OrderIsTotal();
    assert forall a, b | a in all && b in all && KeyOf(a) == KeyOf(b) :: a.id == b.id;
    SortedIsUnique(all, read, (e: Entry) => KeyOf(e), (a: Key, b: Key) => UpTo(a, b));
  }

  lemma OrderIsTotal()
    ensures TotalOrder((a: Key, b: Key) => UpTo(a, b))
  {
  }

  // ---------- Running balances ----------

  /** Stock after the first `n` entries. */
  function Balance(entries: Timeline, n: nat): int
    requires n <= |entries|
  {
    if n == 0 then 0 else Balance(entries, n - 1) + entries[n - 1].wetDelta
  }

  /** The derived stock: every entry counted. */
  function DerivedStock(entries: Timeline): int {
    Balance(entries, |entries|)
  }

  /** No running balance is below zero by more than the slack. */
  ghost predicate Covered(slack: nat, entries: Timeline) {
    forall n | 0 < n <= |entries| :: Balance(entries, n) + slack >= 0
  }

  /** How many leading entries happened at or before `instant`. */
  function CountUpTo(entries: Timeline, instant: Instant): (n: nat)
    ensures n <= |entries|
    ensures forall i | 0 <= i < n :: entries[i].occurredAt <= instant
    ensures n < |entries| ==> entries[n].occurredAt > instant
  {
    if entries == [] || entries[0].occurredAt > instant then 0 else 1 + CountUpTo(entries[1..], instant)
  }

  function StockAt(entries: Timeline, instant: Instant): int {
    Balance(entries, CountUpTo(entries, instant))
  }

  /** In an ordered timeline the later entries are exactly those past the count. */
  lemma LaterEntriesFollow(entries: Timeline, instant: Instant)
    requires Ordered(entries)
    ensures forall i | 0 <= i < |entries| :: entries[i].occurredAt > instant <==> i >= CountUpTo(entries, instant)
  {
    var upTo := CountUpTo(entries, instant);
    forall i | upTo < i < |entries|
      ensures entries[i].occurredAt > instant
    {
      assert NotAfter(entries[upTo], entries[i]);
    }
  }

  /** Balances before the new entry stand; every later one moves by its delta. */
  lemma {:induction false} InsertShiftsLaterBalances(entries: Timeline, entry: Entry, n: nat)
    requires n <= |entries| + 1
    ensures Balance(Insert(entries, entry), n)
            == if n <= Position(entries, entry) then Balance(entries, n)
               else Balance(entries, n - 1) + entry.wetDelta
  {
    if n > 0 {
      InsertShiftsLaterBalances(entries, entry, n - 1);
    }
  }

  lemma InsertAddsToDerivedStock(entries: Timeline, entry: Entry)
    ensures DerivedStock(Insert(entries, entry)) == DerivedStock(entries) + entry.wetDelta
  {
    InsertShiftsLaterBalances(entries, entry, |entries| + 1);
  }

  /** Every balance from the `from`-th on can take `delta`. */
  ghost predicate CanTake(slack: nat, entries: Timeline, from: nat, delta: int) {
    forall n | from <= n <= |entries| :: Balance(entries, n) + delta + slack >= 0
  }

  /** Exactly when a ledger stays covered after an insertion: the insertion point and every later balance can take it. */
  lemma InsertCoveredIff(slack: nat, entries: Timeline, entry: Entry)
    requires Covered(slack, entries)
    ensures Covered(slack, Insert(entries, entry))
            <==> CanTake(slack, entries, Position(entries, entry), entry.wetDelta)
  {
    var at, grown := Position(entries, entry), Insert(entries, entry);
    if Covered(slack, grown) {
      forall n | at <= n <= |entries|
        ensures Balance(entries, n) + entry.wetDelta + slack >= 0
      {
        InsertShiftsLaterBalances(entries, entry, n + 1);
        assert Balance(grown, n + 1) + slack >= 0;
      }
    }
    if CanTake(slack, entries, at, entry.wetDelta) {
      forall n | 0 < n <= |grown|
        ensures Balance(grown, n) + slack >= 0
      {
        InsertShiftsLaterBalances(entries, entry, n);
        if n <= at {
          assert Balance(entries, n) + slack >= 0;
        } else {
          assert Balance(entries, n - 1) + entry.wetDelta + slack >= 0;
        }
      }
    }
  }
}
