/**
 * Keyset pagination over a table that changes between pages
 * (`src/data-access/api-lookup-filters.ts`, `api-output-stock-movements.ts`,
 * `src/lib/read-models/api-list.ts`). A page reads the rows strictly below its cursor, largest
 * first, and one row more than it shows.
 */
module Keyset {
  import opened Outcomes

  /** Creation time, then identifier. */
  datatype Position = Position(createdAt: int, id: nat)

  predicate Earlier(a: Position, b: Position) {
    a.createdAt < b.createdAt || (a.createdAt == b.createdAt && a.id < b.id)
  }

  ghost predicate StrictOrder<K(!new)>(less: (K, K) -> bool) {
    && (forall a, b :: a != b ==> less(a, b) || less(b, a))
    && (forall a :: !less(a, a))
    && forall a, b, c :: less(a, b) && less(b, c) ==> less(a, c)
  }

  ghost predicate Descending<K(!new)>(s: seq<K>, less: (K, K) -> bool) {
    forall i, j | 0 <= i < j < |s| :: less(s[j], s[i])
  }

  predicate BelowCursor<K>(x: K, cursor: Option<K>, less: (K, K) -> bool) {
    cursor.Some? ==> less(x, cursor.value)
  }

  ghost function Below<K(!new)>(table: set<K>, cursor: Option<K>, less: (K, K) -> bool): set<K> {
    set x | x in table && BelowCursor(x, cursor, less)
  }

  /** What the statement may return: the largest `limit + 1` rows below the cursor, in descending order. */
  ghost predicate IsListing<K(!new)>(rows: seq<K>, table: set<K>, limit: nat, cursor: Option<K>, less: (K, K) -> bool) {
    && Descending(rows, less)
    && (forall x | x in rows :: x in Below(table, cursor, less))
    && |rows| <= limit + 1
    && (|rows| <= limit ==> forall x | x in Below(table, cursor, less) :: x in rows)
    && forall x, y | x in Below(table, cursor, less) && x !in rows && y in rows :: less(x, y)
  }

  datatype Page<K> = Page(data: seq<K>, next: Option<K>)

  /** The page shown, and where the next one starts. */
  function ReadListPage<K>(rows: seq<K>, limit: nat): Page<K> {
    var data := if |rows| <= limit then rows else rows[..limit];
    Page(data, if |rows| > limit && data != [] then Some(data[|data| - 1]) else None)
  }

  /** One listing per page, each from the table as it was then, each from the position the page before it gave. */
  ghost predicate Walk<K(!new)>(
      tables: seq<set<K>>, listings: seq<seq<K>>, limit: nat, cursor: Option<K>, less: (K, K) -> bool)
  {
    && |tables| == |listings|
    && (tables != [] ==> IsListing(listings[0], tables[0], limit, cursor, less))
    && (|tables| > 1 ==>
          ReadListPage(listings[0], limit).next.Some?
          && Walk(tables[1..], listings[1..], limit, ReadListPage(listings[0], limit).next, less))
  }

  predicate Finished<K(==)>(listings: seq<seq<K>>, limit: nat) {
    listings != [] && ReadListPage(listings[|listings| - 1], limit).next == None
  }

  /** Everything the walk has shown. */
  function Shown<K>(listings: seq<seq<K>>, limit: nat): seq<K> {
    if listings == [] then [] else ReadListPage(listings[0], limit).data + Shown(listings[1..], limit)
  }

  // ---------- Listings ----------

  lemma {:induction false} Greatest<K(!new)>(keys: set<K>, less: (K, K) -> bool) returns (top: K)
    requires StrictOrder(less) && keys != {}
    ensures top in keys && forall x | x in keys && x != top :: less(x, top)
  {
    var some :| some in keys;
    top := some;
    if keys != {some} {
      var best := Greatest(keys - {some}, less);
      if less(some, best) {
        top := best;
      }
    }
  }

  /** Every statement has an answer. */
  lemma {:induction false} ListingExists<K(!new)>(table: set<K>, limit: nat, cursor: Option<K>, less: (K, K) -> bool)
      returns (rows: seq<K>)
    requires StrictOrder(less)
    ensures IsListing(rows, table, limit, cursor, less)
    decreases limit
  {
    var below := Below(table, cursor, less);
    if below == {} {
      rows := [];
    } else {
      var top := Greatest(below, less);
      if limit == 0 {
        rows := [top];
      } else {
        var rest := ListingExists(table, limit - 1, Some(top), less);
        rows := [top] + rest;
        OneLonger(table, limit, cursor, less, top, rest);
      }
    }
  }

  lemma OneLonger<K(!new)>(table: set<K>, limit: nat, cursor: Option<K>, less: (K, K) -> bool, top: K, rest: seq<K>)
    requires StrictOrder(less) && limit > 0 && top in Below(table, cursor, less)
    requires forall x | x in Below(table, cursor, less) && x != top :: less(x, top)
    requires IsListing(rest, table, limit - 1, Some(top), less)
    ensures IsListing([top] + rest, table, limit, cursor, less)
  {
    var rows := [top] + rest;
    assert forall x | x in rest :: less(x, top);
    assert forall x | x in Below(table, cursor, less) && x != top :: x in Below(table, Some(top), less);
    forall x | x in Below(table, Some(top), less)
      ensures x in Below(table, cursor, less)
    {
    }
  }

  // ---------- One page ----------

  /**
   * A page shows rows below its cursor, the next position is its last row, and nothing above
   * that is left out. There is a next position exactly when the page left something out.
   */
  lemma PageFacts<K(!new)>(rows: seq<K>, table: set<K>, limit: nat, cursor: Option<K>, less: (K, K) -> bool)
    requires StrictOrder(less) && limit > 0 && IsListing(rows, table, limit, cursor, less)
    ensures
      var page := ReadListPage(rows, limit);
      && Descending(page.data, less) && (forall x | x in page.data :: x in Below(table, cursor, less))
      && (page.next.None? <==> forall x | x in Below(table, cursor, less) :: x in page.data)
      && (page.next.Some? ==>
            && page.next.value in page.data && |page.data| == limit
            && (forall x | x in page.data :: x == page.next.value || less(page.next.value, x))
            && (forall x | x in Below(table, cursor, less) && !less(x, page.next.value) :: x in page.data))
  {
    var page := ReadListPage(rows, limit);
    if page.next.Some? {
      assert rows[limit] in Below(table, cursor, less) && rows[limit] !in page.data;
      var last := page.next.value;
      assert forall j | limit - 1 < j < |rows| :: less(rows[j], last);
      forall x | x in Below(table, cursor, less) && !less(x, last)
        ensures x in page.data
      {
        assert x in rows;
        var i :| 0 <= i < |rows| && rows[i] == x;
        assert page.data[i] == x;
      }
    }
  }

  // ---------- Walks over a changing table ----------

  lemma DescendingTogether<K(!new)>(a: seq<K>, b: seq<K>, last: K, less: (K, K) -> bool)
    requires StrictOrder(less) && Descending(a, less) && Descending(b, less)
    requires forall x | x in a :: x == last || less(last, x)
    requires forall y | y in b :: less(y, last)
    ensures Descending(a + b, less)
  {
    var all := a + b;
    forall i, j | 0 <= i < j < |all|
      ensures less(all[j], all[i])
    {
      if i < |a| <= j {
        assert all[i] in a && all[j] in b;
      }
    }
  }

  /** However the table changes between pages, the rows shown descend strictly: none is shown twice. */
  lemma {:induction false} WalkDescends<K(!new)>(
      tables: seq<set<K>>, listings: seq<seq<K>>, limit: nat, cursor: Option<K>, less: (K, K) -> bool)
    requires StrictOrder(less) && limit > 0 && Walk(tables, listings, limit, cursor, less)
    ensures Descending(Shown(listings, limit), less)
    ensures forall x | x in Shown(listings, limit) :: BelowCursor(x, cursor, less)
    decreases |tables|
  {
    if listings != [] {
      PageFacts(listings[0], tables[0], limit, cursor, less);
      var page := ReadListPage(listings[0], limit);
      if |tables| > 1 {
        hide IsListing;
        WalkDescends(tables[1..], listings[1..], limit, page.next, less);
        DescendingTogether(page.data, Shown(listings[1..], limit), page.next.value, less);
        assert page.next.value in Below(tables[0], cursor, less);
      } else {
        assert listings[1..] == [];
        assert Shown(listings, limit) == page.data;
      }
    }
  }

  lemma ShownOrBelow<K(!new)>(rows: seq<K>, table: set<K>, limit: nat, cursor: Option<K>, less: (K, K) -> bool, x: K)
    requires StrictOrder(less) && limit > 0 && IsListing(rows, table, limit, cursor, less)
    requires x in table && BelowCursor(x, cursor, less)
    ensures
      var page := ReadListPage(rows, limit);
      x in page.data || (page.next.Some? && less(x, page.next.value))
  {
    PageFacts(rows, table, limit, cursor, less);
    assert x in Below(table, cursor, less);
  }

  lemma FinishedTail<K>(listings: seq<seq<K>>, limit: nat)
    requires |listings| > 1 && Finished(listings, limit)
    ensures Finished(listings[1..], limit)
  {
  }

  /** A finished walk has shown every row that was there and matched on every page. */
  lemma {:induction false} WalkMissesNothing<K(!new)>(
      tables: seq<set<K>>, listings: seq<seq<K>>, limit: nat, cursor: Option<K>, less: (K, K) -> bool, x: K)
    requires StrictOrder(less) && limit > 0 && Walk(tables, listings, limit, cursor, less) && Finished(listings, limit)
    requires BelowCursor(x, cursor, less) && forall k | 0 <= k < |tables| :: x in tables[k]
    ensures x in Shown(listings, limit)
    decreases |tables|
  {
    assert |tables| == |listings| > 0 && x in tables[0];
    ShownOrBelow(listings[0], tables[0], limit, cursor, less, x);
    var page := ReadListPage(listings[0], limit);
    if |tables| > 1 {
      FinishedTail(listings, limit);
      hide IsListing, StrictOrder, Finished, ReadListPage;
      if x !in page.data {
        assert forall k | 0 <= k < |tables| - 1 :: tables[1..][k] == tables[k + 1];
        WalkMissesNothing(tables[1..], listings[1..], limit, page.next, less, x);
      }
    }
  }

  /** And it shows nothing that was not there when its page was read. */
  lemma {:induction false} WalkShowsOnlyRows<K(!new)>(
      tables: seq<set<K>>, listings: seq<seq<K>>, limit: nat, cursor: Option<K>, less: (K, K) -> bool, x: K)
    requires Walk(tables, listings, limit, cursor, less) && x in Shown(listings, limit)
    ensures exists k :: 0 <= k < |tables| && x in tables[k] && x in listings[k]
    decreases |tables|
  {
    if x in ReadListPage(listings[0], limit).data {
      assert x in listings[0];
    } else if |tables| > 1 {
      WalkShowsOnlyRows(tables[1..], listings[1..], limit, ReadListPage(listings[0], limit).next, less, x);
      var k :| 0 <= k < |tables| - 1 && x in tables[1..][k] && x in listings[1..][k];
      assert x in tables[k + 1] && x in listings[k + 1];
    }
  }

  // ---------- Walks over a fixed table ----------

  /** On a fixed table the pages add up to the sorted list: everything, once, in order. */
  lemma FixedTableIsListed<K(!new)>(
      table: set<K>, tables: seq<set<K>>, listings: seq<seq<K>>, limit: nat, cursor: Option<K>, less: (K, K) -> bool)
    requires StrictOrder(less) && limit > 0 && Walk(tables, listings, limit, cursor, less) && Finished(listings, limit)
    requires forall k | 0 <= k < |tables| :: tables[k] == table
    ensures Descending(Shown(listings, limit), less)
    ensures forall x :: x in Shown(listings, limit) <==> x in Below(table, cursor, less)
  {
    WalkDescends(tables, listings, limit, cursor, less);
    forall x
      ensures x in Shown(listings, limit) <==> x in Below(table, cursor, less)
    {
      if x in Below(table, cursor, less) {
        WalkMissesNothing(tables, listings, limit, cursor, less, x);
      }
      if x in Shown(listings, limit) {
        WalkShowsOnlyRows(tables, listings, limit, cursor, less, x);
      }
    }
  }

  lemma {:induction false} ShownIsLong<K(!new)>(
      tables: seq<set<K>>, listings: seq<seq<K>>, limit: nat, cursor: Option<K>, less: (K, K) -> bool)
    requires StrictOrder(less) && limit > 0 && listings != [] && Walk(tables, listings, limit, cursor, less)
    ensures |Shown(listings, limit)| >= (|listings| - 1) * limit
    decreases |tables|
  {
    if |tables| > 1 {
      PageFacts(listings[0], tables[0], limit, cursor, less);
      hide IsListing, StrictOrder;
      assert |ReadListPage(listings[0], limit).data| == limit;
      ShownIsLong(tables[1..], listings[1..], limit, ReadListPage(listings[0], limit).next, less);
      assert |Shown(listings, limit)| == limit + |Shown(listings[1..], limit)|;
      hide *;
      OnePageMore(|listings| - 2, limit);
    }
  }

  lemma OnePageMore(pages: nat, limit: nat)
    ensures (pages + 1) * limit == limit + pages * limit
  {
  }

  lemma {:induction false} DistinctFit<K(!new)>(s: seq<K>, table: set<K>, less: (K, K) -> bool)
    requires StrictOrder(less) && Descending(s, less) && forall x | x in s :: x in table
    ensures |s| <= |table|
    decreases |s|
  {
    if s != [] {
      var n := |s| - 1;
      forall x | x in s[..n]
        ensures x in table - {s[n]}
      {
        var i :| 0 <= i < n && s[i] == x;
        assert less(s[n], s[i]);
      }
      DistinctFit(s[..n], table - {s[n]}, less);
      assert s[n] in table;
    }
  }

  /** A walk of a fixed table ends: it cannot have more full pages than fit. */
  lemma FixedTableWalkEnds<K(!new)>(
      table: set<K>, tables: seq<set<K>>, listings: seq<seq<K>>, limit: nat, cursor: Option<K>, less: (K, K) -> bool)
    requires StrictOrder(less) && limit > 0 && listings != [] && Walk(tables, listings, limit, cursor, less)
    requires forall k | 0 <= k < |tables| :: tables[k] == table
    ensures (|listings| - 1) * limit <= |table|
  {
    WalkDescends(tables, listings, limit, cursor, less);
    ShownIsLong(tables, listings, limit, cursor, less);
    forall x | x in Shown(listings, limit)
      ensures x in table
    {
      WalkShowsOnlyRows(tables, listings, limit, cursor, less, x);
    }
    DistinctFit(Shown(listings, limit), table, less);
  }

  /**
   * A lookup walked page by page while rows are inserted and deleted: positions by creation
   * time and identifier never repeat, and a finished walk has shown every row that stayed.
   */
  lemma LookupPagesAreSound(tables: seq<set<Position>>, listings: seq<seq<Position>>, limit: nat)
    requires limit > 0 && Walk(tables, listings, limit, None, Earlier)
    ensures
      var shown := Shown(listings, limit);
      && (forall i, j | 0 <= i < j < |shown| :: shown[i] != shown[j])
      && (Finished(listings, limit) ==>
            forall x: Position :: (forall k | 0 <= k < |tables| :: x in tables[k]) ==> x in shown)
  {
    var shown := Shown(listings, limit);
    assert StrictOrder(Earlier);
    hide Walk, Shown, StrictOrder;
    WalkDescends(tables, listings, limit, None, Earlier);
    forall i, j | 0 <= i < j < |shown|
      ensures shown[i] != shown[j]
    {
      assert Earlier(shown[j], shown[i]);
    }
    forall x: Position | Finished(listings, limit) && forall k | 0 <= k < |tables| :: x in tables[k]
      ensures x in shown
    {
      WalkMissesNothing(tables, listings, limit, None, Earlier, x);
    }
  }

  // ---------- Movement history ----------

  /** Posting sequence of every movement of a bin; no sequence is given twice. */
  type History = map<nat, nat>

  ghost predicate OwnSequences(table: History) {
    forall a, b | a in table && b in table && table[a] == table[b] :: a == b
  }

  ghost predicate AppendOnly(tables: seq<History>) {
    forall i, j, id | 0 <= i < j < |tables| && id in tables[i] :: id in tables[j] && tables[j][id] == tables[i][id]
  }

  function Smaller(): (nat, nat) -> bool {
    (a: nat, b: nat) => a < b
  }

  ghost function Sequences(table: History, ids: seq<nat>): seq<nat>
    requires forall id | id in ids :: id in table
  {
    seq(|ids|, i requires 0 <= i < |ids| => assert ids[i] in ids; table[ids[i]])
  }

  /** The cursor names a movement; the statement compares its posting sequence, and finds nothing without one. */
  ghost predicate IsMovementListing(ids: seq<nat>, table: History, limit: nat, cursor: Option<nat>) {
    && (forall id | id in ids :: id in table)
    && if cursor.Some? && cursor.value !in table then ids == []
       else IsListing(Sequences(table, ids), table.Values, limit,
                      if cursor.Some? then Some(table[cursor.value]) else None, Smaller())
  }

  ghost predicate MovementWalk(tables: seq<History>, listings: seq<seq<nat>>, limit: nat, cursor: Option<nat>) {
    && |tables| == |listings|
    && (tables != [] ==> IsMovementListing(listings[0], tables[0], limit, cursor))
    && (|tables| > 1 ==>
          ReadListPage(listings[0], limit).next.Some?
          && MovementWalk(tables[1..], listings[1..], limit, ReadListPage(listings[0], limit).next))
  }

  /** The same walk by posting sequence. */
  ghost function SequenceSets(tables: seq<History>): seq<set<nat>> {
    seq(|tables|, i requires 0 <= i < |tables| => tables[i].Values)
  }

  ghost predicate Listed(tables: seq<History>, listings: seq<seq<nat>>) {
    |tables| == |listings| && forall k, id | 0 <= k < |listings| && id in listings[k] :: id in tables[k]
  }

  ghost function SequenceListings(tables: seq<History>, listings: seq<seq<nat>>): seq<seq<nat>>
    requires Listed(tables, listings)
  {
    seq(|listings|, k requires 0 <= k < |listings| => Sequences(tables[k], listings[k]))
  }

  lemma {:induction false} MovementsAreListed(tables: seq<History>, listings: seq<seq<nat>>, limit: nat, cursor: Option<nat>)
    requires MovementWalk(tables, listings, limit, cursor)
    ensures Listed(tables, listings)
    decreases |tables|
  {
    if |tables| > 1 {
      var next := ReadListPage(listings[0], limit).next;
      MovementsAreListed(tables[1..], listings[1..], limit, next);
      forall k, id | 0 <= k < |listings| && id in listings[k]
        ensures id in tables[k]
      {
        if k > 0 {
          assert id in listings[1..][k - 1];
        }
      }
    }
  }

  lemma PageOfSequences(table: History, ids: seq<nat>, limit: nat)
    requires forall id | id in ids :: id in table
    ensures
      var page, bySequence := ReadListPage(ids, limit), ReadListPage(Sequences(table, ids), limit);
      && |bySequence.data| == |page.data|
      && (forall i | 0 <= i < |page.data| :: page.data[i] in table && bySequence.data[i] == table[page.data[i]])
      && (page.next.Some? <==> bySequence.next.Some?)
      && (page.next.Some? ==> page.next.value in table && bySequence.next.value == table[page.next.value])
  {
    var page := ReadListPage(ids, limit);
    forall i | 0 <= i < |page.data|
      ensures page.data[i] in table
    {
      assert page.data[i] in ids;
    }
  }

  /** On an append-only table the cursor's movement keeps its sequence, so the walk is a keyset walk. */
  lemma {:induction false} MovementWalkIsKeysetWalk(
      tables: seq<History>, listings: seq<seq<nat>>, limit: nat, cursor: Option<nat>)
    requires AppendOnly(tables) && MovementWalk(tables, listings, limit, cursor)
    requires cursor.Some? && tables != [] ==> cursor.value in tables[0]
    ensures Listed(tables, listings)
    ensures Walk(SequenceSets(tables), SequenceListings(tables, listings), limit,
                 if cursor.Some? && tables != [] then Some(tables[0][cursor.value]) else None, Smaller())
    decreases |tables|
  {
    MovementsAreListed(tables, listings, limit, cursor);
    if |tables| > 1 {
      var next := ReadListPage(listings[0], limit).next;
      PageOfSequences(tables[0], listings[0], limit);
      forall i, j, id | 0 <= i < j < |tables| - 1 && id in tables[1..][i]
        ensures id in tables[1..][j] && tables[1..][j][id] == tables[1..][i][id]
      {
        assert id in tables[i + 1];
      }
      MovementWalkIsKeysetWalk(tables[1..], listings[1..], limit, next);
      hide IsListing;
      assert SequenceSets(tables)[1..] == SequenceSets(tables[1..]);
      assert SequenceListings(tables, listings)[1..] == SequenceListings(tables[1..], listings[1..]);
    }
  }

  lemma TailOfWalk(tables: seq<History>, listings: seq<seq<nat>>)
    requires tables != [] && AppendOnly(tables) && Listed(tables, listings)
    ensures AppendOnly(tables[1..]) && Listed(tables[1..], listings[1..])
    ensures SequenceListings(tables, listings)[1..] == SequenceListings(tables[1..], listings[1..])
    ensures forall id | id in tables[0] :: id in tables[|tables| - 1] && tables[|tables| - 1][id] == tables[0][id]
  {
    var rest, more := tables[1..], listings[1..];
    assert forall k | 0 <= k < |rest| :: rest[k] == tables[k + 1] && more[k] == listings[k + 1];
    forall i, j, id | 0 <= i < j < |rest| && id in rest[i]
      ensures id in rest[j] && rest[j][id] == rest[i][id]
    {
      assert id in tables[i + 1];
    }
    forall id | id in tables[0]
      ensures id in tables[|tables| - 1] && tables[|tables| - 1][id] == tables[0][id]
    {
    }
  }

  lemma SequencesOfBoth(table: History, a: seq<nat>, b: seq<nat>)
    requires forall id | id in a + b :: id in table
    ensures Sequences(table, a + b) == (assert forall id | id in a :: id in a + b; Sequences(table, a))
                                       + (assert forall id | id in b :: id in a + b; Sequences(table, b))
  {
  }

  lemma {:induction false} ShownBySequence(tables: seq<History>, listings: seq<seq<nat>>, limit: nat)
    requires Listed(tables, listings) && AppendOnly(tables) && tables != []
    ensures
      var last, shown := tables[|tables| - 1], Shown(listings, limit);
      && (forall id | id in shown :: id in last)
      && Shown(SequenceListings(tables, listings), limit) == Sequences(last, shown)
    decreases |tables|
  {
    var last := tables[|tables| - 1];
    var page, later := ReadListPage(listings[0], limit).data, Shown(listings[1..], limit);
    PageOfSequences(tables[0], listings[0], limit);
    TailOfWalk(tables, listings);
    if |tables| > 1 {
      ShownBySequence(tables[1..], listings[1..], limit);
    }
    hide AppendOnly, Listed, ReadListPage;
    assert forall i | 0 <= i < |page| :: page[i] in last && last[page[i]] == tables[0][page[i]];
    SequencesOfBoth(last, page, later);
    assert Sequences(last, page) == ReadListPage(Sequences(tables[0], listings[0]), limit).data;
  }

  /**
   * The history of an append-only ledger, read page by page from the newest: no movement is
   * shown twice, posting sequences descend, and a finished walk has shown every movement that
   * was there when it began.
   */
  lemma MovementHistoryIsComplete(tables: seq<History>, listings: seq<seq<nat>>, limit: nat)
    requires limit > 0 && tables != [] && AppendOnly(tables) && OwnSequences(tables[|tables| - 1])
    requires MovementWalk(tables, listings, limit, None)
    ensures
      var last, shown := tables[|tables| - 1], Shown(listings, limit);
      && (forall id | id in shown :: id in last)
      && Descending(Sequences(last, shown), Smaller())
      && (forall i, j | 0 <= i < j < |shown| :: shown[i] != shown[j])
      && (Finished(listings, limit) ==> forall id | id in tables[0] :: id in shown)
  {
    MovementWalkIsKeysetWalk(tables, listings, limit, None);
    ShownBySequence(tables, listings, limit);
    var last, shown := tables[|tables| - 1], Shown(listings, limit);
    var sets, bySequence := SequenceSets(tables), SequenceListings(tables, listings);
    hide Walk, Shown, MovementWalk;
    WalkDescends(sets, bySequence, limit, None, Smaller());
    forall i, j | 0 <= i < j < |shown|
      ensures shown[i] != shown[j]
    {
      assert Smaller()(Sequences(last, shown)[j], Sequences(last, shown)[i]);
    }
    if Finished(listings, limit) {
      PageOfSequences(tables[|tables| - 1], listings[|listings| - 1], limit);
      forall id | id in tables[0]
        ensures id in shown
      {
        FirstMovementsStay(tables, id);
        WalkMissesNothing(sets, bySequence, limit, None, Smaller(), tables[0][id]);
        var i :| 0 <= i < |shown| && Sequences(last, shown)[i] == last[id];
        assert shown[i] in last && last[shown[i]] == last[id];
      }
    }
  }

  lemma FirstMovementsStay(tables: seq<History>, id: nat)
    requires tables != [] && AppendOnly(tables) && id in tables[0]
    ensures forall k | 0 <= k < |tables| :: id in tables[k] && tables[k][id] == tables[0][id] && tables[0][id] in tables[k].Values
  {
    forall k | 0 <= k < |tables|
      ensures id in tables[k] && tables[k][id] == tables[0][id]
    {
      if k > 0 {
        assert id in tables[0];
      }
    }
  }
}
