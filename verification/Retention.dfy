/**
 * Purging expired rows in bounded batches, oldest first, as the retention jobs of
 * `src/data-access/api-rate-limits.ts` and `src/data-access/api-idempotency-records.ts` do.
 */
module Retention {
  /** Every row taken is at least as old as every due row left. */
  ghost predicate OldestGone<K, V>(table: map<K, V>, since: V -> real, removed: set<K>, left: set<K>) {
    && removed + left <= table.Keys
    && forall gone, kept | gone in removed && kept in left :: since(table[gone]) <= since(table[kept])
  }

  lemma {:induction false} OldestExists<K, V>(table: map<K, V>, since: V -> real, keys: set<K>)
    requires keys != {} && keys <= table.Keys
    ensures exists key :: key in keys && forall other | other in keys :: since(table[key]) <= since(table[other])
  {
    var some :| some in keys;
    if keys != {some} {
      OldestExists(table, since, keys - {some});
      var best :| best in keys - {some}
        && forall other | other in keys - {some} :: since(table[best]) <= since(table[other]);
      var winner := if since(table[some]) <= since(table[best]) then some else best;
      assert forall other | other in keys :: since(table[winner]) <= since(table[other]);
    }
  }

  /** The `limit` keys of `due` that are oldest, one at a time. */
  method PickOldest<K(==), V>(table: map<K, V>, since: V -> real, due: set<K>, limit: nat) returns (picked: set<K>)
    requires due <= table.Keys
    ensures picked <= due && OldestGone(table, since, picked, due - picked)
    ensures |picked| == if |due| < limit then |due| else limit
  {
    picked := {};
    var left := due;
    while |picked| < limit && left != {}
      invariant picked + left == due && picked !! left
      invariant |picked| <= limit && |picked| + |left| == |due|
      invariant OldestGone(table, since, picked, left)
      decreases left
    {
      OldestExists(table, since, left);
      var key :| key in left && forall other | other in left :: since(table[key]) <= since(table[other]);
      picked := picked + {key};
      left := left - {key};
    }
    assert left == due - picked;
  }

  /** Only due rows are gone so far. */
  ghost predicate PartlyPurged<K, V>(first: map<K, V>, table: map<K, V>, due: set<K>) {
    && table.Keys <= first.Keys
    && table == first - (first.Keys - table.Keys)
    && first.Keys - table.Keys <= due
  }

  /** One more batch keeps that true, shrinks the table by its size, and finishes the purge when it takes all. */
  lemma PurgeContinues<K, V>(first: map<K, V>, table: map<K, V>, due: set<K>, removed: set<K>)
    requires PartlyPurged(first, table, due) && removed <= due * table.Keys
    ensures PartlyPurged(first, table - removed, due)
    ensures |table - removed| == |table| - |removed|
    ensures |removed| == |due * table.Keys| ==> table - removed == first - due
  {
    assert (table - removed).Keys == table.Keys - removed;
    assert |table.Keys - removed| == |table.Keys| - |removed|;
    if |removed| == |due * table.Keys| {
      SubsetOfSameSize(removed, due * table.Keys);
    }
  }

  lemma SubsetOfSameSize<T>(a: set<T>, b: set<T>)
    requires a <= b && |a| == |b|
    ensures a == b
  {
    assert b == a + (b - a);
    assert |b| == |a| + |b - a|;
  }
}
