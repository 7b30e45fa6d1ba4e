/**
 * The persistent token bucket of `src/data-access/api-rate-limits.ts`.
 *
 * Token counts, rates and instants are reals; instants are seconds. The instant of
 * a request is whatever the clock returned, so it may be earlier than the stored one.
 */
module RateLimits {
  import opened Outcomes
  import opened Retention

  const SECONDS_PER_MINUTE := 60.0
  const IDLE_RETENTION_SECONDS := 86_400.0
  const PURGE_BATCH_SIZE: nat := 1_000

  type Key = string

  /** What a caller configures for a key; the write guards of the method make it positive. */
  datatype Policy = Policy(capacity: real, refillPerMinute: real)

  /** A stored row: tokens left, and the latest instant at which a refill was credited. */
  datatype Bucket = Bucket(tokens: real, refilledAt: real)

  datatype Decision = Decision(allowed: bool, limit: real, remaining: int, resetSeconds: int, retryAfterSeconds: int)

  datatype RateLimitError = InvalidBucketOrCost

  predicate ValidPolicy(policy: Policy) {
    policy.capacity > 0.0 && policy.refillPerMinute > 0.0
  }

  predicate ValidCall(policy: Policy, cost: real) {
    ValidPolicy(policy) && 0.0 < cost <= policy.capacity
  }

  predicate ValidBucket(policy: Policy, row: Bucket) {
    0.0 <= row.tokens <= policy.capacity
  }

  function Max(a: real, b: real): real {
    if a < b then b else a
  }

  function Min(a: real, b: real): real {
    if a < b then a else b
  }

  function Ceil(x: real): int {
    -(-x).Floor
  }

  // ---------- Refill arithmetic ----------

  /** Tokens earned in `seconds`. */
  function Refill(policy: Policy, seconds: real): real {
    seconds * policy.refillPerMinute / SECONDS_PER_MINUTE
  }

  /** Seconds needed to earn `tokens`. */
  function SecondsToEarn(policy: Policy, tokens: real): real
    requires ValidPolicy(policy)
  {
    tokens * SECONDS_PER_MINUTE / policy.refillPerMinute
  }

  lemma RefillMonotone(policy: Policy, a: real, b: real)
    requires ValidPolicy(policy) && a <= b
    ensures Refill(policy, a) <= Refill(policy, b)
  {
    assert a * policy.refillPerMinute <= b * policy.refillPerMinute;
  }

  lemma RefillAdds(policy: Policy, a: real, b: real)
    ensures Refill(policy, a) + Refill(policy, b) == Refill(policy, a + b)
  {
    assert a * policy.refillPerMinute + b * policy.refillPerMinute == (a + b) * policy.refillPerMinute;
  }

  /** Waiting `seconds` earns at least `tokens` exactly when the wait is at least the computed one. */
  lemma RefillReaches(policy: Policy, seconds: real, tokens: real)
    requires ValidPolicy(policy)
    ensures Refill(policy, seconds) >= tokens <==> seconds >= SecondsToEarn(policy, tokens)
  {
    var rate, need := policy.refillPerMinute, SecondsToEarn(policy, tokens);
    assert need * rate == tokens * SECONDS_PER_MINUTE;
    if seconds >= need {
      assert seconds * rate >= need * rate;
    } else {
      assert seconds * rate < need * rate;
    }
  }

  lemma CeilIsLeast(x: real, k: int)
    ensures k as real >= x <==> k >= Ceil(x)
  {
  }

  // ---------- One request ----------

  /** Tokens on hand at `now`: the refill since the high-water instant, capped. */
  function Available(policy: Policy, row: Bucket, now: real): real {
    Min(policy.capacity, row.tokens + Refill(policy, Max(0.0, now - row.refilledAt)))
  }

  function Admits(policy: Policy, row: Option<Bucket>, cost: real, now: real): bool {
    row.None? || Available(policy, row.value, now) >= cost
  }

  /** The row after one upsert. */
  function Debit(policy: Policy, row: Option<Bucket>, cost: real, now: real): Bucket {
    match row
    case None => Bucket(policy.capacity - cost, now)
    case Some(r) =>
      var available := Available(policy, r, now);
      Bucket(available - (if available >= cost then cost else 0.0), Max(r.refilledAt, now))
  }

  /** The answer computed from the row the upsert returned. */
  function Answer(policy: Policy, allowed: bool, row: Bucket, cost: real, now: real): Decision
    requires ValidPolicy(policy)
  {
    var delay := Max(0.0, row.refilledAt - now);
    Decision(allowed, policy.capacity, row.tokens.Floor,
             Ceil(delay + SecondsToEarn(policy, policy.capacity - row.tokens)),
             if row.tokens >= cost then 0 else Ceil(delay + SecondsToEarn(policy, cost - row.tokens)))
  }

  function Decide(policy: Policy, row: Option<Bucket>, cost: real, now: real): Decision
    requires ValidPolicy(policy)
  {
    Answer(policy, Admits(policy, row, cost, now), Debit(policy, row, cost, now), cost, now)
  }

  lemma AvailableWithinBounds(policy: Policy, row: Bucket, now: real)
    requires ValidPolicy(policy) && ValidBucket(policy, row)
    ensures row.tokens <= Available(policy, row, now) <= policy.capacity
  {
    RefillMonotone(policy, 0.0, Max(0.0, now - row.refilledAt));
  }

  /** Tokens never leave [0, capacity], and the high-water instant never falls. */
  lemma DebitKeepsBucketValid(policy: Policy, row: Option<Bucket>, cost: real, now: real)
    requires ValidCall(policy, cost)
    requires row.Some? ==> ValidBucket(policy, row.value)
    ensures ValidBucket(policy, Debit(policy, row, cost, now))
    ensures Debit(policy, row, cost, now).refilledAt >= now
    ensures row.Some? ==> Debit(policy, row, cost, now).refilledAt >= row.value.refilledAt
    ensures Debit(policy, row, cost, now).refilledAt in {now} + if row.Some? then {row.value.refilledAt} else {}
  {
    if row.Some? {
      AvailableWithinBounds(policy, row.value, now);
    }
  }

  // ---------- The window bound ----------

  datatype Request = Request(cost: real, now: real)

  predicate ValidRequests(policy: Policy, requests: seq<Request>) {
    forall i | 0 <= i < |requests| :: ValidCall(policy, requests[i].cost)
  }

  /** The row after serving `requests` in order. */
  function Serve(policy: Policy, row: Bucket, requests: seq<Request>): Bucket
    decreases |requests|
  {
    if requests == [] then row
    else Serve(policy, Debit(policy, Some(row), requests[0].cost, requests[0].now), requests[1..])
  }

  /** Total cost of the admitted ones. */
  function AdmittedCost(policy: Policy, row: Bucket, requests: seq<Request>): real
    decreases |requests|
  {
    if requests == [] then 0.0
    else
      (if Admits(policy, Some(row), requests[0].cost, requests[0].now) then requests[0].cost else 0.0)
      + AdmittedCost(policy, Debit(policy, Some(row), requests[0].cost, requests[0].now), requests[1..])
  }

  /**
   * For arbitrary clock readings: what was admitted plus what is left never exceeds
   * the opening tokens plus the refill earned by the rise of the high-water instant.
   */
  lemma {:induction false} WindowBound(policy: Policy, row: Bucket, requests: seq<Request>)
    requires ValidPolicy(policy) && ValidBucket(policy, row) && ValidRequests(policy, requests)
    ensures
      var last := Serve(policy, row, requests);
      && ValidBucket(policy, last)
      && last.refilledAt >= row.refilledAt
      && AdmittedCost(policy, row, requests) + last.tokens
         <= row.tokens + Refill(policy, last.refilledAt - row.refilledAt)
    decreases |requests|
  {
    if requests != [] {
      var cost, now := requests[0].cost, requests[0].now;
      var next := Debit(policy, Some(row), cost, now);
      DebitKeepsBucketValid(policy, Some(row), cost, now);
      WindowBound(policy, next, requests[1..]);
      var last := Serve(policy, row, requests);
      RefillAdds(policy, next.refilledAt - row.refilledAt, last.refilledAt - next.refilledAt);
    }
  }

  /** At none of the requests does the refill run over the capacity. */
  predicate NeverFull(policy: Policy, row: Bucket, requests: seq<Request>)
    decreases |requests|
  {
    requests != [] ==>
      && row.tokens + Refill(policy, Max(0.0, requests[0].now - row.refilledAt)) <= policy.capacity
      && NeverFull(policy, Debit(policy, Some(row), requests[0].cost, requests[0].now), requests[1..])
  }

  /** While nothing runs over, no token is lost or made: what was admitted and what is left is all that was there and was earned. */
  lemma {:induction false} WindowIsExact(policy: Policy, row: Bucket, requests: seq<Request>)
    requires ValidPolicy(policy) && ValidBucket(policy, row) && ValidRequests(policy, requests)
    requires NeverFull(policy, row, requests)
    ensures
      var last := Serve(policy, row, requests);
      AdmittedCost(policy, row, requests) + last.tokens == row.tokens + Refill(policy, last.refilledAt - row.refilledAt)
    decreases |requests|
  {
    if requests == [] {
      assert Refill(policy, 0.0) == 0.0;
    } else {
      var cost, now := requests[0].cost, requests[0].now;
      var next := Debit(policy, Some(row), cost, now);
      DebitKeepsBucketValid(policy, Some(row), cost, now);
      WindowIsExact(policy, next, requests[1..]);
      var last := Serve(policy, row, requests);
      RefillAdds(policy, next.refilledAt - row.refilledAt, last.refilledAt - next.refilledAt);
    }
  }

  /**
   * One request on its own: a key not seen before is full; any other is topped up by a
   * sixtieth of the minute rate for each second since the latest instant, and never above
   * its capacity. The cost is taken exactly when it is there, and the answer says so.
   */
  lemma OneRequest(policy: Policy, row: Option<Bucket>, cost: real, now: real)
    requires ValidCall(policy, cost) && (row.Some? ==> ValidBucket(policy, row.value))
    ensures
      var elapsed := if row.Some? && now > row.value.refilledAt then now - row.value.refilledAt else 0.0;
      var earned := if row.Some? then row.value.tokens + elapsed * policy.refillPerMinute / 60.0 else policy.capacity;
      var there := if earned > policy.capacity then policy.capacity else earned;
      var next, decision := Debit(policy, row, cost, now), Decide(policy, row, cost, now);
      && decision.limit == policy.capacity && (decision.allowed <==> there >= cost)
      && (decision.allowed ==> next.tokens == there - cost) && (!decision.allowed ==> next.tokens == there)
  {
  }

  /** From an unused key: never more than one capacity plus the refill over the elapsed high-water time. */
  lemma AdmittedCostWithinWindow(policy: Policy, first: Request, rest: seq<Request>)
    requires ValidCall(policy, first.cost) && ValidRequests(policy, rest)
    ensures
      var row := Debit(policy, None, first.cost, first.now);
      var last := Serve(policy, row, rest);
      && last.refilledAt >= first.now
      && first.cost + AdmittedCost(policy, row, rest)
         <= policy.capacity + Refill(policy, last.refilledAt - first.now)
  {
    WindowBound(policy, Debit(policy, None, first.cost, first.now), rest);
  }

  // ---------- The published figures ----------

  /** Available tokens reach `target` after `k` quiet seconds exactly when `k` covers the published wait. */
  lemma WaitIsExact(policy: Policy, row: Bucket, target: real, now: real, k: nat)
    requires ValidPolicy(policy) && row.refilledAt >= now
    requires row.tokens < target <= policy.capacity
    ensures Available(policy, row, now + k as real) >= target
            <==> k >= Ceil((row.refilledAt - now) + SecondsToEarn(policy, target - row.tokens))
  {
    var delay, need := row.refilledAt - now, target - row.tokens;
    var elapsed := Max(0.0, now + k as real - row.refilledAt);
    RefillReaches(policy, elapsed, need);
    RefillReaches(policy, 0.0, need);
    assert Refill(policy, 0.0) == 0.0;
    CeilIsLeast(delay + SecondsToEarn(policy, need), k);
  }

  /**
   * After any answer, and with no other traffic, one more request of the same cost is
   * admitted `k` whole seconds later exactly when `k` is at least `retryAfterSeconds`.
   */
  lemma RetryAfterIsExact(policy: Policy, row: Option<Bucket>, cost: real, now: real, k: nat)
    requires ValidCall(policy, cost) && (row.Some? ==> ValidBucket(policy, row.value))
    ensures Admits(policy, Some(Debit(policy, row, cost, now)), cost, now + k as real)
            <==> k >= Decide(policy, row, cost, now).retryAfterSeconds
  {
    var next := Debit(policy, row, cost, now);
    DebitKeepsBucketValid(policy, row, cost, now);
    if next.tokens >= cost {
      AvailableWithinBounds(policy, next, now + k as real);
    } else {
      WaitIsExact(policy, next, cost, now, k);
    }
  }

  /** The bucket is full again `k` whole seconds later exactly when `k` is at least `resetSeconds`. */
  lemma ResetIsExact(policy: Policy, row: Option<Bucket>, cost: real, now: real, k: nat)
    requires ValidCall(policy, cost) && (row.Some? ==> ValidBucket(policy, row.value))
    ensures Available(policy, Debit(policy, row, cost, now), now + k as real) == policy.capacity
            <==> k >= Decide(policy, row, cost, now).resetSeconds
  {
    var next := Debit(policy, row, cost, now);
    DebitKeepsBucketValid(policy, row, cost, now);
    if row.Some? {
      AvailableWithinBounds(policy, row.value, now);
    }
    AvailableWithinBounds(policy, next, now + k as real);
    WaitIsExact(policy, next, policy.capacity, now, k);
  }

  /** `n` further requests of cost one, all at the same instant. */
  function UnitRequests(now: real, n: nat): seq<Request> {
    if n == 0 then [] else [Request(1.0, now)] + UnitRequests(now, n - 1)
  }

  /** Of any `n` unit requests with no time passing, as many are admitted as there are whole tokens. */
  lemma {:induction false} UnitRequestsPass(policy: Policy, row: Bucket, now: real, n: nat)
    requires ValidPolicy(policy) && policy.capacity >= 1.0 && ValidBucket(policy, row) && row.refilledAt >= now
    ensures AdmittedCost(policy, row, UnitRequests(now, n))
            == (if n <= row.tokens.Floor then n else row.tokens.Floor) as real
    decreases n
  {
    if n > 0 {
      var next := Debit(policy, Some(row), 1.0, now);
      UnitDebit(policy, row, now);
      UnitRequestsPass(policy, next, now, n - 1);
      assert UnitRequests(now, n)[0] == Request(1.0, now) && UnitRequests(now, n)[1..] == UnitRequests(now, n - 1);
    }
  }

  /**
   * The `remaining` a decision reports is exactly how many unit requests would be admitted
   * after it at the same instant: of any `n` sent, the first `min(n, remaining)` pass and
   * the others are refused.
   */
  lemma RemainingIsExact(policy: Policy, row: Option<Bucket>, cost: real, now: real, n: nat)
    requires ValidCall(policy, cost) && policy.capacity >= 1.0 && (row.Some? ==> ValidBucket(policy, row.value))
    ensures
      var remaining := Decide(policy, row, cost, now).remaining;
      && remaining >= 0
      && AdmittedCost(policy, Debit(policy, row, cost, now), UnitRequests(now, n))
         == (if n <= remaining then n else remaining) as real
  {
    DebitKeepsBucketValid(policy, row, cost, now);
    UnitRequestsPass(policy, Debit(policy, row, cost, now), now, n);
  }

  /** A unit request with no time passing takes one token, or finds less than one. */
  lemma UnitDebit(policy: Policy, row: Bucket, now: real)
    requires ValidPolicy(policy) && policy.capacity >= 1.0 && ValidBucket(policy, row) && row.refilledAt >= now
    ensures Admits(policy, Some(row), 1.0, now) <==> row.tokens.Floor >= 1
    ensures Debit(policy, Some(row), 1.0, now)
            == Bucket(if row.tokens.Floor >= 1 then row.tokens - 1.0 else row.tokens, row.refilledAt)
  {
    assert Refill(policy, 0.0) == 0.0;
  }

  // ---------- Purging idle rows ----------

  type Table = map<Key, Bucket>

  /** Rows one purge may delete: idle for the retention period and not locked by another statement. */
  function IdleKeys(table: Table, cutoff: real, locked: set<Key>): set<Key> {
    set key | key in table && key !in locked && table[key].refilledAt <= cutoff
  }

  function Lookup(table: Table, key: Key): Option<Bucket> {
    if key in table then Some(table[key]) else None
  }

  /**
   * Deleting one row is unobservable at the next request exactly when that row is full
   * again at its instant and the clock has not fallen behind the row. Otherwise the
   * answer or the stored row differs.
   */
  lemma ForgettingIsUnobservableIff(policy: Policy, row: Bucket, cost: real, now: real)
    requires ValidCall(policy, cost) && ValidBucket(policy, row)
    ensures Debit(policy, Some(row), cost, now) == Debit(policy, None, cost, now)
            && Decide(policy, Some(row), cost, now) == Decide(policy, None, cost, now)
            <==> now >= row.refilledAt && Available(policy, row, now) == policy.capacity
  {
    AvailableWithinBounds(policy, row, now);
  }

  /** A clock that steps back after a purge shows the difference. */
  lemma PurgeShowsAfterBackwardClock()
    ensures
      var policy, row := Policy(60.0, 60.0), Bucket(0.0, 0.0);
      && row.refilledAt <= 86_400.0 - IDLE_RETENTION_SECONDS
      && !Admits(policy, Some(row), 1.0, 0.0)
      && Admits(policy, None, 1.0, 0.0)
  {
  }

  /** A row idle for the retention period is full whenever a full refill fits into it. */
  lemma IdleRowIsFull(policy: Policy, row: Bucket, purgedAt: real, now: real)
    requires ValidPolicy(policy) && ValidBucket(policy, row)
    requires SecondsToEarn(policy, policy.capacity) <= IDLE_RETENTION_SECONDS
    requires row.refilledAt <= purgedAt - IDLE_RETENTION_SECONDS && purgedAt <= now
    ensures now >= row.refilledAt && Available(policy, row, now) == policy.capacity
  {
    RefillReaches(policy, now - row.refilledAt, policy.capacity);
  }

  /** Every configured bucket refills in one minute, so it satisfies the retention condition. */
  lemma ConfiguredBucketsRefillWithinRetention(capacity: real)
    requires capacity > 0.0
    ensures SecondsToEarn(Policy(capacity, capacity), capacity) <= IDLE_RETENTION_SECONDS
  {
    assert capacity * SECONDS_PER_MINUTE / capacity == SECONDS_PER_MINUTE;
  }

  datatype Event =
    | Consume(key: Key, cost: real, now: real)
    | Purge(now: real, locked: set<Key>)

  /** The table and the answers after `events`; a system that keeps every row skips the purges. */
  function Replay(policies: Key -> Policy, purges: bool, table: Table, events: seq<Event>): (Table, seq<Decision>)
    requires forall key :: ValidPolicy(policies(key))
    decreases |events|
  {
    if events == [] then (table, [])
    else
      match events[0]
      case Consume(key, cost, now) =>
        var row := Lookup(table, key);
        var (last, answers) := Replay(policies, purges, table[key := Debit(policies(key), row, cost, now)], events[1..]);
        (last, [Decide(policies(key), row, cost, now)] + answers)
      case Purge(now, locked) =>
        var kept := if purges then table - IdleKeys(table, now - IDLE_RETENTION_SECONDS, locked) else table;
        Replay(policies, purges, kept, events[1..])
  }

  /** No request reads a clock earlier than a purge before it; `since` is the latest purge instant so far. */
  predicate ClockPassesPurges(since: real, events: seq<Event>)
    decreases |events|
  {
    events != [] ==>
      match events[0]
      case Consume(_, _, now) => now >= since && ClockPassesPurges(since, events[1..])
      case Purge(now, _) => ClockPassesPurges(Max(since, now), events[1..])
  }

  ghost predicate ValidEvents(policies: Key -> Policy, events: seq<Event>) {
    forall i | 0 <= i < |events| && events[i].Consume? :: ValidCall(policies(events[i].key), events[i].cost)
  }

  ghost predicate ValidTable(policies: Key -> Policy, table: Table) {
    forall key | key in table :: ValidBucket(policies(key), table[key])
  }

  ghost predicate RefillsWithinRetention(policies: Key -> Policy) {
    forall key ::
      ValidPolicy(policies(key))
      && SecondsToEarn(policies(key), policies(key).capacity) <= IDLE_RETENTION_SECONDS
  }

  /** Equal rows, or a row only the keeping system still has and that was idle at the latest purge. */
  ghost predicate SameButForgotten(kept: Table, purged: Table, since: real) {
    && purged.Keys <= kept.Keys
    && forall key | key in kept ::
         if key in purged then kept[key] == purged[key]
         else kept[key].refilledAt <= since - IDLE_RETENTION_SECONDS
  }

  /** Purging changes no answer, now or later, and every row touched afterwards is the same in both systems. */
  lemma {:induction false} PurgeIsUnobservable(
      policies: Key -> Policy, kept: Table, purged: Table, since: real, events: seq<Event>)
    requires RefillsWithinRetention(policies)
    requires ValidTable(policies, kept) && ValidEvents(policies, events)
    requires SameButForgotten(kept, purged, since) && ClockPassesPurges(since, events)
    ensures Replay(policies, true, purged, events).1 == Replay(policies, false, kept, events).1
    ensures
      var a, b := Replay(policies, false, kept, events).0, Replay(policies, true, purged, events).0;
      && b.Keys <= a.Keys
      && (forall key | key in b :: a[key] == b[key])
    decreases |events|
  {
    if events != [] {
      assert forall i | 0 <= i < |events| - 1 :: events[1..][i] == events[i + 1];
      match events[0]
      case Purge(now, locked) =>
        var next := purged - IdleKeys(purged, now - IDLE_RETENTION_SECONDS, locked);
        PurgeIsUnobservable(policies, kept, next, Max(since, now), events[1..]);
      case Consume(key, cost, now) =>
        var policy, row := policies(key), Lookup(kept, key);
        assert ValidCall(policies(events[0].key), events[0].cost);
        if key in kept && key !in purged {
          IdleRowIsFull(policy, kept[key], since, now);
          ForgettingIsUnobservableIff(policy, kept[key], cost, now);
        }
        assert Debit(policy, row, cost, now) == Debit(policy, Lookup(purged, key), cost, now);
        DebitKeepsBucketValid(policy, row, cost, now);
        var next := Debit(policy, row, cost, now);
        PurgeIsUnobservable(policies, kept[key := next], purged[key := next], since, events[1..]);
    }
  }

  // ---------- The store ----------

  class RateLimiter {
    var buckets: Table

    constructor ()
      ensures buckets == map[]
    {
      buckets := map[];
    }

    /** One upsert and the answer it returns; an invalid bucket or cost is refused and nothing changes. */
    method ConsumeRateLimit(key: Key, policy: Policy, cost: real, now: real)
        returns (result: Result<Decision, RateLimitError>)
      modifies this
      ensures result.Ok? <==> ValidCall(policy, cost)
      ensures result.Err? ==> buckets == old(buckets)
      ensures result.Ok? ==>
        && buckets == old(buckets)[key := Debit(policy, Lookup(old(buckets), key), cost, now)]
        && result.value == Decide(policy, Lookup(old(buckets), key), cost, now)
    {
      if policy.capacity <= 0.0 || policy.refillPerMinute <= 0.0 || cost <= 0.0 || cost > policy.capacity {
        return Err(InvalidBucketOrCost);
      }
      var allowed := true;
      if key in buckets {
        var previous := buckets[key];
        var available := Available(policy, previous, now);
        allowed := available >= cost;
        var tokens := if allowed then available - cost else available;
        buckets := buckets[key := Bucket(tokens, Max(previous.refilledAt, now))];
      } else {
        buckets := buckets[key := Bucket(policy.capacity - cost, now)];
      }
      result := Ok(Answer(policy, allowed, buckets[key], cost, now));
    }

    /** One delete statement: up to `limit` idle, unlocked rows, longest idle first. */
    method DeleteBatch(cutoff: real, limit: nat, locked: set<Key>) returns (removed: set<Key>)
      modifies this
      ensures removed <= IdleKeys(old(buckets), cutoff, locked)
      ensures buckets == old(buckets) - removed
      ensures |removed| == if |IdleKeys(old(buckets), cutoff, locked)| < limit
                           then |IdleKeys(old(buckets), cutoff, locked)| else limit
      ensures OldestGone(old(buckets), (b: Bucket) => b.refilledAt, removed,
                         IdleKeys(old(buckets), cutoff, locked) - removed)
    {
      removed := PickOldest(buckets, (b: Bucket) => b.refilledAt, IdleKeys(buckets, cutoff, locked), limit);
      buckets := buckets - removed;
    }

    /** Batches until one comes back short; counts exactly the rows that are gone. */
    method PurgeIdleRateLimitBuckets(now: real, locked: set<Key>) returns (count: nat)
      modifies this
      ensures buckets == old(buckets) - IdleKeys(old(buckets), now - IDLE_RETENTION_SECONDS, locked)
      ensures forall key | key in old(buckets) ::
        key in buckets <==> key in locked || now - old(buckets)[key].refilledAt < 24.0 * 3600.0
      ensures count == |old(buckets)| - |buckets|
    {
      var cutoff := now - IDLE_RETENTION_SECONDS;
      ghost var due := IdleKeys(buckets, cutoff, locked);
      count := 0;
      while true
        invariant PartlyPurged(old(buckets), buckets, due)
        invariant count == |old(buckets)| - |buckets|
        decreases |buckets|
      {
        ghost var before := buckets;
        var removed := DeleteBatch(cutoff, PURGE_BATCH_SIZE, locked);
        assert IdleKeys(before, cutoff, locked) == due * before.Keys;
        PurgeContinues(old(buckets), before, due, removed);
        count := count + |removed|;
        if |removed| < PURGE_BATCH_SIZE {
          return;
        }
      }
    }
  }
}
