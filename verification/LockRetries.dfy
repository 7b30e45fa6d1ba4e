/**
 * Writers whose locks do not ascend: deadlock detection, and the retries around a
 * transaction (`src/lib/db/transaction-retry.ts`).
 *
 * The database aborts a member of a waiting cycle, whichever it likes. The victim gives its
 * locks back and runs again, discovering and locking what it then finds, until its attempts
 * are used up. Nothing is assumed of the plans.
 */
module LockRetries {
  import opened LockOrder

  /** `later`: the plans of the attempts a transaction still has. */
  datatype Db = Db(core: State, later: map<TxId, seq<seq<Request>>>)

  datatype Step = Go(tx: TxId) | Kill(tx: TxId)

  ghost predicate Sound(d: Db) {
    Valid(d.core) && d.later.Keys == d.core.Keys
  }

  /** A chain of waiting transactions that comes back to where it started. */
  ghost predicate Cycle(s: State, path: seq<TxId>) {
    |path| > 1 && Chain(s, path) && path[0] == path[|path| - 1]
  }

  ghost predicate InCycle(s: State, t: TxId) {
    exists path :: Cycle(s, path) && path[0] == t
  }

  /** Take or release locks, or be chosen as the victim of a deadlock and start over. */
  ghost function Next(d: Db, step: Step): Db
    requires Sound(d)
  {
    match step
    case Go(t) => d.(core := LockOrder.Next(d.core, t))
    case Kill(t) => if InCycle(d.core, t) && t in d.core then Abort(d, t) else d
  }

  function Abort(d: Db, t: TxId): Db
    requires t in d.core && t in d.later
  {
    if d.later[t] == [] then d.(core := d.core[t := d.core[t].(finished := true)])
    else Db(d.core[t := Tx(d.later[t][0], 0, false)], d.later[t := d.later[t][1..]])
  }

  lemma NextStaysSound(d: Db, step: Step)
    requires Sound(d)
    ensures Sound(Next(d, step))
  {
  }

  ghost function Run(d: Db, steps: seq<Step>): (after: Db)
    requires Sound(d)
    ensures Sound(after)
    decreases |steps|
  {
    if steps == [] then d
    else
      NextStaysSound(d, steps[0]);
      Run(Next(d, steps[0]), steps[1..])
  }

  // ---------- Standing still means a cycle ----------

  ghost predicate Stuck(s: State) {
    forall t | Unfinished(s, t) :: !CanStep(s, t)
  }

  /** Follow whom each one waits for. */
  lemma {:induction false} Walk(s: State, t: TxId, n: nat) returns (path: seq<TxId>)
    requires Valid(s) && Stuck(s) && Unfinished(s, t)
    ensures |path| == n + 1 && path[0] == t && Chain(s, path)
    ensures forall i | 0 <= i < |path| :: Unfinished(s, path[i])
    decreases n
  {
    if n == 0 {
      path := [t];
    } else {
      assert !CanStep(s, t);
      var u :| u in s && WaitsFor(s, t, u);
      var rest := Walk(s, u, n - 1);
      path := [t] + rest;
      forall i | 0 <= i < |path| - 1
        ensures WaitsFor(s, path[i], path[i + 1])
      {
        if i > 0 {
          assert WaitsFor(s, rest[i - 1], rest[i - 1 + 1]);
        }
      }
    }
  }

  lemma {:induction false} Pigeonhole(path: seq<TxId>, ts: set<TxId>) returns (i: nat, j: nat)
    requires |path| > |ts| && forall k | 0 <= k < |path| :: path[k] in ts
    ensures i < j < |path| && path[i] == path[j]
    decreases |path|
  {
    var n := |path| - 1;
    if k :| 0 <= k < n && path[k] == path[n] {
      i, j := k, n;
    } else {
      i, j := Pigeonhole(path[..n], ts - {path[n]});
    }
  }

  /** If no unfinished transaction can step, some of them wait in a cycle. */
  lemma StuckMeansCycle(s: State)
    requires Valid(s) && Stuck(s) && exists t :: Unfinished(s, t)
    ensures exists t :: InCycle(s, t)
  {
    var t :| Unfinished(s, t);
    var path := Walk(s, t, |s.Keys|);
    var i, j := Pigeonhole(path, s.Keys);
    var cycle := path[i..j + 1];
    forall k | 0 <= k < |cycle| - 1
      ensures WaitsFor(s, cycle[k], cycle[k + 1])
    {
      assert WaitsFor(s, path[i + k], path[i + k + 1]);
    }
    assert Cycle(s, cycle) && InCycle(s, path[i]);
  }

  /** The converse: nobody in a cycle can step, so the detector never kills a transaction that could. */
  lemma NobodyInACycleCanStep(s: State, t: TxId)
    requires InCycle(s, t)
    ensures t in s && !s[t].finished && !CanStep(s, t)
  {
    var path :| Cycle(s, path) && path[0] == t;
    assert WaitsFor(s, path[0], path[0 + 1]);
  }

  /** Whatever has run and whoever was killed: while anything is unfinished, a step or a kill is possible. */
  lemma NeverStuck(d: Db, steps: seq<Step>)
    requires Sound(d) && exists t :: Unfinished(Run(d, steps).core, t)
    ensures exists t :: CanStep(Run(d, steps).core, t) || InCycle(Run(d, steps).core, t)
  {
    var s := Run(d, steps).core;
    if Stuck(s) {
      StuckMeansCycle(s);
    } else {
      var t :| Unfinished(s, t) && CanStep(s, t);
    }
  }

  // ---------- Every run ends ----------

  function PlanLengths(plans: seq<seq<Request>>): nat {
    if plans == [] then 0 else |plans[0]| + 1 + PlanLengths(plans[1..])
  }

  /** What is left of this attempt and of those after it. */
  function LeftOfEach(d: Db): map<TxId, nat>
    requires Valid(d.core) && d.later.Keys == d.core.Keys
  {
    map t | t in d.core :: if d.core[t].finished then 0 else Left(d.core[t]) + PlanLengths(d.later[t])
  }

  ghost function Work(d: Db): nat
    requires Sound(d)
  {
    SumOf(LeftOfEach(d))
  }

  /** Every step that changes anything brings the end nearer. */
  lemma StepsLower(d: Db, step: Step)
    requires Sound(d)
    ensures Next(d, step) == d || Work(Next(d, step)) < Work(d)
  {
    var t := step.tx;
    if Next(d, step) != d {
      match step
      case Go(_) => GoLowers(d, t);
      case Kill(_) =>
        NobodyInACycleCanStep(d.core, t);
        KillLowers(d, t);
    }
  }

  lemma GoLowers(d: Db, t: TxId)
    requires Sound(d) && CanStep(d.core, t)
    ensures Sound(Next(d, Go(t))) && Work(Next(d, Go(t))) < Work(d)
  {
    var after := Next(d, Go(t));
    OneChanges(d, after, t);
  }

  lemma KillLowers(d: Db, t: TxId)
    requires Sound(d) && t in d.core && !d.core[t].finished
    ensures Sound(Abort(d, t)) && Work(Abort(d, t)) < Work(d)
  {
    OneChanges(d, Abort(d, t), t);
  }

  lemma OneChanges(d: Db, after: Db, t: TxId)
    requires Sound(d) && Sound(after) && d.core.Keys == after.core.Keys && t in d.core
    requires forall u | u in d.core && u != t :: after.core[u] == d.core[u] && after.later[u] == d.later[u]
    requires LeftOfEach(after)[t] < LeftOfEach(d)[t]
    ensures Work(after) < Work(d)
  {
    SumUpdate(LeftOfEach(d), t, LeftOfEach(after)[t]);
    assert LeftOfEach(after) == LeftOfEach(d)[t := LeftOfEach(after)[t]];
  }

  /** How many steps of a run change anything. */
  ghost function Effective(d: Db, steps: seq<Step>): nat
    requires Sound(d)
    decreases |steps|
  {
    if steps == [] then 0
    else
      NextStaysSound(d, steps[0]);
      (if Next(d, steps[0]) != d then 1 else 0) + Effective(Next(d, steps[0]), steps[1..])
  }

  /** No schedule and no choice of victims goes on for ever: the work there is bounds the steps that count. */
  lemma {:induction false} RunsEnd(d: Db, steps: seq<Step>)
    requires Sound(d)
    ensures Effective(d, steps) + Work(Run(d, steps)) <= Work(d)
    decreases |steps|
  {
    if steps != [] {
      NextStaysSound(d, steps[0]);
      StepsLower(d, steps[0]);
      RunsEnd(Next(d, steps[0]), steps[1..]);
    }
  }

  /** From any state, steps and kills finish every transaction: it committed or used up its attempts. */
  lemma {:induction false} AllEnd(d: Db) returns (steps: seq<Step>)
    requires Sound(d)
    ensures forall t :: !Unfinished(Run(d, steps).core, t)
    ensures |steps| <= Work(d)
    decreases Work(d)
  {
    steps := [];
    if exists t :: Unfinished(d.core, t) {
      assert Run(d, []) == d;
      NeverStuck(d, []);
      var t :| CanStep(d.core, t) || InCycle(d.core, t);
      var step := if CanStep(d.core, t) then Go(t) else Kill(t);
      StepsCount(d, t);
      StepsLower(d, step);
      NextStaysSound(d, step);
      var rest := AllEnd(Next(d, step));
      steps := [step] + rest;
      assert steps[1..] == rest;
    }
  }

  lemma StepsCount(d: Db, t: TxId)
    requires Sound(d)
    ensures CanStep(d.core, t) ==> Next(d, Go(t)) != d
    ensures InCycle(d.core, t) ==> Next(d, Kill(t)) != d
  {
    if CanStep(d.core, t) {
      assert LockOrder.Next(d.core, t)[t] != d.core[t];
    }
    if InCycle(d.core, t) {
      NobodyInACycleCanStep(d.core, t);
      KillChanges(d, t);
    }
  }

  lemma KillChanges(d: Db, t: TxId)
    requires Sound(d) && t in d.core && !d.core[t].finished
    ensures Abort(d, t) != d
  {
    if d.later[t] == [] {
      assert Abort(d, t).core[t].finished;
    } else {
      assert |Abort(d, t).later[t]| < |d.later[t]|;
    }
  }

  // ---------- What an abort frees ----------

  /** Every lock a transaction holds is held alone. */
  predicate HoldsAlone(tx: Tx) {
    forall i | 0 <= i < tx.taken && i < |tx.plan| :: tx.plan[i].mode == Update
  }

  /**
   * Killing a victim that holds its locks alone lets whoever waited for it step at once, so
   * a retry always makes room: this is the case of every loss and stock-take.
   */
  lemma VictimMakesRoom(d: Db, t: TxId, victim: TxId)
    requires Sound(d) && HeldTogether(d.core) && WaitsFor(d.core, t, victim)
    requires HoldsAlone(d.core[victim])
    ensures CanStep(Abort(d, victim).core, t)
  {
    var s, after := d.core, Abort(d, victim).core;
    var i :| 0 <= i < s[victim].taken && i < |s[victim].plan| && Conflicting(s[victim].plan[i], AskedBy(s, t));
    forall u | u in after
      ensures !WaitsFor(after, t, u)
    {
      if u != victim && u != t {
        assert AskedBy(after, t) == AskedBy(s, t);
        forall k | 0 <= k < s[u].taken && k < |s[u].plan| && !s[u].finished
          ensures !Conflicting(s[u].plan[k], AskedBy(s, t))
        {
          assert !Conflicting(s[victim].plan[i], s[u].plan[k]);
        }
      }
    }
  }

  /** A kill keeps what is held together. */
  lemma NextKeepsHeldTogether(d: Db, step: Step)
    requires Sound(d) && HeldTogether(d.core)
    ensures HeldTogether(Next(d, step).core)
  {
    if step.Go? {
      StepKeepsHeldTogether(d.core, step.tx);
    }
  }

  lemma {:induction false} RunKeepsHeldTogether(d: Db, steps: seq<Step>)
    requires Sound(d) && HeldTogether(d.core)
    ensures HeldTogether(Run(d, steps).core)
    decreases |steps|
  {
    hide HeldTogether, Next, Sound;
    if steps != [] {
      NextStaysSound(d, steps[0]);
      NextKeepsHeldTogether(d, steps[0]);
      RunKeepsHeldTogether(Next(d, steps[0]), steps[1..]);
    }
  }

  // ---------- The writers, whatever their rebuilds find ----------

  function PlansOf(attempts: seq<Writer>): (plans: seq<seq<Request>>)
    ensures |plans| == |attempts| && forall i | 0 <= i < |plans| :: plans[i] == LockPlan(attempts[i])
  {
    seq(|attempts|, i requires 0 <= i < |attempts| => LockPlan(attempts[i]))
  }

  /** `retries`: each writer's later attempts, which may discover other locks. */
  function StartedWith(writers: map<TxId, Writer>, retries: map<TxId, seq<Writer>>): Db
    requires retries.Keys == writers.Keys
  {
    Db(Started(writers), map t | t in retries :: PlansOf(retries[t]))
  }

  /**
   * Any writers at all, in order or not: while one is unfinished, some transaction can step
   * or a deadlock is there to be broken; the steps that count are bounded; and they can all be finished.
   */
  lemma WritersAlwaysEnd(writers: map<TxId, Writer>, retries: map<TxId, seq<Writer>>, steps: seq<Step>)
      returns (rest: seq<Step>)
    requires retries.Keys == writers.Keys
    ensures Sound(StartedWith(writers, retries))
    ensures
      var s := Run(StartedWith(writers, retries), steps).core;
      (exists t :: Unfinished(s, t)) ==> exists t :: CanStep(s, t) || InCycle(s, t)
    ensures Effective(StartedWith(writers, retries), steps) <= Work(StartedWith(writers, retries))
    ensures forall t :: !Unfinished(Run(Run(StartedWith(writers, retries), steps), rest).core, t)
  {
    var d := StartedWith(writers, retries);
    assert Sound(d) by { hide LockPlan; }
    hide LockPlan, StartedWith, Sound, Next;
    if exists t :: Unfinished(Run(d, steps).core, t) {
      NeverStuck(d, steps);
    }
    RunsEnd(d, steps);
    rest := AllEnd(Run(d, steps));
  }

  ghost predicate AlwaysAlone(d: Db)
    requires Sound(d)
  {
    && (forall t | t in d.core :: AllUpdate(d.core[t].plan))
    && forall t, plan | t in d.later && plan in d.later[t] :: AllUpdate(plan)
  }

  predicate AllUpdate(plan: seq<Request>) {
    forall r | r in plan :: r.mode == Update
  }

  lemma {:induction false} RunStaysAlone(d: Db, steps: seq<Step>)
    requires Sound(d) && AlwaysAlone(d)
    ensures AlwaysAlone(Run(d, steps))
    decreases |steps|
  {
    if steps != [] {
      NextStaysSound(d, steps[0]);
      NextStaysAlone(d, steps[0]);
      RunStaysAlone(Next(d, steps[0]), steps[1..]);
    }
  }

  lemma NextStaysAlone(d: Db, step: Step)
    requires Sound(d) && AlwaysAlone(d)
    ensures Sound(Next(d, step)) && AlwaysAlone(Next(d, step))
  {
    hide AllUpdate;
    NextStaysSound(d, step);
  }

  predicate IsStockWrite(w: Writer) {
    w.Loss? || w.StockTake?
  }

  lemma StockWritesLockAlone(w: Writer)
    requires IsStockWrite(w)
    ensures AllUpdate(LockPlan(w))
  {
    forall r | r in PlanOf(Statements(w))
      ensures r.mode == Update
    {
      MembersOfPlan(Statements(w), r);
    }
    hide PlanOf, Sorted;
  }

  /**
   * Losses and stock-takes, in any number: in every state they reach, killing whichever
   * transaction another one waits for lets that one step at once.
   */
  lemma StockWritersMakeRoom(
      writers: map<TxId, Writer>, retries: map<TxId, seq<Writer>>, steps: seq<Step>, t: TxId, victim: TxId)
    requires retries.Keys == writers.Keys
    requires forall u | u in writers :: IsStockWrite(writers[u])
    requires forall u, w | u in retries && w in retries[u] :: IsStockWrite(w)
    requires Sound(StartedWith(writers, retries))
    requires WaitsFor(Run(StartedWith(writers, retries), steps).core, t, victim)
    ensures CanStep(Abort(Run(StartedWith(writers, retries), steps), victim).core, t)
  {
    var d := StartedWith(writers, retries);
    StartedAlone(writers, retries);
    hide StartedWith, LockPlan;
    RunStaysAlone(d, steps);
    RunKeepsHeldTogether(d, steps);
    hide Run;
    VictimMakesRoom(Run(d, steps), t, victim);
  }

  lemma StartedAlone(writers: map<TxId, Writer>, retries: map<TxId, seq<Writer>>)
    requires retries.Keys == writers.Keys
    requires forall u | u in writers :: IsStockWrite(writers[u])
    requires forall u, w | u in retries && w in retries[u] :: IsStockWrite(w)
    ensures Sound(StartedWith(writers, retries)) && AlwaysAlone(StartedWith(writers, retries))
    ensures HeldTogether(StartedWith(writers, retries).core)
  {
    hide LockPlan, IsStockWrite, AllUpdate;
    var d := StartedWith(writers, retries);
    forall u | u in writers
      ensures AllUpdate(LockPlan(writers[u]))
    {
      StockWritesLockAlone(writers[u]);
    }
    forall u, plan | u in d.later && plan in d.later[u]
      ensures AllUpdate(plan)
    {
      var i :| 0 <= i < |d.later[u]| && d.later[u][i] == plan;
      assert retries[u][i] in retries[u];
      StockWritesLockAlone(retries[u][i]);
    }
  }
}
