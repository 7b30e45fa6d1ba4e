/**
 * Product creates posted by concurrent transactions: request key, replay, bin locks, then one
 * product, one movement and its snapshots at once (`biochar-product-create.ts`,
 * `output-stock-post.ts` and `bin-movement-requests.ts` in `src/data-access`).
 *
 * Any transaction may take the next step and any one may be rolled back. Whether stock and
 * recipe allow a write is decided by the environment.
 */
module ProductPosting {
  import opened Outcomes
  import opened Sorting
  import opened ProductRequests

  type Key = string
  type TxId = nat
  type ProductId = nat

  datatype Submit = Submit(key: Key, request: Request, bins: set<Id>)

  datatype Answer = Posted(product: ProductId) | Replayed(product: ProductId) | Conflict | Refused | RolledBack

  datatype Phase = Begun | HoldsRequest | FirstSubmit | HoldsBins | Written(product: ProductId) | Ended(answer: Answer)

  datatype Tx = Tx(submit: Submit, phase: Phase)

  /** The posted movement of a product, with the payload its key stands for. */
  datatype Movement = Movement(key: Key, payload: Payload, product: ProductId)

  /** A product row with the frozen snapshot of each ingredient. */
  datatype Product = Product(code: string, snapshots: seq<Facts>)

  datatype State = State(
    movements: seq<Movement>,
    products: map<ProductId, Product>,
    requestLocks: map<Key, TxId>,
    binLocks: map<Id, TxId>,
    txs: map<TxId, Tx>,
    nextProduct: ProductId)

  const Initial := State([], map[], map[], map[], map[], 0)

  datatype Step =
    | Begin(tx: TxId, submit: Submit)
    | TakeRequestLock(tx: TxId)
    | LookUp(tx: TxId)
    | TakeBinLocks(tx: TxId)
    | Write(tx: TxId, allowed: bool)
    | Commit(tx: TxId)
    | RollBack(tx: TxId)

  predicate Stored(movements: seq<Movement>, key: Key, at: nat) {
    at < |movements| && movements[at].key == key
  }

  function To(s: State, id: TxId, phase: Phase): State
    requires id in s.txs
  {
    s.(txs := s.txs[id := s.txs[id].(phase := phase)])
  }

  function End(s: State, id: TxId, answer: Answer): State
    requires id in s.txs
  {
    To(s, id, Ended(answer)).(
      requestLocks := map key | key in s.requestLocks && s.requestLocks[key] != id :: s.requestLocks[key],
      binLocks := map bin | bin in s.binLocks && s.binLocks[bin] != id :: s.binLocks[bin])
  }

  /** Lines of zero mass leave no snapshot. */
  function Snapshots(lines: seq<Line>): seq<Facts> {
    if lines == [] then []
    else
      var last := lines[|lines| - 1].facts;
      Snapshots(lines[..|lines| - 1]) + (if last.massKg == Some(0.0) then [] else [last])
  }

  function CommitPosting(s: State, id: TxId, le: (string, string) -> bool): State
    requires id in s.txs && s.txs[id].phase.Written?
  {
    var submit, product := s.txs[id].submit, s.txs[id].phase.product;
    End(s, id, Posted(product)).(
      movements := s.movements + [Movement(submit.key, PayloadOf(submit.request, le), product)],
      products := s.products[product := Product(submit.request.code, Snapshots(submit.request.lines))])
  }

  /** A step that is not enabled changes nothing: the statement waits or is never sent. */
  ghost function Next(le: (string, string) -> bool, s: State, step: Step): State {
    match step
    case Begin(id, submit) => if id in s.txs then s else s.(txs := s.txs[id := Tx(submit, Begun)])
    case TakeRequestLock(id) =>
      if id in s.txs && s.txs[id].phase.Begun? && s.txs[id].submit.key !in s.requestLocks
      then To(s, id, HoldsRequest).(requestLocks := s.requestLocks[s.txs[id].submit.key := id]) else s
    case LookUp(id) =>
      if id in s.txs && s.txs[id].phase.HoldsRequest? then
        if at: nat :| Stored(s.movements, s.txs[id].submit.key, at) then
          End(s, id, if s.movements[at].payload == PayloadOf(s.txs[id].submit.request, le)
                     then Replayed(s.movements[at].product) else Conflict)
        else To(s, id, FirstSubmit)
      else s
    case TakeBinLocks(id) =>
      if id in s.txs && s.txs[id].phase.FirstSubmit? && (forall b | b in s.txs[id].submit.bins :: b !in s.binLocks)
      then To(s, id, HoldsBins).(binLocks := s.binLocks + map b | b in s.txs[id].submit.bins :: id) else s
    case Write(id, allowed) =>
      if id !in s.txs || !s.txs[id].phase.HoldsBins? then s
      else if !allowed then End(s, id, Refused)
      else To(s, id, Written(s.nextProduct)).(nextProduct := s.nextProduct + 1)
    case Commit(id) => if id in s.txs && s.txs[id].phase.Written? then CommitPosting(s, id, le) else s
    case RollBack(id) => if id in s.txs && !s.txs[id].phase.Ended? then End(s, id, RolledBack) else s
  }

  ghost function Run(le: (string, string) -> bool, s: State, steps: seq<Step>): State
    decreases |steps|
  {
    if steps == [] then s else Run(le, Next(le, s, steps[0]), steps[1..])
  }

  // ---------- Invariant ----------

  predicate HoldsKey(phase: Phase) {
    !phase.Begun? && !phase.Ended?
  }

  ghost predicate AnsweredWith(s: State, le: (string, string) -> bool, submit: Submit, product: ProductId) {
    exists at: nat :: Stored(s.movements, submit.key, at) && s.movements[at].product == product
      && s.movements[at].payload == PayloadOf(submit.request, le)
  }

  ghost predicate TxSound(le: (string, string) -> bool, s: State, id: TxId)
    requires id in s.txs
  {
    var tx := s.txs[id];
    && (HoldsKey(tx.phase) ==> tx.submit.key in s.requestLocks && s.requestLocks[tx.submit.key] == id)
    && (HoldsKey(tx.phase) && !tx.phase.HoldsRequest? ==> forall at: nat :: !Stored(s.movements, tx.submit.key, at))
    && (tx.phase.Written? ==> tx.phase.product < s.nextProduct && tx.phase.product !in s.products)
    && (tx.phase.Ended? && (tx.phase.answer.Posted? || tx.phase.answer.Replayed?) ==>
          AnsweredWith(s, le, tx.submit, tx.phase.answer.product))
  }

  /** No two movements carry one key, and movements and products go one to one. */
  ghost predicate OneToOne(s: State) {
    && (forall i: nat, j: nat, key | Stored(s.movements, key, i) && Stored(s.movements, key, j) :: i == j)
    && (forall i | 0 <= i < |s.movements| :: s.movements[i].product in s.products)
    && (forall i, j | 0 <= i < j < |s.movements| :: s.movements[i].product != s.movements[j].product)
    && (forall p | p in s.products :: p < s.nextProduct && exists i :: 0 <= i < |s.movements| && s.movements[i].product == p)
  }

  ghost predicate WritesDiffer(s: State) {
    forall t, u | t in s.txs && u in s.txs && t != u && s.txs[t].phase.Written? && s.txs[u].phase.Written? ::
      s.txs[t].phase.product != s.txs[u].phase.product
  }

  ghost predicate Inv(le: (string, string) -> bool, s: State) {
    OneToOne(s) && WritesDiffer(s) && forall t | t in s.txs :: TxSound(le, s, t)
  }

  lemma EndKeepsInv(le: (string, string) -> bool, s: State, id: TxId, answer: Answer)
    requires Inv(le, s) && id in s.txs
    requires answer.Posted? || answer.Replayed? ==> AnsweredWith(s, le, s.txs[id].submit, answer.product)
    ensures Inv(le, End(s, id, answer))
  {
    hide OneToOne, PayloadOf;
    var after := End(s, id, answer);
    assert OneToOne(after) by { SameTables(s, after); }
    forall t | t in after.txs
      ensures TxSound(le, after, t)
    {
      assert TxSound(le, s, t);
    }
  }

  lemma SameTables(s: State, after: State)
    requires OneToOne(s) && after.movements == s.movements && after.products == s.products && after.nextProduct >= s.nextProduct
    ensures OneToOne(after)
  {
  }

  lemma PhaseKeepsInv(le: (string, string) -> bool, s: State, id: TxId, phase: Phase, after: State)
    requires Inv(le, s) && id in s.txs && after.txs == s.txs[id := s.txs[id].(phase := phase)] && !phase.Ended?
    requires after.movements == s.movements && after.products == s.products && after.nextProduct >= s.nextProduct
    requires forall key | key in s.requestLocks :: key in after.requestLocks && after.requestLocks[key] == s.requestLocks[key]
    requires TxSound(le, after, id) && (phase.Written? ==> phase.product >= s.nextProduct)
    ensures Inv(le, after)
  {
    SameTables(s, after);
    hide OneToOne, PayloadOf;
    forall t | t in after.txs
      ensures TxSound(le, after, t)
    {
      assert t != id ==> TxSound(le, s, t);
    }
    forall t | t in s.txs && s.txs[t].phase.Written?
      ensures s.txs[t].phase.product < s.nextProduct
    {
      assert TxSound(le, s, t);
    }
  }

  lemma CommitTables(le: (string, string) -> bool, s: State, id: TxId)
    requires Inv(le, s) && id in s.txs && s.txs[id].phase.Written?
    ensures OneToOne(CommitPosting(s, id, le))
  {
    hide PayloadOf;
    var after := CommitPosting(s, id, le);
    assert TxSound(le, s, id);
    var n := |s.movements|;
    assert after.movements[n].product == s.txs[id].phase.product;
    assert forall i: nat, key :: Stored(after.movements, key, i) ==>
        if i < n then Stored(s.movements, key, i) else i == n && key == s.txs[id].submit.key;
    forall p | p in after.products
      ensures exists i :: 0 <= i < |after.movements| && after.movements[i].product == p
    {
      if p in s.products {
        var i :| 0 <= i < |s.movements| && s.movements[i].product == p;
        assert after.movements[i].product == p;
      }
    }
  }

  lemma AnswersStay(le: (string, string) -> bool, s: State, after: State, submit: Submit, product: ProductId)
    requires s.movements <= after.movements && AnsweredWith(s, le, submit, product)
    ensures AnsweredWith(after, le, submit, product)
  {
    hide PayloadOf;
    var at: nat :| Stored(s.movements, submit.key, at) && s.movements[at].product == product
      && s.movements[at].payload == PayloadOf(submit.request, le);
    assert Stored(after.movements, submit.key, at);
  }

  lemma CommitKeepsInv(le: (string, string) -> bool, s: State, id: TxId)
    requires Inv(le, s) && id in s.txs && s.txs[id].phase.Written?
    ensures Inv(le, CommitPosting(s, id, le))
  {
    hide PayloadOf, OneToOne;
    CommitTables(le, s, id);
    var after, n := CommitPosting(s, id, le), |s.movements|;
    assert TxSound(le, s, id);
    assert Stored(after.movements, s.txs[id].submit.key, n);
    forall t | t in after.txs
      ensures TxSound(le, after, t)
    {
      assert TxSound(le, s, t);
      var tx := s.txs[t];
      if t != id && tx.phase.Ended? && (tx.phase.answer.Posted? || tx.phase.answer.Replayed?) {
        AnswersStay(le, s, after, tx.submit, tx.phase.answer.product);
      }
      if t != id && HoldsKey(tx.phase) {
        assert tx.submit.key != s.txs[id].submit.key;
        assert forall at: nat :: Stored(after.movements, tx.submit.key, at) ==> Stored(s.movements, tx.submit.key, at);
      }
    }
  }

  lemma LookUpKeepsInv(le: (string, string) -> bool, s: State, id: TxId)
    requires Inv(le, s)
    ensures Inv(le, Next(le, s, LookUp(id)))
  {
    hide PayloadOf, OneToOne;
    var after := Next(le, s, LookUp(id));
    if after != s {
      assert TxSound(le, s, id);
      var key := s.txs[id].submit.key;
      if exists at: nat :: Stored(s.movements, key, at) {
        var answer := after.txs[id].phase.answer;
        assert answer.Replayed? ==> AnsweredWith(s, le, s.txs[id].submit, answer.product);
        EndKeepsInv(le, s, id, answer);
      } else {
        PhaseKeepsInv(le, s, id, FirstSubmit, after);
      }
    }
  }

  lemma StepKeepsInv(le: (string, string) -> bool, s: State, step: Step)
    requires Inv(le, s)
    ensures Inv(le, Next(le, s, step))
  {
    hide PayloadOf, OneToOne, WritesDiffer;
    var after := Next(le, s, step);
    match step
    case Begin(id, submit) => BeginKeepsInv(le, s, id, submit);
    case TakeRequestLock(id) =>
      if after != s {
        assert TxSound(le, s, id);
        PhaseKeepsInv(le, s, id, HoldsRequest, after);
      }
    case LookUp(id) => LookUpKeepsInv(le, s, id);
    case TakeBinLocks(id) =>
      if after != s {
        assert TxSound(le, s, id);
        PhaseKeepsInv(le, s, id, HoldsBins, after);
      }
    case Write(id, allowed) =>
      if after != s {
        assert TxSound(le, s, id);
        if allowed {
          ProductsAreOld(s);
          PhaseKeepsInv(le, s, id, Written(s.nextProduct), after);
        } else {
          EndKeepsInv(le, s, id, Refused);
        }
      }
    case Commit(id) =>
      if after != s {
        CommitKeepsInv(le, s, id);
      }
    case RollBack(id) =>
      if after != s {
        EndKeepsInv(le, s, id, RolledBack);
      }
  }

  lemma ProductsAreOld(s: State)
    requires OneToOne(s)
    ensures s.nextProduct !in s.products
  {
  }

  lemma BeginKeepsInv(le: (string, string) -> bool, s: State, id: TxId, submit: Submit)
    requires Inv(le, s)
    ensures Inv(le, Next(le, s, Begin(id, submit)))
  {
    hide PayloadOf, OneToOne;
    var after := Next(le, s, Begin(id, submit));
    assert OneToOne(after) by { SameTables(s, after); }
    forall t | t in after.txs
      ensures TxSound(le, after, t)
    {
      assert t in s.txs ==> TxSound(le, s, t);
    }
  }

  lemma {:induction false} RunKeepsInv(le: (string, string) -> bool, s: State, steps: seq<Step>)
    requires Inv(le, s)
    ensures Inv(le, Run(le, s, steps))
    decreases |steps|
  {
    hide Inv, Next;
    if steps != [] {
      StepKeepsInv(le, s, steps[0]);
      RunKeepsInv(le, Next(le, s, steps[0]), steps[1..]);
    }
  }

  ghost function Reached(le: (string, string) -> bool, steps: seq<Step>): State {
    Run(le, Initial, steps)
  }

  lemma ReachedIsSound(le: (string, string) -> bool, steps: seq<Step>)
    ensures Inv(le, Reached(le, steps))
  {
    RunKeepsInv(le, Initial, steps);
  }

  // ---------- Exactly once ----------

  predicate GotProduct(tx: Tx) {
    tx.phase.Ended? && (tx.phase.answer.Posted? || tx.phase.answer.Replayed?)
  }

  /**
   * In every interleaving, submits of one key that return a product return the same one, and
   * they carried the same header and, in some order, the same operator facts per line.
   */
  lemma OneProductPerKey(le: (string, string) -> bool, steps: seq<Step>, a: TxId, b: TxId)
    requires TotalOrder(le) && a in Reached(le, steps).txs && b in Reached(le, steps).txs
    requires GotProduct(Reached(le, steps).txs[a]) && GotProduct(Reached(le, steps).txs[b])
    requires Reached(le, steps).txs[a].submit.key == Reached(le, steps).txs[b].submit.key
    ensures
      var first, second := Reached(le, steps).txs[a], Reached(le, steps).txs[b];
      && first.phase.answer.product == second.phase.answer.product
      && first.phase.answer.product in Reached(le, steps).products
      && first.submit.request.header == second.submit.request.header
      && SameLines(first.submit.request.lines, second.submit.request.lines)
  {
    ReachedIsSound(le, steps);
    hide PayloadOf, SameLines, Run;
    var s := Reached(le, steps);
    assert TxSound(le, s, a) && TxSound(le, s, b);
    PayloadShowsEveryFact(s.txs[a].submit.request, s.txs[b].submit.request, le);
  }

  /** Every product belongs to exactly one movement, and every movement to one product. */
  lemma ProductsMatchMovements(le: (string, string) -> bool, steps: seq<Step>, product: ProductId)
    ensures
      var s := Reached(le, steps);
      product in s.products <==> exists i :: 0 <= i < |s.movements| && s.movements[i].product == product
    ensures
      var s := Reached(le, steps);
      forall i, j | 0 <= i < |s.movements| && 0 <= j < |s.movements| && s.movements[i].product == s.movements[j].product :: i == j
  {
    ReachedIsSound(le, steps);
    assert OneToOne(Reached(le, steps));
  }

  /**
   * A look-up under a stored key writes nothing. It returns the stored product exactly when the
   * request repeats the stored one: the same header and, in any order, the same lines.
   */
  lemma RetryReplaysIff(le: (string, string) -> bool, s: State, id: TxId, at: nat, original: Request)
    requires TotalOrder(le) && Inv(le, s) && id in s.txs && s.txs[id].phase.HoldsRequest?
    requires Stored(s.movements, s.txs[id].submit.key, at) && s.movements[at].payload == PayloadOf(original, le)
    requires DistinctLines(original.lines)
    ensures
      var after, request := Next(le, s, LookUp(id)), s.txs[id].submit.request;
      && after.movements == s.movements && after.products == s.products
      && (after.txs[id].phase == Ended(Replayed(s.movements[at].product))
          <==> original.header == request.header && SameLines(original.lines, request.lines))
      && (after.txs[id].phase != Ended(Replayed(s.movements[at].product)) ==> after.txs[id].phase == Ended(Conflict))
  {
    SamePayloadIff(original, s.txs[id].submit.request, le);
    hide PayloadOf, SameLines, DistinctLines;
    var key := s.txs[id].submit.key;
    assert forall other: nat | Stored(s.movements, key, other) :: other == at;
  }

  /** A submit that does not commit leaves both tables as they were. */
  lemma OnlyCommitWrites(le: (string, string) -> bool, s: State, step: Step)
    ensures !step.Commit? ==> Next(le, s, step).movements == s.movements && Next(le, s, step).products == s.products
    ensures s.movements <= Next(le, s, step).movements && |Next(le, s, step).movements| <= |s.movements| + 1
  {
    hide PayloadOf;
  }

  // ---------- What a product and its movement are ----------

  /** Kept in order: the facts of the lines at these places, which are all those that have a mass other than zero. */
  ghost predicate SnapshotsAt(snapshots: seq<Facts>, lines: seq<Line>, places: seq<nat>) {
    && |places| == |snapshots|
    && (forall a, b | 0 <= a < b < |places| :: places[a] < places[b])
    && (forall k | 0 <= k < |places| :: places[k] < |lines| && snapshots[k] == lines[places[k]].facts)
    && forall i: nat | i < |lines| :: i in places <==> lines[i].facts.massKg != Some(0.0)
  }

  lemma {:induction false} SnapshotsArePlaced(lines: seq<Line>) returns (places: seq<nat>)
    ensures SnapshotsAt(Snapshots(lines), lines, places)
    decreases |lines|
  {
    places := [];
    if lines != [] {
      var n := |lines| - 1;
      places := SnapshotsArePlaced(lines[..n]);
      hide SnapshotsAt;
      OneMoreSnapshot(Snapshots(lines[..n]), lines, places);
      if lines[n].facts.massKg != Some(0.0) {
        places := places + [n];
      } else {
        assert Snapshots(lines) == Snapshots(lines[..n]);
      }
    }
  }

  lemma OneMoreSnapshot(snapshots: seq<Facts>, lines: seq<Line>, places: seq<nat>)
    requires lines != [] && SnapshotsAt(snapshots, lines[..|lines| - 1], places)
    ensures
      var n := |lines| - 1;
      if lines[n].facts.massKg != Some(0.0) then SnapshotsAt(snapshots + [lines[n].facts], lines, places + [n])
      else SnapshotsAt(snapshots, lines, places)
  {
    var n := |lines| - 1;
    assert forall i: nat | i < n :: lines[..n][i] == lines[i];
    assert forall i: nat :: i in places + [n] <==> i in places || i == n;
    assert forall i: nat | i in places :: i < n;
  }

  /** The product row and the movement that a submit asks for. */
  ghost predicate IsPosted(le: (string, string) -> bool, s: State, submit: Submit, product: ProductId) {
    && product in s.products && s.products[product].code == submit.request.code
    && (exists places :: SnapshotsAt(s.products[product].snapshots, submit.request.lines, places))
    && Movement(submit.key, PayloadOf(submit.request, le), product) in s.movements
  }

  ghost predicate AllPosted(le: (string, string) -> bool, s: State) {
    forall t | t in s.txs && s.txs[t].phase.Ended? && s.txs[t].phase.answer.Posted? ::
      IsPosted(le, s, s.txs[t].submit, s.txs[t].phase.answer.product)
  }

  lemma StaysPosted(le: (string, string) -> bool, s: State, after: State, submit: Submit, product: ProductId)
    requires IsPosted(le, s, submit, product) && s.movements <= after.movements
    requires product in after.products && after.products[product] == s.products[product]
    ensures IsPosted(le, after, submit, product)
  {
    var movement := Movement(submit.key, PayloadOf(submit.request, le), product);
    var i :| 0 <= i < |s.movements| && s.movements[i] == movement;
    assert after.movements[i] == movement;
  }

  lemma CommitPosts(le: (string, string) -> bool, s: State, id: TxId)
    requires Inv(le, s) && AllPosted(le, s) && id in s.txs && s.txs[id].phase.Written?
    ensures AllPosted(le, CommitPosting(s, id, le))
  {
    var after, submit, product := CommitPosting(s, id, le), s.txs[id].submit, s.txs[id].phase.product;
    assert TxSound(le, s, id);
    var places := SnapshotsArePlaced(submit.request.lines);
    assert after.movements[|s.movements|] == Movement(submit.key, PayloadOf(submit.request, le), product);
    hide PayloadOf, SnapshotsAt, Snapshots;
    forall t | t in s.txs && t != id && s.txs[t].phase.Ended? && s.txs[t].phase.answer.Posted?
      ensures IsPosted(le, after, s.txs[t].submit, s.txs[t].phase.answer.product)
    {
      StaysPosted(le, s, after, s.txs[t].submit, s.txs[t].phase.answer.product);
    }
  }

  lemma {:induction false} RunPosts(le: (string, string) -> bool, s: State, steps: seq<Step>)
    requires Inv(le, s) && AllPosted(le, s)
    ensures AllPosted(le, Run(le, s, steps))
    decreases |steps|
  {
    hide Inv, PayloadOf;
    if steps != [] {
      var next := Next(le, s, steps[0]);
      StepKeepsInv(le, s, steps[0]);
      if steps[0].Commit? && next != s {
        CommitPosts(le, s, steps[0].tx);
      } else {
        OnlyCommitWrites(le, s, steps[0]);
        assert next.movements == s.movements && next.products == s.products;
      }
      hide Next, AllPosted;
      RunPosts(le, next, steps[1..]);
    }
  }

  /**
   * Whatever runs beside it, a submit that posts leaves the product it asked for: its code,
   * one snapshot for each line with a mass, in order, and a movement under its key.
   */
  lemma PostedProductIsAskedFor(le: (string, string) -> bool, steps: seq<Step>, id: TxId)
    requires id in Reached(le, steps).txs
    requires Reached(le, steps).txs[id].phase.Ended? && Reached(le, steps).txs[id].phase.answer.Posted?
    ensures
      var s := Reached(le, steps);
      IsPosted(le, s, s.txs[id].submit, s.txs[id].phase.answer.product)
  {
    RunPosts(le, Initial, steps);
  }

  // ---------- Bins ----------

  predicate HoldsItsBins(phase: Phase) {
    phase.HoldsBins? || phase.Written?
  }

  ghost predicate BinsSound(s: State) {
    forall t | t in s.txs && HoldsItsBins(s.txs[t].phase) ::
      forall b | b in s.txs[t].submit.bins :: b in s.binLocks && s.binLocks[b] == t
  }

  lemma StepKeepsBins(le: (string, string) -> bool, s: State, step: Step)
    requires BinsSound(s)
    ensures BinsSound(Next(le, s, step))
  {
    hide PayloadOf, Snapshots;
  }

  lemma {:induction false} RunKeepsBins(le: (string, string) -> bool, s: State, steps: seq<Step>)
    requires BinsSound(s)
    ensures BinsSound(Run(le, s, steps))
    decreases |steps|
  {
    hide Next;
    if steps != [] {
      StepKeepsBins(le, s, steps[0]);
      RunKeepsBins(le, Next(le, s, steps[0]), steps[1..]);
    }
  }

  /** Between their checks and their commits no two submits share a bin, so no stock is judged twice. */
  lemma BinsAreHeldAlone(le: (string, string) -> bool, steps: seq<Step>, t: TxId, u: TxId, bin: Id)
    requires t in Reached(le, steps).txs && u in Reached(le, steps).txs
    requires HoldsItsBins(Reached(le, steps).txs[t].phase) && HoldsItsBins(Reached(le, steps).txs[u].phase)
    requires bin in Reached(le, steps).txs[t].submit.bins && bin in Reached(le, steps).txs[u].submit.bins
    ensures t == u
  {
    RunKeepsBins(le, Initial, steps);
  }

  // ---------- A submit on its own ----------

  lemma OneStep(le: (string, string) -> bool, s: State, step: Step, rest: seq<Step>)
    ensures Run(le, s, [step] + rest) == Run(le, Next(le, s, step), rest)
  {
    assert ([step] + rest)[1..] == rest;
  }

  /** The statements of one submit, in order: first its locks, then its write. */
  function TakeLocks(id: TxId, submit: Submit): seq<Step> {
    [Begin(id, submit)] + ([TakeRequestLock(id)] + ([LookUp(id)] + ([TakeBinLocks(id)] + [])))
  }

  function WriteAndCommit(id: TxId): seq<Step> {
    [Write(id, true)] + ([Commit(id)] + [])
  }

  lemma TakesItsLocks(le: (string, string) -> bool, s: State, id: TxId, submit: Submit)
    requires id !in s.txs && submit.key !in s.requestLocks && forall b | b in submit.bins :: b !in s.binLocks
    requires forall at: nat :: !Stored(s.movements, submit.key, at)
    ensures
      var after := Run(le, s, TakeLocks(id, submit));
      && id in after.txs && after.txs[id] == Tx(submit, HoldsBins)
      && after.movements == s.movements && after.products == s.products && after.nextProduct == s.nextProduct
      && submit.key in after.requestLocks && after.requestLocks[submit.key] == id
      && forall b | b in submit.bins :: b in after.binLocks && after.binLocks[b] == id
  {
    var a := Next(le, s, Begin(id, submit));
    var b := Next(le, a, TakeRequestLock(id));
    var c := Next(le, b, LookUp(id));
    assert c == To(b, id, FirstSubmit);
    var d := Next(le, c, TakeBinLocks(id));
    hide Next;
    OneStep(le, s, Begin(id, submit), [TakeRequestLock(id)] + ([LookUp(id)] + ([TakeBinLocks(id)] + [])));
    OneStep(le, a, TakeRequestLock(id), [LookUp(id)] + ([TakeBinLocks(id)] + []));
    OneStep(le, b, LookUp(id), [TakeBinLocks(id)] + []);
    OneStep(le, c, TakeBinLocks(id), []);
  }

  /** A new key whose locks are free, allowed to write and not disturbed, is posted and lets go of its locks. */
  lemma AloneItPosts(le: (string, string) -> bool, s: State, id: TxId, submit: Submit)
    requires id !in s.txs && submit.key !in s.requestLocks && forall b | b in submit.bins :: b !in s.binLocks
    requires forall at: nat :: !Stored(s.movements, submit.key, at)
    ensures
      var after := Run(le, Run(le, s, TakeLocks(id, submit)), WriteAndCommit(id));
      && id in after.txs && after.txs[id].phase == Ended(Posted(s.nextProduct)) && s.nextProduct in after.products
      && |after.movements| == |s.movements| + 1
      && submit.key !in after.requestLocks && forall b | b in submit.bins :: b !in after.binLocks
  {
    TakesItsLocks(le, s, id, submit);
    var d := Run(le, s, TakeLocks(id, submit));
    hide PayloadOf, Snapshots, TakeLocks;
    var e := Next(le, d, Write(id, true));
    var f := Next(le, e, Commit(id));
    hide Next;
    OneStep(le, d, Write(id, true), [Commit(id)] + []);
    OneStep(le, e, Commit(id), []);
  }
}
