/** What holds after every interleaving of order requests, and exactly how the aggregate can drift. */
module SagaTheorems {
  import opened Text
  import opened Realm
  import opened Authorization
  import opened StockKeys
  import opened Saga

  lemma Reached(dir: Directory, products: map<string, Product>, redis: Redis, es: seq<Event>)
    ensures Inv(dir, Begin(products, redis), Run(dir, Begin(products, redis), es))
  {
    BeginOk(dir, products, redis);
    RunKeeps(dir, Begin(products, redis), Begin(products, redis), es);
  }

  // ---- Who moves stock ----

  /** The POST that began request `tid`. */
  predicate SubmittedAs(e: Event, tid: nat, t: Thread) {
    e.Submit? && e.tid == tid && e.login == t.login && e.product == t.product && e.quantity == t.quantity
  }

  ghost predicate AllSubmitted(w: World, es: seq<Event>) {
    forall tid :: tid in w.threads ==> exists e :: e in es && SubmittedAs(e, tid, w.threads[tid])
  }

  /** Only the event's own request changes, if any. */
  lemma OnlyOwn(dir: Directory, w: World, e: Event)
    ensures forall r :: r != e.tid ==> (r in Apply(dir, w, e).threads <==> r in w.threads)
    ensures forall r :: r != e.tid && r in w.threads ==> Apply(dir, w, e).threads[r] == w.threads[r]
  {
  }

  /** A request keeps its login, product and quantity. */
  predicate SameRequest(w: World, w': World, tid: nat)
    requires tid in w.threads
  {
    && tid in w'.threads
    && var t, t' := w.threads[tid], w'.threads[tid];
    t'.login == t.login && t'.product == t.product && t'.quantity == t.quantity
  }

  lemma OrderEdgeKeepsRequest(dir: Directory, w: World, e: Event)
    requires AtOrderService(e) && e.tid in w.threads
    ensures SameRequest(w, Apply(dir, w, e), e.tid)
  {
  }

  lemma InventoryEdgeKeepsRequest(dir: Directory, w: World, e: Event)
    requires AtInventoryService(e) && e.tid in w.threads
    ensures SameRequest(w, Apply(dir, w, e), e.tid)
  {
  }

  lemma StoreKeepsRequest(dir: Directory, w: World, e: Event)
    requires (e.Script? || e.Overwrite? || e.Save?) && e.tid in w.threads
    ensures SameRequest(w, Apply(dir, w, e), e.tid)
  {
  }

  lemma KeepsRequest(dir: Directory, w: World, e: Event)
    requires !e.Submit? && e.tid in w.threads
    ensures SameRequest(w, Apply(dir, w, e), e.tid)
  {
    if AtOrderService(e) {
      OrderEdgeKeepsRequest(dir, w, e);
    } else if AtInventoryService(e) {
      InventoryEdgeKeepsRequest(dir, w, e);
    } else if e.Script? || e.Overwrite? || e.Save? {
      StoreKeepsRequest(dir, w, e);
    }
  }

  lemma StepSubmitted(dir: Directory, w: World, e: Event, tid: nat)
    requires tid in Apply(dir, w, e).threads
    ensures var t := Apply(dir, w, e).threads[tid];
            if tid in w.threads
            then t.login == w.threads[tid].login && t.product == w.threads[tid].product && t.quantity == w.threads[tid].quantity
            else SubmittedAs(e, tid, t)
  {
    OnlyOwn(dir, w, e);
    if !e.Submit? && e.tid in w.threads { KeepsRequest(dir, w, e); }
  }

  lemma {:induction false} RunSubmitted(dir: Directory, w: World, past: seq<Event>, es: seq<Event>)
    requires AllSubmitted(w, past)
    ensures AllSubmitted(Run(dir, w, es), past + es)
    decreases |es|
  {
    if es == [] {
      assert past + es == past;
    } else {
      var w' := Apply(dir, w, es[0]);
      assert AllSubmitted(w', past + [es[0]]) by {
        forall tid | tid in w'.threads ensures exists e :: e in past + [es[0]] && SubmittedAs(e, tid, w'.threads[tid]) {
          StepSubmitted(dir, w, es[0], tid);
          if tid in w.threads {
            var e :| e in past && SubmittedAs(e, tid, w.threads[tid]);
            assert e in past + [es[0]] && SubmittedAs(e, tid, w'.threads[tid]);
          } else {
            assert es[0] in past + [es[0]];
          }
        }
      }
      RunSubmitted(dir, w', past + [es[0]], es[1..]);
      assert past + [es[0]] + es[1..] == past + es;
    }
  }

  /** End to end: whatever the interleaving and whatever fails, each accepted decrement belongs to one POST /orders, of
      the same product and quantity and at the product's own branch, and the user who logged in for it has the
      order-writer and inventory-writer roles and may act for that branch. */
  lemma StockMovesOnlyForPermittedUsers(dir: Directory, products: map<string, Product>, redis: Redis, es: seq<Event>, d: Decrement)
    requires d in Run(dir, Begin(products, redis), es).accepted
    ensures exists e :: e in es && e.Submit? && e.tid == d.tid && e.product == d.product && e.quantity == d.quantity
              && "order-writer" in e.login.roles && "inventory-writer" in e.login.roles
              && ("warehouse-viewer-all" in e.login.roles
                  || ("warehouse-viewer" in e.login.roles && e.login.username.Some? && e.login.username.value in dir
                      && dir[e.login.username.value] == Some(d.branch)))
    ensures d.product in products && d.branch == products[d.product].branch
  {
    Reached(dir, products, redis, es);
    var w := Run(dir, Begin(products, redis), es);
    assert RecordOk(dir, Begin(products, redis), w, d);
    RunSubmitted(dir, Begin(products, redis), [], es);
    assert [] + es == es;
    var e :| e in es && SubmittedAs(e, d.tid, w.threads[d.tid]);
    assert MayMove(dir, e.login, d.branch);
  }

  /** Each cell holds its initial stock less the decrements recorded for it, so no cell changes without a record. */
  lemma CellsFollowRecords(dir: Directory, products: map<string, Product>, redis: Redis, es: seq<Event>, key: string)
    ensures var w := Run(dir, Begin(products, redis), es);
            Get(w.redis, key) == Get(redis, key) - TakenFrom(w.accepted, key)
  {
    Reached(dir, products, redis, es);
  }

  // ---- Orders ----

  ghost predicate RecordFor(accepted: seq<Decrement>, row: OrderRow, i: nat) {
    i < |accepted| && accepted[i].tid == row.tid && accepted[i].product == row.product && accepted[i].quantity == row.quantity
  }

  /** A CONFIRMED order stands for exactly one accepted decrement, of its product and quantity at the product's primary
      branch, that no other order stands for; a REJECTED order's request has moved no stock; PENDING is not persisted. */
  lemma OrdersTellTheTruth(dir: Directory, products: map<string, Product>, redis: Redis, es: seq<Event>, k: nat)
    requires k < |Run(dir, Begin(products, redis), es).orders|
    ensures var w := Run(dir, Begin(products, redis), es); var row := w.orders[k];
            && row.status != PENDING
            && (row.status == CONFIRMED ==>
                exists i: nat :: RecordFor(w.accepted, row, i) && row.product in products && w.accepted[i].branch == products[row.product].branch)
            && (row.status == REJECTED ==> forall i :: 0 <= i < |w.accepted| ==> w.accepted[i].tid != row.tid)
            && (forall i, j :: 0 <= i < |w.accepted| && 0 <= j < |w.accepted| && w.accepted[i].tid == row.tid == w.accepted[j].tid ==> i == j)
            && (forall m :: 0 <= m < |w.orders| && w.orders[m].tid == row.tid ==> m == k)
  {
    Reached(dir, products, redis, es);
    var w := Run(dir, Begin(products, redis), es);
    var row := w.orders[k];
    assert RowOk(w, row);
    if row.status == CONFIRMED {
      assert HasRecord(w.accepted, row.tid);
      var i :| 0 <= i < |w.accepted| && w.accepted[i].tid == row.tid;
      assert RecordOk(dir, Begin(products, redis), w, w.accepted[i]);
      assert RecordFor(w.accepted, row, i);
    }
    forall i | 0 <= i < |w.accepted| && row.status == REJECTED ensures w.accepted[i].tid != row.tid {
      assert RecordOk(dir, Begin(products, redis), w, w.accepted[i]);
    }
  }

  function ConfirmedOf(orders: seq<OrderRow>, product: string): int {
    if orders == [] then 0
    else
      var row := orders[|orders| - 1];
      ConfirmedOf(orders[..|orders| - 1], product) + if row.product == product && row.status == CONFIRMED then row.quantity else 0
  }

  lemma {:induction false} TakenNonNegative(accepted: seq<Decrement>, product: string)
    requires forall d :: d in accepted ==> d.quantity >= 0
    ensures TakenOf(accepted, product) >= 0
  {
    if accepted != [] { TakenNonNegative(accepted[..|accepted| - 1], product); }
  }

  lemma {:induction false} TakenWithout(accepted: seq<Decrement>, i: nat, product: string)
    requires i < |accepted|
    ensures TakenOf(accepted, product) == TakenOf(accepted[..i] + accepted[i + 1..], product)
                                          + if accepted[i].product == product then accepted[i].quantity else 0
    decreases |accepted|
  {
    var n := |accepted| - 1;
    if i == n {
      assert accepted[..i] + accepted[i + 1..] == accepted[..n];
    } else {
      var front := accepted[..n];
      TakenWithout(front, i, product);
      RemoveBeforeLast(accepted, i);
      TakenNext(front[..i] + front[i + 1..], accepted[n], "", product);
    }
  }

  lemma RemoveBeforeLast(accepted: seq<Decrement>, i: nat)
    requires i < |accepted| - 1
    ensures var front := accepted[..|accepted| - 1];
            accepted[..i] + accepted[i + 1..] == front[..i] + front[i + 1..] + [accepted[|accepted| - 1]]
            && front[i] == accepted[i]
  {
    var n := |accepted| - 1;
    assert accepted[i + 1..] == accepted[..n][i + 1..] + [accepted[n]];
  }

  /** An injection of confirmed rows into records bounds their sums. */
  lemma {:induction false} SumsBounded(orders: seq<OrderRow>, accepted: seq<Decrement>, product: string)
    requires forall d :: d in accepted ==> d.quantity >= 0
    requires forall i, j :: 0 <= i < j < |orders| ==> orders[i].tid != orders[j].tid
    requires forall row :: row in orders && row.status == CONFIRMED ==> exists i: nat :: RecordFor(accepted, row, i)
    ensures ConfirmedOf(orders, product) <= TakenOf(accepted, product)
    decreases |orders|
  {
    if orders == [] {
      TakenNonNegative(accepted, product);
    } else {
      var front, row := orders[..|orders| - 1], orders[|orders| - 1];
      if row.status != CONFIRMED {
        SumsBounded(front, accepted, product);
      } else {
        assert row in orders;
        var i: nat :| RecordFor(accepted, row, i);
        var rest := accepted[..i] + accepted[i + 1..];
        TakenWithout(accepted, i, product);
        forall r | r in front && r.status == CONFIRMED ensures exists j: nat :: RecordFor(rest, r, j) {
          var j: nat :| RecordFor(accepted, r, j);
          assert r.tid != row.tid;
          assert r in orders;
          var k: nat := if j < i then j else j - 1;
          assert RecordFor(rest, r, k);
        }
        SumsBounded(front, rest, product);
      }
    }
  }

  ghost predicate NonNegative(es: seq<Event>) {
    forall e :: e in es && e.Submit? ==> e.quantity >= 0
  }

  /** For non-negative quantities, what orders confirm never exceeds what the warehouse gave, whatever step fails. */
  lemma ConfirmedWithinTaken(dir: Directory, products: map<string, Product>, redis: Redis, es: seq<Event>, product: string)
    requires NonNegative(es)
    ensures var w := Run(dir, Begin(products, redis), es); ConfirmedOf(w.orders, product) <= TakenOf(w.accepted, product)
  {
    Reached(dir, products, redis, es);
    var w := Run(dir, Begin(products, redis), es);
    forall d | d in w.accepted ensures d.quantity >= 0 {
      StockMovesOnlyForPermittedUsers(dir, products, redis, es, d);
    }
    forall row | row in w.orders && row.status == CONFIRMED ensures exists i: nat :: RecordFor(w.accepted, row, i) {
      var k :| 0 <= k < |w.orders| && w.orders[k] == row;
      OrdersTellTheTruth(dir, products, redis, es, k);
    }
    SumsBounded(w.orders, w.accepted, product);
  }

  // ---- The aggregate under every interleaving ----

  ghost predicate AggregateOk(first: World, w: World) {
    && (forall q :: q in w.products && q in first.products ==>
        first.products[q].aggregate - TakenOf(w.accepted, q) <= w.products[q].aggregate <= first.products[q].aggregate
        && 0 <= w.products[q].aggregate)
    && (forall tid :: tid in w.threads ==> SnapshotOk(first, w, w.threads[tid]))
  }

  /** A snapshot may be old, but never promises less than is left. */
  predicate SnapshotOk(first: World, w: World, t: Thread) {
    && t.quantity >= 0
    && (HasSnapshot(t.phase) && t.product in first.products ==>
        && t.phase.snap.aggregate <= first.products[t.product].aggregate
        && first.products[t.product].aggregate - TakenOf(w.accepted, t.product)
             <= t.phase.snap.aggregate - if t.moved then t.quantity else 0)
  }

  lemma AcceptKeepsAggregate(dir: Directory, first: World, w: World, tid: nat, fault: Fault)
    requires Inv(dir, first, w) && AggregateOk(first, w) && tid in w.threads && w.threads[tid].phase.Authorized?
    ensures AggregateOk(first, DoScript(w, tid, w.threads[tid].phase.snap, fault))
  {
    var t := w.threads[tid];
    var w' := DoScript(w, tid, t.phase.snap, fault);
    assert ThreadOk(dir, first, t) && SnapshotOk(first, w, t);
    if w'.accepted != w.accepted {
      var d := w'.accepted[|w.accepted|];
      assert w'.accepted == w.accepted + [d];
      forall q ensures TakenOf(w.accepted, q) <= TakenOf(w'.accepted, q) { TakenNext(w.accepted, d, "", q); }
      TakenNext(w.accepted, d, "", t.product);
    }
    forall r | r in w'.threads ensures SnapshotOk(first, w', w'.threads[r]) {
      if r != tid { assert SnapshotOk(first, w, w.threads[r]); }
    }
  }

  lemma OverwriteKeepsAggregate(dir: Directory, first: World, w: World, tid: nat, fault: Fault)
    requires Inv(dir, first, w) && AggregateOk(first, w) && tid in w.threads && w.threads[tid].phase.Writing?
    ensures AggregateOk(first, DoOverwrite(w, tid, w.threads[tid].phase.snap, fault))
  {
    var t := w.threads[tid];
    var w' := DoOverwrite(w, tid, t.phase.snap, fault);
    assert ThreadOk(dir, first, t) && SnapshotOk(first, w, t);
    forall r | r in w'.threads ensures SnapshotOk(first, w', w'.threads[r]) {
      if r != tid { assert SnapshotOk(first, w, w.threads[r]); }
    }
  }

  /** Apart from the script and the write, a step leaves rows and records alone. */
  lemma LeavesStores(dir: Directory, w: World, e: Event)
    requires !e.Submit? && !e.Script? && !e.Overwrite? && e.tid in w.threads
    ensures var w' := Apply(dir, w, e);
            && w'.products == w.products && w'.accepted == w.accepted && e.tid in w'.threads
            && w'.threads[e.tid].moved == w.threads[e.tid].moved
  {
  }

  /** It keeps its request's snapshot, which only a load can take. */
  predicate SnapshotKept(w: World, w': World, e: Event)
    requires e.tid in w.threads
  {
    && e.tid in w'.threads
    && var t, t' := w.threads[e.tid], w'.threads[e.tid];
    HasSnapshot(t'.phase) ==>
      if HasSnapshot(t.phase) then t'.phase.snap == t.phase.snap
      else e.Load? && t.phase.Allowed? && t.product in w.products && t'.phase.snap == w.products[t.product]
  }

  lemma EdgeKeepsSnapshot(dir: Directory, w: World, e: Event)
    requires (AtOrderService(e) || AtInventoryService(e)) && e.tid in w.threads
    ensures SnapshotKept(w, Apply(dir, w, e), e)
  {
  }

  lemma KeepsSnapshot(dir: Directory, w: World, e: Event)
    requires !e.Submit? && !e.Script? && !e.Overwrite? && e.tid in w.threads
    ensures SnapshotKept(w, Apply(dir, w, e), e)
  {
    if AtOrderService(e) || AtInventoryService(e) { EdgeKeepsSnapshot(dir, w, e); }
  }

  lemma OwnChange(dir: Directory, w: World, e: Event)
    requires !e.Submit? && !e.Script? && !e.Overwrite? && e.tid in w.threads
    ensures var w' := Apply(dir, w, e);
            && w'.products == w.products && w'.accepted == w.accepted && e.tid in w'.threads
            && var t, t' := w.threads[e.tid], w'.threads[e.tid];
            && t'.quantity == t.quantity && t'.product == t.product && t'.moved == t.moved
            && (HasSnapshot(t'.phase) ==>
                if HasSnapshot(t.phase) then t'.phase.snap == t.phase.snap
                else e.Load? && t.phase.Allowed? && t.product in w.products && t'.phase.snap == w.products[t.product])
  {
    LeavesStores(dir, w, e);
    KeepsRequest(dir, w, e);
    KeepsSnapshot(dir, w, e);
  }

  lemma OtherKeepsAggregate(dir: Directory, first: World, w: World, e: Event)
    requires Inv(dir, first, w) && AggregateOk(first, w) && !e.Script? && !e.Overwrite?
    requires e.Submit? ==> e.quantity >= 0
    ensures AggregateOk(first, Apply(dir, w, e))
  {
    var w' := Apply(dir, w, e);
    if w' != w {
      OnlyOwn(dir, w, e);
      if !e.Submit? {
        OwnChange(dir, w, e);
        assert SnapshotOk(first, w, w.threads[e.tid]) && ThreadOk(dir, first, w.threads[e.tid]);
      }
      forall r | r in w'.threads ensures SnapshotOk(first, w', w'.threads[r]) {
        if r != e.tid { assert SnapshotOk(first, w, w.threads[r]); }
      }
    }
  }

  lemma {:induction false} RunKeepsAggregate(dir: Directory, first: World, w: World, es: seq<Event>)
    requires Inv(dir, first, w) && AggregateOk(first, w) && NonNegative(es)
    ensures AggregateOk(first, Run(dir, w, es))
    decreases |es|
  {
    if es != [] {
      var e := es[0];
      if Apply(dir, w, e) == w {
      } else if e.Script? {
        AcceptKeepsAggregate(dir, first, w, e.tid, e.fault);
      } else if e.Overwrite? {
        OverwriteKeepsAggregate(dir, first, w, e.tid, e.fault);
      } else {
        OtherKeepsAggregate(dir, first, w, e);
      }
      StepKeeps(dir, first, w, e);
      RunKeepsAggregate(dir, first, Apply(dir, w, e), es[1..]);
    }
  }

  /** The drift is one-sided under every interleaving and every crash: the aggregate never falls below what is really
      left, never rises above where it began, and never goes negative. */
  lemma DriftIsOneSided(dir: Directory, products: map<string, Product>, redis: Redis, es: seq<Event>, q: string)
    requires NonNegative(es) && q in products
    requires forall p :: p in products ==> products[p].aggregate >= 0
    ensures var w := Run(dir, Begin(products, redis), es);
            && q in w.products && 0 <= w.products[q].aggregate <= products[q].aggregate
            && products[q].aggregate - TakenOf(w.accepted, q) <= w.products[q].aggregate
  {
    var first := Begin(products, redis);
    BeginOk(dir, products, redis);
    RunKeepsAggregate(dir, first, first, es);
    Reached(dir, products, redis, es);
  }

  lemma {:induction false} KeyTakesProduct(accepted: seq<Decrement>, branch: string, product: string)
    requires forall d :: d in accepted ==> d.quantity >= 0 && (d.product == product ==> d.branch == branch)
    ensures TakenOf(accepted, product) <= TakenFrom(accepted, StockKey(branch, product))
  {
    if accepted != [] {
      assert accepted[|accepted| - 1] in accepted;
      KeyTakesProduct(accepted[..|accepted| - 1], branch, product);
    }
  }

  /** What the one-sided drift is good for: an aggregate that covers the primary branch's cell at first covers it in every
      run, so a request refused for want of aggregate stock is one that the warehouse would refuse as well. */
  lemma AggregateCoversCell(dir: Directory, products: map<string, Product>, redis: Redis, es: seq<Event>, q: string)
    requires NonNegative(es) && q in products && Get(redis, StockKey(products[q].branch, q)) <= products[q].aggregate
    requires forall p :: p in products ==> products[p].aggregate >= 0
    ensures var w := Run(dir, Begin(products, redis), es);
            q in w.products && Get(w.redis, StockKey(products[q].branch, q)) <= w.products[q].aggregate
  {
    DriftIsOneSided(dir, products, redis, es, q);
    var w := Run(dir, Begin(products, redis), es);
    var key := StockKey(products[q].branch, q);
    CellsFollowRecords(dir, products, redis, es, key);
    forall d | d in w.accepted ensures d.quantity >= 0 && (d.product == q ==> d.branch == products[q].branch) {
      StockMovesOnlyForPermittedUsers(dir, products, redis, es, d);
    }
    KeyTakesProduct(w.accepted, products[q].branch, q);
  }

  // ---- When the aggregate is exact ----

  predicate Busy(t: Thread) {
    HasSnapshot(t.phase)
  }

  /** Requests for one product do not overlap between reading and writing its row, and nothing fails between an accepted
      decrement and that write. */
  predicate Undisturbed(w: World, e: Event) {
    e.tid in w.threads ==>
      var t := w.threads[e.tid];
      && (e.Load? ==> forall r :: r in w.threads && r != e.tid && w.threads[r].product == t.product ==> !Busy(w.threads[r]))
      && (e.Die? ==> !(Busy(t) && t.moved))
      && (e.Script? ==> !e.fault.AfterEffect?)
      && (e.HearWarehouse? ==> !(e.lost && t.moved))
      && (e.Overwrite? ==> !e.fault.BeforeEffect?)
  }

  ghost predicate UndisturbedRun(dir: Directory, w: World, es: seq<Event>)
    decreases |es|
  {
    es == [] || (Undisturbed(w, es[0]) && UndisturbedRun(dir, Apply(dir, w, es[0]), es[1..]))
  }

  predicate BusyWith(w: World, r: nat, q: string) {
    r in w.threads && Busy(w.threads[r]) && w.threads[r].product == q
  }

  /** One request at a time, with a current snapshot; the aggregate lags only by what that request has moved. */
  ghost predicate ExactFor(first: World, w: World, q: string) {
    && q in w.products && q in first.products
    && (forall a, b :: BusyWith(w, a, q) && BusyWith(w, b, q) ==> a == b)
    && (forall a :: BusyWith(w, a, q) ==>
        && w.threads[a].phase.snap.aggregate == w.products[q].aggregate
        && (w.threads[a].phase.Answered? && w.threads[a].moved ==> w.threads[a].phase.status == 200)
        && w.products[q].aggregate == first.products[q].aggregate - TakenOf(w.accepted, q)
                                      + if w.threads[a].moved then w.threads[a].quantity else 0)
    && ((forall a :: !BusyWith(w, a, q)) ==> w.products[q].aggregate == first.products[q].aggregate - TakenOf(w.accepted, q))
  }

  lemma ScriptKeepsExact(dir: Directory, first: World, w: World, e: Event, q: string)
    requires Inv(dir, first, w) && ExactFor(first, w, q) && Undisturbed(w, e) && e.Script?
    requires e.tid in w.threads && w.threads[e.tid].phase.Authorized?
    ensures ExactFor(first, Apply(dir, w, e), q)
  {
    var t := w.threads[e.tid];
    var w' := Apply(dir, w, e);
    assert ThreadOk(dir, first, t);
    ScriptChange(dir, w, e);
    assert forall r :: BusyWith(w', r, q) <==> BusyWith(w, r, q);
    if t.product == q {
      assert BusyWith(w, e.tid, q) && BusyWith(w', e.tid, q);
    }
  }

  lemma ScriptChange(dir: Directory, w: World, e: Event)
    requires e.Script? && !e.fault.AfterEffect? && e.tid in w.threads && w.threads[e.tid].phase.Authorized? && !w.threads[e.tid].moved
    ensures var w' := Apply(dir, w, e); var t := w.threads[e.tid];
            && w'.products == w.products && e.tid in w'.threads && w'.threads == w.threads[e.tid := w'.threads[e.tid]]
            && var t' := w'.threads[e.tid];
            && t'.phase.Answered? && t'.phase.snap == t.phase.snap && t'.product == t.product && t'.quantity == t.quantity
            && (t'.moved ==> t'.phase.status == 200)
            && forall q :: TakenOf(w'.accepted, q) ==
                 TakenOf(w.accepted, q) + if t'.moved && t.product == q then t.quantity else 0
  {
    var t := w.threads[e.tid];
    var w' := Apply(dir, w, e);
    if w'.threads[e.tid].moved {
      var d := Decrement(e.tid, t.phase.snap.branch, t.product, t.quantity);
      assert w'.accepted == w.accepted + [d];
      forall q ensures TakenOf(w'.accepted, q) == TakenOf(w.accepted, q) + if t.product == q then t.quantity else 0 {
        TakenNext(w.accepted, d, "", q);
      }
    }
  }

  lemma OverwriteKeepsExact(dir: Directory, first: World, w: World, e: Event, q: string)
    requires Inv(dir, first, w) && ExactFor(first, w, q) && Undisturbed(w, e) && e.Overwrite?
    requires e.tid in w.threads && w.threads[e.tid].phase.Writing?
    ensures ExactFor(first, Apply(dir, w, e), q)
  {
    var t := w.threads[e.tid];
    var w' := Apply(dir, w, e);
    assert ThreadOk(dir, first, t);
    assert forall r :: BusyWith(w', r, q) <==> BusyWith(w, r, q) && r != e.tid;
    if t.product == q {
      assert BusyWith(w, e.tid, q);
    }
  }

  /** A change of one request's phase that neither loses nor forges a decrement. */
  ghost predicate FairChange(w: World, w': World, tid: nat, q: string) {
    && tid in w.threads && tid in w'.threads
    && w'.products == w.products && w'.accepted == w.accepted
    && (forall r :: r != tid ==> (r in w'.threads <==> r in w.threads))
    && (forall r :: r != tid && r in w.threads ==> w'.threads[r] == w.threads[r])
    && var t, t' := w.threads[tid], w'.threads[tid];
    && t'.quantity == t.quantity && t'.product == t.product && t'.moved == t.moved
    && (t.product == q ==>
        if Busy(t) then
          && (t.moved ==> Busy(t'))
          && (Busy(t') ==> t'.phase.snap == t.phase.snap && (t'.phase.Answered? && t'.moved ==> t'.phase.status == 200))
        else Busy(t') ==> !t.moved && q in w.products && t'.phase.snap == w.products[q] && forall r :: !BusyWith(w, r, q))
  }

  lemma ChangeKeepsExact(first: World, w: World, w': World, tid: nat, q: string)
    requires ExactFor(first, w, q) && FairChange(w, w', tid, q)
    ensures ExactFor(first, w', q)
  {
    assert forall r :: r != tid ==> (BusyWith(w', r, q) <==> BusyWith(w, r, q));
    var t, t' := w.threads[tid], w'.threads[tid];
    if t.product == q && Busy(t) {
      assert BusyWith(w, tid, q);
    } else if t.product == q && Busy(t') {
      assert BusyWith(w', tid, q);
    } else {
      assert forall r :: BusyWith(w', r, q) <==> BusyWith(w, r, q);
    }
  }

  lemma SubmitKeepsExact(dir: Directory, first: World, w: World, e: Event, q: string)
    requires ExactFor(first, w, q) && e.Submit?
    ensures ExactFor(first, Apply(dir, w, e), q)
  {
    assert forall r :: BusyWith(Apply(dir, w, e), r, q) <==> BusyWith(w, r, q);
  }

  lemma OtherIsFair(dir: Directory, first: World, w: World, e: Event, q: string)
    requires Inv(dir, first, w) && ExactFor(first, w, q) && Undisturbed(w, e) && !e.Submit? && !e.Script? && !e.Overwrite?
    requires e.tid in w.threads
    ensures FairChange(w, Apply(dir, w, e), e.tid, q)
  {
    OnlyOwn(dir, w, e);
    OwnChange(dir, w, e);
    var t := w.threads[e.tid];
    assert ThreadOk(dir, first, t);
    if t.product == q && Busy(t) {
      assert BusyWith(w, e.tid, q);
      KeptBusy(dir, first, w, e);
    }
  }

  lemma OtherKeepsExact(dir: Directory, first: World, w: World, e: Event, q: string)
    requires Inv(dir, first, w) && ExactFor(first, w, q) && Undisturbed(w, e) && !e.Script? && !e.Overwrite?
    ensures ExactFor(first, Apply(dir, w, e), q)
  {
    if e.Submit? {
      SubmitKeepsExact(dir, first, w, e, q);
    } else if e.tid in w.threads {
      OtherIsFair(dir, first, w, e, q);
      ChangeKeepsExact(first, w, Apply(dir, w, e), e.tid, q);
    }
  }

  /** In an undisturbed run a request that has moved stock stays busy until it writes. */
  lemma KeptBusy(dir: Directory, first: World, w: World, e: Event)
    requires ThreadsOk(dir, first, w) && Undisturbed(w, e) && !e.Submit? && !e.Script? && !e.Overwrite?
    requires e.tid in w.threads && Busy(w.threads[e.tid])
    requires var t := w.threads[e.tid]; t.phase.Answered? && t.moved ==> t.phase.status == 200
    ensures var t, t' := w.threads[e.tid], Apply(dir, w, e).threads[e.tid];
            && (t.moved ==> Busy(t'))
            && (t'.phase.Answered? && t'.moved ==> t'.phase.status == 200)
  {
    assert ThreadOk(dir, first, w.threads[e.tid]);
  }

  lemma {:induction false} RunKeepsExact(dir: Directory, first: World, w: World, es: seq<Event>, q: string)
    requires Inv(dir, first, w) && ExactFor(first, w, q) && UndisturbedRun(dir, w, es)
    ensures ExactFor(first, Run(dir, w, es), q)
    decreases |es|
  {
    if es != [] {
      var e := es[0];
      if Apply(dir, w, e) == w {
      } else if e.Script? {
        ScriptKeepsExact(dir, first, w, e, q);
      } else if e.Overwrite? {
        OverwriteKeepsExact(dir, first, w, e, q);
      } else {
        OtherKeepsExact(dir, first, w, e, q);
      }
      StepKeeps(dir, first, w, e);
      RunKeepsExact(dir, first, Apply(dir, w, e), es[1..], q);
    }
  }

  /** Serial and failure-free means exact: between requests the aggregate is the initial one less what was accepted,
      for all quantities. */
  lemma UndisturbedIsExact(dir: Directory, products: map<string, Product>, redis: Redis, es: seq<Event>, q: string)
    requires q in products && UndisturbedRun(dir, Begin(products, redis), es)
    requires forall r :: !BusyWith(Run(dir, Begin(products, redis), es), r, q)
    ensures var w := Run(dir, Begin(products, redis), es);
            q in w.products && w.products[q].aggregate == products[q].aggregate - TakenOf(w.accepted, q)
  {
    BeginOk(dir, products, redis);
    RunKeepsExact(dir, Begin(products, redis), Begin(products, redis), es, q);
  }
}
