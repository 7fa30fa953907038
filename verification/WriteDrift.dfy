/** What one write of the aggregate does to its drift: an exact law over whatever runs between the read and the write. */
module WriteDrift {
  import opened Text
  import opened Realm
  import opened Authorization
  import opened StockKeys
  import opened Saga
  import opened SagaTheorems

  /** By how much the aggregate exceeds what is really left. */
  function Drift(first: World, w: World, q: string): int
    requires q in first.products && q in w.products
  {
    w.products[q].aggregate - (first.products[q].aggregate - TakenOf(w.accepted, q))
  }

  /** What requests other than `tid` have taken of a product. */
  function TakenByOthers(accepted: seq<Decrement>, tid: nat, product: string): int {
    if accepted == [] then 0
    else
      var d := accepted[|accepted| - 1];
      TakenByOthers(accepted[..|accepted| - 1], tid, product) + if d.product == product && d.tid != tid then d.quantity else 0
  }

  lemma {:induction false} OwnAndOthers(accepted: seq<Decrement>, tid: nat, product: string, quantity: int)
    requires forall i, j :: 0 <= i < j < |accepted| ==> accepted[i].tid != accepted[j].tid
    requires forall d :: d in accepted && d.tid == tid ==> d.product == product && d.quantity == quantity
    ensures TakenOf(accepted, product) == TakenByOthers(accepted, tid, product) + if HasRecord(accepted, tid) then quantity else 0
  {
    if accepted != [] {
      var n := |accepted| - 1;
      var front := accepted[..n];
      OwnAndOthers(front, tid, product, quantity);
      if accepted[n].tid == tid {
        assert HasRecord(accepted, tid) && !HasRecord(front, tid);
      } else {
        assert HasRecord(accepted, tid) <==> HasRecord(front, tid) by {
          if HasRecord(front, tid) {
            var i :| 0 <= i < n && front[i].tid == tid;
            assert accepted[i].tid == tid;
          }
        }
      }
    }
  }

  lemma {:induction false} OthersGrow(accepted: seq<Decrement>, more: seq<Decrement>, tid: nat, product: string)
    requires accepted <= more && forall d :: d in more ==> d.quantity >= 0
    ensures TakenByOthers(accepted, tid, product) <= TakenByOthers(more, tid, product)
    decreases |more|
  {
    if |accepted| == |more| {
      assert accepted == more;
    } else {
      OthersGrow(accepted, more[..|more| - 1], tid, product);
    }
  }

  predicate PastSnapshot(phase: Phase) {
    phase.Replying? || phase.Decided? || phase.Finished? || phase.Failed?
  }

  /** A request that holds a row keeps holding that row or is done with it for good. */
  ghost predicate StillHolds(w: World, tid: nat, q: string, quantity: int, snap: Product) {
    && tid in w.threads
    && var t := w.threads[tid];
    && t.product == q && t.quantity == quantity
    && (PastSnapshot(t.phase) || (HasSnapshot(t.phase) && t.phase.snap == snap))
  }

  lemma DoneIsDone(dir: Directory, w: World, e: Event)
    requires e.tid in w.threads && PastSnapshot(w.threads[e.tid].phase)
    ensures e.tid in Apply(dir, w, e).threads && PastSnapshot(Apply(dir, w, e).threads[e.tid].phase)
  {
  }

  lemma LeavesRow(dir: Directory, w: World, e: Event)
    requires e.tid in w.threads && HasSnapshot(w.threads[e.tid].phase)
    ensures e.tid in Apply(dir, w, e).threads
    ensures var phase := Apply(dir, w, e).threads[e.tid].phase;
            PastSnapshot(phase) || (HasSnapshot(phase) && phase.snap == w.threads[e.tid].phase.snap)
  {
  }

  lemma OnlyAppends(dir: Directory, w: World, e: Event)
    ensures w.accepted <= Apply(dir, w, e).accepted
  {
  }

  lemma StepHolds(dir: Directory, w: World, e: Event, tid: nat, q: string, quantity: int, snap: Product)
    requires StillHolds(w, tid, q, quantity, snap)
    ensures StillHolds(Apply(dir, w, e), tid, q, quantity, snap)
  {
    OnlyOwn(dir, w, e);
    StepSubmitted(dir, w, e, tid);
    if e.tid == tid {
      if PastSnapshot(w.threads[tid].phase) { DoneIsDone(dir, w, e); } else { LeavesRow(dir, w, e); }
    }
  }

  lemma {:induction false} RunHolds(dir: Directory, w: World, es: seq<Event>, tid: nat, q: string, quantity: int, snap: Product)
    requires StillHolds(w, tid, q, quantity, snap)
    ensures StillHolds(Run(dir, w, es), tid, q, quantity, snap)
    ensures w.accepted <= Run(dir, w, es).accepted
    decreases |es|
  {
    if es != [] {
      StepHolds(dir, w, es[0], tid, q, quantity, snap);
      OnlyAppends(dir, w, es[0]);
      RunHolds(dir, Apply(dir, w, es[0]), es[1..], tid, q, quantity, snap);
    }
  }

  lemma OthersIn(dir: Directory, first: World, w: World, tid: nat)
    requires Inv(dir, first, w) && tid in w.threads
    ensures var t := w.threads[tid];
            TakenOf(w.accepted, t.product) == TakenByOthers(w.accepted, tid, t.product) + if t.moved then t.quantity else 0
  {
    var t := w.threads[tid];
    forall d | d in w.accepted && d.tid == tid ensures d.product == t.product && d.quantity == t.quantity && t.moved {
      assert RecordOk(dir, first, w, d);
    }
    OwnAndOthers(w.accepted, tid, t.product, t.quantity);
    if HasRecord(w.accepted, tid) {
      var i :| 0 <= i < |w.accepted| && w.accepted[i].tid == tid;
      assert w.accepted[i] in w.accepted;
    }
  }

  /** The exact law: whatever runs in between, a write that takes effect, reported or not, leaves the drift that its request found when it read the row, plus
      what other requests took of the product between that read and the write. */
  lemma WriteDrift(dir: Directory, first: World, w: World, es: seq<Event>, tid: nat, fault: Fault)
    requires Inv(dir, first, w) && tid in w.threads && w.threads[tid].phase.Loaded? && !fault.BeforeEffect?
    requires var t := w.threads[tid]; t.product in w.products && t.phase.snap == w.products[t.product]
    requires tid in Run(dir, w, es).threads && Run(dir, w, es).threads[tid].phase.Writing?
    ensures var q := w.threads[tid].product;
            var before := Run(dir, w, es);
            var after := Apply(dir, before, Overwrite(tid, fault));
            && q in first.products && q in after.products
            && Drift(first, after, q) ==
                 Drift(first, w, q) + TakenByOthers(before.accepted, tid, q) - TakenByOthers(w.accepted, tid, q)
  {
    var t := w.threads[tid];
    var q := t.product;
    var before := Run(dir, w, es);
    assert ThreadOk(dir, first, t);
    RunKeeps(dir, first, w, es);
    RunHolds(dir, w, es, tid, q, t.quantity, t.phase.snap);
    assert ThreadOk(dir, first, before.threads[tid]);
    OthersIn(dir, first, w, tid);
    OthersIn(dir, first, before, tid);
    WrittenAggregate(dir, before, tid, fault);
  }

  lemma WrittenAggregate(dir: Directory, w: World, tid: nat, fault: Fault)
    requires !fault.BeforeEffect? && tid in w.threads && w.threads[tid].phase.Writing? && w.threads[tid].product in w.products
    ensures var t := w.threads[tid];
            var after := Apply(dir, w, Overwrite(tid, fault));
            && after.accepted == w.accepted && t.product in after.products
            && after.products[t.product].aggregate == t.phase.snap.aggregate - t.quantity
  {
  }

  /** So in runs of non-negative quantities the aggregate is right after a write exactly when it was right at the read and
      nobody else took stock of the product in between. */
  lemma ExactWriteIff(dir: Directory, products: map<string, Product>, redis: Redis, past: seq<Event>, es: seq<Event>, tid: nat, fault: Fault)
    requires !fault.BeforeEffect? && NonNegative(past + es) && forall p :: p in products ==> products[p].aggregate >= 0
    requires var w := Run(dir, Begin(products, redis), past);
             && tid in w.threads && w.threads[tid].phase.Loaded?
             && var t := w.threads[tid]; t.product in w.products && t.phase.snap == w.products[t.product]
    requires var before := Run(dir, Run(dir, Begin(products, redis), past), es); tid in before.threads && before.threads[tid].phase.Writing?
    ensures var first := Begin(products, redis);
            var w := Run(dir, first, past);
            var q := w.threads[tid].product;
            var before := Run(dir, w, es);
            var after := Apply(dir, before, Overwrite(tid, fault));
            && q in products && q in after.products
            && (Drift(first, after, q) == 0 <==>
                Drift(first, w, q) == 0 && TakenByOthers(before.accepted, tid, q) == TakenByOthers(w.accepted, tid, q))
  {
    var first := Begin(products, redis);
    var w := Run(dir, first, past);
    var t := w.threads[tid];
    var before := Run(dir, w, es);
    Reached(dir, products, redis, past);
    assert ThreadOk(dir, first, t);
    WriteDrift(dir, first, w, es, tid, fault);
    assert forall e :: e in past ==> e in past + es;
    DriftIsOneSided(dir, products, redis, past, t.product);
    RunHolds(dir, w, es, tid, t.product, t.quantity, t.phase.snap);
    RunOn(dir, first, past, es);
    forall d | d in before.accepted ensures d.quantity >= 0 {
      StockMovesOnlyForPermittedUsers(dir, products, redis, past + es, d);
    }
    OthersGrow(w.accepted, before.accepted, tid, t.product);
  }
}
