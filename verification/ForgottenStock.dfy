/** The drift of the aggregate at the end of any run, whatever interleaves, fails or dies: exactly the accepted decrements
    that the aggregate has forgotten. */
module ForgottenStock {
  import opened Text
  import opened Realm
  import opened Authorization
  import opened StockKeys
  import opened Saga
  import opened SagaTheorems
  import opened WriteDrift

  /** Which requests a product's aggregate accounts for, and which a request's snapshot does. */
  datatype Knowledge = Knowledge(aggregate: map<string, set<nat>>, snapshot: map<nat, set<nat>>)

  function Knows(k: Knowledge, q: string): set<nat> {
    if q in k.aggregate then k.aggregate[q] else {}
  }

  function Saw(k: Knowledge, tid: nat): set<nat> {
    if tid in k.snapshot then k.snapshot[tid] else {}
  }

  /** A load passes on what the aggregate accounts for; a write that takes effect replaces it by what was loaded, with the
      writer. Nothing else matters. */
  function Learn(w: World, k: Knowledge, e: Event): Knowledge {
    if e.Load? && e.tid in w.threads && w.threads[e.tid].phase.Allowed? then
      k.(snapshot := k.snapshot[e.tid := Knows(k, w.threads[e.tid].product)])
    else if e.Overwrite? && e.tid in w.threads && w.threads[e.tid].phase.Writing? && !e.fault.BeforeEffect? then
      k.(aggregate := k.aggregate[w.threads[e.tid].product := Saw(k, e.tid) + {e.tid}])
    else k
  }

  /** What is accounted for after a run. */
  function Learned(dir: Directory, w: World, k: Knowledge, es: seq<Event>): Knowledge
    decreases |es|
  {
    if es == [] then k else Learned(dir, Apply(dir, w, es[0]), Learn(w, k, es[0]), es[1..])
  }

  function AccountedFor(accepted: seq<Decrement>, product: string, known: set<nat>): int {
    if accepted == [] then 0
    else
      var d := accepted[|accepted| - 1];
      AccountedFor(accepted[..|accepted| - 1], product, known) + if d.product == product && d.tid in known then d.quantity else 0
  }

  /** The total of a product that was taken by requests outside `known`. */
  function Forgotten(accepted: seq<Decrement>, product: string, known: set<nat>): int {
    if accepted == [] then 0
    else
      var d := accepted[|accepted| - 1];
      Forgotten(accepted[..|accepted| - 1], product, known) + if d.product == product && d.tid !in known then d.quantity else 0
  }

  lemma {:induction false} KnownOrForgotten(accepted: seq<Decrement>, product: string, known: set<nat>)
    ensures TakenOf(accepted, product) == AccountedFor(accepted, product, known) + Forgotten(accepted, product, known)
  {
    if accepted != [] { KnownOrForgotten(accepted[..|accepted| - 1], product, known); }
  }

  /** A decrement by a request outside `known` leaves the account alone. */
  lemma OutsideNext(accepted: seq<Decrement>, d: Decrement, product: string, known: set<nat>)
    requires d.tid !in known
    ensures AccountedFor(accepted + [d], product, known) == AccountedFor(accepted, product, known)
  {
    assert (accepted + [d])[..|accepted|] == accepted;
  }

  lemma {:induction false} OneMore(accepted: seq<Decrement>, product: string, known: set<nat>, tid: nat, quantity: int)
    requires tid !in known
    requires forall i, j :: 0 <= i < j < |accepted| ==> accepted[i].tid != accepted[j].tid
    requires forall d :: d in accepted && d.tid == tid ==> d.product == product && d.quantity == quantity
    ensures AccountedFor(accepted, product, known + {tid})
            == AccountedFor(accepted, product, known) + if HasRecord(accepted, tid) then quantity else 0
  {
    if accepted != [] {
      var n := |accepted| - 1;
      OneMore(accepted[..n], product, known, tid, quantity);
      assert HasRecord(accepted, tid) <==> accepted[n].tid == tid || HasRecord(accepted[..n], tid) by {
        if HasRecord(accepted[..n], tid) {
          var i :| 0 <= i < n && accepted[..n][i].tid == tid;
          assert accepted[i].tid == tid;
        }
      }
      assert accepted[n].tid == tid ==> !HasRecord(accepted[..n], tid);
    }
  }

  // ---- What every step keeps ----

  predicate AllMoved(w: World, tids: set<nat>) {
    forall tid :: tid in tids ==> tid in w.threads && w.threads[tid].moved
  }

  ghost predicate RowAccounted(first: World, w: World, k: Knowledge, q: string) {
    && AllMoved(w, Knows(k, q))
    && (q in w.products && q in first.products ==>
        w.products[q].aggregate == first.products[q].aggregate - AccountedFor(w.accepted, q, Knows(k, q)))
  }

  ghost predicate SnapshotAccounted(first: World, w: World, k: Knowledge, tid: nat)
    requires tid in w.threads
  {
    var t := w.threads[tid];
    HasSnapshot(t.phase) ==>
      && AllMoved(w, Saw(k, tid)) && tid !in Saw(k, tid)
      && (t.product in first.products ==>
          t.phase.snap.aggregate == first.products[t.product].aggregate - AccountedFor(w.accepted, t.product, Saw(k, tid)))
  }

  ghost predicate Accounted(first: World, w: World, k: Knowledge) {
    && (forall q :: RowAccounted(first, w, k, q))
    && (forall tid :: tid in w.threads ==> SnapshotAccounted(first, w, k, tid))
  }

  /** A request that has moved stock stays so. */
  lemma MovedStays(dir: Directory, first: World, w: World, e: Event, tids: set<nat>)
    requires Inv(dir, first, w) && AllMoved(w, tids)
    ensures AllMoved(Apply(dir, w, e), tids)
  {
    OnlyOwn(dir, w, e);
    forall tid | tid in tids ensures tid in Apply(dir, w, e).threads && Apply(dir, w, e).threads[tid].moved {
      if tid == e.tid { OwnMovedStays(dir, w, e); }
    }
  }

  lemma OwnMovedStays(dir: Directory, w: World, e: Event)
    requires e.tid in w.threads && w.threads[e.tid].moved
    ensures e.tid in Apply(dir, w, e).threads && Apply(dir, w, e).threads[e.tid].moved
  {
    if !e.Submit? && !e.Script? && !e.Overwrite? { LeavesStores(dir, w, e); }
  }

  /** The script: only its own request moves, and no account holds that request yet. */
  lemma ScriptAccounted(dir: Directory, first: World, w: World, k: Knowledge, e: Event)
    requires Inv(dir, first, w) && Accounted(first, w, k) && e.Script? && e.tid in w.threads && w.threads[e.tid].phase.Authorized?
    ensures Accounted(first, Apply(dir, w, e), k)
  {
    var w' := Apply(dir, w, e);
    var t := w.threads[e.tid];
    assert ThreadOk(dir, first, t);
    OnlyOwn(dir, w, e);
    ScriptShape(dir, w, e);
    forall q ensures RowAccounted(first, w', k, q) {
      assert RowAccounted(first, w, k, q);
      MovedStays(dir, first, w, e, Knows(k, q));
      AppendOutside(w, w', q, Knows(k, q), e.tid);
    }
    forall tid | tid in w'.threads ensures SnapshotAccounted(first, w', k, tid) {
      assert SnapshotAccounted(first, w, k, tid);
      if HasSnapshot(w.threads[tid].phase) {
        MovedStays(dir, first, w, e, Saw(k, tid));
        AppendOutside(w, w', w.threads[tid].product, Saw(k, tid), e.tid);
      }
    }
  }

  ghost predicate AppendsFor(w: World, w': World, tid: nat) {
    w'.accepted == w.accepted || (w'.accepted != [] && w'.accepted == w.accepted + [w'.accepted[|w'.accepted| - 1]]
                                  && w'.accepted[|w'.accepted| - 1].tid == tid)
  }

  lemma AppendOutside(w: World, w': World, q: string, known: set<nat>, tid: nat)
    requires AppendsFor(w, w', tid) && AllMoved(w, known) && tid in w.threads && !w.threads[tid].moved
    ensures AccountedFor(w'.accepted, q, known) == AccountedFor(w.accepted, q, known)
  {
    if w'.accepted != w.accepted {
      OutsideNext(w.accepted, w'.accepted[|w'.accepted| - 1], q, known);
    }
  }

  lemma ScriptShape(dir: Directory, w: World, e: Event)
    requires e.Script? && e.tid in w.threads && w.threads[e.tid].phase.Authorized?
    ensures var w' := Apply(dir, w, e);
            && AppendsFor(w, w', e.tid) && w'.products == w.products && e.tid in w'.threads
            && var t, t' := w.threads[e.tid], w'.threads[e.tid];
            t'.product == t.product && t'.phase.Answered? && t'.phase.snap == t.phase.snap
  {
  }

  lemma WrittenRow(dir: Directory, first: World, w: World, k: Knowledge, e: Event)
    requires Inv(dir, first, w) && Accounted(first, w, k) && e.Overwrite? && e.tid in w.threads && w.threads[e.tid].phase.Writing?
    requires !e.fault.BeforeEffect?
    ensures RowAccounted(first, Apply(dir, w, e), Learn(w, k, e), w.threads[e.tid].product)
  {
    var t := w.threads[e.tid];
    assert ThreadOk(dir, first, t) && SnapshotAccounted(first, w, k, e.tid);
    WriteShape(dir, w, e);
    WriterCounts(dir, first, w, e.tid, Saw(k, e.tid));
    MovedStays(dir, first, w, e, Saw(k, e.tid) + {e.tid});
  }

  lemma UnwrittenRow(dir: Directory, first: World, w: World, k: Knowledge, e: Event, q: string)
    requires Inv(dir, first, w) && Accounted(first, w, k) && e.Overwrite? && e.tid in w.threads && w.threads[e.tid].phase.Writing?
    requires e.fault.BeforeEffect? || q != w.threads[e.tid].product
    ensures RowAccounted(first, Apply(dir, w, e), Learn(w, k, e), q)
  {
    assert RowAccounted(first, w, k, q);
    WriteShape(dir, w, e);
    MovedStays(dir, first, w, e, Knows(k, q));
  }

  lemma WriteSnapshot(dir: Directory, first: World, w: World, k: Knowledge, e: Event, tid: nat)
    requires Inv(dir, first, w) && Accounted(first, w, k) && e.Overwrite? && e.tid in w.threads && w.threads[e.tid].phase.Writing?
    requires tid in Apply(dir, w, e).threads
    ensures SnapshotAccounted(first, Apply(dir, w, e), Learn(w, k, e), tid)
  {
    OnlyOwn(dir, w, e);
    WriteShape(dir, w, e);
    assert SnapshotAccounted(first, w, k, tid);
    if HasSnapshot(w.threads[tid].phase) { MovedStays(dir, first, w, e, Saw(k, tid)); }
  }

  /** A write that takes effect: the new aggregate accounts for what was loaded and for the writer. */
  lemma WriteAccounted(dir: Directory, first: World, w: World, k: Knowledge, e: Event)
    requires Inv(dir, first, w) && Accounted(first, w, k) && e.Overwrite? && e.tid in w.threads && w.threads[e.tid].phase.Writing?
    ensures Accounted(first, Apply(dir, w, e), Learn(w, k, e))
  {
    forall q ensures RowAccounted(first, Apply(dir, w, e), Learn(w, k, e), q) {
      if q == w.threads[e.tid].product && !e.fault.BeforeEffect? {
        WrittenRow(dir, first, w, k, e);
      } else {
        UnwrittenRow(dir, first, w, k, e, q);
      }
    }
    forall tid | tid in Apply(dir, w, e).threads ensures SnapshotAccounted(first, Apply(dir, w, e), Learn(w, k, e), tid) {
      WriteSnapshot(dir, first, w, k, e, tid);
    }
  }

  lemma WriteShape(dir: Directory, w: World, e: Event)
    requires e.Overwrite? && e.tid in w.threads && w.threads[e.tid].phase.Writing?
    ensures var w' := Apply(dir, w, e); var t := w.threads[e.tid];
            && w'.accepted == w.accepted && e.tid in w'.threads && w'.threads[e.tid].phase.Replying?
            && w'.products.Keys == w.products.Keys
            && (forall q :: q in w.products && (q != t.product || e.fault.BeforeEffect?) ==> w'.products[q] == w.products[q])
            && (t.product in w.products && !e.fault.BeforeEffect? ==>
                w'.products[t.product].aggregate == t.phase.snap.aggregate - t.quantity)
  {
  }

  lemma WriterCounts(dir: Directory, first: World, w: World, tid: nat, known: set<nat>)
    requires Inv(dir, first, w) && tid in w.threads && w.threads[tid].moved && tid !in known
    ensures var t := w.threads[tid];
            AccountedFor(w.accepted, t.product, known + {tid}) == AccountedFor(w.accepted, t.product, known) + t.quantity
  {
    var t := w.threads[tid];
    forall d | d in w.accepted && d.tid == tid ensures d.product == t.product && d.quantity == t.quantity {
      assert RecordOk(dir, first, w, d);
    }
    assert HasRecord(w.accepted, tid);
    OneMore(w.accepted, t.product, known, tid, t.quantity);
  }

  predicate Other(w: World, e: Event) {
    !e.Submit? && !e.Script? && !e.Overwrite? && e.tid in w.threads
  }

  lemma OtherRow(dir: Directory, first: World, w: World, k: Knowledge, e: Event, q: string)
    requires Inv(dir, first, w) && Accounted(first, w, k) && Other(w, e)
    ensures RowAccounted(first, Apply(dir, w, e), Learn(w, k, e), q)
  {
    assert RowAccounted(first, w, k, q);
    LeavesStores(dir, w, e);
    MovedStays(dir, first, w, e, Knows(k, q));
  }

  /** Another request's snapshot. */
  lemma ForeignSnapshot(dir: Directory, first: World, w: World, k: Knowledge, e: Event, tid: nat)
    requires Inv(dir, first, w) && Accounted(first, w, k) && Other(w, e) && tid in Apply(dir, w, e).threads && tid != e.tid
    ensures SnapshotAccounted(first, Apply(dir, w, e), Learn(w, k, e), tid)
  {
    OnlyOwn(dir, w, e);
    LeavesStores(dir, w, e);
    assert SnapshotAccounted(first, w, k, tid);
    if HasSnapshot(w.threads[tid].phase) { MovedStays(dir, first, w, e, Saw(k, tid)); }
  }

  /** The snapshot of the request that steps, kept or just loaded. */
  lemma OwnSnapshot(dir: Directory, first: World, w: World, k: Knowledge, e: Event)
    requires Inv(dir, first, w) && Accounted(first, w, k) && Other(w, e) && e.tid in Apply(dir, w, e).threads
    ensures SnapshotAccounted(first, Apply(dir, w, e), Learn(w, k, e), e.tid)
  {
    OwnChange(dir, w, e);
    var t := w.threads[e.tid];
    assert ThreadOk(dir, first, t) && SnapshotAccounted(first, w, k, e.tid) && RowAccounted(first, w, k, t.product);
    MovedStays(dir, first, w, e, if HasSnapshot(t.phase) then Saw(k, e.tid) else Knows(k, t.product));
  }

  lemma OtherSnapshot(dir: Directory, first: World, w: World, k: Knowledge, e: Event, tid: nat)
    requires Inv(dir, first, w) && Accounted(first, w, k) && Other(w, e) && tid in Apply(dir, w, e).threads
    ensures SnapshotAccounted(first, Apply(dir, w, e), Learn(w, k, e), tid)
  {
    if tid == e.tid { OwnSnapshot(dir, first, w, k, e); } else { ForeignSnapshot(dir, first, w, k, e, tid); }
  }

  /** All other steps leave rows and records alone, and only a load takes a snapshot. */
  lemma OtherAccounted(dir: Directory, first: World, w: World, k: Knowledge, e: Event)
    requires Inv(dir, first, w) && Accounted(first, w, k) && Other(w, e)
    ensures Accounted(first, Apply(dir, w, e), Learn(w, k, e))
  {
    forall q ensures RowAccounted(first, Apply(dir, w, e), Learn(w, k, e), q) { OtherRow(dir, first, w, k, e, q); }
    forall tid | tid in Apply(dir, w, e).threads ensures SnapshotAccounted(first, Apply(dir, w, e), Learn(w, k, e), tid) {
      OtherSnapshot(dir, first, w, k, e, tid);
    }
  }

  lemma SubmitAccounted(dir: Directory, first: World, w: World, k: Knowledge, e: Event)
    requires Inv(dir, first, w) && Accounted(first, w, k) && e.Submit?
    ensures Accounted(first, Apply(dir, w, e), k)
  {
    var w' := Apply(dir, w, e);
    OnlyOwn(dir, w, e);
    forall q ensures RowAccounted(first, w', k, q) {
      assert RowAccounted(first, w, k, q);
      MovedStays(dir, first, w, e, Knows(k, q));
    }
    forall tid | tid in w'.threads ensures SnapshotAccounted(first, w', k, tid) {
      if tid in w.threads {
        assert SnapshotAccounted(first, w, k, tid);
        if HasSnapshot(w.threads[tid].phase) { MovedStays(dir, first, w, e, Saw(k, tid)); }
      }
    }
  }

  lemma StepAccounted(dir: Directory, first: World, w: World, k: Knowledge, e: Event)
    requires Inv(dir, first, w) && Accounted(first, w, k)
    ensures Accounted(first, Apply(dir, w, e), Learn(w, k, e))
  {
    if e.Submit? {
      SubmitAccounted(dir, first, w, k, e);
    } else if e.tid !in w.threads {
    } else if e.Script? {
      if w.threads[e.tid].phase.Authorized? { ScriptAccounted(dir, first, w, k, e); }
    } else if e.Overwrite? {
      if w.threads[e.tid].phase.Writing? { WriteAccounted(dir, first, w, k, e); }
    } else {
      OtherAccounted(dir, first, w, k, e);
    }
  }

  lemma {:induction false} RunAccounted(dir: Directory, first: World, w: World, k: Knowledge, es: seq<Event>)
    requires Inv(dir, first, w) && Accounted(first, w, k)
    ensures Accounted(first, Run(dir, w, es), Learned(dir, w, k, es))
    decreases |es|
  {
    if es != [] {
      StepKeeps(dir, first, w, es[0]);
      StepAccounted(dir, first, w, k, es[0]);
      RunAccounted(dir, first, Apply(dir, w, es[0]), Learn(w, k, es[0]), es[1..]);
    }
  }

  // ---- The drift of any run ----

  /** What the aggregate of `q` accounts for at the end of a run from the beginning. */
  function KnownAtEnd(dir: Directory, products: map<string, Product>, redis: Redis, es: seq<Event>, q: string): set<nat> {
    Knows(Learned(dir, Begin(products, redis), Knowledge(map[], map[]), es), q)
  }

  /** Every run, with every crash, lost answer and failed write, and for all quantities: the drift at its end is exactly the
      total of the decrements that the aggregate does not account for. */
  lemma DriftIsForgotten(dir: Directory, products: map<string, Product>, redis: Redis, es: seq<Event>, q: string)
    requires q in products
    ensures var first := Begin(products, redis);
            var w := Run(dir, first, es);
            && q in w.products
            && Drift(first, w, q) == Forgotten(w.accepted, q, KnownAtEnd(dir, products, redis, es, q))
  {
    var first := Begin(products, redis);
    var w := Run(dir, first, es);
    BeginOk(dir, products, redis);
    Reached(dir, products, redis, es);
    NothingYet(first);
    RunAccounted(dir, first, first, Knowledge(map[], map[]), es);
    var k := Learned(dir, first, Knowledge(map[], map[]), es);
    assert RowAccounted(first, w, k, q);
    KnownOrForgotten(w.accepted, q, Knows(k, q));
  }

  lemma NothingYet(first: World)
    requires first.threads == map[] && first.accepted == []
    ensures Accounted(first, first, Knowledge(map[], map[]))
  {
  }

  lemma {:induction false} ForgottenZero(accepted: seq<Decrement>, product: string, known: set<nat>)
    requires forall d :: d in accepted ==> d.quantity >= 0
    ensures Forgotten(accepted, product, known) >= 0
    ensures Forgotten(accepted, product, known) == 0
            <==> forall d :: d in accepted && d.product == product && d.quantity > 0 ==> d.tid in known
  {
    if accepted != [] {
      var front, last := accepted[..|accepted| - 1], accepted[|accepted| - 1];
      assert accepted == front + [last];
      ForgottenZero(front, product, known);
    }
  }

  /** So in runs of non-negative quantities the aggregate is exact at the end if and only if it accounts for every request
      that took any of the product. */
  lemma ExactIff(dir: Directory, products: map<string, Product>, redis: Redis, es: seq<Event>, q: string)
    requires q in products && NonNegative(es)
    ensures var first := Begin(products, redis);
            var w := Run(dir, first, es);
            && q in w.products
            && (Drift(first, w, q) == 0 <==>
                forall d :: d in w.accepted && d.product == q && d.quantity > 0 ==> d.tid in KnownAtEnd(dir, products, redis, es, q))
  {
    DriftIsForgotten(dir, products, redis, es, q);
    var w := Run(dir, Begin(products, redis), es);
    forall d | d in w.accepted ensures d.quantity >= 0 {
      StockMovesOnlyForPermittedUsers(dir, products, redis, es, d);
    }
    ForgottenZero(w.accepted, q, KnownAtEnd(dir, products, redis, es, q));
  }
}
