/** How far the aggregate can drift: overlapping requests overwrite one another, and a lost write forgets a decrement. */
module SagaDrift {
  import opened Text
  import opened Realm
  import opened Authorization
  import opened StockKeys
  import opened Saga
  import opened OrderFlow
  import opened SagaSchedules

  /** The warehouse token of an order when both exchanges are granted. */
  function WarehouseToken(o: Order, c: Circumstances): Token {
    var inventory := Narrowed(ORDER, OrderToken(o), INVENTORY, "inventory", c.toInventory.jti, c.toInventory.now, c.toInventory.ttl);
    Narrowed(INVENTORY, inventory, WAREHOUSE, "warehouse", c.toWarehouse.jti, c.toWarehouse.now, c.toWarehouse.ttl)
  }

  predicate Writer(o: Order) {
    IsLogin(o.login) && "order-writer" in o.login.roles && "inventory-writer" in o.login.roles
  }

  function Waiting(o: Order, c: Circumstances, snap: Product): Thread {
    Thread(o.login, WarehouseToken(o, c), o.product, o.quantity, false, Delegating(snap))
  }

  /** A writer's request up to the point where it has read the row and may call the warehouse. */
  lemma Opens(dir: Directory, w: World, tid: nat, o: Order, c: Circumstances)
    requires Ready(w, tid, o) && Clean(c) && Writer(o)
    requires o.product in w.products && o.quantity <= w.products[o.product].aggregate
    ensures Run(dir, w, Arrive(tid, o, c) + Read(tid, c))
            == w.(threads := w.threads[tid := Waiting(o, c, w.products[o.product])])
  {
    var inventory := Obtain(ORDER, OrderToken(o), INVENTORY, "inventory", c.firstExchange, c.toInventory);
    assert HasAnyRole(OrderToken(o), {"order-writer"});
    assert inventory.Some? && HasAnyRole(inventory.value, {"inventory-writer"});
    RunOn(dir, w, Arrive(tid, o, c), Read(tid, c));
    Arrives(dir, w, tid, o, c);
    Reads(dir, w, tid, o, inventory.value, c);
  }

  /** The world once the warehouse has accepted. */
  function Given(w: World, tid: nat, o: Order, snap: Product): World {
    var key := StockKey(snap.branch, o.product);
    w.(redis := w.redis[key := Get(w.redis, key) - o.quantity],
       accepted := w.accepted + [Decrement(tid, snap.branch, o.product, o.quantity)])
  }

  /** The world once the old row, less the quantity, has been written back and the order saved. */
  function Confirmed(w: World, tid: nat, o: Order, snap: Product): World
    requires o.product in w.products
  {
    w.(products := w.products[o.product := w.products[o.product].(aggregate := snap.aggregate - o.quantity)],
       orders := w.orders + [OrderRow(tid, o.product, o.quantity, CONFIRMED)])
  }

  function Sold(w: World, tid: nat, o: Order, snap: Product): World
    requires o.product in w.products
  {
    Confirmed(Given(w, tid, o, snap), tid, o, snap)
  }

  lemma AtSelf(w: World, tid: nat, o: Order, c: Circumstances, snap: Product)
    requires tid in w.threads && w.threads[tid] == Waiting(o, c, snap)
    ensures w == At(w, tid, o, WarehouseToken(o, c), false, Delegating(snap))
  {
    assert w.threads == w.threads[tid := w.threads[tid]];
  }

  /** The rest of that request, from any world that other requests have meanwhile made. */
  lemma Finishes(dir: Directory, w: World, tid: nat, o: Order, c: Circumstances, snap: Product)
    requires Clean(c) && o.product in w.products && tid in w.threads && w.threads[tid] == Waiting(o, c, snap)
    requires Permitted(dir, o.login, snap.branch) && 0 <= o.quantity <= Get(w.redis, StockKey(snap.branch, o.product))
    ensures Run(dir, w, Take(tid, c) + Close(tid, c)) == At(Sold(w, tid, o, snap), tid, o, WarehouseToken(o, c), true, Finished)
  {
    AtSelf(w, tid, o, c, snap);
    RunOn(dir, w, Take(tid, c), Close(tid, c));
    FinishesFrom(dir, w, tid, o, WarehouseToken(o, c), c, snap);
  }

  lemma FinishesFrom(dir: Directory, w: World, tid: nat, o: Order, token: Token, c: Circumstances, snap: Product)
    requires Clean(c) && o.product in w.products && SameUser(o.login, token)
    requires Permitted(dir, o.login, snap.branch) && 0 <= o.quantity <= Get(w.redis, StockKey(snap.branch, o.product))
    ensures Run(dir, Run(dir, At(w, tid, o, token, false, Delegating(snap)), Take(tid, c)), Close(tid, c))
            == At(Sold(w, tid, o, snap), tid, o, token, true, Finished)
  {
    PermittedBySameUser(dir, o.login, token, snap.branch);
    TakesClean(dir, w, tid, o, token, snap, c);
    ClosesClean(dir, Given(w, tid, o, snap), tid, o, token, snap, c);
  }

  lemma TakesClean(dir: Directory, w: World, tid: nat, o: Order, token: Token, snap: Product, c: Circumstances)
    requires Clean(c) && Permitted(dir, token, snap.branch) && 0 <= o.quantity <= Get(w.redis, StockKey(snap.branch, o.product))
    ensures Run(dir, At(w, tid, o, token, false, Delegating(snap)), Take(tid, c)) == At(Given(w, tid, o, snap), tid, o, token, true, Writing(snap))
  {
    Takes(dir, w, tid, o, token, snap, c);
    AuthorizeDecidesTable(dir, token, snap.branch, c.lookup);
  }

  lemma ClosesClean(dir: Directory, w: World, tid: nat, o: Order, token: Token, snap: Product, c: Circumstances)
    requires Clean(c) && o.product in w.products
    ensures Run(dir, At(w, tid, o, token, true, Writing(snap)), Close(tid, c))
            == At(Confirmed(w, tid, o, snap), tid, o, token, true, Finished)
  {
    Closes(dir, w, tid, o, token, true, Writing(snap), c);
  }

  // ---- Any number of overlapping requests ----

  function Total(os: seq<Order>): int {
    if os == [] then 0 else Total(os[..|os| - 1]) + os[|os| - 1].quantity
  }

  /** All requests read the row before any of them writes it. */
  function OpenAll(os: seq<Order>, c: Circumstances): seq<Event> {
    if os == [] then []
    else
      var last := |os| - 1;
      OpenAll(os[..last], c) + (Arrive(last, os[last], c) + Read(last, c))
  }

  function FinishAll(n: nat, c: Circumstances): seq<Event> {
    if n == 0 then [] else FinishAll(n - 1, c) + (Take(n - 1, c) + Close(n - 1, c))
  }

  /** Requests by users who may order, each within what the row and the cell promise. */
  ghost predicate Servable(dir: Directory, row: Product, cell: int, product: string, os: seq<Order>) {
    && (forall i :: 0 <= i < |os| ==>
        Writer(os[i]) && os[i].product == product && 0 <= os[i].quantity <= row.aggregate && Permitted(dir, os[i].login, row.branch))
    && Total(os) <= cell
  }

  ghost predicate AllWaiting(w: World, os: seq<Order>, c: Circumstances, row: Product, from: nat, to: nat) {
    forall i: nat :: from <= i < to <= |os| ==> i in w.threads && w.threads[i] == Waiting(os[i], c, row)
  }

  /** Requests 0 to |os| - 1 have read the row, and nothing else has happened. */
  ghost predicate Opened(first: World, w: World, product: string, os: seq<Order>, c: Circumstances) {
    && product in first.products && w == first.(threads := w.threads)
    && AllWaiting(w, os, c, first.products[product], 0, |os|)
    && forall tid :: tid in w.threads ==> tid < |os|
  }

  lemma {:induction false} AllOpen(dir: Directory, first: World, product: string, os: seq<Order>, c: Circumstances)
    requires Clean(c) && product in first.products && first.threads == map[]
    requires forall i :: 0 <= i < |os| ==> Writer(os[i]) && os[i].product == product && os[i].quantity <= first.products[product].aggregate
    ensures Opened(first, Run(dir, first, OpenAll(os, c)), product, os, c)
  {
    if os != [] {
      var last := |os| - 1;
      AllOpen(dir, first, product, os[..last], c);
      var w := Run(dir, first, OpenAll(os[..last], c));
      OpenNext(first, w, product, os, c);
      assert Run(dir, first, OpenAll(os, c)) == w.(threads := w.threads[last := Waiting(os[last], c, first.products[product])]) by {
        RunOn(dir, first, OpenAll(os[..last], c), Arrive(last, os[last], c) + Read(last, c));
        Opens(dir, w, last, os[last], c);
      }
    }
  }

  lemma OpenNext(first: World, w: World, product: string, os: seq<Order>, c: Circumstances)
    requires os != [] && Opened(first, w, product, os[..|os| - 1], c)
    ensures Opened(first, w.(threads := w.threads[|os| - 1 := Waiting(os[|os| - 1], c, first.products[product])]), product, os, c)
  {
    assert forall i: nat :: i < |os| - 1 ==> os[..|os| - 1][i] == os[i];
  }

  lemma {:induction false} TotalMonotone(os: seq<Order>, n: nat)
    requires n <= |os| && forall i :: 0 <= i < |os| ==> os[i].quantity >= 0
    ensures 0 <= Total(os[..n]) <= Total(os)
    decreases |os|
  {
    if n == |os| {
      assert os[..n] == os;
      if n > 0 { TotalMonotone(os[..n - 1], n - 1); assert os[..n - 1][..n - 1] == os[..n - 1]; }
    } else {
      TotalMonotone(os[..|os| - 1], n);
      assert os[..|os| - 1][..n] == os[..n];
    }
  }

  /** After the first `n` have finished. */
  ghost predicate FirstFinished(w: World, row: Product, cell: int, product: string, os: seq<Order>, n: nat, c: Circumstances)
    requires n <= |os|
  {
    && AllWaiting(w, os, c, row, n, |os|)
    && product in w.products && w.products[product].aggregate == row.aggregate - (if n == 0 then 0 else os[n - 1].quantity)
    && Get(w.redis, StockKey(row.branch, product)) == cell - Total(os[..n])
    && TakenOf(w.accepted, product) == Total(os[..n])
    && |w.orders| == n && forall i :: 0 <= i < n ==> w.orders[i] == OrderRow(i, product, os[i].quantity, CONFIRMED)
  }

  lemma NextFinishes(dir: Directory, w: World, row: Product, cell: int, product: string, os: seq<Order>, n: nat, c: Circumstances)
    requires Clean(c) && Servable(dir, row, cell, product, os) && n < |os|
    requires FirstFinished(w, row, cell, product, os, n, c)
    ensures FirstFinished(Run(dir, w, Take(n, c) + Close(n, c)), row, cell, product, os, n + 1, c)
  {
    RoomForNext(dir, row, cell, product, os, n);
    Finishes(dir, w, n, os[n], c, row);
    var w' := At(Sold(w, n, os[n], row), n, os[n], WarehouseToken(os[n], c), true, Finished);
    SoldNext(w, row, cell, product, os, n, c, w');
    assert Run(dir, w, Take(n, c) + Close(n, c)) == w';
  }

  lemma RoomForNext(dir: Directory, row: Product, cell: int, product: string, os: seq<Order>, n: nat)
    requires Servable(dir, row, cell, product, os) && n < |os|
    ensures os[n].product == product && Permitted(dir, os[n].login, row.branch)
    ensures 0 <= os[n].quantity <= cell - Total(os[..n])
  {
    TotalMonotone(os, n + 1);
    assert os[..n + 1][..n] == os[..n];
  }

  lemma SoldNext(w: World, row: Product, cell: int, product: string, os: seq<Order>, n: nat, c: Circumstances, w': World)
    requires n < |os| && os[n].product == product && FirstFinished(w, row, cell, product, os, n, c)
    requires w' == Sold(w, n, os[n], row).(threads := w'.threads)
    requires forall i :: i != n && i in w.threads ==> i in w'.threads && w'.threads[i] == w.threads[i]
    ensures FirstFinished(w', row, cell, product, os, n + 1, c)
  {
    assert os[..n + 1][..n] == os[..n];
    TakenNext(w.accepted, Decrement(n, row.branch, product, os[n].quantity), "", product);
  }

  lemma {:induction false} AllFinish(dir: Directory, w: World, row: Product, cell: int, product: string, os: seq<Order>, n: nat, c: Circumstances)
    requires Clean(c) && Servable(dir, row, cell, product, os) && n <= |os|
    requires FirstFinished(w, row, cell, product, os, 0, c)
    ensures FirstFinished(Run(dir, w, FinishAll(n, c)), row, cell, product, os, n, c)
  {
    if n > 0 {
      AllFinish(dir, w, row, cell, product, os, n - 1, c);
      var w1 := Run(dir, w, FinishAll(n - 1, c));
      NextFinishes(dir, w1, row, cell, product, os, n - 1, c);
      assert Run(dir, w, FinishAll(n, c)) == Run(dir, w1, Take(n - 1, c) + Close(n - 1, c)) by {
        RunOn(dir, w, FinishAll(n - 1, c), Take(n - 1, c) + Close(n - 1, c));
      }
    }
  }

  /** Lost updates: of any number of requests that read the row together and are all confirmed, the aggregate remembers
      only the last. The warehouse has given the total, so the drift is the total of all but the last, without bound. */
  lemma OverlapDrifts(dir: Directory, products: map<string, Product>, redis: Redis, product: string, os: seq<Order>, c: Circumstances)
    requires Clean(c) && product in products && os != []
    requires Servable(dir, products[product], Get(redis, StockKey(products[product].branch, product)), product, os)
    ensures var w := Run(dir, Begin(products, redis), OpenAll(os, c) + FinishAll(|os|, c));
            && |w.orders| == |os| && (forall i :: 0 <= i < |os| ==> w.orders[i].status == CONFIRMED)
            && TakenOf(w.accepted, product) == Total(os) && product in w.products
            && w.products[product].aggregate - (products[product].aggregate - TakenOf(w.accepted, product)) == Total(os[..|os| - 1])
  {
    var w := Begin(products, redis);
    var row := products[product];
    var cell := Get(redis, StockKey(row.branch, product));
    AllOpen(dir, w, product, os, c);
    RunOn(dir, w, OpenAll(os, c), FinishAll(|os|, c));
    var allOpen := Run(dir, w, OpenAll(os, c));
    NoneFinished(w, allOpen, product, cell, os, c);
    AllFinish(dir, allOpen, row, cell, product, os, |os|, c);
    assert os[..|os|] == os;
  }

  lemma NoneFinished(first: World, w: World, product: string, cell: int, os: seq<Order>, c: Circumstances)
    requires Opened(first, w, product, os, c) && first.orders == [] && first.accepted == []
    requires cell == Get(first.redis, StockKey(first.products[product].branch, product))
    ensures FirstFinished(w, first.products[product], cell, product, os, 0, c)
  {
  }

  /** A write that fails after the warehouse has accepted: the stock is gone, the aggregate still shows it, and the user
      is told of no order at all. */
  lemma LostWriteDrifts(dir: Directory, s: Stores, claims: Token, product: string, quantity: int, c: Circumstances)
    requires Clean(c.(write := NoFault)) && c.write.BeforeEffect? && ORDER in claims.aud
    requires "order-writer" in claims.roles && "inventory-writer" in claims.roles && Available(dir, s, claims, product, quantity)
    ensures PlaceOrder(dir, s, claims, product, quantity, c) == (s.(redis := Less(s, product, quantity).redis), None)
  {
    HandlerAnswer(dir, s, claims, product, quantity, c.(write := NoFault));
    var token := Obtain(ORDER, claims, INVENTORY, "inventory", true, c.toInventory).value;
    assert HasAnyRole(claims, {"order-writer"}) && HasAnyRole(token, {"inventory-writer"});
  }
}
