/** Schedules of the order saga: one request on its own behaves as the sequential order flow, and the overlaps and
    crashes that make the aggregate drift. */
module SagaSchedules {
  import opened Text
  import opened Realm
  import opened Authorization
  import opened StockKeys
  import opened Saga
  import opened OrderFlow

  /** What the user asks for, with a login that the frontend has exchanged under `stamp`. */
  datatype Order = Order(login: Token, product: string, quantity: int, stamp: Stamp)

  function OrderToken(o: Order): Token {
    Narrowed(FRONTEND, o.login, ORDER, "order", o.stamp.jti, o.stamp.now, o.stamp.ttl)
  }

  // ---- The five stretches of a request ----

  function Arrive(tid: nat, o: Order, c: Circumstances): seq<Event> {
    [Submit(tid, o.login, o.product, o.quantity, o.stamp), AdmitOrder(tid),
     ExchangeForInventory(tid, c.firstExchange, c.toInventory)]
  }

  function Read(tid: nat, c: Circumstances): seq<Event> {
    [AdmitInventory(tid), Load(tid, c.load), ExchangeForWarehouse(tid, c.secondExchange, c.toWarehouse)]
  }

  function Take(tid: nat, c: Circumstances): seq<Event> {
    [CallWarehouse(tid, c.delivered, c.lookup), Script(tid, c.script), HearWarehouse(tid, c.answerLost)]
  }

  function Close(tid: nat, c: Circumstances): seq<Event> {
    [Overwrite(tid, c.write), HearInventory(tid, c.replyLost), Save(tid, c.save)]
  }

  function Alone(tid: nat, o: Order, c: Circumstances): seq<Event> {
    Arrive(tid, o, c) + Read(tid, c) + Take(tid, c) + Close(tid, c)
  }

  lemma RunThree(dir: Directory, w: World, a: Event, b: Event, c: Event)
    ensures Run(dir, w, [a, b, c]) == Apply(dir, Apply(dir, Apply(dir, w, a), b), c)
  {
    RunPair(dir, Apply(dir, w, a), b, c);
    assert [a, b, c][1..] == [b, c];
  }

  lemma RunPair(dir: Directory, w: World, a: Event, b: Event)
    ensures Run(dir, w, [a, b]) == Apply(dir, Apply(dir, w, a), b)
  {
    assert [a, b][1..] == [b];
    assert Run(dir, Apply(dir, w, a), [b]) == Run(dir, Apply(dir, Apply(dir, w, a), b), []) by {
      assert [b][1..] == [];
    }
  }

  // ---- One request from one phase to the next ----

  function At(w: World, tid: nat, o: Order, token: Token, moved: bool, phase: Phase): World {
    w.(threads := w.threads[tid := Thread(o.login, token, o.product, o.quantity, moved, phase)])
  }

  predicate Ready(w: World, tid: nat, o: Order) {
    tid !in w.threads && IsLogin(o.login)
  }

  lemma Arrives(dir: Directory, w: World, tid: nat, o: Order, c: Circumstances)
    requires Ready(w, tid, o)
    ensures var first := OrderToken(o);
            var token := Obtain(ORDER, first, INVENTORY, "inventory", c.firstExchange, c.toInventory);
            Run(dir, w, Arrive(tid, o, c)) ==
              if HasAnyRole(first, {"order-writer"}) && token.Some? then At(w, tid, o, token.value, false, AtInventory)
              else At(w, tid, o, first, false, Failed)
  {
    var es := Arrive(tid, o, c);
    RunThree(dir, w, es[0], es[1], es[2]);
    var first := OrderToken(o);
    var w1 := Apply(dir, w, es[0]);
    assert w1 == At(w, tid, o, first, false, Received);
    var w2 := Apply(dir, w1, es[1]);
    assert w2 == At(w, tid, o, first, false, if HasAnyRole(first, {"order-writer"}) then Admitted else Failed);
  }

  /** Where the read stretch leaves a request: with a row and a warehouse token, or with a reply. */
  function AfterRead(w: World, tid: nat, o: Order, token: Token, c: Circumstances): World {
    if InventoryGate(token).Err? then At(w, tid, o, token, false, Replying(InventoryGate(token).error))
    else if !c.load then At(w, tid, o, token, false, Replying(500))
    else if o.product !in w.products then At(w, tid, o, token, false, Replying(404))
    else if w.products[o.product].aggregate < o.quantity then At(w, tid, o, token, false, Replying(409))
    else
      match Obtain(INVENTORY, token, WAREHOUSE, "warehouse", c.secondExchange, c.toWarehouse)
      case None => At(w, tid, o, token, false, Replying(502))
      case Some(next) => At(w, tid, o, next, false, Delegating(w.products[o.product]))
  }

  lemma AdmitsAtInventory(dir: Directory, w: World, tid: nat, o: Order, token: Token)
    ensures Apply(dir, At(w, tid, o, token, false, AtInventory), AdmitInventory(tid))
            == At(w, tid, o, token, false, if InventoryGate(token).Err? then Replying(InventoryGate(token).error) else Allowed)
  {
  }

  lemma Loads(dir: Directory, w: World, tid: nat, o: Order, token: Token, ok: bool)
    ensures Apply(dir, At(w, tid, o, token, false, Allowed), Load(tid, ok))
            == At(w, tid, o, token, false,
                  if !ok then Replying(500) else if o.product !in w.products then Replying(404)
                  else if w.products[o.product].aggregate < o.quantity then Replying(409) else Loaded(w.products[o.product]))
  {
  }

  lemma ExchangesForWarehouse(dir: Directory, w: World, tid: nat, o: Order, token: Token, snap: Product, ok: bool, stamp: Stamp)
    ensures var next := Obtain(INVENTORY, token, WAREHOUSE, "warehouse", ok, stamp);
            Apply(dir, At(w, tid, o, token, false, Loaded(snap)), ExchangeForWarehouse(tid, ok, stamp))
            == if next.Some? then At(w, tid, o, next.value, false, Delegating(snap)) else At(w, tid, o, token, false, Replying(502))
  {
  }

  /** A request that has failed or is replying takes none of the middle steps. */
  lemma Ignores(dir: Directory, w: World, tid: nat, o: Order, token: Token, moved: bool, phase: Phase, e: Event)
    requires phase.Replying? || phase.Failed?
    requires e.AdmitInventory? || e.Load? || e.ExchangeForWarehouse? || e.CallWarehouse? || e.Script? || e.HearWarehouse? || e.Overwrite?
    ensures e.tid == tid ==> Apply(dir, At(w, tid, o, token, moved, phase), e) == At(w, tid, o, token, moved, phase)
  {
  }

  lemma Reads(dir: Directory, w: World, tid: nat, o: Order, token: Token, c: Circumstances)
    ensures Run(dir, At(w, tid, o, token, false, AtInventory), Read(tid, c)) == AfterRead(w, tid, o, token, c)
  {
    var es := Read(tid, c);
    RunThree(dir, At(w, tid, o, token, false, AtInventory), es[0], es[1], es[2]);
    AdmitsAtInventory(dir, w, tid, o, token);
    Loads(dir, w, tid, o, token, c.load);
    if InventoryGate(token).Err? {
      Ignores(dir, w, tid, o, token, false, Replying(InventoryGate(token).error), es[1]);
      Ignores(dir, w, tid, o, token, false, Replying(InventoryGate(token).error), es[2]);
    } else if c.load && o.product in w.products && o.quantity <= w.products[o.product].aggregate {
      ExchangesForWarehouse(dir, w, tid, o, token, w.products[o.product], c.secondExchange, c.toWarehouse);
    } else {
      var status := if !c.load then 500 else if o.product !in w.products then 404 else 409;
      Ignores(dir, w, tid, o, token, false, Replying(status), es[2]);
    }
  }

  /** The world once the warehouse has answered and inventory-service has heard it. */
  function AfterTake(dir: Directory, w: World, tid: nat, o: Order, token: Token, snap: Product, c: Circumstances): World {
    var (redis, answer) := AskWarehouse(dir, w.redis, token, snap.branch, o.product, o.quantity, c);
    var moved := TakesStock(dir, w, o, token, snap, c);
    var accepted := if moved then w.accepted + [Decrement(tid, snap.branch, o.product, o.quantity)] else w.accepted;
    At(w.(redis := redis, accepted := accepted), tid, o, token, moved,
       if answer.Err? then Replying(502) else if answer.value then Writing(snap) else Replying(409))
  }

  predicate TakesStock(dir: Directory, w: World, o: Order, token: Token, snap: Product, c: Circumstances) {
    && c.delivered && AuthorizeBranch(dir, token, snap.branch, c.lookup).Ok? && !c.script.BeforeEffect?
    && 0 <= ReserveScript(w.redis, StockKey(snap.branch, o.product), o.quantity).1
  }

  lemma CallsWarehouse(dir: Directory, w: World, tid: nat, o: Order, token: Token, snap: Product, delivered: bool, lookup: LookupFault)
    ensures var decision := AuthorizeBranch(dir, token, snap.branch, lookup);
            Apply(dir, At(w, tid, o, token, false, Delegating(snap)), CallWarehouse(tid, delivered, lookup))
            == At(w, tid, o, token, false,
                  if !delivered then Replying(502) else if decision.Err? then Answered(snap, decision.error) else Authorized(snap))
  {
  }

  lemma Scripts(dir: Directory, w: World, tid: nat, o: Order, token: Token, snap: Product, fault: Fault)
    ensures var (redis, result) := ReserveScript(w.redis, StockKey(snap.branch, o.product), o.quantity);
            Apply(dir, At(w, tid, o, token, false, Authorized(snap)), Script(tid, fault))
            == if fault.BeforeEffect? then At(w, tid, o, token, false, Answered(snap, 500))
               else if result < 0 then At(w, tid, o, token, false, Answered(snap, if fault.AfterEffect? then 500 else 409))
               else At(w.(redis := redis, accepted := w.accepted + [Decrement(tid, snap.branch, o.product, o.quantity)]),
                       tid, o, token, true, Answered(snap, if fault.AfterEffect? then 500 else 200))
  {
  }

  lemma HearsWarehouse(dir: Directory, w: World, tid: nat, o: Order, token: Token, moved: bool, snap: Product, status: int, lost: bool)
    ensures var answer := ReservedAtWarehouse(status);
            Apply(dir, At(w, tid, o, token, moved, Answered(snap, status)), HearWarehouse(tid, lost))
            == At(w, tid, o, token, moved,
                  if lost || answer.Err? then Replying(502) else if answer.value then Writing(snap) else Replying(409))
  {
  }

  lemma Takes(dir: Directory, w: World, tid: nat, o: Order, token: Token, snap: Product, c: Circumstances)
    ensures Run(dir, At(w, tid, o, token, false, Delegating(snap)), Take(tid, c)) == AfterTake(dir, w, tid, o, token, snap, c)
  {
    var es := Take(tid, c);
    RunThree(dir, At(w, tid, o, token, false, Delegating(snap)), es[0], es[1], es[2]);
    CallsWarehouse(dir, w, tid, o, token, snap, c.delivered, c.lookup);
    var decision := AuthorizeBranch(dir, token, snap.branch, c.lookup);
    if !c.delivered {
      Ignores(dir, w, tid, o, token, false, Replying(502), es[1]);
      Ignores(dir, w, tid, o, token, false, Replying(502), es[2]);
    } else if decision.Err? {
      var w1 := At(w, tid, o, token, false, Answered(snap, decision.error));
      assert Apply(dir, w1, es[1]) == w1;
      HearsWarehouse(dir, w, tid, o, token, false, snap, decision.error, c.answerLost);
    } else {
      Scripted(dir, w, tid, o, token, snap, c);
    }
  }

  lemma Scripted(dir: Directory, w: World, tid: nat, o: Order, token: Token, snap: Product, c: Circumstances)
    requires c.delivered && AuthorizeBranch(dir, token, snap.branch, c.lookup).Ok?
    ensures Apply(dir, Apply(dir, At(w, tid, o, token, false, Authorized(snap)), Script(tid, c.script)), HearWarehouse(tid, c.answerLost))
            == AfterTake(dir, w, tid, o, token, snap, c)
  {
    var (redis, result) := ReserveScript(w.redis, StockKey(snap.branch, o.product), o.quantity);
    var status := ReserveAtBranch(dir, w.redis, token, snap.branch, o.product, o.quantity, c.lookup, c.script).1;
    Scripts(dir, w, tid, o, token, snap, c.script);
    if TakesStock(dir, w, o, token, snap, c) {
      var w1 := w.(redis := redis, accepted := w.accepted + [Decrement(tid, snap.branch, o.product, o.quantity)]);
      HearsWarehouse(dir, w1, tid, o, token, true, snap, status, c.answerLost);
    } else {
      HearsWarehouse(dir, w, tid, o, token, false, snap, status, c.answerLost);
    }
  }

  function Reply(w: World, tid: nat, o: Order, token: Token, moved: bool, status: int, c: Circumstances): World {
    var answer := InventoryReserve(status);
    if c.replyLost || answer.Err? || c.save.BeforeEffect? then At(w, tid, o, token, moved, Failed)
    else
      At(w.(orders := w.orders + [OrderRow(tid, o.product, o.quantity, if answer.value then CONFIRMED else REJECTED)]),
         tid, o, token, moved, if c.save.AfterEffect? then Failed else Finished)
  }

  lemma HearsInventory(dir: Directory, w: World, tid: nat, o: Order, token: Token, moved: bool, status: int, lost: bool)
    ensures var answer := InventoryReserve(status);
            Apply(dir, At(w, tid, o, token, moved, Replying(status)), HearInventory(tid, lost))
            == At(w, tid, o, token, moved, if lost || answer.Err? then Failed else Decided(answer.value))
  {
  }

  lemma Saves(dir: Directory, w: World, tid: nat, o: Order, token: Token, moved: bool, reserved: bool, fault: Fault)
    ensures var row := OrderRow(tid, o.product, o.quantity, if reserved then CONFIRMED else REJECTED);
            Apply(dir, At(w, tid, o, token, moved, Decided(reserved)), Save(tid, fault))
            == if fault.BeforeEffect? then At(w, tid, o, token, moved, Failed)
               else At(w.(orders := w.orders + [row]), tid, o, token, moved, if fault.AfterEffect? then Failed else Finished)
    ensures Apply(dir, At(w, tid, o, token, moved, Failed), Save(tid, fault)) == At(w, tid, o, token, moved, Failed)
  {
  }

  lemma Replies(dir: Directory, w: World, tid: nat, o: Order, token: Token, moved: bool, status: int, c: Circumstances)
    ensures Apply(dir, Apply(dir, At(w, tid, o, token, moved, Replying(status)), HearInventory(tid, c.replyLost)), Save(tid, c.save))
            == Reply(w, tid, o, token, moved, status, c)
  {
    HearsInventory(dir, w, tid, o, token, moved, status, c.replyLost);
    Saves(dir, w, tid, o, token, moved, InventoryReserve(status).Ok? && InventoryReserve(status).value, c.save);
  }

  /** The write of a row read earlier, seen from inventory-service's table. */
  function Written(w: World, o: Order, snap: Product, write: Fault): World {
    if write.BeforeEffect? || o.product !in w.products then w
    else w.(products := w.products[o.product := w.products[o.product].(aggregate := snap.aggregate - o.quantity)])
  }

  function AfterClose(w: World, tid: nat, o: Order, token: Token, moved: bool, phase: Phase, c: Circumstances): World {
    match phase
    case Writing(snap) => Reply(Written(w, o, snap, c.write), tid, o, token, moved, if c.write.NoFault? then 200 else 500, c)
    case Replying(status) => Reply(w, tid, o, token, moved, status, c)
    case _ => At(w, tid, o, token, moved, phase)
  }

  lemma Writes(dir: Directory, w: World, tid: nat, o: Order, token: Token, moved: bool, snap: Product, fault: Fault)
    ensures Apply(dir, At(w, tid, o, token, moved, Writing(snap)), Overwrite(tid, fault))
            == At(Written(w, o, snap, fault), tid, o, token, moved, Replying(if fault.NoFault? then 200 else 500))
  {
  }

  lemma Closes(dir: Directory, w: World, tid: nat, o: Order, token: Token, moved: bool, phase: Phase, c: Circumstances)
    requires phase.Writing? || phase.Replying? || phase.Failed?
    ensures Run(dir, At(w, tid, o, token, moved, phase), Close(tid, c)) == AfterClose(w, tid, o, token, moved, phase, c)
  {
    var es := Close(tid, c);
    RunThree(dir, At(w, tid, o, token, moved, phase), es[0], es[1], es[2]);
    match phase
    case Writing(snap) =>
      Writes(dir, w, tid, o, token, moved, snap, c.write);
      Replies(dir, Written(w, o, snap, c.write), tid, o, token, moved, if c.write.NoFault? then 200 else 500, c);
    case Replying(status) =>
      Ignores(dir, w, tid, o, token, moved, phase, es[0]);
      Replies(dir, w, tid, o, token, moved, status, c);
    case Failed =>
      Ignores(dir, w, tid, o, token, moved, phase, es[0]);
  }

  /** A request that has failed or is replying is past the read and take stretches. */
  lemma Skips(dir: Directory, w: World, tid: nat, o: Order, token: Token, phase: Phase, c: Circumstances)
    requires phase.Replying? || phase.Failed?
    ensures Run(dir, At(w, tid, o, token, false, phase), Read(tid, c)) == At(w, tid, o, token, false, phase)
    ensures Run(dir, At(w, tid, o, token, false, phase), Take(tid, c)) == At(w, tid, o, token, false, phase)
  {
    var w0 := At(w, tid, o, token, false, phase);
    RunThree(dir, w0, Read(tid, c)[0], Read(tid, c)[1], Read(tid, c)[2]);
    RunThree(dir, w0, Take(tid, c)[0], Take(tid, c)[1], Take(tid, c)[2]);
    forall e | e in Read(tid, c) + Take(tid, c) ensures Apply(dir, w0, e) == w0 {
      Ignores(dir, w, tid, o, token, false, phase, e);
    }
  }

  // ---- One request alone ----

  function Saved(tid: nat, o: Order, saved: Option<OrderStatus>): seq<OrderRow> {
    if saved.Some? then [OrderRow(tid, o.product, o.quantity, saved.value)] else []
  }

  /** `w'` is `w` after the sequential flow has dealt with the order. */
  ghost predicate Refines(dir: Directory, w: World, w': World, tid: nat, o: Order, c: Circumstances) {
    var (stores, saved) := PlaceOrder(dir, Stores(w.redis, w.products), OrderToken(o), o.product, o.quantity, c);
    Ended(w, w', tid, o, stores, saved)
  }

  ghost predicate Ended(w: World, w': World, tid: nat, o: Order, stores: Stores, saved: Option<OrderStatus>) {
    && w'.redis == stores.redis && w'.products == stores.products
    && w'.orders == w.orders + Saved(tid, o, saved)
    && tid in w'.threads && w'.threads - {tid} == w.threads
  }

  /** The status of the order that is saved for a reply of inventory-service. */
  function SavedFor(status: int, c: Circumstances): Option<OrderStatus> {
    var answer := InventoryReserve(status);
    if c.replyLost || answer.Err? || c.save.BeforeEffect? then None
    else Some(if answer.value then CONFIRMED else REJECTED)
  }

  lemma Ends(w: World, tid: nat, o: Order, token: Token, moved: bool, phase: Phase, c: Circumstances)
    requires tid !in w.threads && (phase.Writing? || phase.Replying? || phase.Failed?)
    requires phase.Writing? ==> o.product in w.products && w.products[o.product] == phase.snap
    ensures var w' := AfterClose(w, tid, o, token, moved, phase, c);
            if phase.Writing? then
              var products := if c.write.BeforeEffect? then w.products
                              else w.products[o.product := phase.snap.(aggregate := phase.snap.aggregate - o.quantity)];
              Ended(w, w', tid, o, Stores(w.redis, products), SavedFor(if c.write.NoFault? then 200 else 500, c))
            else Ended(w, w', tid, o, Stores(w.redis, w.products), if phase.Replying? then SavedFor(phase.status, c) else None)
  {
    var w' := AfterClose(w, tid, o, token, moved, phase, c);
    var t := w'.threads[tid];
    assert w'.threads == w.threads[tid := t];
    assert w.threads[tid := t] - {tid} == w.threads;
  }

  /** The whole request, stretch after stretch. */
  function AloneEnd(dir: Directory, w: World, tid: nat, o: Order, c: Circumstances): World {
    var first := OrderToken(o);
    match Obtain(ORDER, first, INVENTORY, "inventory", c.firstExchange, c.toInventory)
    case None => AfterClose(w, tid, o, first, false, Failed, c)
    case Some(token) =>
      if !HasAnyRole(first, {"order-writer"}) then AfterClose(w, tid, o, first, false, Failed, c)
      else EndFromRead(dir, w, tid, o, token, c)
  }

  function EndFromRead(dir: Directory, w: World, tid: nat, o: Order, token: Token, c: Circumstances): World {
    var t := AfterRead(w, tid, o, token, c).threads[tid];
    if t.phase.Delegating? then EndFromTake(dir, w, tid, o, t.token, t.phase.snap, c)
    else AfterClose(w, tid, o, token, false, t.phase, c)
  }

  function EndFromTake(dir: Directory, w: World, tid: nat, o: Order, token: Token, snap: Product, c: Circumstances): World {
    var w1 := AfterTake(dir, w, tid, o, token, snap, c);
    AfterClose(w.(redis := w1.redis, accepted := w1.accepted), tid, o, token, w1.threads[tid].moved, w1.threads[tid].phase, c)
  }

  lemma ReachesEnd(dir: Directory, w: World, tid: nat, o: Order, c: Circumstances)
    requires Ready(w, tid, o)
    ensures Run(dir, w, Alone(tid, o, c)) == AloneEnd(dir, w, tid, o, c)
  {
    var first := OrderToken(o);
    var token := Obtain(ORDER, first, INVENTORY, "inventory", c.firstExchange, c.toInventory);
    RunFour(dir, w, Arrive(tid, o, c), Read(tid, c), Take(tid, c), Close(tid, c));
    Arrives(dir, w, tid, o, c);
    if HasAnyRole(first, {"order-writer"}) && token.Some? {
      Reads(dir, w, tid, o, token.value, c);
      ReachesFromRead(dir, w, tid, o, token.value, c);
    } else {
      Skips(dir, w, tid, o, first, Failed, c);
      Closes(dir, w, tid, o, first, false, Failed, c);
    }
  }

  lemma RunFour(dir: Directory, w: World, a: seq<Event>, b: seq<Event>, c: seq<Event>, d: seq<Event>)
    ensures Run(dir, w, a + b + c + d) == Run(dir, Run(dir, Run(dir, Run(dir, w, a), b), c), d)
  {
    RunOn(dir, w, a + b + c, d);
    RunOn(dir, w, a + b, c);
    RunOn(dir, w, a, b);
  }

  lemma ReadEndsAt(w: World, tid: nat, o: Order, token: Token, c: Circumstances)
    ensures var w1 := AfterRead(w, tid, o, token, c);
            && w1 == At(w, tid, o, w1.threads[tid].token, false, w1.threads[tid].phase)
            && (w1.threads[tid].phase.Delegating? || (w1.threads[tid].phase.Replying? && w1.threads[tid].token == token))
  {
  }

  lemma ReachesFromRead(dir: Directory, w: World, tid: nat, o: Order, token: Token, c: Circumstances)
    ensures Run(dir, Run(dir, AfterRead(w, tid, o, token, c), Take(tid, c)), Close(tid, c)) == EndFromRead(dir, w, tid, o, token, c)
  {
    var t := AfterRead(w, tid, o, token, c).threads[tid];
    ReadEndsAt(w, tid, o, token, c);
    if t.phase.Delegating? {
      Takes(dir, w, tid, o, t.token, t.phase.snap, c);
      ReachesFromTake(dir, w, tid, o, t.token, t.phase.snap, c);
    } else {
      Skips(dir, w, tid, o, token, t.phase, c);
      Closes(dir, w, tid, o, token, false, t.phase, c);
    }
  }

  lemma ReachesFromTake(dir: Directory, w: World, tid: nat, o: Order, token: Token, snap: Product, c: Circumstances)
    ensures Run(dir, AfterTake(dir, w, tid, o, token, snap, c), Close(tid, c)) == EndFromTake(dir, w, tid, o, token, snap, c)
  {
    var w1 := AfterTake(dir, w, tid, o, token, snap, c);
    var t := w1.threads[tid];
    assert w1 == At(w.(redis := w1.redis, accepted := w1.accepted), tid, o, token, t.moved, t.phase);
    Closes(dir, w.(redis := w1.redis, accepted := w1.accepted), tid, o, token, t.moved, t.phase, c);
  }

  lemma EndIsPlaceOrder(dir: Directory, w: World, tid: nat, o: Order, c: Circumstances)
    requires tid !in w.threads
    ensures Refines(dir, w, AloneEnd(dir, w, tid, o, c), tid, o, c)
  {
    var first := OrderToken(o);
    var token := Obtain(ORDER, first, INVENTORY, "inventory", c.firstExchange, c.toInventory);
    if token.Some? && HasAnyRole(first, {"order-writer"}) {
      EndIsReserveRoute(dir, w, tid, o, token.value, c);
    } else {
      Ends(w, tid, o, first, false, Failed, c);
    }
  }

  lemma ReadTurnsAway(dir: Directory, w: World, tid: nat, o: Order, token: Token, c: Circumstances)
    ensures var phase := AfterRead(w, tid, o, token, c).threads[tid].phase;
            && (phase.Replying? || phase.Delegating?)
            && (phase.Replying? ==>
                ReserveRoute(dir, Stores(w.redis, w.products), token, o.product, o.quantity, c) == (Stores(w.redis, w.products), phase.status))
  {
  }

  /** The stores and the status that follow from the warehouse's answer. */
  function AfterAnswer(w: World, o: Order, snap: Product, redis: Redis, answer: Result<bool, ()>, write: Fault): (Stores, int) {
    var products := if answer == Ok(true) && !write.BeforeEffect?
                    then w.products[o.product := snap.(aggregate := snap.aggregate - o.quantity)] else w.products;
    var status := if answer.Err? then 502 else if !answer.value then 409 else if write.NoFault? then 200 else 500;
    (Stores(redis, products), status)
  }

  lemma ReadGoesOn(dir: Directory, w: World, tid: nat, o: Order, token: Token, c: Circumstances)
    requires AfterRead(w, tid, o, token, c).threads[tid].phase.Delegating?
    ensures var t := AfterRead(w, tid, o, token, c).threads[tid];
            && o.product in w.products && t.phase.snap == w.products[o.product]
            && var (redis, answer) := AskWarehouse(dir, w.redis, t.token, t.phase.snap.branch, o.product, o.quantity, c);
            ReserveRoute(dir, Stores(w.redis, w.products), token, o.product, o.quantity, c) == AfterAnswer(w, o, t.phase.snap, redis, answer, c.write)
  {
  }

  lemma EndIsReserveRoute(dir: Directory, w: World, tid: nat, o: Order, token: Token, c: Circumstances)
    requires tid !in w.threads
    ensures var (stores, status) := ReserveRoute(dir, Stores(w.redis, w.products), token, o.product, o.quantity, c);
            Ended(w, EndFromRead(dir, w, tid, o, token, c), tid, o, stores, SavedFor(status, c))
  {
    var t := AfterRead(w, tid, o, token, c).threads[tid];
    ReadTurnsAway(dir, w, tid, o, token, c);
    if t.phase.Delegating? {
      ReadGoesOn(dir, w, tid, o, token, c);
      EndIsAskWarehouse(dir, w, tid, o, t.token, t.phase.snap, c);
    } else {
      Ends(w, tid, o, token, false, t.phase, c);
    }
  }

  lemma EndIsAskWarehouse(dir: Directory, w: World, tid: nat, o: Order, token: Token, snap: Product, c: Circumstances)
    requires tid !in w.threads && o.product in w.products && w.products[o.product] == snap
    ensures var (redis, answer) := AskWarehouse(dir, w.redis, token, snap.branch, o.product, o.quantity, c);
            var (stores, status) := AfterAnswer(w, o, snap, redis, answer, c.write);
            Ended(w, EndFromTake(dir, w, tid, o, token, snap, c), tid, o, stores, SavedFor(status, c))
  {
    var w1 := AfterTake(dir, w, tid, o, token, snap, c);
    var t := w1.threads[tid];
    Ends(w.(redis := w1.redis, accepted := w1.accepted), tid, o, token, t.moved, t.phase, c);
  }

  /** A request that nothing interrupts refines the sequential flow, from any world and under any failures: its whole
      effect on the cells, the products and the orders is that of PlaceOrder, and other requests are not touched. */
  lemma AloneIsPlaceOrder(dir: Directory, w: World, tid: nat, o: Order, c: Circumstances)
    requires Ready(w, tid, o)
    ensures Refines(dir, w, Run(dir, w, Alone(tid, o, c)), tid, o, c)
  {
    ReachesEnd(dir, w, tid, o, c);
    EndIsPlaceOrder(dir, w, tid, o, c);
  }

  /** End to end, when nothing fails: the user's order is confirmed exactly when the user has both writer roles, may act
      for the product's branch, and the aggregate and the cell both suffice; both are then lowered by the quantity, and
      otherwise nothing moves. */
  lemma AloneConfirms(dir: Directory, w: World, tid: nat, o: Order, c: Circumstances)
    requires Ready(w, tid, o) && Clean(c)
    ensures var w' := Run(dir, w, Alone(tid, o, c));
            var s := Stores(w.redis, w.products);
            var confirmed := "order-writer" in o.login.roles && "inventory-writer" in o.login.roles
                             && Available(dir, s, o.login, o.product, o.quantity);
            && Stores(w'.redis, w'.products) == (if confirmed then Less(s, o.product, o.quantity) else s)
            && (confirmed <==> w'.orders == w.orders + [OrderRow(tid, o.product, o.quantity, CONFIRMED)])
  {
    var s := Stores(w.redis, w.products);
    AloneIsPlaceOrder(dir, w, tid, o, c);
    CleanOutcome(dir, s, OrderToken(o), o.product, o.quantity, c);
    SavedOrderIsTrue(dir, s, OrderToken(o), o.product, o.quantity, c);
    assert Available(dir, s, o.login, o.product, o.quantity) <==> Available(dir, s, OrderToken(o), o.product, o.quantity);
    var saved := PlaceOrder(dir, s, OrderToken(o), o.product, o.quantity, c).1;
    assert (w.orders + Saved(tid, o, saved))[|w.orders|..] == Saved(tid, o, saved);
    assert (w.orders + [OrderRow(tid, o.product, o.quantity, CONFIRMED)])[|w.orders|..] == [OrderRow(tid, o.product, o.quantity, CONFIRMED)];
  }
}
