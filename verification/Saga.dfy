/** POST /orders as a saga over order-service, inventory-service and warehouse-service.

    Any number of requests run at once. Every step touches one store or sends one message; a request may die before
    any step, and a store may fail before or after its effect. A step that is not possible leaves the world as it is,
    so every sequence of events is a run. */
module Saga {
  import opened Text
  import opened Realm
  import opened Authorization
  import opened StockKeys

  datatype Product = Product(aggregate: int, branch: string)

  datatype OrderStatus = PENDING | CONFIRMED | REJECTED

  /** A persisted order; `tid` is the request that created it. */
  datatype OrderRow = OrderRow(tid: nat, product: string, quantity: int, status: OrderStatus)

  /** A decrement that the warehouse accepted; `tid` is the request that asked for it. */
  datatype Decrement = Decrement(tid: nat, branch: string, product: string, quantity: int)

  /** Where a request stands. A snapshot is the product row as inventory-service read it. */
  datatype Phase =
    | Received
    | Admitted
    | AtInventory
    | Allowed
    | Loaded(snap: Product)
    | Delegating(snap: Product)
    | Authorized(snap: Product)
    | Answered(snap: Product, status: int)
    | Writing(snap: Product)
    | Replying(status: int)
    | Decided(reserved: bool)
    | Finished
    | Failed

  /** A request: the user's login, the token at the current hop, and whether the warehouse has accepted it. */
  datatype Thread = Thread(login: Token, token: Token, product: string, quantity: int, moved: bool, phase: Phase)

  datatype World = World(
    products: map<string, Product>,
    redis: Redis,
    threads: map<nat, Thread>,
    accepted: seq<Decrement>,
    orders: seq<OrderRow>)

  function Begin(products: map<string, Product>, redis: Redis): World {
    World(products, redis, map[], [], [])
  }

  /** The parts of a new token that Keycloak chooses. */
  datatype Stamp = Stamp(jti: string, now: int, ttl: int)

  datatype Fault = NoFault | BeforeEffect | AfterEffect

  datatype Event =
    | Submit(tid: nat, login: Token, product: string, quantity: int, stamp: Stamp)
    | AdmitOrder(tid: nat)
    | ExchangeForInventory(tid: nat, ok: bool, stamp: Stamp)
    | AdmitInventory(tid: nat)
    | Load(tid: nat, ok: bool)
    | ExchangeForWarehouse(tid: nat, ok: bool, stamp: Stamp)
    | CallWarehouse(tid: nat, delivered: bool, lookup: LookupFault)
    | Script(tid: nat, fault: Fault)
    | HearWarehouse(tid: nat, lost: bool)
    | Overwrite(tid: nat, fault: Fault)
    | HearInventory(tid: nat, lost: bool)
    | Save(tid: nat, fault: Fault)
    | Die(tid: nat)

  function Move(w: World, tid: nat, phase: Phase): World
    requires tid in w.threads
  {
    w.(threads := w.threads[tid := w.threads[tid].(phase := phase)])
  }

  /** The next hop's token, when the exchange is granted. */
  function Hand(w: World, tid: nat, client: string, audience: string, scope: string, stamp: Stamp, granted: Phase, refused: Phase): World
    requires tid in w.threads
  {
    var t := w.threads[tid];
    if MayNarrow(client, t.token, audience, scope)
    then w.(threads := w.threads[tid := t.(token := Narrowed(client, t.token, audience, scope, stamp.jti, stamp.now, stamp.ttl), phase := granted)])
    else Move(w, tid, refused)
  }

  function DoSubmit(w: World, e: Event): World
    requires e.Submit?
  {
    if e.tid in w.threads || !IsLogin(e.login) then w
    else
      var token := Narrowed(FRONTEND, e.login, ORDER, "order", e.stamp.jti, e.stamp.now, e.stamp.ttl);
      w.(threads := w.threads[e.tid := Thread(e.login, token, e.product, e.quantity, false, Received)])
  }

  /** The product row is read once; the aggregate of that row is compared here and overwritten much later. */
  function DoLoad(w: World, tid: nat, ok: bool): World
    requires tid in w.threads
  {
    var t := w.threads[tid];
    if !ok then Move(w, tid, Replying(500))
    else if t.product !in w.products then Move(w, tid, Replying(404))
    else if w.products[t.product].aggregate < t.quantity then Move(w, tid, Replying(409))
    else Move(w, tid, Loaded(w.products[t.product]))
  }

  function DoCallWarehouse(dir: Directory, w: World, tid: nat, snap: Product, delivered: bool, lookup: LookupFault): World
    requires tid in w.threads
  {
    if !delivered then Move(w, tid, Replying(502))
    else
      match AuthorizeBranch(dir, w.threads[tid].token, snap.branch, lookup)
      case Err(status) => Move(w, tid, Answered(snap, status))
      case Ok(_) => Move(w, tid, Authorized(snap))
  }

  function DoScript(w: World, tid: nat, snap: Product, fault: Fault): World
    requires tid in w.threads
  {
    var t := w.threads[tid];
    if fault.BeforeEffect? then Move(w, tid, Answered(snap, 500))
    else
      var (redis, result) := ReserveScript(w.redis, StockKey(snap.branch, t.product), t.quantity);
      if result < 0 then Move(w, tid, Answered(snap, if fault.AfterEffect? then 500 else 409))
      else Accept(w, tid, snap, redis, if fault.AfterEffect? then 500 else 200)
  }

  /** What the warehouse has done once the script has accepted. */
  function Accept(w: World, tid: nat, snap: Product, redis: Redis, status: int): World
    requires tid in w.threads
  {
    var t := w.threads[tid];
    w.(redis := redis,
       accepted := w.accepted + [Decrement(tid, snap.branch, t.product, t.quantity)],
       threads := w.threads[tid := t.(moved := true, phase := Answered(snap, status))])
  }

  /** How inventory-service reads the warehouse's status. */
  function ReservedAtWarehouse(status: int): Result<bool, ()> {
    if status == 200 then Ok(true)
    else if status == 409 || status == 403 then Ok(false)
    else Err(())
  }

  function DoHearWarehouse(w: World, tid: nat, snap: Product, status: int, lost: bool): World
    requires tid in w.threads
  {
    if lost then Move(w, tid, Replying(502))
    else
      match ReservedAtWarehouse(status)
      case Ok(reserved) => if reserved then Move(w, tid, Writing(snap)) else Move(w, tid, Replying(409))
      case Err(_) => Move(w, tid, Replying(502))
  }

  /** The write uses the row that was read before the warehouse was called. */
  function DoOverwrite(w: World, tid: nat, snap: Product, fault: Fault): World
    requires tid in w.threads
  {
    var t := w.threads[tid];
    if fault.BeforeEffect? then Move(w, tid, Replying(500))
    else
      var products := if t.product in w.products
                      then w.products[t.product := w.products[t.product].(aggregate := snap.aggregate - t.quantity)]
                      else w.products;
      Move(w.(products := products), tid, Replying(if fault.AfterEffect? then 500 else 200))
  }

  /** How order-service reads inventory-service's status: only client and server errors throw, and an Err is an
      exception that it passes on. */
  function InventoryReserve(status: int): Result<bool, ()> {
    if status < 400 then Ok(true)
    else if status == 409 then Ok(false)
    else Err(())
  }

  function DoHearInventory(w: World, tid: nat, status: int, lost: bool): World
    requires tid in w.threads
  {
    if lost then Move(w, tid, Failed)
    else
      match InventoryReserve(status)
      case Ok(reserved) => Move(w, tid, Decided(reserved))
      case Err(_) => Move(w, tid, Failed)
  }

  function DoSave(w: World, tid: nat, reserved: bool, fault: Fault): World
    requires tid in w.threads
  {
    var t := w.threads[tid];
    if fault.BeforeEffect? then Move(w, tid, Failed)
    else
      var row := OrderRow(tid, t.product, t.quantity, if reserved then CONFIRMED else REJECTED);
      Move(w.(orders := w.orders + [row]), tid, if fault.AfterEffect? then Failed else Finished)
  }

  function Apply(dir: Directory, w: World, e: Event): World {
    if e.Submit? then DoSubmit(w, e)
    else if e.tid !in w.threads then w
    else
      var t := w.threads[e.tid];
      match (e, t.phase)
      case (Die(tid), _) => if t.phase.Finished? then w else Move(w, tid, Failed)
      case (AdmitOrder(tid), Received) =>
        Move(w, tid, if ORDER in t.token.aud && HasAnyRole(t.token, {"order-writer"}) then Admitted else Failed)
      case (ExchangeForInventory(tid, ok, stamp), Admitted) =>
        if ok then Hand(w, tid, ORDER, INVENTORY, "inventory", stamp, AtInventory, Failed) else Move(w, tid, Failed)
      case (AdmitInventory(tid), AtInventory) =>
        Move(w, tid, if INVENTORY !in t.token.aud then Replying(401)
                     else if HasAnyRole(t.token, {"inventory-writer"}) then Allowed else Replying(403))
      case (Load(tid, ok), Allowed) => DoLoad(w, tid, ok)
      case (ExchangeForWarehouse(tid, ok, stamp), Loaded(snap)) =>
        if ok then Hand(w, tid, INVENTORY, WAREHOUSE, "warehouse", stamp, Delegating(snap), Replying(502)) else Move(w, tid, Replying(502))
      case (CallWarehouse(tid, delivered, lookup), Delegating(snap)) => DoCallWarehouse(dir, w, tid, snap, delivered, lookup)
      case (Script(tid, fault), Authorized(snap)) => DoScript(w, tid, snap, fault)
      case (HearWarehouse(tid, lost), Answered(snap, status)) => DoHearWarehouse(w, tid, snap, status, lost)
      case (Overwrite(tid, fault), Writing(snap)) => DoOverwrite(w, tid, snap, fault)
      case (HearInventory(tid, lost), Replying(status)) => DoHearInventory(w, tid, status, lost)
      case (Save(tid, fault), Decided(reserved)) => DoSave(w, tid, reserved, fault)
      case _ => w
  }

  function Run(dir: Directory, w: World, es: seq<Event>): World
    decreases |es|
  {
    if es == [] then w else Run(dir, Apply(dir, w, es[0]), es[1..])
  }

  lemma {:induction false} RunOn(dir: Directory, w: World, es: seq<Event>, fs: seq<Event>)
    ensures Run(dir, w, es + fs) == Run(dir, Run(dir, w, es), fs)
    decreases |es|
  {
    if es == [] {
      assert es + fs == fs;
    } else {
      assert (es + fs)[0] == es[0] && (es + fs)[1..] == es[1..] + fs;
      RunOn(dir, Apply(dir, w, es[0]), es[1..], fs);
    }
  }

  // ---- Sums over the history ----

  function TakenFrom(accepted: seq<Decrement>, key: string): int {
    if accepted == [] then 0
    else
      var d := accepted[|accepted| - 1];
      TakenFrom(accepted[..|accepted| - 1], key) + if StockKey(d.branch, d.product) == key then d.quantity else 0
  }

  function TakenOf(accepted: seq<Decrement>, product: string): int {
    if accepted == [] then 0
    else
      var d := accepted[|accepted| - 1];
      TakenOf(accepted[..|accepted| - 1], product) + if d.product == product then d.quantity else 0
  }

  lemma TakenNext(accepted: seq<Decrement>, d: Decrement, key: string, product: string)
    ensures TakenFrom(accepted + [d], key) == TakenFrom(accepted, key) + if StockKey(d.branch, d.product) == key then d.quantity else 0
    ensures TakenOf(accepted + [d], product) == TakenOf(accepted, product) + if d.product == product then d.quantity else 0
  {
    assert (accepted + [d])[..|accepted|] == accepted;
  }

  // ---- What every step keeps, for all quantities ----

  predicate SameUser(a: Token, b: Token) {
    a.sub == b.sub && a.username == b.username && a.roles == b.roles
  }

  predicate PastOrderGate(phase: Phase) {
    !phase.Received? && !phase.Failed?
  }

  predicate PastInventoryGate(phase: Phase) {
    phase.Allowed? || HasSnapshot(phase)
  }

  predicate HasSnapshot(phase: Phase) {
    phase.Loaded? || phase.Delegating? || phase.Authorized? || phase.Answered? || phase.Writing?
  }

  predicate MayMove(dir: Directory, login: Token, branch: string) {
    "order-writer" in login.roles && "inventory-writer" in login.roles && Permitted(dir, login, branch)
  }

  /** Whether the warehouse has accepted, as far as the phase tells. */
  predicate PhaseTells(phase: Phase, moved: bool) {
    match phase
    case Answered(_, status) => (status == 200 ==> moved) && (status == 409 || status == 403 ==> !moved)
    case Writing(_) => moved
    case Replying(status) => (status < 400 ==> moved) && (status == 409 ==> !moved)
    case Decided(reserved) => moved == reserved
    case Finished => true
    case Failed => true
    case _ => !moved
  }

  /** A row as first loaded differs from now at most in its aggregate. */
  predicate ProductsOk(first: map<string, Product>, now: map<string, Product>) {
    now.Keys == first.Keys && forall q :: q in now ==> now[q].branch == first[q].branch
  }

  predicate ThreadOk(dir: Directory, first: World, t: Thread) {
    && IsLogin(t.login) && SameUser(t.login, t.token)
    && (PastOrderGate(t.phase) ==> "order-writer" in t.login.roles)
    && (PastInventoryGate(t.phase) ==> "inventory-writer" in t.login.roles)
    && (HasSnapshot(t.phase) ==> t.product in first.products && t.phase.snap.branch == first.products[t.product].branch
                                 && t.quantity <= t.phase.snap.aggregate)
    && (t.phase.Authorized? ==> Permitted(dir, t.login, t.phase.snap.branch))
    && PhaseTells(t.phase, t.moved)
  }

  predicate RecordOk(dir: Directory, first: World, w: World, d: Decrement) {
    && d.tid in w.threads
    && var t := w.threads[d.tid];
    && t.moved && t.product == d.product && t.quantity == d.quantity
    && d.product in first.products && d.branch == first.products[d.product].branch
    && MayMove(dir, t.login, d.branch)
  }

  ghost predicate HasRecord(accepted: seq<Decrement>, tid: nat) {
    exists i :: 0 <= i < |accepted| && accepted[i].tid == tid
  }

  predicate RowOk(w: World, row: OrderRow) {
    && row.tid in w.threads
    && var t := w.threads[row.tid];
    && (t.phase.Finished? || t.phase.Failed?)
    && t.product == row.product && t.quantity == row.quantity
    && (row.status == CONFIRMED || row.status == REJECTED)
    && (row.status == CONFIRMED <==> t.moved)
  }

  ghost predicate ThreadsOk(dir: Directory, first: World, w: World) {
    forall tid :: tid in w.threads ==> ThreadOk(dir, first, w.threads[tid])
  }

  /** Accepted decrements and moved requests correspond one to one. */
  ghost predicate RecordsOk(dir: Directory, first: World, w: World) {
    && (forall d :: d in w.accepted ==> RecordOk(dir, first, w, d))
    && (forall tid :: tid in w.threads && w.threads[tid].moved ==> HasRecord(w.accepted, tid))
    && (forall i, j :: 0 <= i < j < |w.accepted| ==> w.accepted[i].tid != w.accepted[j].tid)
  }

  ghost predicate RowsOk(w: World) {
    && (forall row :: row in w.orders ==> RowOk(w, row))
    && (forall i, j :: 0 <= i < j < |w.orders| ==> w.orders[i].tid != w.orders[j].tid)
  }

  ghost predicate CellsOk(first: World, w: World) {
    forall key :: Get(w.redis, key) == Get(first.redis, key) - TakenFrom(w.accepted, key)
  }

  ghost predicate Inv(dir: Directory, first: World, w: World) {
    && ProductsOk(first.products, w.products)
    && ThreadsOk(dir, first, w) && RecordsOk(dir, first, w) && RowsOk(w) && CellsOk(first, w)
  }

  lemma BeginOk(dir: Directory, products: map<string, Product>, redis: Redis)
    ensures Inv(dir, Begin(products, redis), Begin(products, redis))
  {
  }

  /** A step that changes one request without moving stock, and appends no order. */
  lemma MoveKeeps(dir: Directory, first: World, w: World, tid: nat, t: Thread)
    requires Inv(dir, first, w) && ThreadOk(dir, first, t)
    requires tid in w.threads ==> !w.threads[tid].phase.Finished?
    requires tid in w.threads ==> t.moved == w.threads[tid].moved && t.product == w.threads[tid].product
                                  && t.quantity == w.threads[tid].quantity && t.login == w.threads[tid].login
    requires tid in w.threads && w.threads[tid].phase.Failed? ==> t.phase.Failed?
    requires tid !in w.threads ==> !t.moved
    ensures Inv(dir, first, w.(threads := w.threads[tid := t]))
  {
    var w' := w.(threads := w.threads[tid := t]);
    forall d | d in w'.accepted ensures RecordOk(dir, first, w', d) {
      assert RecordOk(dir, first, w, d);
    }
    forall row | row in w'.orders ensures RowOk(w', row) {
      assert RowOk(w, row);
    }
  }

  /** The accepted branch of the script, for a request that may move stock and has not moved any. */
  lemma AcceptKeepsRecords(dir: Directory, first: World, w: World, tid: nat, t: Thread, d: Decrement)
    requires RecordsOk(dir, first, w) && tid in w.threads && !w.threads[tid].moved && t.moved && d.tid == tid
    requires RecordOk(dir, first, w.(threads := w.threads[tid := t]), d)
    ensures RecordsOk(dir, first, w.(threads := w.threads[tid := t], accepted := w.accepted + [d]))
  {
    var w' := w.(threads := w.threads[tid := t], accepted := w.accepted + [d]);
    forall x | x in w'.accepted ensures RecordOk(dir, first, w', x) {
      if x in w.accepted { assert RecordOk(dir, first, w, x); }
    }
    forall i | 0 <= i < |w.accepted| ensures w.accepted[i].tid != tid {
      assert RecordOk(dir, first, w, w.accepted[i]);
    }
    forall r | r in w'.threads && w'.threads[r].moved ensures HasRecord(w'.accepted, r) {
      if r == tid {
        assert w'.accepted[|w.accepted|].tid == tid;
      } else {
        assert HasRecord(w.accepted, r);
        var i :| 0 <= i < |w.accepted| && w.accepted[i].tid == r;
        assert w'.accepted[i].tid == r;
      }
    }
  }

  /** Changing a request that has no order yet leaves the orders right. */
  lemma RowsKept(w: World, tid: nat, t: Thread)
    requires RowsOk(w) && tid in w.threads
    requires !w.threads[tid].phase.Finished? && !w.threads[tid].phase.Failed?
    ensures RowsOk(w.(threads := w.threads[tid := t]))
  {
    var w' := w.(threads := w.threads[tid := t]);
    forall row | row in w'.orders ensures RowOk(w', row) {
      assert RowOk(w, row);
    }
  }

  lemma ScriptKeeps(dir: Directory, first: World, w: World, tid: nat, fault: Fault)
    requires Inv(dir, first, w) && tid in w.threads && w.threads[tid].phase.Authorized?
    ensures Inv(dir, first, DoScript(w, tid, w.threads[tid].phase.snap, fault))
  {
    var t := w.threads[tid];
    var snap := t.phase.snap;
    assert ThreadOk(dir, first, t);
    var (redis, result) := ReserveScript(w.redis, StockKey(snap.branch, t.product), t.quantity);
    if fault.BeforeEffect? || result < 0 {
      MoveKeeps(dir, first, w, tid, DoScript(w, tid, snap, fault).threads[tid]);
    } else {
      AcceptKeeps(dir, first, w, tid, redis, if fault.AfterEffect? then 500 else 200);
    }
  }

  lemma AcceptKeeps(dir: Directory, first: World, w: World, tid: nat, redis: Redis, status: int)
    requires Inv(dir, first, w) && tid in w.threads && w.threads[tid].phase.Authorized? && status in {200, 500}
    requires var t := w.threads[tid]; var key := StockKey(t.phase.snap.branch, t.product);
             redis == w.redis[key := Get(w.redis, key) - t.quantity]
    ensures Inv(dir, first, Accept(w, tid, w.threads[tid].phase.snap, redis, status))
  {
    var t := w.threads[tid];
    var snap := t.phase.snap;
    var t' := t.(moved := true, phase := Answered(snap, status));
    var d := Decrement(tid, snap.branch, t.product, t.quantity);
    AcceptedThreadOk(dir, first, w, tid, status);
    AcceptKeepsRecords(dir, first, w, tid, t', d);
    RowsKept(w, tid, t');
    AcceptKeepsRest(dir, first, w, Accept(w, tid, snap, redis, status), tid, t', d);
  }

  /** The request after the acceptance, and its record. */
  lemma AcceptedThreadOk(dir: Directory, first: World, w: World, tid: nat, status: int)
    requires ThreadsOk(dir, first, w) && tid in w.threads && w.threads[tid].phase.Authorized? && status in {200, 500}
    ensures var t := w.threads[tid];
            var t' := t.(moved := true, phase := Answered(t.phase.snap, status));
            && !t.moved && ThreadOk(dir, first, t')
            && RecordOk(dir, first, w.(threads := w.threads[tid := t']), Decrement(tid, t.phase.snap.branch, t.product, t.quantity))
  {
    assert ThreadOk(dir, first, w.threads[tid]);
  }

  /** The parts of the invariant, put together for the world after the acceptance. */
  lemma AcceptKeepsRest(dir: Directory, first: World, w: World, w': World, tid: nat, t': Thread, d: Decrement)
    requires Inv(dir, first, w) && ThreadOk(dir, first, t')
    requires w' == w.(redis := w'.redis, accepted := w.accepted + [d], threads := w.threads[tid := t'])
    requires RecordsOk(dir, first, w.(threads := w.threads[tid := t'], accepted := w.accepted + [d]))
    requires RowsOk(w.(threads := w.threads[tid := t']))
    requires var key := StockKey(d.branch, d.product); w'.redis == w.redis[key := Get(w.redis, key) - d.quantity]
    ensures Inv(dir, first, w')
  {
    AcceptKeepsCells(first, w, w', d);
    assert RecordsOk(dir, first, w') by {
      forall x | x in w'.accepted ensures RecordOk(dir, first, w', x) {
        assert RecordOk(dir, first, w.(threads := w.threads[tid := t'], accepted := w.accepted + [d]), x);
      }
    }
    forall row | row in w'.orders ensures RowOk(w', row) { assert RowOk(w.(threads := w.threads[tid := t']), row); }
  }

  lemma AcceptKeepsCells(first: World, w: World, w': World, d: Decrement)
    requires CellsOk(first, w) && w'.accepted == w.accepted + [d]
    requires var key := StockKey(d.branch, d.product); w'.redis == w.redis[key := Get(w.redis, key) - d.quantity]
    ensures CellsOk(first, w')
  {
    forall key ensures Get(w'.redis, key) == Get(first.redis, key) - TakenFrom(w'.accepted, key) {
      TakenNext(w.accepted, d, key, d.product);
      assert Get(w.redis, key) == Get(first.redis, key) - TakenFrom(w.accepted, key);
    }
  }

  lemma SaveKeeps(dir: Directory, first: World, w: World, tid: nat, fault: Fault)
    requires Inv(dir, first, w) && tid in w.threads && w.threads[tid].phase.Decided?
    ensures Inv(dir, first, DoSave(w, tid, w.threads[tid].phase.reserved, fault))
  {
    var t := w.threads[tid];
    var w' := DoSave(w, tid, t.phase.reserved, fault);
    assert ThreadOk(dir, first, t);
    var w1 := w.(threads := w'.threads);
    MoveKeeps(dir, first, w, tid, w'.threads[tid]);
    if w'.orders != w.orders {
      AppendKeepsRows(w, w1, tid, w'.orders[|w.orders|]);
    }
  }

  lemma AppendKeepsRows(w: World, w1: World, tid: nat, row: OrderRow)
    requires RowsOk(w) && RowsOk(w1) && w1.orders == w.orders && row.tid == tid && RowOk(w1, row)
    requires tid in w.threads && w.threads[tid].phase.Decided?
    ensures RowsOk(w1.(orders := w.orders + [row]))
  {
    forall i | 0 <= i < |w.orders| ensures w.orders[i].tid != tid {
      assert RowOk(w, w.orders[i]);
    }
    var w' := w1.(orders := w.orders + [row]);
    forall x | x in w'.orders ensures RowOk(w', x) {
      if x in w.orders { assert RowOk(w1, x); }
    }
  }

  lemma OverwriteKeeps(dir: Directory, first: World, w: World, tid: nat, fault: Fault)
    requires Inv(dir, first, w) && tid in w.threads && w.threads[tid].phase.Writing?
    ensures Inv(dir, first, DoOverwrite(w, tid, w.threads[tid].phase.snap, fault))
  {
    var w' := DoOverwrite(w, tid, w.threads[tid].phase.snap, fault);
    assert ThreadOk(dir, first, w.threads[tid]);
    MoveKeeps(dir, first, w, tid, w'.threads[tid]);
    var w1 := w.(threads := w'.threads);
    forall d | d in w'.accepted ensures RecordOk(dir, first, w', d) { assert RecordOk(dir, first, w1, d); }
    forall row | row in w'.orders ensures RowOk(w', row) { assert RowOk(w1, row); }
  }

  lemma PermittedBySameUser(dir: Directory, a: Token, b: Token, branch: string)
    requires SameUser(a, b)
    ensures Permitted(dir, a, branch) <==> Permitted(dir, b, branch)
  {
  }

  lemma CallWarehouseKeeps(dir: Directory, first: World, w: World, tid: nat, delivered: bool, lookup: LookupFault)
    requires Inv(dir, first, w) && tid in w.threads && w.threads[tid].phase.Delegating?
    ensures Inv(dir, first, DoCallWarehouse(dir, w, tid, w.threads[tid].phase.snap, delivered, lookup))
  {
    var t := w.threads[tid];
    assert ThreadOk(dir, first, t);
    AuthorizeDecidesTable(dir, t.token, t.phase.snap.branch, lookup);
    PermittedBySameUser(dir, t.login, t.token, t.phase.snap.branch);
    MoveKeeps(dir, first, w, tid, DoCallWarehouse(dir, w, tid, t.phase.snap, delivered, lookup).threads[tid]);
  }

  predicate AtOrderService(e: Event) {
    e.ExchangeForInventory? || e.HearInventory? || e.Die?
  }

  predicate AtInventoryService(e: Event) {
    e.ExchangeForWarehouse? || e.HearWarehouse?
  }

  /** A step that changes nothing but its own request's phase and token. */
  ghost predicate OwnStep(dir: Directory, first: World, w: World, w': World, tid: nat) {
    && tid in w.threads && tid in w'.threads
    && var t, t' := w.threads[tid], w'.threads[tid];
    && w' == w.(threads := w.threads[tid := t'])
    && t'.moved == t.moved && t'.product == t.product && t'.quantity == t.quantity && t'.login == t.login
    && !t.phase.Finished? && (t.phase.Failed? ==> t'.phase.Failed?) && ThreadOk(dir, first, t')
  }

  lemma HearWarehouseStep(dir: Directory, first: World, w: World, e: Event)
    requires ThreadsOk(dir, first, w) && e.HearWarehouse? && Apply(dir, w, e) != w
    ensures OwnStep(dir, first, w, Apply(dir, w, e), e.tid)
  {
    assert ThreadOk(dir, first, w.threads[e.tid]);
  }

  lemma HearInventoryStep(dir: Directory, first: World, w: World, e: Event)
    requires ThreadsOk(dir, first, w) && e.HearInventory? && Apply(dir, w, e) != w
    ensures OwnStep(dir, first, w, Apply(dir, w, e), e.tid)
  {
    assert ThreadOk(dir, first, w.threads[e.tid]);
  }

  lemma FirstExchangeStep(dir: Directory, first: World, w: World, e: Event)
    requires ThreadsOk(dir, first, w) && e.ExchangeForInventory? && Apply(dir, w, e) != w
    ensures OwnStep(dir, first, w, Apply(dir, w, e), e.tid)
  {
    assert ThreadOk(dir, first, w.threads[e.tid]);
  }

  lemma SecondExchangeStep(dir: Directory, first: World, w: World, e: Event)
    requires ThreadsOk(dir, first, w) && e.ExchangeForWarehouse? && Apply(dir, w, e) != w
    ensures OwnStep(dir, first, w, Apply(dir, w, e), e.tid)
  {
    assert ThreadOk(dir, first, w.threads[e.tid]);
  }

  lemma DieStep(dir: Directory, first: World, w: World, e: Event)
    requires ThreadsOk(dir, first, w) && e.Die? && Apply(dir, w, e) != w
    ensures OwnStep(dir, first, w, Apply(dir, w, e), e.tid)
  {
    assert ThreadOk(dir, first, w.threads[e.tid]);
  }

  lemma GateStep(dir: Directory, first: World, w: World, e: Event)
    requires ThreadsOk(dir, first, w) && (e.AdmitOrder? || e.AdmitInventory?) && Apply(dir, w, e) != w
    ensures OwnStep(dir, first, w, Apply(dir, w, e), e.tid)
  {
    assert ThreadOk(dir, first, w.threads[e.tid]);
  }

  lemma LoadStep(dir: Directory, first: World, w: World, e: Event)
    requires ThreadsOk(dir, first, w) && ProductsOk(first.products, w.products) && e.Load? && Apply(dir, w, e) != w
    ensures OwnStep(dir, first, w, Apply(dir, w, e), e.tid)
  {
    assert ThreadOk(dir, first, w.threads[e.tid]);
  }

  predicate OnlyPhase(e: Event) {
    AtOrderService(e) || AtInventoryService(e) || e.AdmitOrder? || e.AdmitInventory? || e.Load?
  }

  /** The steps that change only their own request's phase and token. */
  lemma OwnStepOf(dir: Directory, first: World, w: World, e: Event)
    requires ThreadsOk(dir, first, w) && ProductsOk(first.products, w.products) && OnlyPhase(e) && Apply(dir, w, e) != w
    ensures OwnStep(dir, first, w, Apply(dir, w, e), e.tid)
  {
    if e.ExchangeForInventory? {
      FirstExchangeStep(dir, first, w, e);
    } else if e.ExchangeForWarehouse? {
      SecondExchangeStep(dir, first, w, e);
    } else if e.Die? {
      DieStep(dir, first, w, e);
    } else if e.HearInventory? {
      HearInventoryStep(dir, first, w, e);
    } else if e.HearWarehouse? {
      HearWarehouseStep(dir, first, w, e);
    } else if e.Load? {
      LoadStep(dir, first, w, e);
    } else {
      GateStep(dir, first, w, e);
    }
  }

  lemma SubmitKeeps(dir: Directory, first: World, w: World, e: Event)
    requires Inv(dir, first, w) && e.Submit?
    ensures Inv(dir, first, DoSubmit(w, e))
  {
    if DoSubmit(w, e) != w { MoveKeeps(dir, first, w, e.tid, DoSubmit(w, e).threads[e.tid]); }
  }

  lemma StepKeeps(dir: Directory, first: World, w: World, e: Event)
    requires Inv(dir, first, w)
    ensures Inv(dir, first, Apply(dir, w, e))
  {
    if e.Submit? {
      SubmitKeeps(dir, first, w, e);
    } else if Apply(dir, w, e) == w {
    } else if OnlyPhase(e) {
      OwnStepOf(dir, first, w, e);
      MoveKeeps(dir, first, w, e.tid, Apply(dir, w, e).threads[e.tid]);
    } else if e.Script? {
      ScriptKeeps(dir, first, w, e.tid, e.fault);
    } else if e.Overwrite? {
      OverwriteKeeps(dir, first, w, e.tid, e.fault);
    } else if e.Save? {
      SaveKeeps(dir, first, w, e.tid, e.fault);
    } else {
      CallWarehouseKeeps(dir, first, w, e.tid, e.delivered, e.lookup);
    }
  }

  lemma {:induction false} RunKeeps(dir: Directory, first: World, w: World, es: seq<Event>)
    requires Inv(dir, first, w)
    ensures Inv(dir, first, Run(dir, w, es))
    decreases |es|
  {
    if es != [] {
      StepKeeps(dir, first, w, es[0]);
      RunKeeps(dir, first, Apply(dir, w, es[0]), es[1..]);
    }
  }
}
