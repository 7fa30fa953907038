/** One order request as a single function of the stores: what POST /orders does when nothing else runs. */
module OrderFlow {
  import opened Text
  import opened Realm
  import opened Authorization
  import opened StockKeys
  import opened Saga

  /** Everything outside the stores that a request meets on its way: the stamps of its tokens and what fails. */
  datatype Circumstances = Circumstances(
    toInventory: Stamp, firstExchange: bool,
    load: bool,
    toWarehouse: Stamp, secondExchange: bool,
    delivered: bool, lookup: LookupFault, script: Fault, answerLost: bool,
    write: Fault, replyLost: bool,
    save: Fault)

  predicate Clean(c: Circumstances) {
    && c.firstExchange && c.load && c.secondExchange && c.delivered && c.lookup.NoLookupFault? && c.script.NoFault?
    && !c.answerLost && c.write.NoFault? && !c.replyLost && c.save.NoFault?
  }

  function Obtain(client: string, subject: Token, audience: string, scope: string, ok: bool, stamp: Stamp): Option<Token> {
    if ok && MayNarrow(client, subject, audience, scope)
    then Some(Narrowed(client, subject, audience, scope, stamp.jti, stamp.now, stamp.ttl))
    else None
  }

  /** POST /warehouse/{branch}/stock/{product}/reserve: the stock afterwards and the status. */
  function ReserveAtBranch(dir: Directory, redis: Redis, claims: Token, branch: string, product: string, quantity: int,
                           lookup: LookupFault, script: Fault): (Redis, int)
  {
    match AuthorizeBranch(dir, claims, branch, lookup)
    case Err(status) => (redis, status)
    case Ok(_) =>
      if script.BeforeEffect? then (redis, 500)
      else
        var (after, result) := ReserveScript(redis, StockKey(branch, product), quantity);
        (after, if script.AfterEffect? then 500 else if result < 0 then 409 else 200)
  }

  /** What inventory-service makes of its call to the warehouse: Err when it could not tell. */
  function AskWarehouse(dir: Directory, redis: Redis, claims: Token, branch: string, product: string, quantity: int,
                        c: Circumstances): (Redis, Result<bool, ()>)
  {
    if !c.delivered then (redis, Err(()))
    else
      var (after, status) := ReserveAtBranch(dir, redis, claims, branch, product, quantity, c.lookup, c.script);
      (after, if c.answerLost then Err(()) else ReservedAtWarehouse(status))
  }

  /** How the two callers read a status: the inventory service knows 200 and the two refusals, order-service takes anything
      below 400 for success and 409 for a refusal, and every other status leaves the caller without an answer. */
  lemma StatusReadings(status: int)
    ensures ReservedAtWarehouse(status) == Ok(true) <==> status == 200
    ensures ReservedAtWarehouse(status) == Ok(false) <==> status in {403, 409}
    ensures InventoryReserve(status) == Ok(true) <==> status < 400
    ensures InventoryReserve(status) == Ok(false) <==> status == 409
  {
  }

  /** The stores that a request can change. */
  datatype Stores = Stores(redis: Redis, products: map<string, Product>)

  /** The reserve handler of inventory-service, once its gate has let the request in. */
  function HandleReserve(dir: Directory, s: Stores, claims: Token, product: string, quantity: int, c: Circumstances): (Stores, int) {
    if !c.load then (s, 500)
    else if product !in s.products then (s, 404)
    else if s.products[product].aggregate < quantity then (s, 409)
    else
      var row := s.products[product];
      match Obtain(INVENTORY, claims, WAREHOUSE, "warehouse", c.secondExchange, c.toWarehouse)
      case None => (s, 502)
      case Some(token) =>
        var (redis, answer) := AskWarehouse(dir, s.redis, token, row.branch, product, quantity, c);
        if answer.Err? then (s.(redis := redis), 502)
        else if !answer.value then (s.(redis := redis), 409)
        else if c.write.BeforeEffect? then (s.(redis := redis), 500)
        else (Stores(redis, s.products[product := row.(aggregate := row.aggregate - quantity)]),
              if c.write.AfterEffect? then 500 else 200)
  }

  function InventoryGate(claims: Token): Result<(), int> {
    if INVENTORY !in claims.aud then Err(401)
    else if HasAnyRole(claims, {"inventory-writer"}) then Ok(())
    else Err(403)
  }

  function ReserveRoute(dir: Directory, s: Stores, claims: Token, product: string, quantity: int, c: Circumstances): (Stores, int) {
    match InventoryGate(claims)
    case Err(status) => (s, status)
    case Ok(_) => HandleReserve(dir, s, claims, product, quantity, c)
  }

  /** POST /orders with an order-service token: the stores afterwards and the status of the order that was persisted,
      if one was. */
  function PlaceOrder(dir: Directory, s: Stores, claims: Token, product: string, quantity: int, c: Circumstances): (Stores, Option<OrderStatus>) {
    if !(ORDER in claims.aud && HasAnyRole(claims, {"order-writer"})) then (s, None)
    else
      match Obtain(ORDER, claims, INVENTORY, "inventory", c.firstExchange, c.toInventory)
      case None => (s, None)
      case Some(token) =>
        var (after, status) := ReserveRoute(dir, s, token, product, quantity, c);
        if c.replyLost || InventoryReserve(status).Err? || c.save.BeforeEffect? then (after, None)
        else (after, Some(if InventoryReserve(status).value then CONFIRMED else REJECTED))
  }

  /** What the decision rests on: the caller's permissions, the aggregate and the cell. */
  predicate Available(dir: Directory, s: Stores, claims: Token, product: string, quantity: int) {
    && product in s.products
    && var row := s.products[product];
    && quantity <= row.aggregate && Permitted(dir, claims, row.branch)
    && quantity <= Get(s.redis, StockKey(row.branch, product))
  }

  function Less(s: Stores, product: string, quantity: int): Stores
    requires product in s.products
  {
    var row := s.products[product];
    var key := StockKey(row.branch, product);
    Stores(s.redis[key := Get(s.redis, key) - quantity], s.products[product := row.(aggregate := row.aggregate - quantity)])
  }

  /** The warehouse's answer, in terms of the permission table and the cell. */
  lemma BranchAnswer(dir: Directory, redis: Redis, claims: Token, branch: string, product: string, quantity: int,
                     lookup: LookupFault, script: Fault)
    ensures var (after, status) := ReserveAtBranch(dir, redis, claims, branch, product, quantity, lookup, script);
            var key := StockKey(branch, product);
            && (status == 200 ==> Permitted(dir, claims, branch) && quantity <= Get(redis, key) && after == redis[key := Get(redis, key) - quantity])
            && (status in {403, 409} ==> after == redis)
            && (after != redis ==> Permitted(dir, claims, branch) && after == redis[key := Get(redis, key) - quantity])
            && (lookup.NoLookupFault? && script.NoFault? ==>
                (status == 200 <==> Permitted(dir, claims, branch) && quantity <= Get(redis, key)) && status in {200, 403, 409})
  {
    AuthorizeDecidesTable(dir, claims, branch, lookup);
    if lookup.NoLookupFault? { NoFaultMeans403(dir, claims, branch); }
  }

  lemma NoFaultMeans403(dir: Directory, claims: Token, branch: string)
    ensures var a := AuthorizeBranch(dir, claims, branch, NoLookupFault); a.Err? ==> a.error == 403
  {
  }

  /** The handler's status tells how far it came: each failure on the way has its own, and up to the call to the warehouse
      nothing has changed. */
  lemma HandlerStatus(dir: Directory, s: Stores, claims: Token, product: string, quantity: int, c: Circumstances)
    ensures var (after, status) := HandleReserve(dir, s, claims, product, quantity, c);
            && (!c.load ==> status == 500 && after == s)
            && (c.load && product !in s.products ==> status == 404 && after == s)
            && (c.load && product in s.products && s.products[product].aggregate < quantity ==> status == 409 && after == s)
            && (c.load && product in s.products && s.products[product].aggregate >= quantity && !c.secondExchange ==> status == 502 && after == s)
            && (c.load && product in s.products && s.products[product].aggregate >= quantity && !c.delivered ==> status == 502 && after == s)
            && (after.products != s.products ==> after.redis != s.redis || quantity == 0)
            && (status == 200 ==> c.write.NoFault?)
  {
  }

  /** From the warehouse's answer on: an answer that did not come is a 502, a refusal a 409, and a write that fails after an
      acceptance a 500. */
  lemma HandlerStatusAfterCall(dir: Directory, s: Stores, claims: Token, token: Token, product: string, quantity: int, c: Circumstances)
    requires c.load && product in s.products && quantity <= s.products[product].aggregate
    requires Obtain(INVENTORY, claims, WAREHOUSE, "warehouse", c.secondExchange, c.toWarehouse) == Some(token)
    ensures var (after, status) := HandleReserve(dir, s, claims, product, quantity, c);
            var called := ReserveAtBranch(dir, s.redis, token, s.products[product].branch, product, quantity, c.lookup, c.script);
            && (c.delivered ==> after.redis == called.0)
            && (c.delivered && (c.answerLost || called.1 !in {200, 403, 409}) ==> status == 502)
            && (c.delivered && !c.answerLost && called.1 in {403, 409} ==> status == 409)
            && (c.delivered && !c.answerLost && called.1 == 200 ==> status == if c.write.NoFault? then 200 else 500)
  {
  }

  /** Whatever fails: a CONFIRMED order took its quantity from the cell and from the aggregate, a REJECTED one took
      nothing, and an order is only ever saved as one of the two. */
  lemma SavedOrderIsTrue(dir: Directory, s: Stores, claims: Token, product: string, quantity: int, c: Circumstances)
    ensures var (after, saved) := PlaceOrder(dir, s, claims, product, quantity, c);
            && (saved == Some(CONFIRMED) ==> Available(dir, s, claims, product, quantity) && after == Less(s, product, quantity))
            && (saved == Some(REJECTED) ==> after == s)
            && saved != Some(PENDING)
  {
    var (after, saved) := PlaceOrder(dir, s, claims, product, quantity, c);
    if saved.Some? && c.load && product in s.products {
      HandlerAnswer(dir, s, claims, product, quantity, c);
    }
  }

  lemma HandlerAnswer(dir: Directory, s: Stores, claims: Token, product: string, quantity: int, c: Circumstances)
    requires c.load && product in s.products
    ensures var token := Obtain(ORDER, claims, INVENTORY, "inventory", c.firstExchange, c.toInventory);
            token.Some? ==>
              var (after, status) := HandleReserve(dir, s, token.value, product, quantity, c);
              && (status == 200 ==> Available(dir, s, claims, product, quantity) && after == Less(s, product, quantity))
              && (status == 409 ==> after == s)
              && status in {200, 409, 500, 502}
              && (Clean(c) ==> (status == 200 <==> Available(dir, s, claims, product, quantity)) && status in {200, 409})
  {
    var inventory := Obtain(ORDER, claims, INVENTORY, "inventory", c.firstExchange, c.toInventory);
    if inventory.Some? {
      var warehouse := Obtain(INVENTORY, inventory.value, WAREHOUSE, "warehouse", c.secondExchange, c.toWarehouse);
      if warehouse.Some? {
        var row := s.products[product];
        BranchAnswer(dir, s.redis, warehouse.value, row.branch, product, quantity, c.lookup, c.script);
        PermittedBySameUser(dir, claims, warehouse.value, row.branch);
      }
    }
  }

  /** When nothing fails, the outcome is decided by roles, branch and stock alone: an order is saved exactly for a caller
      with both writer roles and a known product, and it is confirmed exactly when the stock was available. */
  lemma CleanOutcome(dir: Directory, s: Stores, claims: Token, product: string, quantity: int, c: Circumstances)
    requires Clean(c) && ORDER in claims.aud
    ensures var (after, saved) := PlaceOrder(dir, s, claims, product, quantity, c);
            var writer := "order-writer" in claims.roles && "inventory-writer" in claims.roles;
            && (saved.Some? <==> writer && product in s.products)
            && (saved == Some(CONFIRMED) <==> writer && Available(dir, s, claims, product, quantity))
            && (saved != Some(CONFIRMED) ==> after == s)
  {
    if product in s.products {
      HandlerAnswer(dir, s, claims, product, quantity, c);
    }
    SavedOrderIsTrue(dir, s, claims, product, quantity, c);
  }

  /** What it means for the stock to be available, and what a confirmed order takes: the aggregate of the product's row
      and the cell of its branch, each at least the quantity and each lowered by it, and nothing else. */
  lemma AvailableAndLess(dir: Directory, s: Stores, claims: Token, product: string, quantity: int)
    ensures Available(dir, s, claims, product, quantity) <==>
      product in s.products
      && var row := s.products[product]; var key := "stock:" + row.branch + ":" + product;
      && quantity <= row.aggregate
      && quantity <= (if key in s.redis then s.redis[key] else 0)
      && ("warehouse-viewer-all" in claims.roles
          || ("warehouse-viewer" in claims.roles && claims.username.Some? && claims.username.value != ""
              && claims.username.value in dir && dir[claims.username.value] == Some(row.branch)))
    ensures product in s.products ==>
      var row := s.products[product]; var key := "stock:" + row.branch + ":" + product;
      var after := Less(s, product, quantity);
      && after.redis == s.redis[key := (if key in s.redis then s.redis[key] else 0) - quantity]
      && after.products == s.products[product := Product(row.aggregate - quantity, row.branch)]
  {
  }

  predicate LookupImpossible(dir: Directory, claims: Token, lookup: LookupFault) {
    lookup == ExchangeFails || lookup == Unreachable || (lookup == UnreadableBody && Registered(dir, claims))
  }

  /** When the branch lookup cannot be made, the warehouse answers 502 and no order is saved, nor any stock moved; an
      employee service that refuses makes the order REJECTED instead. */
  lemma LookupFailure(dir: Directory, s: Stores, claims: Token, product: string, quantity: int, c: Circumstances)
    requires product in s.products && quantity <= s.products[product].aggregate
    requires "warehouse-viewer-all" !in claims.roles
    ensures LookupImpossible(dir, claims, c.lookup) && "warehouse-viewer" in claims.roles ==>
      PlaceOrder(dir, s, claims, product, quantity, c) == (s, None)
    ensures c.lookup == EmployeeServiceFails && Clean(c.(lookup := NoLookupFault)) && ORDER in claims.aud
              && {"order-writer", "inventory-writer"} <= claims.roles ==>
      PlaceOrder(dir, s, claims, product, quantity, c) == (s, Some(REJECTED))
  {
    var inventory := Obtain(ORDER, claims, INVENTORY, "inventory", c.firstExchange, c.toInventory);
    if inventory.Some? {
      var warehouse := Obtain(INVENTORY, inventory.value, WAREHOUSE, "warehouse", c.secondExchange, c.toWarehouse);
      if warehouse.Some? {
        AuthorizeByFault(dir, warehouse.value, s.products[product].branch, c.lookup);
      }
      assert "inventory-writer" in claims.roles ==> HasAnyRole(inventory.value, {"inventory-writer"});
    }
    assert "order-writer" in claims.roles ==> HasAnyRole(claims, {"order-writer"});
  }

  /** The two laws that a caller of POST /orders can rely on, under any failures. */
  lemma WhatCreateMeans(dir: Directory, s: Stores, claims: Token, product: string, quantity: int, c: Circumstances)
    ensures var (after, saved) := PlaceOrder(dir, s, claims, product, quantity, c);
            && (saved == Some(CONFIRMED) ==> Available(dir, s, claims, product, quantity) && after == Less(s, product, quantity))
            && (saved == Some(REJECTED) ==> after == s)
            && saved != Some(PENDING)
            && (StoppedAtLookup(dir, s, claims, product, quantity, c.lookup) ==> saved == None && after == s)
  {
    SavedOrderIsTrue(dir, s, claims, product, quantity, c);
    if StoppedAtLookup(dir, s, claims, product, quantity, c.lookup) {
      LookupFailure(dir, s, claims, product, quantity, c);
    }
  }

  /** A viewer's request for what the aggregate promises, when the own branch cannot be looked up. */
  predicate StoppedAtLookup(dir: Directory, s: Stores, claims: Token, product: string, quantity: int, lookup: LookupFault) {
    && product in s.products && quantity <= s.products[product].aggregate
    && "warehouse-viewer-all" !in claims.roles && "warehouse-viewer" in claims.roles
    && LookupImpossible(dir, claims, lookup)
  }
}
