/** The services behind POST /orders and the stock screen, as objects that update their stores in place. */
module Services {
  import opened Text
  import opened Realm
  import opened Authorization
  import opened StockKeys
  import opened Saga
  import opened OrderFlow

  class WarehouseService {
    const directory: Directory
    var redis: Redis

    constructor (directory: Directory, redis: Redis)
      ensures this.directory == directory && this.redis == redis
    {
      this.directory := directory;
      this.redis := redis;
    }

    /** The stock falls by the whole quantity exactly for a permitted caller and sufficient stock, and otherwise not at
        all; a script that fails may have taken effect. */
    method ReserveStock(claims: Token, branch: string, product: string, quantity: int, lookup: LookupFault, script: Fault)
      returns (status: int, remaining: Option<int>)
      modifies this
      ensures (redis, status) == ReserveAtBranch(directory, old(redis), claims, branch, product, quantity, lookup, script)
      ensures remaining.Some? <==> status == 200
      ensures AuthorizeBranch(directory, claims, branch, lookup).Ok? && !script.NoFault? ==> status == 500
      ensures AuthorizeBranch(directory, claims, branch, lookup).Ok? && script.BeforeEffect? ==> redis == old(redis)
      ensures AuthorizeBranch(directory, claims, branch, lookup).Ok? && script.NoFault? ==>
        status == if old(Get(redis, StockKey(branch, product))) < quantity then 409 else 200
      ensures var key := StockKey(branch, product);
              && (status == 200 ==> Permitted(directory, claims, branch) && quantity <= old(Get(redis, key))
                                    && redis == old(redis)[key := remaining.value] && remaining.value == old(Get(redis, key)) - quantity)
              && (status in {403, 409} ==> redis == old(redis))
              && (forall other :: other != key ==> Get(redis, other) == old(Get(redis, other)))
    {
      BranchAnswer(directory, redis, claims, branch, product, quantity, lookup, script);
      var decision := AuthorizeBranch(directory, claims, branch, lookup);
      if decision.Err? {
        return decision.error, None;
      }
      if script.BeforeEffect? {
        return 500, None;
      }
      var key := StockKey(branch, product);
      var current := Get(redis, key);
      var result := -1;
      if current >= quantity {
        result := current - quantity;
        redis := redis[key := result];
      }
      if script.AfterEffect? {
        return 500, None;
      }
      if result < 0 {
        return 409, None;
      }
      return 200, Some(result);
    }

    /** What a caller sees of a product: every branch with a cell for warehouse-viewer-all, one's own branch for
        warehouse-viewer, and no branch without a registered one. `keys` is Redis's reply to the scan, None when it
        fails; `failing` are the cells whose own GET fails, which then read as 0. */
    method GetStockByBranches(claims: Token, product: string, connected: bool, keys: Option<seq<string>>,
                               failing: set<string>, lookup: LookupFault)
      returns (answer: Result<map<string, int>, int>)
      ensures claims.roles !! {"warehouse-viewer", "warehouse-viewer-all"} ==> answer == Err(403)
      ensures !(claims.roles !! {"warehouse-viewer", "warehouse-viewer-all"}) && !connected ==> answer == Err(500)
      ensures "warehouse-viewer-all" in claims.roles && connected ==>
        && answer.Ok?
        && (forall b :: b in answer.value <==> keys.Some? && StockKey(b, product) in keys.value)
        && (forall b :: b in answer.value ==> answer.value[b] == GetOr0(redis, failing, StockKey(b, product)))
      ensures "warehouse-viewer-all" !in claims.roles && "warehouse-viewer" in claims.roles && connected ==>
        && (lookup == ExchangeFails || lookup == Unreachable ==> answer == Err(502))
        && (lookup == EmployeeServiceFails ==> answer == Err(403))
        && (lookup == UnreadableBody ==> answer == Err(if Registered(directory, claims) then 502 else 403))
        && (lookup == NoLookupFault && !Registered(directory, claims) ==> answer == Err(403))
        && (lookup == NoLookupFault && Registered(directory, claims) ==>
            match directory[claims.username.value]
            case None => answer == Ok(map[])
            case Some(branch) => answer == Ok(map[branch := GetOr0(redis, failing, StockKey(branch, product))]))
      ensures "warehouse-viewer-all" !in claims.roles && "warehouse-viewer" in claims.roles && connected ==>
        answer == OwnStock(redis, failing, product, ResolveOwnBranch(directory, claims, lookup))
    {
      OwnBranchByFault(directory, claims, lookup);
      RolesNamed(claims);
      if !HasAnyRole(claims, {"warehouse-viewer", "warehouse-viewer-all"}) {
        return Err(403);
      }
      if !connected {
        return Err(500);
      }
      if HasAnyRole(claims, {"warehouse-viewer-all"}) {
        var branches := ScanBranches(redis, failing, if keys.Some? then keys.value else [], product);
        return Ok(branches);
      }
      var own := ResolveOwnBranch(directory, claims, lookup);
      if own.Err? {
        return Err(own.error);
      }
      if own.value.None? {
        return Ok(map[]);
      }
      return Ok(map[own.value.value := GetOr0(redis, failing, StockKey(own.value.value, product))]);
    }
  }

  lemma RolesNamed(claims: Token)
    ensures HasAnyRole(claims, {"warehouse-viewer-all"}) <==> "warehouse-viewer-all" in claims.roles
    ensures HasAnyRole(claims, {"warehouse-viewer", "warehouse-viewer-all"}) <==> !(claims.roles !! {"warehouse-viewer", "warehouse-viewer-all"})
  {
  }

  function OwnStock(redis: Redis, failing: set<string>, product: string, own: Result<Option<string>, int>): Result<map<string, int>, int> {
    match own
    case Err(status) => Err(status)
    case Ok(None) => Ok(map[])
    case Ok(Some(branch)) => Ok(map[branch := GetOr0(redis, failing, StockKey(branch, product))])
  }

  /** The two readings of one snapshot agree, whichever GETs fail: the own-branch answer is the scan's restricted to that
      branch where the scan lists it, and 0 where it does not. */
  lemma OwnAgreesWithScan(redis: Redis, failing: set<string>, product: string, keys: seq<string>, all: map<string, int>, branch: string)
    requires GlobFree(product) && KeysReply(redis, product, keys)
    requires forall b :: b in all <==> StockKey(b, product) in keys
    requires forall b :: b in all ==> all[b] == GetOr0(redis, failing, StockKey(b, product))
    ensures OwnStock(redis, failing, product, Ok(Some(branch))) == Ok(map[branch := if branch in all then all[branch] else 0])
  {
    ScanMatches(product, StockKey(branch, product));
    BranchInExact(StockKey(branch, product), branch, product);
  }

  /** Whatever the product is called and whatever the pattern matched, a branch that is listed has a cell, and is shown with
      its stock unless its GET fails. */
  lemma ListedBranchHasCell(redis: Redis, failing: set<string>, product: string, keys: seq<string>, all: map<string, int>, branch: string)
    requires forall key :: key in keys ==> key in redis
    requires forall b :: b in all <==> StockKey(b, product) in keys
    requires forall b :: b in all ==> all[b] == GetOr0(redis, failing, StockKey(b, product))
    requires branch in all
    ensures StockKey(branch, product) in redis
    ensures StockKey(branch, product) !in failing ==> redis[StockKey(branch, product)] == all[branch]
  {
    assert StockKey(branch, product) in keys;
  }

  class InventoryHandlers {
    var products: map<string, Product>
    const warehouse: WarehouseService

    constructor (products: map<string, Product>, warehouse: WarehouseService)
      ensures this.products == products && this.warehouse == warehouse
    {
      this.products := products;
      this.warehouse := warehouse;
    }

    function Stocks(): Stores
      reads this, warehouse
    {
      Stores(warehouse.redis, products)
    }

    method LoadProduct(id: string, ok: bool) returns (row: Result<Product, int>)
      ensures row.Ok? <==> ok && id in products
      ensures row.Ok? ==> row.value == products[id]
      ensures row.Err? ==> row.error == if ok then 404 else 500
    {
      if !ok {
        return Err(500);
      }
      if id !in products {
        return Err(404);
      }
      return Ok(products[id]);
    }

    /** true, false or unknown; an unknown answer says nothing about the stock. */
    method ReserveAtWarehouse(token: Token, branch: string, product: string, quantity: int, c: Circumstances)
      returns (reserved: Result<bool, ()>)
      modifies warehouse
      ensures (warehouse.redis, reserved) ==
              AskWarehouse(warehouse.directory, old(warehouse.redis), token, branch, product, quantity, c)
      ensures reserved == Ok(true) ==> warehouse.redis == old(warehouse.redis)[StockKey(branch, product) :=
                                         old(Get(warehouse.redis, StockKey(branch, product))) - quantity]
      ensures reserved == Ok(false) ==> warehouse.redis == old(warehouse.redis)
    {
      if !c.delivered {
        return Err(());
      }
      var status, _ := warehouse.ReserveStock(token, branch, product, quantity, c.lookup, c.script);
      if c.answerLost {
        return Err(());
      }
      if status == 200 {
        return Ok(true);
      } else if status == 409 || status == 403 {
        return Ok(false);
      }
      return Err(());
    }

    method Reserve(claims: Token, productId: string, quantity: int, c: Circumstances) returns (status: int)
      modifies this, warehouse
      ensures (Stocks(), status) == HandleReserve(warehouse.directory, old(Stocks()), claims, productId, quantity, c)
    {
      var loaded := LoadProduct(productId, c.load);
      if loaded.Err? {
        return loaded.error;
      }
      var product := loaded.value;
      if product.aggregate < quantity {
        return 409;
      }
      var token := Obtain(INVENTORY, claims, WAREHOUSE, "warehouse", c.secondExchange, c.toWarehouse);
      if token.None? {
        return 502;
      }
      var reserved := ReserveAtWarehouse(token.value, product.branch, productId, quantity, c);
      if reserved.Err? {
        return 502;
      }
      if !reserved.value {
        return 409;
      }
      if c.write.BeforeEffect? {
        return 500;
      }
      var newStock := product.aggregate - quantity;
      products := products[productId := product.(aggregate := newStock)];
      if c.write.AfterEffect? {
        return 500;
      }
      status := 200;
    }

    /** POST /inventory/{productId}/reserve behind its gate. */
    method ReserveBehindGate(claims: Token, productId: string, quantity: int, c: Circumstances) returns (status: int)
      modifies this, warehouse
      ensures (Stocks(), status) == ReserveRoute(warehouse.directory, old(Stocks()), claims, productId, quantity, c)
      ensures INVENTORY !in claims.aud ==> status == 401 && Stocks() == old(Stocks())
      ensures INVENTORY in claims.aud && "inventory-writer" !in claims.roles ==> status == 403 && Stocks() == old(Stocks())
      ensures INVENTORY in claims.aud && "inventory-writer" in claims.roles ==>
        (Stocks(), status) == HandleReserve(warehouse.directory, old(Stocks()), claims, productId, quantity, c)
    {
      assert HasAnyRole(claims, {"inventory-writer"}) <==> "inventory-writer" in claims.roles;
      var gate := InventoryGate(claims);
      if gate.Err? {
        return gate.error;
      }
      status := Reserve(claims, productId, quantity, c);
    }
  }

  class Order {
    const customerId: string
    const productId: string
    const quantity: int
    var status: OrderStatus

    constructor (customerId: string, productId: string, quantity: int)
      ensures this.customerId == customerId && this.productId == productId && this.quantity == quantity && status == PENDING
    {
      this.customerId := customerId;
      this.productId := productId;
      this.quantity := quantity;
      status := PENDING;
    }

    method SetStatus(status: OrderStatus)
      modifies this
      ensures this.status == status
    {
      this.status := status;
    }
  }

  class OrderController {
    var saved: seq<Order>
    const inventory: InventoryHandlers

    constructor (inventory: InventoryHandlers)
      ensures this.inventory == inventory && saved == [] && Valid()
    {
      this.inventory := inventory;
      saved := [];
    }

    /** No order is saved while its outcome is open. */
    ghost predicate Valid()
      reads this, saved
    {
      forall order :: order in saved ==> order.status != PENDING
    }

    predicate Appended(before: seq<Order>)
      reads this
    {
      |saved| == |before| + 1 && saved[..|before|] == before
    }

    predicate Is(order: Order, customerId: string, productId: string, quantity: int, status: OrderStatus)
      reads order
    {
      order.customerId == customerId && order.productId == productId && order.quantity == quantity && order.status == status
    }

    /** Orders are created PENDING and saved only with their outcome. A failure on the way saves nothing, though the stock
        may have moved; a saved order tells the truth about it. */
    method Create(claims: Token, customerId: string, productId: string, quantity: int, c: Circumstances) returns (reply: Option<Order>)
      requires Valid()
      modifies this, inventory, inventory.warehouse
      ensures Valid()
      ensures var (stocks, outcome) :=
                PlaceOrder(inventory.warehouse.directory, old(inventory.Stocks()), claims, productId, quantity, c);
              && inventory.Stocks() == stocks
              && (outcome.None? ==> saved == old(saved))
              && (outcome.Some? ==> Appended(old(saved)) && fresh(saved[|old(saved)|])
                                    && Is(saved[|old(saved)|], customerId, productId, quantity, outcome.value))
      ensures reply.Some? <==> |saved| > |old(saved)| && !c.save.AfterEffect?
      ensures StoppedAtLookup(inventory.warehouse.directory, old(inventory.Stocks()), claims, productId, quantity, c.lookup) ==>
        saved == old(saved) && inventory.Stocks() == old(inventory.Stocks())
      ensures reply.Some? ==> reply.value == saved[|old(saved)|]
      ensures reply.Some? && reply.value.status == CONFIRMED ==>
        && Available(inventory.warehouse.directory, old(inventory.Stocks()), claims, productId, quantity)
        && inventory.Stocks() == Less(old(inventory.Stocks()), productId, quantity)
      ensures reply.Some? && reply.value.status == REJECTED ==> inventory.Stocks() == old(inventory.Stocks())
    {
      WhatCreateMeans(inventory.warehouse.directory, inventory.Stocks(), claims, productId, quantity, c);
      if !(ORDER in claims.aud && HasAnyRole(claims, {"order-writer"})) {
        return None;
      }
      var order := new Order(customerId, productId, quantity);
      var inventoryToken := Obtain(ORDER, claims, INVENTORY, "inventory", c.firstExchange, c.toInventory);
      if inventoryToken.None? {
        return None;
      }
      var status := inventory.ReserveBehindGate(inventoryToken.value, productId, quantity, c);
      var reserved := InventoryReserve(status);
      if c.replyLost || reserved.Err? {
        return None;
      }
      order.SetStatus(if reserved.value then CONFIRMED else REJECTED);
      if c.save.BeforeEffect? {
        return None;
      }
      saved := saved + [order];
      reply := if c.save.AfterEffect? then None else Some(order);
    }
  }
}
