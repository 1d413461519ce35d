/**
 * The warehouse service's use cases: the stock ledger operations (add, subtract,
 * set, transfer) as read-modify-write over the stock repository, and the
 * warehouse directory operations over the warehouse repository.
 */
module WarehouseUsecase {
  import opened Int32
  import opened Wrappers
  import opened WarehouseRepository

  // ------------------------------------------------ effects of the ledger operations

  /**
   * AddStock: an existing record gets both deltas added (with Go's int32 wrap-around);
   * a missing one is created with the given values. No other record changes.
   */
  function AddStockEffect(stocks: Table, productId: int, warehouseId: int, quantity: int32, reserved: int32): (e: (Table, Stock))
    ensures e.0 == stocks[(productId, warehouseId) := e.1]
    ensures (productId, warehouseId) !in stocks ==> e.1 == Stock(quantity, reserved)
    ensures (productId, warehouseId) in stocks ==>
      var s := stocks[(productId, warehouseId)];
      && (InRange(s.quantity + quantity) ==> e.1.quantity == s.quantity + quantity)
      && (s.quantity + quantity > MAX ==> e.1.quantity == s.quantity + quantity - MODULUS)
      && (s.quantity + quantity < MIN ==> e.1.quantity == s.quantity + quantity + MODULUS)
      && (InRange(s.reserved + reserved) ==> e.1.reserved == s.reserved + reserved)
      && (s.reserved + reserved > MAX ==> e.1.reserved == s.reserved + reserved - MODULUS)
      && (s.reserved + reserved < MIN ==> e.1.reserved == s.reserved + reserved + MODULUS)
  {
    if (productId, warehouseId) in stocks then
      var s := stocks[(productId, warehouseId)];
      var updated := Stock(Add(s.quantity, quantity), Add(s.reserved, reserved));
      (stocks[(productId, warehouseId) := updated], updated)
    else
      (stocks[(productId, warehouseId) := Stock(quantity, reserved)], Stock(quantity, reserved))
  }

  /**
   * SubtractStock: refused, with the table unchanged, when the record is missing, its
   * quantity is below `quantity`, or its reserved count is below `reserved` (checked in
   * that order); otherwise both fields decrease by exactly the amounts given.
   */
  function SubtractStockEffect(stocks: Table, productId: int, warehouseId: int, quantity: int32, reserved: int32): (e: (Table, Result<Stock, Error>))
    ensures e.1.Ok? <==> (productId, warehouseId) in stocks
                         && stocks[(productId, warehouseId)].quantity >= quantity
                         && stocks[(productId, warehouseId)].reserved >= reserved
    ensures (productId, warehouseId) !in stocks ==> e == (stocks, Err(StockNotFound))
    ensures (productId, warehouseId) in stocks && stocks[(productId, warehouseId)].quantity < quantity ==>
      e == (stocks, Err(InsufficientQuantity))
    ensures (productId, warehouseId) in stocks && stocks[(productId, warehouseId)].quantity >= quantity
            && stocks[(productId, warehouseId)].reserved < reserved ==>
      e == (stocks, Err(InsufficientReserved))
    ensures e.1.Ok? ==> e.0 == stocks[(productId, warehouseId) := e.1.value]
    ensures e.1.Ok? && 0 <= quantity && 0 <= reserved ==>
      var s := stocks[(productId, warehouseId)];
      && e.1.value == Stock(s.quantity - quantity, s.reserved - reserved)
      && e.1.value.quantity >= 0 && e.1.value.reserved >= 0
  {
    if (productId, warehouseId) !in stocks then (stocks, Err(StockNotFound))
    else
      var s := stocks[(productId, warehouseId)];
      if s.quantity < quantity then (stocks, Err(InsufficientQuantity))
      else if s.reserved < reserved then (stocks, Err(InsufficientReserved))
      else
        var updated := Stock(Sub(s.quantity, quantity), Sub(s.reserved, reserved));
        (stocks[(productId, warehouseId) := updated], Ok(updated))
  }

  /** SetStock: the keyed record becomes exactly (quantity, reserved), created if absent. */
  function SetStockEffect(stocks: Table, productId: int, warehouseId: int, quantity: int32, reserved: int32): (e: (Table, Stock))
    ensures e.1 == Stock(quantity, reserved)
    ensures e.0.Keys == stocks.Keys + {(productId, warehouseId)}
    ensures forall k :: k in stocks && k != (productId, warehouseId) ==> e.0[k] == stocks[k]
    ensures e.0[(productId, warehouseId)] == e.1
  {
    (stocks[(productId, warehouseId) := Stock(quantity, reserved)], Stock(quantity, reserved))
  }

  /** Two identical SetStock calls leave the same table as one. */
  lemma SetStockIdempotent(stocks: Table, productId: int, warehouseId: int, quantity: int32, reserved: int32)
    ensures var once := SetStockEffect(stocks, productId, warehouseId, quantity, reserved);
      SetStockEffect(once.0, productId, warehouseId, quantity, reserved) == once
  {
    var once := SetStockEffect(stocks, productId, warehouseId, quantity, reserved);
    var twice := SetStockEffect(once.0, productId, warehouseId, quantity, reserved);
    assert twice.0.Keys == once.0.Keys;
    assert forall k :: k in twice.0 ==> twice.0[k] == once.0[k];
    assert twice.0 == once.0;
    assert twice.1 == once.1;
    assert twice == once;
  }

  /** Subtracting no more quantity than reserved (the deduction pattern q == r) keeps 0 <= reserved <= quantity. */
  lemma SubtractKeepsRowInvariant(stocks: Table, productId: int, warehouseId: int, quantity: int32, reserved: int32)
    requires TableWellFormed(stocks)
    requires 0 <= quantity <= reserved
    ensures TableWellFormed(SubtractStockEffect(stocks, productId, warehouseId, quantity, reserved).0)
  {
  }

  /** Nothing else enforces the row invariant: subtracting 5 quantity and 0 reserved from (10, 8) leaves (5, 8). */
  lemma SubtractCanBreakRowInvariant()
    ensures var e := SubtractStockEffect(map[(1, 1) := Stock(10, 8)], 1, 1, 5, 0);
      e.1 == Ok(Stock(5, 8)) && !WellFormed(e.1.value) && !TableWellFormed(e.0)
  {
    var e := SubtractStockEffect(map[(1, 1) := Stock(10, 8)], 1, 1, 5, 0);
    assert e.0[(1, 1)] == Stock(5, 8);
  }

  /** The partial update of UpdateWarehouse: "" and None leave a field as it was. */
  function Patched(w: Warehouse, name: string, location: string, active: Option<bool>): (r: Warehouse)
    ensures r.id == w.id && r.shopId == w.shopId
    ensures r.name == (if name == "" then w.name else name)
    ensures r.location == (if location == "" then w.location else location)
    ensures r.active == (if active.None? then w.active else active.value)
  {
    var named := if name != "" then w.(name := name) else w;
    var located := if location != "" then named.(location := location) else named;
    if active.Some? then located.(active := active.value) else located
  }

  /** The source and destination checks of TransferStock. */
  predicate ActiveWarehouse(ws: seq<Warehouse>, id: int) {
    FindByID(ws, id).Ok? && FindByID(ws, id).value.active
  }

  class WarehouseUsecase {
    const warehouseRepo: WarehouseRepository
    const stockRepo: StockRepository

    constructor (warehouseRepo: WarehouseRepository, stockRepo: StockRepository)
      ensures this.warehouseRepo == warehouseRepo && this.stockRepo == stockRepo
    {
      this.warehouseRepo := warehouseRepo;
      this.stockRepo := stockRepo;
    }

    /** GetWarehouses returns a copy of each listed warehouse, in listing order. */
    method GetWarehouses(shopId: int, activeOnly: bool) returns (result: seq<Warehouse>)
      ensures result == FindByShopID(warehouseRepo.warehouses, shopId, activeOnly)
    {
      var listed := FindByShopID(warehouseRepo.warehouses, shopId, activeOnly);
      result := [];
      var i := 0;
      while i < |listed|
        invariant 0 <= i <= |listed|
        invariant result == listed[..i]
      {
        var w := listed[i];
        result := result + [Warehouse(w.id, w.name, w.location, w.shopId, w.active)];
        i := i + 1;
      }
    }

    /**
     * CreateWarehouse stores the warehouse, active, before asking the shop service
     * whether the shop exists; when that lookup fails the warehouse stays stored.
     */
    method CreateWarehouse(name: string, location: string, shopId: int, shopFound: bool) returns (r: Result<Warehouse, Error>)
      requires warehouseRepo.Valid()
      modifies warehouseRepo
      ensures warehouseRepo.Valid()
      ensures var w := Warehouse(old(warehouseRepo.nextId), name, location, shopId, true);
        && warehouseRepo.warehouses == old(warehouseRepo.warehouses) + [w]
        && r == (if shopFound then Ok(w) else Err(ShopLookupFailed))
    {
      var w := warehouseRepo.Create(name, location, shopId, true);
      if !shopFound {
        return Err(ShopLookupFailed);
      }
      r := Ok(w);
    }

    /** UpdateWarehouse patches the found warehouse in place; ID and ShopID never change. */
    method UpdateWarehouse(id: int, name: string, location: string, active: Option<bool>) returns (r: Result<Warehouse, Error>)
      requires warehouseRepo.Valid()
      modifies warehouseRepo
      ensures warehouseRepo.Valid()
      ensures FindByID(old(warehouseRepo.warehouses), id).Err? ==>
        r == Err(WarehouseNotFound) && warehouseRepo.warehouses == old(warehouseRepo.warehouses)
      ensures FindByID(old(warehouseRepo.warehouses), id).Ok? ==>
        && r == Ok(Patched(FindByID(old(warehouseRepo.warehouses), id).value, name, location, active))
        && |warehouseRepo.warehouses| == |old(warehouseRepo.warehouses)|
        && forall i :: 0 <= i < |warehouseRepo.warehouses| ==>
             warehouseRepo.warehouses[i] == (if old(warehouseRepo.warehouses)[i].id == id then r.value else old(warehouseRepo.warehouses)[i])
    {
      var found := FindByID(warehouseRepo.warehouses, id);
      if found.Err? {
        return Err(found.error);
      }
      var w := Patched(found.value, name, location, active);
      warehouseRepo.Update(w);
      r := Ok(w);
    }

    /** GetStock: the keyed record, or "stock not found". */
    method GetStock(productId: int, warehouseId: int) returns (r: Result<Stock, Error>)
      ensures r.Ok? <==> (productId, warehouseId) in stockRepo.stocks
      ensures r.Ok? ==> r.value == stockRepo.stocks[(productId, warehouseId)]
    {
      var found := Find(stockRepo.stocks, productId, warehouseId);
      if found.Err? {
        return Err(found.error);
      }
      r := Ok(found.value);
    }

    method AddStock(productId: int, warehouseId: int, quantity: int32, reserved: int32) returns (r: Result<Stock, Error>)
      modifies stockRepo
      ensures var e := AddStockEffect(old(stockRepo.stocks), productId, warehouseId, quantity, reserved);
        stockRepo.stocks == e.0 && r == Ok(e.1)
    {
      var found := Find(stockRepo.stocks, productId, warehouseId);
      if found.Err? {
        r := stockRepo.Create(productId, warehouseId, Stock(quantity, reserved));
      } else {
        var stock := found.value;
        stock := stock.(quantity := Add(stock.quantity, quantity));
        stock := stock.(reserved := Add(stock.reserved, reserved));
        stockRepo.Update(productId, warehouseId, stock);
        r := Ok(stock);
      }
    }

    method SubtractStock(productId: int, warehouseId: int, quantity: int32, reserved: int32) returns (r: Result<Stock, Error>)
      modifies stockRepo
      ensures (stockRepo.stocks, r) == SubtractStockEffect(old(stockRepo.stocks), productId, warehouseId, quantity, reserved)
    {
      var found := Find(stockRepo.stocks, productId, warehouseId);
      if found.Err? {
        return Err(StockNotFound);
      }
      var stock := found.value;
      if stock.quantity < quantity {
        return Err(InsufficientQuantity);
      }
      if stock.reserved < reserved {
        return Err(InsufficientReserved);
      }
      stock := stock.(quantity := Sub(stock.quantity, quantity));
      stock := stock.(reserved := Sub(stock.reserved, reserved));
      stockRepo.Update(productId, warehouseId, stock);
      r := Ok(stock);
    }

    method SetStock(productId: int, warehouseId: int, quantity: int32, reserved: int32) returns (r: Result<Stock, Error>)
      modifies stockRepo
      ensures var e := SetStockEffect(old(stockRepo.stocks), productId, warehouseId, quantity, reserved);
        stockRepo.stocks == e.0 && r == Ok(e.1)
    {
      var found := Find(stockRepo.stocks, productId, warehouseId);
      if found.Err? {
        r := stockRepo.Create(productId, warehouseId, Stock(quantity, reserved));
      } else {
        var stock := found.value.(quantity := quantity, reserved := reserved);
        stockRepo.Update(productId, warehouseId, stock);
        r := Ok(stock);
      }
    }

    /**
     * TransferStock checks, in this order: source exists, source active, destination
     * exists, destination active, source stock exists, enough available stock. Any
     * failure returns its error and changes nothing; otherwise the repository's
     * transaction runs.
     */
    method TransferStock(productId: int, from: int, to: int, quantity: int32) returns (r: Result<(), Error>)
      modifies stockRepo
      ensures var ws, stocks := warehouseRepo.warehouses, old(stockRepo.stocks);
        && (FindByID(ws, from).Err? ==> r == Err(WarehouseNotFound))
        && (FindByID(ws, from).Ok? && !FindByID(ws, from).value.active ==> r == Err(SourceInactive))
        && (ActiveWarehouse(ws, from) && FindByID(ws, to).Err? ==> r == Err(WarehouseNotFound))
        && (ActiveWarehouse(ws, from) && FindByID(ws, to).Ok? && !FindByID(ws, to).value.active ==> r == Err(DestinationInactive))
        && (ActiveWarehouse(ws, from) && ActiveWarehouse(ws, to) && (productId, from) !in stocks ==> r == Err(StockNotFound))
        && ((ActiveWarehouse(ws, from) && ActiveWarehouse(ws, to) && (productId, from) in stocks &&
             Available(stocks[(productId, from)]) < quantity) ==> r == Err(InsufficientStock))
        && (r.Err? ==> stockRepo.stocks == stocks)
        && (r.Ok? <==> ActiveWarehouse(ws, from) && ActiveWarehouse(ws, to) && Transferred(stocks, productId, from, to, quantity).Ok?)
        && (r.Ok? ==> stockRepo.stocks == Transferred(stocks, productId, from, to, quantity).value)
    {
      var source := FindByID(warehouseRepo.warehouses, from);
      if source.Err? {
        return Err(source.error);
      }
      if !source.value.active {
        return Err(SourceInactive);
      }
      var dest := FindByID(warehouseRepo.warehouses, to);
      if dest.Err? {
        return Err(dest.error);
      }
      if !dest.value.active {
        return Err(DestinationInactive);
      }
      var stock := Find(stockRepo.stocks, productId, from);
      if stock.Err? {
        return Err(stock.error);
      }
      if Sub(stock.value.quantity, stock.value.reserved) < quantity {
        return Err(InsufficientStock);
      }
      r := stockRepo.Transfer(productId, from, to, quantity);
    }
  }
}
