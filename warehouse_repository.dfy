/**
 * The warehouse service's persistence layer: the `warehouses` table (the
 * warehouse directory) and the `stocks` table keyed by (product id, warehouse id).
 * Lookups are functions of the table contents; the writes are methods of the two
 * repository classes.
 */
module WarehouseRepository {
  import opened Int32
  import opened Wrappers

  datatype Warehouse = Warehouse(id: int, name: string, location: string, shopId: int, active: bool)

  /** One stock record; its key lives in the table. */
  datatype Stock = Stock(quantity: int32, reserved: int32)

  /** (product id, warehouse id) */
  type Key = (int, int)

  type Table = map<Key, Stock>

  datatype Error =
    | WarehouseNotFound
    | StockNotFound
    | DuplicateKey
    | SourceInactive
    | DestinationInactive
    | InsufficientStock
    | InsufficientQuantity
    | InsufficientReserved
    | ShopLookupFailed

  /** The row invariant the ledger is meant to keep: 0 <= reserved <= quantity. */
  predicate WellFormed(s: Stock) {
    0 <= s.reserved <= s.quantity
  }

  predicate TableWellFormed(stocks: Table) {
    forall k :: k in stocks ==> WellFormed(stocks[k])
  }

  /** `quantity - reserved`, computed in int32 as the Go code does. */
  function Available(s: Stock): (r: int32)
    ensures InRange(s.quantity - s.reserved) ==> r == s.quantity - s.reserved
    ensures WellFormed(s) ==> 0 <= r <= s.quantity
  {
    Sub(s.quantity, s.reserved)
  }

  // ---------------------------------------------------------------- warehouses

  predicate HasId(ws: seq<Warehouse>, id: int) {
    exists i :: 0 <= i < |ws| && ws[i].id == id
  }

  /** `warehouseRepository.FindByID`: the first row with that id. */
  function FindByID(ws: seq<Warehouse>, id: int): (r: Result<Warehouse, Error>)
    ensures r.Ok? <==> HasId(ws, id)
    ensures r.Ok? ==> r.value in ws && r.value.id == id
    ensures r.Err? ==> r.error == WarehouseNotFound
    ensures r.Ok? && |ws| > 0 && ws[0].id == id ==> r.value == ws[0]
  {
    if ws == [] then Err(WarehouseNotFound)
    else if ws[0].id == id then Ok(ws[0])
    else
      var r := FindByID(ws[1..], id);
      assert HasId(ws[1..], id) ==> HasId(ws, id) by {
        if HasId(ws[1..], id) {
          var i :| 0 <= i < |ws[1..]| && ws[1..][i].id == id;
          assert ws[i + 1].id == id;
        }
      }
      assert HasId(ws, id) ==> HasId(ws[1..], id) by {
        if HasId(ws, id) {
          var i :| 0 <= i < |ws| && ws[i].id == id;
          assert i > 0 && ws[1..][i - 1].id == id;
        }
      }
      r
  }

  /** The `WHERE shop_id = ? [AND active = true]` condition. */
  predicate Listed(w: Warehouse, shopId: int, activeOnly: bool) {
    w.shopId == shopId && (activeOnly ==> w.active)
  }

  /** `warehouseRepository.FindByShopID`: the rows that meet the condition, in table order. */
  function FindByShopID(ws: seq<Warehouse>, shopId: int, activeOnly: bool): (r: seq<Warehouse>)
    ensures forall w :: w in r <==> w in ws && Listed(w, shopId, activeOnly)
    ensures |r| <= |ws|
  {
    if ws == [] then []
    else (if Listed(ws[0], shopId, activeOnly) then [ws[0]] else []) + FindByShopID(ws[1..], shopId, activeOnly)
  }

  /** Listing keeps the table order: the listing of a concatenation is the concatenation of the listings. */
  lemma {:induction false} FindByShopIDKeepsOrder(a: seq<Warehouse>, b: seq<Warehouse>, shopId: int, activeOnly: bool)
    ensures FindByShopID(a + b, shopId, activeOnly) == FindByShopID(a, shopId, activeOnly) + FindByShopID(b, shopId, activeOnly)
  {
    if a == [] {
      assert a + b == b;
    } else {
      assert (a + b)[1..] == a[1..] + b;
      FindByShopIDKeepsOrder(a[1..], b, shopId, activeOnly);
    }
  }

  /** A listing for shop id 0 is empty when no warehouse belongs to shop 0. */
  lemma {:induction false} UnsetShopListsNothing(ws: seq<Warehouse>, activeOnly: bool)
    requires forall i :: 0 <= i < |ws| ==> ws[i].shopId != 0
    ensures FindByShopID(ws, 0, activeOnly) == []
  {
    if ws != [] {
      UnsetShopListsNothing(ws[1..], activeOnly);
    }
  }

  /** The row after `Save(w)`: rows with w's id are replaced; with none, w is inserted. */
  function Saved(ws: seq<Warehouse>, w: Warehouse): (r: seq<Warehouse>)
    ensures HasId(ws, w.id) ==> |r| == |ws| && forall i :: 0 <= i < |ws| ==> r[i] == (if ws[i].id == w.id then w else ws[i])
    ensures !HasId(ws, w.id) ==> r == ws + [w]
  {
    if HasId(ws, w.id) then seq(|ws|, i requires 0 <= i < |ws| => if ws[i].id == w.id then w else ws[i])
    else ws + [w]
  }

  /** The `warehouses` table. Ids are distinct and below the next auto-increment value. */
  class WarehouseRepository {
    var warehouses: seq<Warehouse>
    var nextId: int

    ghost predicate Valid()
      reads this
    {
      && (forall i, j :: 0 <= i < j < |warehouses| ==> warehouses[i].id != warehouses[j].id)
      && (forall i :: 0 <= i < |warehouses| ==> warehouses[i].id < nextId)
    }

    constructor ()
      ensures Valid() && warehouses == [] && nextId == 1
    {
      warehouses := [];
      nextId := 1;
    }

    /** `Create`: inserts under the next auto-increment id. */
    method Create(name: string, location: string, shopId: int, active: bool) returns (w: Warehouse)
      requires Valid()
      modifies this
      ensures Valid()
      ensures w == Warehouse(old(nextId), name, location, shopId, active)
      ensures !HasId(old(warehouses), w.id)
      ensures warehouses == old(warehouses) + [w]
    {
      w := Warehouse(nextId, name, location, shopId, active);
      warehouses := warehouses + [w];
      nextId := nextId + 1;
    }

    /** `Update` (gorm `Save`): replaces the row with w's id, or inserts w. */
    method Update(w: Warehouse)
      requires Valid()
      modifies this
      ensures Valid()
      ensures warehouses == Saved(old(warehouses), w)
    {
      warehouses := Saved(warehouses, w);
      if nextId <= w.id {
        nextId := w.id + 1;
      }
    }
  }

  // ---------------------------------------------------------------- stocks

  /** `stockRepository.Find`: the record under (productId, warehouseId), or "stock not found". */
  function Find(stocks: Table, productId: int, warehouseId: int): (r: Result<Stock, Error>)
    ensures r.Ok? <==> (productId, warehouseId) in stocks
    ensures r.Ok? ==> r.value == stocks[(productId, warehouseId)]
    ensures r.Err? ==> r.error == StockNotFound
  {
    if (productId, warehouseId) in stocks then Ok(stocks[(productId, warehouseId)]) else Err(StockNotFound)
  }

  /**
   * The table after `stockRepository.Transfer` commits, or the error that rolls it back:
   * the source record loses `quantity`, the destination gains it (created with reserved 0
   * when absent). The destination is read after the source is saved, as in the transaction.
   */
  function Transferred(stocks: Table, productId: int, from: int, to: int, quantity: int32): (r: Result<Table, Error>)
    ensures r.Err? <==> (productId, from) !in stocks || Available(stocks[(productId, from)]) < quantity
    ensures r.Err? ==> r.error == (if (productId, from) !in stocks then StockNotFound else InsufficientStock)
    ensures r.Ok? ==> r.value.Keys == stocks.Keys + {(productId, to)}
    ensures r.Ok? ==> forall k :: k in stocks && k != (productId, from) && k != (productId, to) ==> r.value[k] == stocks[k]
    ensures r.Ok? ==> forall k :: k in r.value ==> r.value[k].reserved == (if k in stocks then stocks[k].reserved else 0)
  {
    if (productId, from) !in stocks then Err(StockNotFound)
    else
      var source := stocks[(productId, from)];
      if Available(source) < quantity then Err(InsufficientStock)
      else
        var afterSource := stocks[(productId, from) := source.(quantity := Sub(source.quantity, quantity))];
        if (productId, to) in afterSource then
          var dest := afterSource[(productId, to)];
          Ok(afterSource[(productId, to) := dest.(quantity := Add(dest.quantity, quantity))])
        else
          Ok(afterSource[(productId, to) := Stock(quantity, 0)])
  }

  /**
   * Between two distinct warehouses, a committed transfer moves exactly `quantity` and
   * conserves the product's total over the two records (no int32 overflow at the destination).
   */
  lemma TransferConserves(stocks: Table, productId: int, from: int, to: int, quantity: int32)
    requires from != to
    requires Transferred(stocks, productId, from, to, quantity).Ok?
    requires WellFormed(stocks[(productId, from)]) && 0 <= quantity
    requires (productId, to) in stocks ==> InRange(stocks[(productId, to)].quantity + quantity)
    ensures var after := Transferred(stocks, productId, from, to, quantity).value;
      var before := if (productId, to) in stocks then stocks[(productId, to)].quantity else 0;
      && after[(productId, from)].quantity == stocks[(productId, from)].quantity - quantity
      && after[(productId, to)].quantity == before + quantity
      && after[(productId, from)].quantity + after[(productId, to)].quantity == stocks[(productId, from)].quantity + before
  {
  }

  /** A transfer from a warehouse to itself leaves the table as it was. */
  lemma TransferToSelfIsIdentity(stocks: Table, productId: int, w: int, quantity: int32)
    requires Transferred(stocks, productId, w, w, quantity).Ok?
    ensures Transferred(stocks, productId, w, w, quantity).value == stocks
  {
    var after := Transferred(stocks, productId, w, w, quantity).value;
    assert after.Keys == stocks.Keys;
    assert after[(productId, w)] == stocks[(productId, w)];
  }

  /**
   * The guard `quantity - reserved < q` runs before the subtraction, so a committed
   * transfer keeps every row within 0 <= reserved <= quantity.
   */
  lemma TransferKeepsRowInvariant(stocks: Table, productId: int, from: int, to: int, quantity: int32)
    requires TableWellFormed(stocks)
    requires Transferred(stocks, productId, from, to, quantity).Ok?
    requires 0 <= quantity
    requires (productId, to) in stocks && to != from ==> InRange(stocks[(productId, to)].quantity + quantity)
    ensures TableWellFormed(Transferred(stocks, productId, from, to, quantity).value)
  {
    var after := Transferred(stocks, productId, from, to, quantity).value;
    if from == to {
      TransferToSelfIsIdentity(stocks, productId, from, quantity);
    } else {
      TransferConserves(stocks, productId, from, to, quantity);
    }
  }

  /**
   * Without the overflow condition the invariant fails: moving one unit onto a record
   * holding MAX wraps the destination's quantity round to MIN.
   */
  lemma TransferOverflowBreaksRowInvariant()
    ensures var stocks := map[(1, 1) := Stock(1, 0), (1, 2) := Stock(MAX, 0)];
      var r := Transferred(stocks, 1, 1, 2, 1);
      TableWellFormed(stocks) && r.Ok? && r.value[(1, 2)] == Stock(MIN, 0) && !TableWellFormed(r.value)
  {
    var stocks := map[(1, 1) := Stock(1, 0), (1, 2) := Stock(MAX, 0)];
    assert (1, 1) != (1, 2);
    assert Transferred(stocks, 1, 1, 2, 1).value[(1, 2)] == Stock(MIN, 0);
  }

  /**
   * Without the sign condition the invariant fails too: the guard lets a negative
   * quantity through, and the destination is created with that quantity.
   */
  lemma TransferNegativeBreaksRowInvariant()
    ensures var stocks := map[(1, 1) := Stock(0, 0)];
      var r := Transferred(stocks, 1, 1, 2, -1);
      TableWellFormed(stocks) && r.Ok? && r.value[(1, 2)] == Stock(-1, 0) && !TableWellFormed(r.value)
  {
    var stocks := map[(1, 1) := Stock(0, 0)];
    assert Transferred(stocks, 1, 1, 2, -1).value[(1, 2)] == Stock(-1, 0);
  }

  /** The `stocks` table. */
  class StockRepository {
    var stocks: Table

    constructor ()
      ensures stocks == map[]
    {
      stocks := map[];
    }

    /** `Create`: an insert, refused when the key is taken. */
    method Create(productId: int, warehouseId: int, s: Stock) returns (r: Result<Stock, Error>)
      modifies this
      ensures (productId, warehouseId) in old(stocks) ==> r == Err(DuplicateKey) && stocks == old(stocks)
      ensures (productId, warehouseId) !in old(stocks) ==> r == Ok(s) && stocks == old(stocks)[(productId, warehouseId) := s]
    {
      if (productId, warehouseId) in stocks {
        return Err(DuplicateKey);
      }
      stocks := stocks[(productId, warehouseId) := s];
      r := Ok(s);
    }

    /** `Update` (gorm `Save`): writes the keyed record and no other. */
    method Update(productId: int, warehouseId: int, s: Stock)
      modifies this
      ensures stocks == old(stocks)[(productId, warehouseId) := s]
    {
      stocks := stocks[(productId, warehouseId) := s];
    }

    /** `Delete`: removes the keyed record and no other. */
    method Delete(productId: int, warehouseId: int)
      modifies this
      ensures stocks == old(stocks) - {(productId, warehouseId)}
    {
      stocks := stocks - {(productId, warehouseId)};
    }

    /** `Transfer`: one transaction; the table changes only when it commits. */
    method Transfer(productId: int, from: int, to: int, quantity: int32) returns (r: Result<(), Error>)
      modifies this
      ensures var t := Transferred(old(stocks), productId, from, to, quantity);
        && (t.Err? ==> r == Err(t.error) && stocks == old(stocks))
        && (t.Ok? ==> r == Ok(()) && stocks == t.value)
    {
      var tx := stocks;
      var found := Find(tx, productId, from);
      if found.Err? {
        return Err(found.error);
      }
      var fromStock := found.value;
      if Sub(fromStock.quantity, fromStock.reserved) < quantity {
        return Err(InsufficientStock);
      }
      fromStock := fromStock.(quantity := Sub(fromStock.quantity, quantity));
      tx := tx[(productId, from) := fromStock];
      var dest := Find(tx, productId, to);
      if dest.Err? {
        tx := tx[(productId, to) := Stock(quantity, 0)];
      } else {
        var toStock := dest.value.(quantity := Add(dest.value.quantity, quantity));
        tx := tx[(productId, to) := toStock];
      }
      stocks := tx;
      r := Ok(());
    }
  }
}
