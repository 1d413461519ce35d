/**
 * What the order service's calls come to when its peers behave as the servers of this
 * repository do: the warehouse server rejects every operation the order service sends,
 * the product server never fills in Stock, and the warehouse directory filters on the
 * shop id the order service leaves unset. Also a run showing that a release need not
 * hit the warehouse the reservation was made at.
 */
module OrderConformance {
  import opened Int32
  import opened Wrappers
  import opened WarehouseProto
  import opened OrderModel
  import opened OrderRemote
  import opened OrderSaga
  import opened OrderSagaProperties
  import WarehouseRepository

  /** Against the warehouse server no reservation attempt is accepted, so the scan never chooses. */
  lemma {:induction false} ReserveScanRejected(svc: Services, t: Transcript, item: OrderItem, ws: seq<int>, j: nat)
    requires j <= |ws| && FollowsWarehouseServer(svc)
    ensures var s := ReserveScan(svc, t, item, ws, j);
      s.chosen.None? && s.transcript.accepted == t.accepted
    decreases |ws| - j
  {
    if j < |ws| {
      var r := TryReserve(svc, t, item, ws[j]);
      TryReserveCalls(svc, t, item, ws[j]);
      var n0 := |t.calls|;
      OrderOperationsAreRejected(svc, r.0.calls[..n0 + 1], AddReserved, item, ws[j]);
      ReserveScanRejected(svc, r.0, item, ws, j + 1);
    }
  }

  /**
   * Against the warehouse server Checkout of a non-empty cart always fails, before any
   * order is stored, and the ledger has accepted nothing.
   */
  lemma CheckoutFailsAgainstWarehouseServer(svc: Services, t0: Transcript, items: seq<OrderItem>)
    requires FollowsWarehouseServer(svc) && items != []
    ensures Reserve(svc, t0, items).1.Some?
    ensures Reserve(svc, t0, items).0.accepted == t0.accepted
  {
    PreflightOnlyLooksUp(svc, t0, items, 0);
    var (t1, e) := Preflight(svc, t0, items, 0);
    if e.None? {
      var ids := svc.directory(t1.calls, 0, true);
      if ids.Some? {
        ReserveScanRejected(svc, Record(t1, DirectoryLookup(0, true, ids)), items[0], ids.value, 0);
      }
    }
  }

  /** Against the warehouse server a release or deduction scan is never accepted. */
  lemma {:induction false} UpdateScanRejected(svc: Services, t: Transcript, op: StockOp, item: OrderItem, ws: seq<int>, j: nat)
    requires j <= |ws| && FollowsWarehouseServer(svc)
    ensures var s := UpdateScan(svc, t, op, item, ws, j);
      s.chosen.None? && s.transcript.accepted == t.accepted
    decreases |ws| - j
  {
    if j < |ws| {
      var req := StockRequest(op, item, ws[j]);
      OrderOperationsAreRejected(svc, t.calls, op, item, ws[j]);
      UpdateScanRejected(svc, Record(t, StockUpdate(req, false)), op, item, ws, j + 1);
    }
  }

  /** Against the warehouse server releaseReservedStock and the deduction loop change no stock. */
  lemma {:induction false} SweepItemsRejected(svc: Services, t: Transcript, op: StockOp, items: seq<OrderItem>, i: nat)
    requires i <= |items| && FollowsWarehouseServer(svc)
    ensures SweepItems(svc, t, op, items, i).accepted == t.accepted
    decreases |items| - i
  {
    if i < |items| {
      var ids := svc.directory(t.calls, 0, true);
      var t1 := Record(t, DirectoryLookup(0, true, ids));
      var t2 := if ids.None? then t1 else UpdateScan(svc, t1, op, items[i], ids.value, 0).transcript;
      if ids.Some? {
        UpdateScanRejected(svc, t1, op, items[i], ids.value, 0);
      }
      SweepItemsRejected(svc, t2, op, items, i + 1);
    }
  }

  /** Against the warehouse server the reaper releases no stock. */
  lemma {:induction false} SweepOrdersRejected(svc: Services, t: Transcript, orders: seq<Order>, i: nat)
    requires i <= |orders| && FollowsWarehouseServer(svc)
    ensures SweepOrders(svc, t, orders, i).accepted == t.accepted
    decreases |orders| - i
  {
    if i < |orders| {
      var t1 := if orders[i].status == Pending then SweepItems(svc, t, SubtractReserved, orders[i].items, 0) else t;
      if orders[i].status == Pending {
        SweepItemsRejected(svc, t, SubtractReserved, orders[i].items, 0);
      }
      SweepOrdersRejected(svc, t1, orders, i + 1);
    }
  }

  /**
   * Against the product server, whose Stock is always 0, the pre-flight fails as soon as
   * the cart holds an item of positive quantity, at that item or before it.
   */
  lemma {:induction false} PreflightFailsAgainstProductServer(svc: Services, t: Transcript, items: seq<OrderItem>, i: nat, m: nat)
    requires i <= m < |items| && items[m].quantity >= 1 && FollowsProductServer(svc)
    ensures Preflight(svc, t, items, i).1.Some?
    decreases |items| - i
  {
    var p := ProductKey(items[i]);
    var stock := svc.product(t.calls, p);
    if stock.Some? && stock.value >= items[i].quantity {
      assert stock.value == 0;
      PreflightFailsAgainstProductServer(svc, Record(t, ProductLookup(p, stock)), items, i + 1, m);
    }
  }

  /** Checkout against the product server fails with no ledger call for any cart with a positive quantity. */
  lemma CheckoutFailsAgainstProductServer(svc: Services, t0: Transcript, items: seq<OrderItem>, m: nat)
    requires m < |items| && items[m].quantity >= 1 && FollowsProductServer(svc)
    ensures Reserve(svc, t0, items).1.Some?
    ensures OnlyProductLookups(Reserve(svc, t0, items).0, |t0.calls|)
    ensures Reserve(svc, t0, items).0.accepted == t0.accepted
  {
    PreflightFailsAgainstProductServer(svc, t0, items, 0, m);
    FailedPreflightReachesNoLedger(svc, t0, items);
  }

  /** The ids of a warehouse listing, in listing order. */
  function Ids(ws: seq<WarehouseRepository.Warehouse>): (r: seq<int>)
    ensures |r| == |ws| && forall i :: 0 <= i < |ws| ==> r[i] == ws[i].id
  {
    seq(|ws|, i requires 0 <= i < |ws| => ws[i].id)
  }

  /** A directory that answers GetWarehouses from the warehouse table with FindByShopID. */
  ghost predicate DirectoryFollowsRepository(svc: Services, table: seq<WarehouseRepository.Warehouse>) {
    forall h: seq<Exchange>, shopId: int, activeOnly: bool ::
      svc.directory(h, shopId, activeOnly) == Some(Ids(WarehouseRepository.FindByShopID(table, shopId, activeOnly)))
  }

  /**
   * The order service asks for shop id 0, so when no warehouse belongs to shop 0 a
   * Checkout that passed the pre-flight fails at its first item with nothing reserved.
   */
  lemma CheckoutFindsNoWarehouse(svc: Services, t0: Transcript, items: seq<OrderItem>,
                                 table: seq<WarehouseRepository.Warehouse>)
    requires DirectoryFollowsRepository(svc, table)
    requires forall i :: 0 <= i < |table| ==> table[i].shopId != 0
    requires items != [] && Preflight(svc, t0, items, 0).1.None?
    ensures Reserve(svc, t0, items).1 == Some(CannotReserve(items[0].productId))
    ensures Reserve(svc, t0, items).0.accepted == t0.accepted
  {
    PreflightOnlyLooksUp(svc, t0, items, 0);
    var t1 := Preflight(svc, t0, items, 0).0;
    WarehouseRepository.UnsetShopListsNothing(table, true);
    assert svc.directory(t1.calls, 0, true) == Some([]);
  }

  /**
   * A ledger with two warehouses: 1 holds 5 units, all reserved by other orders, and 2
   * holds 10 free units. Every update is accepted, as a ledger that checks reserved
   * counts would accept a release of 3 at either.
   */
  function TwoWarehouses(): Services {
    Services(
      (h: seq<Exchange>, p: int32) => Some(10),
      (h: seq<Exchange>, shopId: int, activeOnly: bool) => Some([1, 2]),
      (h: seq<Exchange>, p: int32, w: int) =>
        if w == 1 then Some(StockMessage(p as int, 1, 5, 5)) else Some(StockMessage(p as int, 2, 10, 0)),
      (h: seq<Exchange>, req: UpdateStockRequest) => true)
  }

  /**
   * Release does not follow the reservation: Checkout reserves 3 units at warehouse 2,
   * the first that has them, but the compensating release subtracts them at warehouse 1,
   * the first that accepts an update.
   */
  lemma ReleaseMissesReservingWarehouse()
    ensures var svc, item := TwoWarehouses(), OrderItem(7, 0, 3, 100);
      var (u, e) := Reserve(svc, NoCalls, [item]);
      && e.None?
      && u.accepted == [StockRequest(AddReserved, item, 2)]
      && SweepItems(svc, u, SubtractReserved, [item], 0).accepted
         == u.accepted + [StockRequest(SubtractReserved, item, 1)]
  {
    var svc, item := TwoWarehouses(), OrderItem(7, 0, 3, 100);
    assert ProductKey(item) == 7;
    var t1 := Record(NoCalls, ProductLookup(7, Some(10)));
    assert Preflight(svc, NoCalls, [item], 0) == Preflight(svc, t1, [item], 1) == (t1, None);
    var t2 := Record(t1, DirectoryLookup(0, true, Some([1, 2])));
    var r1 := TryReserve(svc, t2, item, 1);
    assert !r1.1;
    var r2 := TryReserve(svc, r1.0, item, 2);
    assert r2.1;
    var s := ReserveScan(svc, t2, item, [1, 2], 0);
    assert ReserveScan(svc, r1.0, item, [1, 2], 1) == Scan(r2.0, Some(1));
    assert s == Scan(r2.0, Some(1));
    assert ReserveItems(svc, t1, [item], 0) == ReserveItems(svc, r2.0, [item], 1) == (r2.0, AllReserved);
  }
}
