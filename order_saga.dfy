/**
 * The remote-call part of the order use cases, as functions from the services and the
 * transcript so far to the transcript after the calls: Checkout's product pre-flight
 * and per-item reservation, the release/deduction sweep over an order's items, and
 * the reaper's sweep over expired orders. The methods of the use case are proved equal
 * to these; the lemmas about them state what the calls are.
 */
module OrderSaga {
  import opened Int32
  import opened Wrappers
  import opened WarehouseProto
  import opened OrderModel
  import opened OrderRemote

  /** Checkout step 1: GetProduct for each item in order, stopping at the first that fails. */
  function Preflight(svc: Services, t: Transcript, items: seq<OrderItem>, i: nat): (r: (Transcript, Option<OrderError>))
    requires i <= |items|
    ensures |t.calls| <= |r.0.calls| <= |t.calls| + (|items| - i)
    ensures r.1.Some? ==> r.1.value.ProductNotFound? || r.1.value.InsufficientProductStock?
    ensures r.1.None? ==> |r.0.calls| == |t.calls| + (|items| - i)
    decreases |items| - i
  {
    if i == |items| then (t, None)
    else
      var p := ProductKey(items[i]);
      var stock := svc.product(t.calls, p);
      var t1 := Record(t, ProductLookup(p, stock));
      if stock.None? then (t1, Some(ProductNotFound(items[i].productId)))
      else if stock.value < items[i].quantity then (t1, Some(InsufficientProductStock(items[i].productId)))
      else Preflight(svc, t1, items, i + 1)
  }

  /** The outcome of a scan over a warehouse list: the transcript and the index it stopped at. */
  datatype Scan = Scan(transcript: Transcript, chosen: Option<nat>)

  /** GetStock found enough available stock for the item at the warehouse of the update that follows. */
  predicate ReserveGuard(lookup: Exchange, update: Exchange, item: OrderItem) {
    lookup.StockLookup? && update.StockUpdate?
    && lookup.productId == ProductKey(item)
    && update.request == StockRequest(AddReserved, item, lookup.warehouseId)
    && lookup.stock.Some? && Available(lookup.stock.value) >= item.quantity
  }

  /**
   * The reservation attempt for one item at warehouse `w`: GetStock, and add_reserved
   * only when the lookup succeeded with quantity − reserved at least the item's
   * quantity. The flag says whether the update returned without error.
   */
  function TryReserve(svc: Services, t: Transcript, item: OrderItem, w: int): (r: (Transcript, bool))
    ensures r.0.probes == t.probes + [w]
    ensures r.1 ==> r.0.accepted == t.accepted + [StockRequest(AddReserved, item, w)]
    ensures !r.1 ==> r.0.accepted == t.accepted
  {
    var stock := svc.stock(t.calls, ProductKey(item), w);
    var t1 := Record(t, StockLookup(ProductKey(item), w, stock));
    if stock.Some? && Available(stock.value) >= item.quantity then
      var req := StockRequest(AddReserved, item, w);
      var ok := svc.update(t1.calls, req);
      (Record(t1, StockUpdate(req, ok)), ok)
    else (t1, false)
  }

  /** The reservation scan for one item from warehouse `ws[j]` on, stopping at the first accepted attempt. */
  function ReserveScan(svc: Services, t: Transcript, item: OrderItem, ws: seq<int>, j: nat): (s: Scan)
    requires j <= |ws|
    ensures s.chosen.Some? ==> j <= s.chosen.value < |ws|
    decreases |ws| - j
  {
    if j == |ws| then Scan(t, None)
    else
      var r := TryReserve(svc, t, item, ws[j]);
      if r.1 then Scan(r.0, Some(j)) else ReserveScan(svc, r.0, item, ws, j + 1)
  }

  datatype Reservation = AllReserved | DirectoryFailed(at: nat) | NotReserved(at: nat)

  /** The index the reservation loop stopped at (`n` when every item was reserved). */
  function Reached(res: Reservation, n: nat): nat {
    match res
    case AllReserved => n
    case DirectoryFailed(k) => k
    case NotReserved(k) => k
  }

  /**
   * Checkout step 2 from item `i` on: GetWarehouses with an unset shop id and active
   * only, then the reservation scan, stopping at the first item that fails.
   */
  function ReserveItems(svc: Services, t: Transcript, items: seq<OrderItem>, i: nat): (r: (Transcript, Reservation))
    requires i <= |items|
    ensures i <= Reached(r.1, |items|) <= |items|
    ensures !r.1.AllReserved? ==> Reached(r.1, |items|) < |items|
    decreases |items| - i
  {
    if i == |items| then (t, AllReserved)
    else
      var ids := svc.directory(t.calls, 0, true);
      var t1 := Record(t, DirectoryLookup(0, true, ids));
      if ids.None? then (t1, DirectoryFailed(i))
      else
        var s := ReserveScan(svc, t1, items[i], ids.value, 0);
        if s.chosen.None? then (s.transcript, NotReserved(i))
        else ReserveItems(svc, s.transcript, items, i + 1)
  }

  /** Checkout steps 1 and 2 with the errors they return. */
  function Reserve(svc: Services, t0: Transcript, items: seq<OrderItem>): (r: (Transcript, Option<OrderError>))
    ensures r.1.None? ==> Preflight(svc, t0, items, 0).1.None?
    ensures r.1.Some? && r.1.value.CannotReserve? ==>
      exists k :: 0 <= k < |items| && r.1.value.productId == items[k].productId
    ensures r.1.Some? ==> !r.1.value.OrderNotFound? && !r.1.value.StoreFailure? && !r.1.value.QueryFailed? && !r.1.value.NotPending?
  {
    var (t1, e) := Preflight(svc, t0, items, 0);
    if e.Some? then (t1, e)
    else
      var (t2, res) := ReserveItems(svc, t1, items, 0);
      match res
      case AllReserved => (t2, None)
      case DirectoryFailed(_) => (t2, Some(DirectoryUnavailable))
      case NotReserved(k) => (t2, Some(CannotReserve(items[k].productId)))
  }

  /**
   * The release or deduction scan for one item from warehouse `ws[j]` on: UpdateStock
   * with `op`, stopping at the first update that returns without error.
   */
  function UpdateScan(svc: Services, t: Transcript, op: StockOp, item: OrderItem, ws: seq<int>, j: nat): (s: Scan)
    requires j <= |ws|
    ensures s.chosen.Some? ==> j <= s.chosen.value < |ws|
    decreases |ws| - j
  {
    if j == |ws| then Scan(t, None)
    else
      var req := StockRequest(op, item, ws[j]);
      var ok := svc.update(t.calls, req);
      var t1 := Record(t, StockUpdate(req, ok));
      if ok then Scan(t1, Some(j)) else UpdateScan(svc, t1, op, item, ws, j + 1)
  }

  /**
   * releaseReservedStock (with `SubtractReserved`) and the deduction loop of
   * ProcessPayment (with `DeductReserved`) from item `i` on: an item whose
   * GetWarehouses fails is skipped, and nothing is reported.
   */
  function SweepItems(svc: Services, t: Transcript, op: StockOp, items: seq<OrderItem>, i: nat): (r: Transcript)
    requires i <= |items|
    decreases |items| - i
  {
    if i == |items| then t
    else
      var ids := svc.directory(t.calls, 0, true);
      var t1 := Record(t, DirectoryLookup(0, true, ids));
      var t2 := if ids.None? then t1 else UpdateScan(svc, t1, op, items[i], ids.value, 0).transcript;
      SweepItems(svc, t2, op, items, i + 1)
  }

  /** The reaper's release loop over the orders the query returned, from order `i` on. */
  function SweepOrders(svc: Services, t: Transcript, orders: seq<Order>, i: nat): Transcript
    requires i <= |orders|
    decreases |orders| - i
  {
    if i == |orders| then t
    else
      var t1 := if orders[i].status == Pending then SweepItems(svc, t, SubtractReserved, orders[i].items, 0) else t;
      SweepOrders(svc, t1, orders, i + 1)
  }
}
