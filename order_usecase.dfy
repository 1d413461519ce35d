/**
 * The order use cases. The remote-call loops of Checkout, releaseReservedStock and
 * ProcessPayment are methods proved equal to the functions of `OrderSaga`; the use
 * cases themselves are methods of a class over the order repository. The product and
 * warehouse services are the `svc` parameter, and each method returns the transcript
 * of the calls it made.
 */
module OrderUsecase {
  import opened Int32
  import opened Wrappers
  import opened WarehouseProto
  import opened OrderModel
  import opened OrderRemote
  import opened OrderSaga
  import Repo = OrderRepository

  /** Checkout step 1, the GetProduct loop. */
  method CheckProducts(svc: Services, t0: Transcript, items: seq<OrderItem>) returns (t: Transcript, e: Option<OrderError>)
    ensures (t, e) == Preflight(svc, t0, items, 0)
  {
    t := t0;
    for i := 0 to |items|
      invariant Preflight(svc, t, items, i) == Preflight(svc, t0, items, 0)
    {
      var p := ProductKey(items[i]);
      var stock := svc.product(t.calls, p);
      t := Record(t, ProductLookup(p, stock));
      if stock.None? {
        return t, Some(ProductNotFound(items[i].productId));
      }
      if stock.value < items[i].quantity {
        return t, Some(InsufficientProductStock(items[i].productId));
      }
    }
    e := None;
  }

  /**
   * Checkout step 2: per item, GetWarehouses and then the first-fit scan with its
   * `stockReserved` flag, leaving the scan at the first accepted add_reserved.
   */
  method ReserveStock(svc: Services, t0: Transcript, items: seq<OrderItem>) returns (t: Transcript, res: Reservation)
    ensures (t, res) == ReserveItems(svc, t0, items, 0)
  {
    t := t0;
    for i := 0 to |items|
      invariant ReserveItems(svc, t, items, i) == ReserveItems(svc, t0, items, 0)
    {
      var ids := svc.directory(t.calls, 0, true);
      t := Record(t, DirectoryLookup(0, true, ids));
      if ids.None? {
        return t, DirectoryFailed(i);
      }
      var ws := ids.value;
      ghost var t1 := t;
      var stockReserved := false;
      for j := 0 to |ws|
        invariant !stockReserved
        invariant ReserveScan(svc, t, items[i], ws, j) == ReserveScan(svc, t1, items[i], ws, 0)
      {
        var stock := svc.stock(t.calls, ProductKey(items[i]), ws[j]);
        t := Record(t, StockLookup(ProductKey(items[i]), ws[j], stock));
        if stock.None? {
          continue;
        }
        var available := Sub(stock.value.quantity, stock.value.reserved);
        if available >= items[i].quantity {
          var req := StockRequest(AddReserved, items[i], ws[j]);
          var ok := svc.update(t.calls, req);
          t := Record(t, StockUpdate(req, ok));
          if ok {
            assert ReserveScan(svc, t1, items[i], ws, 0) == Scan(t, Some(j));
            stockReserved := true;
            break;
          }
        }
      }
      if !stockReserved {
        return t, NotReserved(i);
      }
    }
    res := AllReserved;
  }

  /**
   * releaseReservedStock (`SubtractReserved`) and the deduction loop of ProcessPayment
   * (`DeductReserved`): per item, GetWarehouses and UpdateStock in directory order up
   * to the first that returns without error.
   */
  method SweepStock(svc: Services, t0: Transcript, op: StockOp, items: seq<OrderItem>) returns (t: Transcript)
    ensures t == SweepItems(svc, t0, op, items, 0)
  {
    t := t0;
    for i := 0 to |items|
      invariant SweepItems(svc, t, op, items, i) == SweepItems(svc, t0, op, items, 0)
    {
      var ids := svc.directory(t.calls, 0, true);
      t := Record(t, DirectoryLookup(0, true, ids));
      if ids.None? {
        continue;
      }
      var ws := ids.value;
      ghost var t1 := t;
      ghost var released := false;
      for j := 0 to |ws|
        invariant !released
        invariant UpdateScan(svc, t, op, items[i], ws, j) == UpdateScan(svc, t1, op, items[i], ws, 0)
      {
        var req := StockRequest(op, items[i], ws[j]);
        var ok := svc.update(t.calls, req);
        t := Record(t, StockUpdate(req, ok));
        if ok {
          assert UpdateScan(svc, t1, op, items[i], ws, 0) == Scan(t, Some(j));
          released := true;
          break;
        }
      }
      assert t == UpdateScan(svc, t1, op, items[i], ws, 0).transcript;
    }
  }

  /** Checkout step 3 and CreateOrder's total: Σ price × quantity. */
  method ComputeTotal(items: seq<OrderItem>) returns (total: int)
    ensures total == Total(items)
  {
    total := 0;
    for i := 0 to |items|
      invariant total == Total(items[..i])
    {
      assert items[..i + 1][..i] == items[..i];
      total := total + items[i].price * items[i].quantity;
    }
    assert items[..|items|] == items;
  }

  /** The `append` loops that copy product, quantity and price of each item, in order. */
  method CopyItems(items: seq<OrderItem>) returns (copied: seq<OrderItem>)
    ensures copied == CopiedItems(items)
  {
    copied := [];
    for i := 0 to |items|
      invariant copied == CopiedItems(items[..i])
    {
      copied := copied + [Copied(items[i])];
    }
    assert items[..|items|] == items;
  }

  /**
   * The reaper's effect on the table: every order FindExpiredOrders selects and whose
   * status write succeeds is cancelled; nothing else changes.
   */
  function CancelExpired(orders: seq<Order>, now: int, writeOk: int -> bool): (r: seq<Order>)
    ensures |r| == |orders|
  {
    seq(|orders|, i requires 0 <= i < |orders| =>
      if Repo.IsExpired(orders[i], now) && writeOk(orders[i].id) then orders[i].(status := Cancelled) else orders[i])
  }

  /**
   * After a sweep an order is still expired exactly when it was expired and its
   * cancellation was not written; only statuses change, and only to cancelled.
   */
  lemma SweepLeavesFailedWrites(orders: seq<Order>, now: int, writeOk: int -> bool)
    ensures var after := CancelExpired(orders, now, writeOk);
      forall i :: 0 <= i < |orders| ==>
        && after[i] == orders[i].(status := after[i].status)
        && (after[i].status != orders[i].status ==> after[i].status == Cancelled)
        && (Repo.IsExpired(after[i], now) <==> Repo.IsExpired(orders[i], now) && !writeOk(orders[i].id))
  {
  }

  /**
   * A failed cancellation is retried: the order is still among those FindExpiredOrders
   * returns at the same time, and it stays so however often sweeps fail.
   */
  lemma FailedWriteIsRetried(orders: seq<Order>, now: int, writeOk: int -> bool, o: Order)
    requires o in Repo.FindExpiredOrders(orders, now) && !writeOk(o.id)
    ensures o in Repo.FindExpiredOrders(CancelExpired(orders, now, writeOk), now)
  {
    var i :| 0 <= i < |orders| && orders[i] == o;
    assert CancelExpired(orders, now, writeOk)[i] == o;
  }

  /**
   * When every write succeeds a second sweep at the same time finds nothing: no order is
   * expired, the table is a fixpoint whatever its writes do, and no remote call is made.
   */
  lemma SecondSweepChangesNothing(orders: seq<Order>, now: int, writeOk: int -> bool, writeOk2: int -> bool,
                                  svc: Services, t: Transcript)
    requires forall id :: writeOk(id)
    ensures var after := CancelExpired(orders, now, writeOk);
      && Repo.FindExpiredOrders(after, now) == []
      && CancelExpired(after, now, writeOk2) == after
      && SweepOrders(svc, t, Repo.FindExpiredOrders(after, now), 0) == t
  {
    Repo.NothingExpiredFindsNothing(CancelExpired(orders, now, writeOk), now);
  }

  /**
   * CancelOrder leaves the reservation in place, and the reaper never picks a cancelled
   * order up again, so its reserved stock is released by neither.
   */
  lemma CancelledOrderIsNeverReaped(orders: seq<Order>, id: int, now: int)
    ensures forall o :: o in Repo.FindExpiredOrders(Repo.WithStatus(orders, id, Cancelled), now) ==> o.id != id
  {
  }

  /** The table while the reaper runs: the orders of `swept` whose write succeeded are cancelled. */
  function CancelledAmong(before: seq<Order>, swept: seq<Order>, writeOk: int -> bool): (r: seq<Order>)
    ensures |r| == |before|
  {
    seq(|before|, i requires 0 <= i < |before| =>
      if before[i] in swept && writeOk(before[i].id) then before[i].(status := Cancelled) else before[i])
  }

  /** Sweeping one more stored order is one more UpdateStatus, when its write succeeds. */
  lemma CancelOneMore(before: seq<Order>, swept: seq<Order>, o: Order, writeOk: int -> bool)
    requires forall i :: 0 <= i < |before| ==> before[i].id == i + 1
    requires o in before
    ensures CancelledAmong(before, swept + [o], writeOk)
         == if writeOk(o.id) then Repo.WithStatus(CancelledAmong(before, swept, writeOk), o.id, Cancelled)
            else CancelledAmong(before, swept, writeOk)
  {
    var at :| 0 <= at < |before| && before[at] == o;
    forall i | 0 <= i < |before| && before[i].id == o.id
      ensures before[i] == o
    {
      assert i == at;
    }
  }

  /** Sweeping exactly the expired orders gives the reaper's table. */
  lemma CancelledAmongExpired(before: seq<Order>, swept: seq<Order>, now: int, writeOk: int -> bool)
    requires forall o :: o in swept <==> o in before && Repo.IsExpired(o, now)
    ensures CancelledAmong(before, swept, writeOk) == CancelExpired(before, now, writeOk)
  {
    assert forall i :: 0 <= i < |before| ==> (before[i] in swept <==> Repo.IsExpired(before[i], now));
  }

  /** The use cases over the order store; `orderTimeout` is the pending window, in time units. */
  class OrderUsecase {
    const repo: Repo.OrderRepository
    const orderTimeout: int

    constructor (repo: Repo.OrderRepository, orderTimeout: int)
      ensures this.repo == repo && this.orderTimeout == orderTimeout
    {
      this.repo := repo;
      this.orderTimeout := orderTimeout;
    }

    /**
     * Checkout: pre-flight, reservation, then one pending order stored with deadline
     * `now + orderTimeout`. An error before the store leaves no order and releases nothing;
     * a failed store releases every item and stores nothing.
     */
    method Checkout(svc: Services, t0: Transcript, userId: int, items: seq<OrderItem>, now: int, createOk: bool)
      returns (r: Result<Order, OrderError>, t: Transcript)
      requires repo.Valid()
      modifies repo
      ensures repo.Valid()
      ensures var (t1, e) := Reserve(svc, t0, items);
        && (e.Some? ==> r == Err(e.value) && t == t1 && repo.orders == old(repo.orders))
        && (e.None? && createOk ==>
              && r == Ok(Order(|old(repo.orders)| + 1, userId, CopiedItems(items), Total(items), Pending, now + orderTimeout))
              && repo.orders == old(repo.orders) + [r.value]
              && t == t1)
        && (e.None? && !createOk ==>
              && r == Err(StoreFailure)
              && repo.orders == old(repo.orders)
              && t == SweepItems(svc, t1, SubtractReserved, items, 0))
    {
      var e;
      t, e := CheckProducts(svc, t0, items);
      if e.Some? {
        return Err(e.value), t;
      }
      var res;
      t, res := ReserveStock(svc, t, items);
      match res {
        case DirectoryFailed(_) =>
          return Err(DirectoryUnavailable), t;
        case NotReserved(k) =>
          return Err(CannotReserve(items[k].productId)), t;
        case AllReserved =>
      }
      var total := ComputeTotal(items);
      var expiresAt := now + orderTimeout;
      var repoItems := CopyItems(items);
      var created := repo.Create(Order(0, userId, repoItems, total, Pending, expiresAt), createOk);
      if created.Err? {
        t := SweepStock(svc, t, SubtractReserved, items);
        return Err(created.error), t;
      }
      var resultItems := CopyItems(created.value.items);
      CopyingTwiceIsCopyingOnce(items);
      r := Ok(created.value.(items := resultItems));
    }

    /**
     * ProcessPayment: only a stored pending order is paid; the status is written
     * before the deductions, which are made per item and whose outcome is ignored.
     */
    method ProcessPayment(svc: Services, t0: Transcript, orderId: int, writeOk: bool)
      returns (r: Result<Order, OrderError>, t: Transcript)
      requires repo.Valid()
      modifies repo
      ensures repo.Valid()
      ensures var found := Repo.FindByID(old(repo.orders), orderId);
        && (found.Err? ==> r == Err(OrderNotFound) && repo.orders == old(repo.orders) && t == t0)
        && (found.Ok? && found.value.status != Pending ==>
              r == Err(NotPending) && repo.orders == old(repo.orders) && t == t0)
        && (found.Ok? && found.value.status == Pending && !writeOk ==>
              r == Err(StoreFailure) && repo.orders == old(repo.orders) && t == t0)
        && (found.Ok? && found.value.status == Pending && writeOk ==>
              && r == Ok(found.value.(status := Paid, items := CopiedItems(found.value.items)))
              && repo.orders == Repo.WithStatus(old(repo.orders), orderId, Paid)
              && t == SweepItems(svc, t0, DeductReserved, found.value.items, 0))
    {
      t := t0;
      var found := Repo.FindByID(repo.orders, orderId);
      if found.Err? {
        return Err(found.error), t;
      }
      var order := found.value;
      if order.status != Pending {
        return Err(NotPending), t;
      }
      order := order.(status := Paid);
      var written := repo.UpdateStatus(orderId, order.status, writeOk);
      if written.Err? {
        return Err(written.error), t;
      }
      t := SweepStock(svc, t, DeductReserved, order.items);
      var items := CopyItems(order.items);
      r := Ok(order.(items := items));
    }

    /**
     * ReleaseExpiredOrders: fails only when the query fails; otherwise releases the
     * items of every order the query returned and cancels each of them, a failed
     * cancellation not stopping the others.
     */
    method ReleaseExpiredOrders(svc: Services, t0: Transcript, now: int, queryOk: bool, writeOk: int -> bool)
      returns (r: Result<(), OrderError>, t: Transcript)
      requires repo.Valid()
      modifies repo
      ensures repo.Valid()
      ensures !queryOk ==> r == Err(QueryFailed) && repo.orders == old(repo.orders) && t == t0
      ensures queryOk ==>
        && r == Ok(())
        && repo.orders == CancelExpired(old(repo.orders), now, writeOk)
        && t == SweepOrders(svc, t0, Repo.FindExpiredOrders(old(repo.orders), now), 0)
    {
      t := t0;
      if !queryOk {
        return Err(QueryFailed), t;
      }
      ghost var before := repo.orders;
      ghost var swept: seq<Order> := [];
      var orders := Repo.FindExpiredOrders(repo.orders, now);
      for k := 0 to |orders|
        invariant repo.Valid() && repo.orders == CancelledAmong(before, swept, writeOk)
        invariant forall o :: o in swept <==> o in orders[..k] && o.status == Pending
        invariant SweepOrders(svc, t, orders, k) == SweepOrders(svc, t0, orders, 0)
      {
        var order := orders[k];
        assert orders[..k + 1] == orders[..k] + [order];
        if order.status == Pending {
          t := SweepStock(svc, t, SubtractReserved, order.items);
          CancelOneMore(before, swept, order, writeOk);
          var _ := repo.UpdateStatus(order.id, Cancelled, writeOk(order.id));
          swept := swept + [order];
        }
      }
      assert orders[..|orders|] == orders;
      CancelledAmongExpired(before, swept, now, writeOk);
      r := Ok(());
    }

    /** CreateOrder: stores a pending order with no deadline, with no catalog or ledger call. */
    method CreateOrder(userId: int, items: seq<OrderItem>, createOk: bool) returns (r: Result<Order, OrderError>)
      requires repo.Valid()
      modifies repo
      ensures repo.Valid()
      ensures createOk ==>
        && r == Ok(Order(|old(repo.orders)| + 1, userId, CopiedItems(items), Total(items), Pending, 0))
        && repo.orders == old(repo.orders) + [r.value]
      ensures !createOk ==> r == Err(StoreFailure) && repo.orders == old(repo.orders)
    {
      var total := ComputeTotal(items);
      var repoItems := CopyItems(items);
      var created := repo.Create(Order(0, userId, repoItems, total, Pending, 0), createOk);
      if created.Err? {
        return Err(created.error);
      }
      var resultItems := CopyItems(created.value.items);
      CopyingTwiceIsCopyingOnce(items);
      r := Ok(created.value.(items := resultItems));
    }

    /** CancelOrder: only a stored pending order is cancelled, and no stock is released. */
    method CancelOrder(orderId: int, writeOk: bool) returns (r: Result<(), OrderError>)
      requires repo.Valid()
      modifies repo
      ensures repo.Valid()
      ensures var found := Repo.FindByID(old(repo.orders), orderId);
        && (found.Err? ==> r == Err(OrderNotFound) && repo.orders == old(repo.orders))
        && (found.Ok? && found.value.status != Pending ==> r == Err(NotPending) && repo.orders == old(repo.orders))
        && (found.Ok? && found.value.status == Pending && !writeOk ==>
              r == Err(StoreFailure) && repo.orders == old(repo.orders))
        && (found.Ok? && found.value.status == Pending && writeOk ==>
              r == Ok(()) && repo.orders == Repo.WithStatus(old(repo.orders), orderId, Cancelled))
    {
      var found := Repo.FindByID(repo.orders, orderId);
      if found.Err? {
        return Err(found.error);
      }
      if found.value.status != Pending {
        return Err(NotPending);
      }
      r := repo.UpdateStatus(orderId, Cancelled, writeOk);
    }

    /** GetOrder: the stored order as read back, or "order not found". */
    method GetOrder(id: int) returns (r: Result<Order, OrderError>)
      ensures var found := Repo.FindByID(repo.orders, id);
        && (found.Ok? ==> r == Ok(ReadView(found.value)))
        && (found.Err? ==> r == Err(OrderNotFound))
    {
      var found := Repo.FindByID(repo.orders, id);
      if found.Err? {
        return Err(found.error);
      }
      var items := CopyItems(found.value.items);
      r := Ok(found.value.(items := items, expiresAt := 0));
    }

    /** GetUserOrders: the requested page of the user's orders, as read back, and their total count. */
    method GetUserOrders(userId: int, page: int, limit: int) returns (result: seq<Order>, total: int)
      ensures var (rows, count) := Repo.FindByUserID(repo.orders, userId, page, limit);
        && total == count
        && |result| == |rows|
        && forall i :: 0 <= i < |rows| ==> result[i] == ReadView(rows[i])
    {
      var found := Repo.FindByUserID(repo.orders, userId, page, limit);
      var rows := found.0;
      total := found.1;
      result := [];
      for i := 0 to |rows|
        invariant |result| == i
        invariant forall n :: 0 <= n < i ==> result[n] == ReadView(rows[n])
      {
        var items := CopyItems(rows[i].items);
        result := result + [rows[i].(items := items, expiresAt := 0)];
      }
    }
  }
}
