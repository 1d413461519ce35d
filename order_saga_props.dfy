/** What the order service's remote calls are, for any behaviour of its peers. */
module OrderSagaProperties {
  import opened Int32
  import opened Wrappers
  import opened WarehouseProto
  import opened OrderModel
  import opened OrderRemote
  import opened OrderSaga

  /** A GetProduct reply that lets the item through the pre-flight check. */
  predicate Passes(x: Exchange, item: OrderItem) {
    x.ProductLookup? && x.productId == ProductKey(item)
    && x.productStock.Some? && x.productStock.value >= item.quantity
  }

  /** A GetProduct reply that stops Checkout with error `e`. */
  predicate Stops(x: Exchange, item: OrderItem, e: OrderError) {
    x.ProductLookup? && x.productId == ProductKey(item)
    && (match x.productStock
        case None => e == ProductNotFound(item.productId)
        case Some(s) => s < item.quantity && e == InsufficientProductStock(item.productId))
  }

  /** From position `from` on, `t` holds only GetProduct calls. */
  predicate OnlyProductLookups(t: Transcript, from: int) {
    forall n :: 0 <= from <= n < |t.calls| ==> t.calls[n].ProductLookup?
  }

  /** The pre-flight makes only GetProduct calls, so it probes no stock and reserves nothing. */
  lemma {:induction false} PreflightOnlyLooksUp(svc: Services, t: Transcript, items: seq<OrderItem>, i: nat)
    requires i <= |items|
    ensures var u := Preflight(svc, t, items, i).0;
      && Extends(u, t) && OnlyProductLookups(u, |t.calls|)
      && u.probes == t.probes && u.accepted == t.accepted
    decreases |items| - i
  {
    if i < |items| {
      var p := ProductKey(items[i]);
      var stock := svc.product(t.calls, p);
      var t1 := Record(t, ProductLookup(p, stock));
      RecordExtends(t, ProductLookup(p, stock));
      if stock.Some? && stock.value >= items[i].quantity {
        PreflightOnlyLooksUp(svc, t1, items, i + 1);
        var u := Preflight(svc, t1, items, i + 1).0;
        ExtendsTransitive(u, t1, t);
        assert u.calls[|t.calls|] == u.calls[..|t1.calls|][|t.calls|];
      }
    }
  }

  /** Calls `n0`, `n0 + 1`, ... of `c` are GetProduct replies that pass items `i` to `k` − 1. */
  predicate PassAll(c: seq<Exchange>, n0: nat, items: seq<OrderItem>, i: nat, k: nat)
    requires i <= k <= |items| && n0 + (k - i) <= |c|
  {
    forall m :: i <= m < k ==> Passes(c[n0 + (m - i)], items[m])
  }

  lemma PassAllCons(c: seq<Exchange>, n0: nat, items: seq<OrderItem>, i: nat, k: nat)
    requires i < k <= |items| && n0 + (k - i) <= |c|
    requires Passes(c[n0], items[i]) && PassAll(c, n0 + 1, items, i + 1, k)
    ensures PassAll(c, n0, items, i, k)
  {
    forall m | i < m < k
      ensures Passes(c[n0 + (m - i)], items[m])
    {
      assert n0 + (m - i) == n0 + 1 + (m - (i + 1));
    }
  }

  /** A passed pre-flight made one GetProduct per item, in order, each reporting enough stock. */
  lemma {:induction false} PreflightPasses(svc: Services, t: Transcript, items: seq<OrderItem>, i: nat)
    requires i <= |items| && Preflight(svc, t, items, i).1.None?
    ensures var c, n0 := Preflight(svc, t, items, i).0.calls, |t.calls|;
      |c| == n0 + (|items| - i) && PassAll(c, n0, items, i, |items|)
    decreases |items| - i
  {
    if i < |items| {
      var p := ProductKey(items[i]);
      var t1 := Record(t, ProductLookup(p, svc.product(t.calls, p)));
      PreflightPasses(svc, t1, items, i + 1);
      PreflightOnlyLooksUp(svc, t1, items, i + 1);
      var c := Preflight(svc, t1, items, i + 1).0.calls;
      assert c[|t.calls|] == c[..|t1.calls|][|t.calls|];
      PassAllCons(c, |t.calls|, items, i, |items|);
    }
  }

  /**
   * A failed pre-flight stopped at item `k`: the lookups of the items before it passed,
   * and the last call is the lookup of item `k`, which gives the error.
   */
  lemma {:induction false} PreflightStops(svc: Services, t: Transcript, items: seq<OrderItem>, i: nat) returns (k: nat)
    requires i <= |items| && Preflight(svc, t, items, i).1.Some?
    ensures var (u, e) := Preflight(svc, t, items, i);
      var c, n0 := u.calls, |t.calls|;
      && i <= k < |items| && |c| == n0 + (k - i) + 1
      && PassAll(c, n0, items, i, k) && Stops(c[|c| - 1], items[k], e.value)
    decreases |items| - i
  {
    var p := ProductKey(items[i]);
    var stock := svc.product(t.calls, p);
    var t1 := Record(t, ProductLookup(p, stock));
    if stock.None? || stock.value < items[i].quantity {
      k := i;
    } else {
      k := PreflightStops(svc, t1, items, i + 1);
      PreflightOnlyLooksUp(svc, t1, items, i + 1);
      var c := Preflight(svc, t1, items, i + 1).0.calls;
      assert c[|t.calls|] == c[..|t1.calls|][|t.calls|];
      PassAllCons(c, |t.calls|, items, i, k);
    }
  }

  /** A failed pre-flight is all Checkout does: no directory, ledger or store call. */
  lemma FailedPreflightReachesNoLedger(svc: Services, t0: Transcript, items: seq<OrderItem>)
    requires Preflight(svc, t0, items, 0).1.Some?
    ensures Reserve(svc, t0, items) == Preflight(svc, t0, items, 0)
    ensures OnlyProductLookups(Reserve(svc, t0, items).0, |t0.calls|)
    ensures Reserve(svc, t0, items).0.accepted == t0.accepted
  {
    PreflightOnlyLooksUp(svc, t0, items, 0);
  }

  /**
   * One reservation attempt: a GetStock of the item at `w`, then an add_reserved only
   * when the guard holds; the attempt succeeds exactly when that update is accepted.
   */
  lemma TryReserveCalls(svc: Services, t: Transcript, item: OrderItem, w: int)
    ensures var r := TryReserve(svc, t, item, w);
      var c, n0 := r.0.calls, |t.calls|;
      && Extends(r.0, t)
      && n0 < |c| <= n0 + 2
      && c[n0].StockLookup? && c[n0].productId == ProductKey(item) && c[n0].warehouseId == w
      && (|c| == n0 + 2 ==> ReserveGuard(c[n0], c[n0 + 1], item) && r.1 == c[n0 + 1].accepted)
      && (|c| == n0 + 1 ==> !r.1)
      && (r.1 ==> |c| == n0 + 2 && svc.update(c[..n0 + 1], c[n0 + 1].request))
      && r.0.probes == t.probes + [w]
      && r.0.accepted == t.accepted + (if r.1 then [StockRequest(AddReserved, item, w)] else [])
  {
    var stock := svc.stock(t.calls, ProductKey(item), w);
    var e := StockLookup(ProductKey(item), w, stock);
    var t1 := Record(t, e);
    RecordExtends(t, e);
    if stock.Some? && Available(stock.value) >= item.quantity {
      var req := StockRequest(AddReserved, item, w);
      var ok := svc.update(t1.calls, req);
      RecordExtends(t1, StockUpdate(req, ok));
      ExtendsTransitive(Record(t1, StockUpdate(req, ok)), t1, t);
      assert Record(t1, StockUpdate(req, ok)).calls[..|t.calls| + 1] == t1.calls;
    }
  }

  lemma SliceAfterOne(p: seq<int>, ws: seq<int>, j: nat, e: nat)
    requires j < e <= |ws|
    ensures (p + [ws[j]]) + ws[j + 1..e] == p + ws[j..e]
  {
    assert ws[j..e] == [ws[j]] + ws[j + 1..e];
  }

  /**
   * First fit, the probes: the scan calls GetStock on the warehouses in directory order,
   * up to the one it chose and no further, or on all of them when none was chosen.
   */
  lemma {:induction false} ReserveScanProbes(svc: Services, t: Transcript, item: OrderItem, ws: seq<int>, j: nat)
    requires j <= |ws|
    ensures var s := ReserveScan(svc, t, item, ws, j);
      && (s.chosen.Some? ==> j <= s.chosen.value < |ws| && s.transcript.probes == t.probes + ws[j..s.chosen.value + 1])
      && (s.chosen.None? ==> s.transcript.probes == t.probes + ws[j..])
    decreases |ws| - j
  {
    if j < |ws| {
      var r := TryReserve(svc, t, item, ws[j]);
      TryReserveCalls(svc, t, item, ws[j]);
      var s := ReserveScan(svc, t, item, ws, j);
      if r.1 {
        assert ws[j..j + 1] == [ws[j]];
      } else {
        assert s == ReserveScan(svc, r.0, item, ws, j + 1);
        ReserveScanProbes(svc, r.0, item, ws, j + 1);
        if s.chosen.Some? {
          SliceAfterOne(t.probes, ws, j, s.chosen.value + 1);
        } else {
          SliceAfterOne(t.probes, ws, j, |ws|);
          assert ws[j..] == ws[j..|ws|] && ws[j + 1..] == ws[j + 1..|ws|];
        }
      }
    }
  }

  /**
   * First fit, the updates: exactly one add_reserved is accepted, for the chosen
   * warehouse, or none when the scan chose none.
   */
  lemma {:induction false} ReserveScanAccepts(svc: Services, t: Transcript, item: OrderItem, ws: seq<int>, j: nat)
    requires j <= |ws|
    ensures var s := ReserveScan(svc, t, item, ws, j);
      && (s.chosen.Some? ==>
            && s.chosen.value < |ws|
            && s.transcript.accepted == t.accepted + [StockRequest(AddReserved, item, ws[s.chosen.value])])
      && (s.chosen.None? ==> s.transcript.accepted == t.accepted)
    decreases |ws| - j
  {
    if j < |ws| {
      var r := TryReserve(svc, t, item, ws[j]);
      TryReserveCalls(svc, t, item, ws[j]);
      if !r.1 {
        ReserveScanAccepts(svc, r.0, item, ws, j + 1);
      }
    }
  }

  /**
   * Call `n` of `c` is one the reservation scan for `item` makes: a GetStock for the
   * item, or an add_reserved directly after a GetStock that found enough available stock
   * at that warehouse, both made from position `from` on.
   */
  predicate ReserveCall(c: seq<Exchange>, n: nat, from: nat, item: OrderItem)
    requires n < |c|
  {
    (c[n].StockLookup? && c[n].productId == ProductKey(item))
    || (c[n].StockUpdate? && from < n && ReserveGuard(c[n - 1], c[n], item))
  }

  /**
   * The scan makes only GetStock calls for the item and add_reserved calls, and every
   * add_reserved directly follows a GetStock of the same warehouse that succeeded with
   * quantity − reserved at least the item's quantity.
   */
  lemma {:induction false} ReserveScanGuarded(svc: Services, t: Transcript, item: OrderItem, ws: seq<int>, j: nat)
    requires j <= |ws|
    ensures var u := ReserveScan(svc, t, item, ws, j).transcript;
      && Extends(u, t)
      && forall n :: |t.calls| <= n < |u.calls| ==> ReserveCall(u.calls, n, |t.calls|, item)
    decreases |ws| - j
  {
    if j < |ws| {
      var r := TryReserve(svc, t, item, ws[j]);
      TryReserveCalls(svc, t, item, ws[j]);
      var t1 := r.0;
      var u := ReserveScan(svc, t, item, ws, j).transcript;
      if !r.1 {
        assert u == ReserveScan(svc, t1, item, ws, j + 1).transcript;
        ReserveScanGuarded(svc, t1, item, ws, j + 1);
        ExtendsTransitive(u, t1, t);
        forall n | |t.calls| <= n < |u.calls|
          ensures ReserveCall(u.calls, n, |t.calls|, item)
        {
          if n < |t1.calls| {
            assert u.calls[n] == u.calls[..|t1.calls|][n];
            if n > |t.calls| {
              assert u.calls[n - 1] == u.calls[..|t1.calls|][n - 1];
            }
          } else {
            assert ReserveCall(u.calls, n, |t1.calls|, item);
          }
        }
      }
    }
  }

  /** The request is an add_reserved of the item's quantity for some warehouse. */
  predicate Reserves(req: UpdateStockRequest, item: OrderItem) {
    req == StockRequest(AddReserved, item, req.warehouseId)
  }

  lemma ReserveScanSendsAddReserved(svc: Services, t: Transcript, item: OrderItem, ws: seq<int>)
    ensures var u := ReserveScan(svc, t, item, ws, 0).transcript;
      Extends(u, t) && Sends(u, |t.calls|, AddReserved)
  {
    ReserveScanGuarded(svc, t, item, ws, 0);
    var u := ReserveScan(svc, t, item, ws, 0).transcript;
    forall n | |t.calls| <= n < |u.calls| && u.calls[n].StockUpdate?
      ensures u.calls[n].request.operation == OperationName(AddReserved)
    {
      assert ReserveCall(u.calls, n, |t.calls|, item);
    }
  }

  /** The reservation loop from item `i` on makes only add_reserved updates. */
  lemma {:induction false} ReserveItemsSend(svc: Services, t: Transcript, items: seq<OrderItem>, i: nat)
    requires i <= |items|
    ensures var u := ReserveItems(svc, t, items, i).0;
      Extends(u, t) && Sends(u, |t.calls|, AddReserved)
    decreases |items| - i
  {
    if i < |items| {
      var ids := svc.directory(t.calls, 0, true);
      var t1 := Record(t, DirectoryLookup(0, true, ids));
      RecordExtends(t, DirectoryLookup(0, true, ids));
      if ids.Some? {
        var s := ReserveScan(svc, t1, items[i], ids.value, 0);
        ReserveScanSendsAddReserved(svc, t1, items[i], ids.value);
        SendsJoin(s.transcript, t1, |t.calls|, AddReserved);
        ExtendsTransitive(s.transcript, t1, t);
        if s.chosen.Some? {
          var u := ReserveItems(svc, s.transcript, items, i + 1).0;
          ReserveItemsSend(svc, s.transcript, items, i + 1);
          ExtendsTransitive(u, s.transcript, t);
          SendsJoin(u, s.transcript, |t.calls|, AddReserved);
        }
      }
    }
  }

  /** The accepted requests of `accU` counted from `base`, one per item from `i` to `k`, each reserving its item. */
  predicate ReservesFrom(accU: seq<UpdateStockRequest>, base: nat, items: seq<OrderItem>, i: nat, k: nat)
    requires i <= k <= |items|
  {
    && |accU| == base + (k - i)
    && forall m :: i <= m < k ==> Reserves(accU[base + (m - i)], items[m])
  }

  lemma ReservesShift(accT: seq<UpdateStockRequest>, accS: seq<UpdateStockRequest>, accU: seq<UpdateStockRequest>,
                      req: UpdateStockRequest, items: seq<OrderItem>, i: nat, k: nat)
    requires i < k <= |items|
    requires accS == accT + [req] && Reserves(req, items[i])
    requires |accS| <= |accU| && accU[..|accS|] == accS
    requires ReservesFrom(accU, |accS|, items, i + 1, k)
    ensures accU[..|accT|] == accT
    ensures ReservesFrom(accU, |accT|, items, i, k)
  {
    assert accU[|accT|] == accU[..|accS|][|accT|];
    assert accU[..|accT|] == accU[..|accS|][..|accT|];
  }

  /**
   * The add_reserved updates the reservation loop gets accepted are one per item before
   * the item it stopped at, in item order: a failure at item k leaves the reservations
   * of the items before it in place.
   */
  lemma {:induction false} ReserveItemsAccepts(svc: Services, t: Transcript, items: seq<OrderItem>, i: nat)
    requires i <= |items|
    ensures var r := ReserveItems(svc, t, items, i);
      && |t.accepted| <= |r.0.accepted| && r.0.accepted[..|t.accepted|] == t.accepted
      && ReservesFrom(r.0.accepted, |t.accepted|, items, i, Reached(r.1, |items|))
    decreases |items| - i
  {
    if i < |items| {
      var ids := svc.directory(t.calls, 0, true);
      var t1 := Record(t, DirectoryLookup(0, true, ids));
      if ids.Some? {
        var s := ReserveScan(svc, t1, items[i], ids.value, 0);
        ReserveScanAccepts(svc, t1, items[i], ids.value, 0);
        if s.chosen.Some? {
          var r := ReserveItems(svc, s.transcript, items, i + 1);
          assert r == ReserveItems(svc, t, items, i);
          ReserveItemsAccepts(svc, s.transcript, items, i + 1);
          ReservesShift(t.accepted, s.transcript.accepted, r.0.accepted,
            StockRequest(AddReserved, items[i], ids.value[s.chosen.value]), items, i, Reached(r.1, |items|));
        } else {
          assert t.accepted == s.transcript.accepted;
        }
      }
    }
  }

  /**
   * Checkout's reservation step after a passed pre-flight: `k` items are reserved, one
   * accepted add_reserved each, in item order, and no other update is made. Every item
   * is reserved exactly when no error is returned; otherwise the error names the item
   * it stopped at, and the `k` reservations before it are not undone.
   */
  lemma ReservedItems(svc: Services, t0: Transcript, items: seq<OrderItem>) returns (k: nat)
    requires Preflight(svc, t0, items, 0).1.None?
    ensures var (u, e) := Reserve(svc, t0, items);
      && k <= |items| && (e.None? <==> k == |items|)
      && (e.Some? ==> e.value == DirectoryUnavailable || e.value == CannotReserve(items[k].productId))
      && Extends(u, t0) && Sends(u, |t0.calls|, AddReserved)
      && ReservesFrom(u.accepted, |t0.accepted|, items, 0, k)
  {
    var t1 := Preflight(svc, t0, items, 0).0;
    PreflightOnlyLooksUp(svc, t0, items, 0);
    var (u, res) := ReserveItems(svc, t1, items, 0);
    ReserveItemsSend(svc, t1, items, 0);
    ReserveItemsAccepts(svc, t1, items, 0);
    k := Reached(res, |items|);
    ExtendsTransitive(u, t1, t0);
    SendsJoin(u, t1, |t0.calls|, AddReserved);
  }

  /** The requests of a release or deduction scan over `ws[j..e]`: all rejected but perhaps the last. */
  function Attempts(op: StockOp, item: OrderItem, ws: seq<int>, j: nat, e: nat, lastAccepted: bool): (r: seq<Exchange>)
    requires j <= e <= |ws|
    ensures |r| == e - j
  {
    seq(e - j, m requires 0 <= m < e - j => StockUpdate(StockRequest(op, item, ws[j + m]), lastAccepted && m == e - j - 1))
  }

  /** A rejected first attempt moves from the scan's attempts to the calls before them. */
  lemma AttemptsCons(c: seq<Exchange>, op: StockOp, item: OrderItem, ws: seq<int>, j: nat, e: nat, b: bool)
    requires j < e <= |ws| && (b ==> j + 1 < e)
    ensures c + Attempts(op, item, ws, j, e, b)
         == (c + [StockUpdate(StockRequest(op, item, ws[j]), false)]) + Attempts(op, item, ws, j + 1, e, b)
  {
    assert Attempts(op, item, ws, j, e, b)
        == [StockUpdate(StockRequest(op, item, ws[j]), false)] + Attempts(op, item, ws, j + 1, e, b);
  }

  /**
   * The release or deduction scan sends `op` to the warehouses in directory order and
   * stops at the first update that returns without error, whichever warehouse that is.
   */
  lemma {:induction false} UpdateScanCalls(svc: Services, t: Transcript, op: StockOp, item: OrderItem, ws: seq<int>, j: nat)
    requires j <= |ws|
    ensures var s := UpdateScan(svc, t, op, item, ws, j);
      && (s.chosen.Some? ==>
            && j <= s.chosen.value < |ws|
            && s.transcript.calls == t.calls + Attempts(op, item, ws, j, s.chosen.value + 1, true))
      && (s.chosen.None? ==> s.transcript.calls == t.calls + Attempts(op, item, ws, j, |ws|, false))
    decreases |ws| - j
  {
    if j < |ws| {
      var req := StockRequest(op, item, ws[j]);
      var ok := svc.update(t.calls, req);
      var t1 := Record(t, StockUpdate(req, ok));
      if ok {
        assert Attempts(op, item, ws, j, j + 1, true) == [StockUpdate(req, true)];
      } else {
        var s := UpdateScan(svc, t1, op, item, ws, j + 1);
        assert UpdateScan(svc, t, op, item, ws, j) == s;
        UpdateScanCalls(svc, t1, op, item, ws, j + 1);
        AttemptsCons(t.calls, op, item, ws, j, if s.chosen.Some? then s.chosen.value + 1 else |ws|, s.chosen.Some?);
      }
    }
  }

  /** The scan probes no stock, and only its last update, for the chosen warehouse, is accepted. */
  lemma {:induction false} UpdateScanViews(svc: Services, t: Transcript, op: StockOp, item: OrderItem, ws: seq<int>, j: nat)
    requires j <= |ws|
    ensures var s := UpdateScan(svc, t, op, item, ws, j);
      && s.transcript.probes == t.probes
      && (s.chosen.Some? ==>
            s.chosen.value < |ws| && s.transcript.accepted == t.accepted + [StockRequest(op, item, ws[s.chosen.value])])
      && (s.chosen.None? ==> s.transcript.accepted == t.accepted)
    decreases |ws| - j
  {
    if j < |ws| {
      var req := StockRequest(op, item, ws[j]);
      var ok := svc.update(t.calls, req);
      if !ok {
        UpdateScanViews(svc, Record(t, StockUpdate(req, ok)), op, item, ws, j + 1);
      }
    }
  }

  /** The attempts of a scan are UpdateStock calls, each carrying `op`. */
  lemma AttemptsSend(t: Transcript, u: Transcript, op: StockOp, item: OrderItem, ws: seq<int>, e: nat, b: bool)
    requires e <= |ws| && u.calls == t.calls + Attempts(op, item, ws, 0, e, b)
    ensures u.calls[..|t.calls|] == t.calls
    ensures forall n :: |t.calls| <= n < |u.calls| ==> u.calls[n].StockUpdate?
    ensures Sends(u, |t.calls|, op)
  {
    assert u.calls[..|t.calls|] == t.calls;
    forall n | |t.calls| <= n < |u.calls|
      ensures u.calls[n].StockUpdate? && u.calls[n].request.operation == OperationName(op)
    {
      var m := n - |t.calls|;
      assert u.calls[n] == Attempts(op, item, ws, 0, e, b)[m];
      assert Attempts(op, item, ws, 0, e, b)[m] == StockUpdate(StockRequest(op, item, ws[m]), b && m == e - 1);
    }
  }

  /** A scan's transcript: only UpdateStock calls, all for `op`, no GetStock, and at most one accepted update. */
  lemma UpdateScanFilters(svc: Services, t: Transcript, op: StockOp, item: OrderItem, ws: seq<int>)
    ensures var u := UpdateScan(svc, t, op, item, ws, 0).transcript;
      && Extends(u, t) && Sends(u, |t.calls|, op)
      && (forall n :: |t.calls| <= n < |u.calls| ==> u.calls[n].StockUpdate?)
      && u.probes == t.probes && |u.accepted| <= |t.accepted| + 1
  {
    var s := UpdateScan(svc, t, op, item, ws, 0);
    UpdateScanCalls(svc, t, op, item, ws, 0);
    UpdateScanViews(svc, t, op, item, ws, 0);
    AttemptsSend(t, s.transcript, op, item, ws, if s.chosen.Some? then s.chosen.value + 1 else |ws|, s.chosen.Some?);
    assert s.transcript.accepted[..|t.accepted|] == t.accepted;
  }

  /**
   * releaseReservedStock and the deduction loop: only GetWarehouses and `op` updates,
   * no GetStock or GetProduct, and no more accepted updates than items.
   */
  lemma {:induction false} SweepItemsCalls(svc: Services, t: Transcript, op: StockOp, items: seq<OrderItem>, i: nat)
    requires i <= |items|
    ensures var u := SweepItems(svc, t, op, items, i);
      && Extends(u, t) && Sends(u, |t.calls|, op) && OnlyDirectoryAndUpdates(u, |t.calls|)
      && u.probes == t.probes && |u.accepted| <= |t.accepted| + (|items| - i)
    decreases |items| - i
  {
    if i < |items| {
      var ids := svc.directory(t.calls, 0, true);
      var t1 := Record(t, DirectoryLookup(0, true, ids));
      RecordExtends(t, DirectoryLookup(0, true, ids));
      assert t1.calls[|t.calls|] == DirectoryLookup(0, true, ids);
      var t2 := if ids.None? then t1 else UpdateScan(svc, t1, op, items[i], ids.value, 0).transcript;
      if ids.Some? {
        UpdateScanFilters(svc, t1, op, items[i], ids.value);
        SendsJoin(t2, t1, |t.calls|, op);
        OnlyDirectoryAndUpdatesJoin(t2, t1, |t.calls|);
        ExtendsTransitive(t2, t1, t);
      }
      var u := SweepItems(svc, t, op, items, i);
      assert u == SweepItems(svc, t2, op, items, i + 1);
      SweepItemsCalls(svc, t2, op, items, i + 1);
      SendsJoin(u, t2, |t.calls|, op);
      OnlyDirectoryAndUpdatesJoin(u, t2, |t.calls|);
      ExtendsTransitive(u, t2, t);
    }
  }

  /** The reaper sends only subtract_reserved updates and makes no GetStock call. */
  lemma {:induction false} SweepOrdersCalls(svc: Services, t: Transcript, orders: seq<Order>, i: nat)
    requires i <= |orders|
    ensures var u := SweepOrders(svc, t, orders, i);
      Extends(u, t) && Sends(u, |t.calls|, SubtractReserved) && u.probes == t.probes
    decreases |orders| - i
  {
    if i < |orders| {
      var t1 := if orders[i].status == Pending then SweepItems(svc, t, SubtractReserved, orders[i].items, 0) else t;
      if orders[i].status == Pending {
        SweepItemsCalls(svc, t, SubtractReserved, orders[i].items, 0);
      }
      var u := SweepOrders(svc, t1, orders, i + 1);
      SweepOrdersCalls(svc, t1, orders, i + 1);
      SendsJoin(u, t1, |t.calls|, SubtractReserved);
      ExtendsTransitive(u, t1, t);
    }
  }

  /** Orders that are not pending are skipped: when none from `i` on is pending, the reaper makes no call. */
  lemma {:induction false} NonePendingSweepsNothing(svc: Services, t: Transcript, orders: seq<Order>, i: nat)
    requires i <= |orders|
    requires forall k :: i <= k < |orders| ==> orders[k].status != Pending
    ensures SweepOrders(svc, t, orders, i) == t
    decreases |orders| - i
  {
    if i < |orders| {
      NonePendingSweepsNothing(svc, t, orders, i + 1);
    }
  }
}
