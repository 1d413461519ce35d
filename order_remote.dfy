/**
 * The order service's view of its gRPC peers. A call and its reply are recorded as
 * one `Exchange`; the replies come from `Services`, whose functions may depend on
 * every call made before, so any server behaviour (including one that changes over
 * time or fails intermittently) is an instance.
 */
module OrderRemote {
  import opened Int32
  import opened Wrappers
  import opened WarehouseProto
  import opened OrderModel
  import WarehouseServer

  datatype Exchange =
    | ProductLookup(productId: int32, productStock: Option<int32>)
    | DirectoryLookup(shopId: int, activeOnly: bool, warehouseIds: Option<seq<int>>)
    | StockLookup(productId: int32, warehouseId: int, stock: Option<StockMessage>)
    | StockUpdate(request: UpdateStockRequest, accepted: bool)

  /**
   * The calls made so far, in order, with two views of them kept up as calls are
   * recorded: the warehouses probed with GetStock, and the UpdateStock requests the
   * warehouse service accepted.
   */
  datatype Transcript = Transcript(calls: seq<Exchange>, probes: seq<int>, accepted: seq<UpdateStockRequest>)

  const NoCalls: Transcript := Transcript([], [], [])

  function Record(t: Transcript, e: Exchange): Transcript {
    Transcript(
      t.calls + [e],
      t.probes + (if e.StockLookup? then [e.warehouseId] else []),
      t.accepted + (if e.StockUpdate? && e.accepted then [e.request] else []))
  }

  /**
   * `product`: the product's `Stock`, or None when GetProduct errs; `directory`: the ids
   * GetWarehouses lists, or None when it errs; `stock`: the GetStock reply, or None on
   * error; `update`: whether UpdateStock returned without error.
   */
  datatype Services = Services(
    product: (seq<Exchange>, int32) -> Option<int32>,
    directory: (seq<Exchange>, int, bool) -> Option<seq<int>>,
    stock: (seq<Exchange>, int32, int) -> Option<StockMessage>,
    update: (seq<Exchange>, UpdateStockRequest) -> bool)

  /** The product id as sent on the wire, narrowed to 32 bits. */
  function ProductKey(item: OrderItem): (r: int32)
    ensures InRange(item.productId) ==> r == item.productId
    ensures (item.productId - r) % MODULUS == 0
  {
    Wrap(item.productId)
  }

  datatype StockOp = AddReserved | SubtractReserved | DeductReserved

  function OperationName(op: StockOp): (r: string)
    ensures r == "add_reserved" <==> op == AddReserved
    ensures r == "subtract_reserved" <==> op == SubtractReserved
    ensures r == "deduct_reserved" <==> op == DeductReserved
  {
    match op
    case AddReserved => "add_reserved"
    case SubtractReserved => "subtract_reserved"
    case DeductReserved => "deduct_reserved"
  }

  /** The UpdateStock request for one item: deduction also sets Quantity, the others leave it 0. */
  function StockRequest(op: StockOp, item: OrderItem, warehouseId: int): (r: UpdateStockRequest)
    ensures r.productId == ProductKey(item) && r.warehouseId == warehouseId
    ensures r.reserved == item.quantity && r.operation == OperationName(op)
    ensures r.quantity == (if op == DeductReserved then item.quantity else 0)
  {
    UpdateStockRequest(ProductKey(item), warehouseId,
      if op == DeductReserved then item.quantity else 0, item.quantity, OperationName(op))
  }

  /** What a reply of GetStock leaves available: quantity − reserved in 32-bit arithmetic. */
  function Available(s: StockMessage): (r: int32)
    ensures InRange(s.quantity - s.reserved) ==> r == s.quantity - s.reserved
    ensures 0 <= s.reserved <= s.quantity ==> 0 <= r <= s.quantity
  {
    Sub(s.quantity, s.reserved)
  }

  /** The warehouses probed with GetStock in a list of calls, in call order. */
  function ProbesOf(calls: seq<Exchange>): seq<int> {
    if calls == [] then []
    else
      var e := calls[|calls| - 1];
      ProbesOf(calls[..|calls| - 1]) + (if e.StockLookup? then [e.warehouseId] else [])
  }

  /** The accepted UpdateStock requests in a list of calls, in call order. */
  function AcceptedOf(calls: seq<Exchange>): seq<UpdateStockRequest> {
    if calls == [] then []
    else
      var e := calls[|calls| - 1];
      AcceptedOf(calls[..|calls| - 1]) + (if e.StockUpdate? && e.accepted then [e.request] else [])
  }

  /** The views are exactly the filters of the calls. */
  predicate Coherent(t: Transcript) {
    t.probes == ProbesOf(t.calls) && t.accepted == AcceptedOf(t.calls)
  }

  /** Recording a call keeps the views exact, so every transcript built from `NoCalls` is coherent. */
  lemma RecordKeepsCoherent(t: Transcript, e: Exchange)
    requires Coherent(t)
    ensures Coherent(Record(t, e))
  {
    assert (t.calls + [e])[..|t.calls|] == t.calls;
  }

  /** `t` is a prefix of `u` in all three lists: calls are only ever appended. */
  predicate Extends(u: Transcript, t: Transcript) {
    && |t.calls| <= |u.calls| && u.calls[..|t.calls|] == t.calls
    && |t.probes| <= |u.probes| && u.probes[..|t.probes|] == t.probes
    && |t.accepted| <= |u.accepted| && u.accepted[..|t.accepted|] == t.accepted
  }

  lemma RecordExtends(t: Transcript, e: Exchange)
    ensures Extends(Record(t, e), t)
  {
    var r := Record(t, e);
    assert r.calls[..|t.calls|] == t.calls;
    assert r.probes[..|t.probes|] == t.probes;
    assert r.accepted[..|t.accepted|] == t.accepted;
  }

  lemma ExtendsTransitive(u: Transcript, v: Transcript, t: Transcript)
    requires Extends(u, v) && Extends(v, t)
    ensures Extends(u, t)
  {
    assert u.calls[..|t.calls|] == u.calls[..|v.calls|][..|t.calls|];
    assert u.probes[..|t.probes|] == u.probes[..|v.probes|][..|t.probes|];
    assert u.accepted[..|t.accepted|] == u.accepted[..|v.accepted|][..|t.accepted|];
  }

  /** Every UpdateStock call made from position `from` on carries the operation `op`. */
  predicate Sends(t: Transcript, from: int, op: StockOp) {
    forall n :: 0 <= from <= n < |t.calls| && t.calls[n].StockUpdate? ==>
      t.calls[n].request.operation == OperationName(op)
  }

  lemma SendsJoin(u: Transcript, v: Transcript, from: int, op: StockOp)
    requires 0 <= from <= |v.calls|
    requires Extends(u, v) && Sends(v, from, op) && Sends(u, |v.calls|, op)
    ensures Sends(u, from, op)
  {
    forall n | from <= n < |v.calls|
      ensures u.calls[n] == v.calls[n]
    {
      assert u.calls[n] == u.calls[..|v.calls|][n];
    }
  }

  /** Every call made from position `from` on is a GetWarehouses or an UpdateStock. */
  predicate OnlyDirectoryAndUpdates(t: Transcript, from: int) {
    forall n :: 0 <= from <= n < |t.calls| ==> t.calls[n].DirectoryLookup? || t.calls[n].StockUpdate?
  }

  lemma OnlyDirectoryAndUpdatesJoin(u: Transcript, v: Transcript, from: int)
    requires 0 <= from <= |v.calls|
    requires Extends(u, v) && OnlyDirectoryAndUpdates(v, from) && OnlyDirectoryAndUpdates(u, |v.calls|)
    ensures OnlyDirectoryAndUpdates(u, from)
  {
    forall n | from <= n < |v.calls|
      ensures u.calls[n] == v.calls[n]
    {
      assert u.calls[n] == u.calls[..|v.calls|][n];
    }
  }

  /**
   * A ledger that follows the warehouse server's UpdateStock dispatch: it returns
   * without error only for an operation the server recognises.
   */
  ghost predicate FollowsWarehouseServer(svc: Services) {
    forall h: seq<Exchange>, req: UpdateStockRequest ::
      svc.update(h, req) ==> WarehouseServer.ParseOperation(req.operation).Some?
  }

  /** A catalog that follows the product server's GetProduct, which never fills in Stock. */
  ghost predicate FollowsProductServer(svc: Services) {
    forall h: seq<Exchange>, p: int32 :: svc.product(h, p).Some? ==> svc.product(h, p).value == 0
  }

  /** None of the three operations the order service sends is recognised by the warehouse server. */
  lemma OrderOperationsAreRejected(svc: Services, h: seq<Exchange>, op: StockOp, item: OrderItem, w: int)
    requires FollowsWarehouseServer(svc)
    ensures !svc.update(h, StockRequest(op, item, w))
  {
    WarehouseServer.OrderServiceOperationsAreUnknown();
  }
}
