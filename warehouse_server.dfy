/**
 * The warehouse service's gRPC server: `UpdateStock` selects a ledger operation by
 * its name, and the handlers map use-case errors to status codes.
 */
module WarehouseServer {
  import opened Int32
  import opened Wrappers
  import opened WarehouseProto
  import opened WarehouseRepository
  import opened WarehouseUsecase

  /** The three operations `UpdateStock` accepts. */
  datatype Operation = AddOperation | SubtractOperation | SetOperation

  /** The `switch req.Operation`: only "add", "subtract" and "set" are known. */
  function ParseOperation(name: string): (r: Option<Operation>)
    ensures r == Some(AddOperation) <==> name == "add"
    ensures r == Some(SubtractOperation) <==> name == "subtract"
    ensures r == Some(SetOperation) <==> name == "set"
    ensures r.None? <==> name != "add" && name != "subtract" && name != "set"
  {
    if name == "add" then Some(AddOperation)
    else if name == "subtract" then Some(SubtractOperation)
    else if name == "set" then Some(SetOperation)
    else None
  }

  /** The operation names the order service sends are none of the three. */
  lemma OrderServiceOperationsAreUnknown()
    ensures ParseOperation("add_reserved").None?
    ensures ParseOperation("subtract_reserved").None?
    ensures ParseOperation("deduct_reserved").None?
  {
  }

  /** gRPC status codes the server returns. */
  datatype Code = InvalidArgument | Internal | NotFound

  /** A gRPC reply: a response message, or a status error. */
  datatype Reply<T> = Reply(message: T) | Status(code: Code)

  /** The reply UpdateStock builds from the use-case result. */
  function UpdateStockReply(req: UpdateStockRequest, r: Result<Stock, Error>): (reply: Reply<UpdateStockResponse>)
    ensures r.Err? ==> reply == Status(Internal)
    ensures r.Ok? ==> reply.Reply? && reply.message.success
    ensures r.Ok? ==> reply.message.stock.quantity == r.value.quantity && reply.message.stock.reserved == r.value.reserved
    ensures r.Ok? ==> reply.message.stock.productId == req.productId && reply.message.stock.warehouseId == req.warehouseId
  {
    match r
    case Err(_) => Status(Internal)
    case Ok(s) => Reply(UpdateStockResponse(true, StockMessage(req.productId, req.warehouseId, s.quantity, s.reserved)))
  }

  /** The reply TransferStock builds from the use-case result. */
  function TransferStockReply(r: Result<(), Error>): (reply: Reply<TransferStockResponse>)
    ensures r.Err? <==> reply == Status(Internal)
    ensures r.Ok? ==> reply.Reply? && reply.message.success
  {
    if r.Err? then Status(Internal) else Reply(TransferStockResponse(true, "Stock transferred successfully"))
  }

  /** The reply GetStock builds from the use-case result. */
  function GetStockReply(productId: int, warehouseId: int, r: Result<Stock, Error>): (reply: Reply<GetStockResponse>)
    ensures r.Err? <==> reply == Status(NotFound)
    ensures r.Ok? ==> reply == Reply(GetStockResponse(StockMessage(productId, warehouseId, r.value.quantity, r.value.reserved)))
  {
    if r.Err? then Status(NotFound) else Reply(GetStockResponse(StockMessage(productId, warehouseId, r.value.quantity, r.value.reserved)))
  }

  class WarehouseServer {
    const usecase: WarehouseUsecase

    constructor (usecase: WarehouseUsecase)
      ensures this.usecase == usecase
    {
      this.usecase := usecase;
    }

    /**
     * UpdateStock: a known operation runs the matching ledger call with the request's
     * quantity and reserved passed on unchanged; any other name is InvalidArgument and
     * leaves the ledger alone.
     */
    method UpdateStock(req: UpdateStockRequest) returns (reply: Reply<UpdateStockResponse>)
      modifies usecase.stockRepo
      ensures var before, p, w := old(usecase.stockRepo.stocks), req.productId, req.warehouseId;
        match ParseOperation(req.operation)
        case None =>
          reply == Status(InvalidArgument) && usecase.stockRepo.stocks == before
        case Some(AddOperation) =>
          var e := AddStockEffect(before, p, w, req.quantity, req.reserved);
          usecase.stockRepo.stocks == e.0 && reply == UpdateStockReply(req, Ok(e.1))
        case Some(SubtractOperation) =>
          var e := SubtractStockEffect(before, p, w, req.quantity, req.reserved);
          usecase.stockRepo.stocks == e.0 && reply == UpdateStockReply(req, e.1)
        case Some(SetOperation) =>
          var e := SetStockEffect(before, p, w, req.quantity, req.reserved);
          usecase.stockRepo.stocks == e.0 && reply == UpdateStockReply(req, Ok(e.1))
    {
      var r: Result<Stock, Error>;
      match ParseOperation(req.operation) {
        case None =>
          return Status(InvalidArgument);
        case Some(AddOperation) =>
          r := usecase.AddStock(req.productId, req.warehouseId, req.quantity, req.reserved);
        case Some(SubtractOperation) =>
          r := usecase.SubtractStock(req.productId, req.warehouseId, req.quantity, req.reserved);
        case Some(SetOperation) =>
          r := usecase.SetStock(req.productId, req.warehouseId, req.quantity, req.reserved);
      }
      reply := UpdateStockReply(req, r);
    }

    /** TransferStock: Internal on any use-case error, Success otherwise. */
    method TransferStock(productId: int, from: int, to: int, quantity: int32) returns (reply: Reply<TransferStockResponse>)
      modifies usecase.stockRepo
      ensures var ws, stocks := usecase.warehouseRepo.warehouses, old(usecase.stockRepo.stocks);
        var committed := ActiveWarehouse(ws, from) && ActiveWarehouse(ws, to) && Transferred(stocks, productId, from, to, quantity).Ok?;
        && (committed ==> reply.Reply? && reply.message.success && usecase.stockRepo.stocks == Transferred(stocks, productId, from, to, quantity).value)
        && (!committed ==> reply == Status(Internal) && usecase.stockRepo.stocks == stocks)
    {
      var r := usecase.TransferStock(productId, from, to, quantity);
      reply := TransferStockReply(r);
    }

    /** GetStock: the record's counters unchanged, or NotFound. */
    method GetStock(productId: int, warehouseId: int) returns (reply: Reply<GetStockResponse>)
      ensures (productId, warehouseId) !in usecase.stockRepo.stocks <==> reply == Status(NotFound)
      ensures (productId, warehouseId) in usecase.stockRepo.stocks ==>
        var s := usecase.stockRepo.stocks[(productId, warehouseId)];
        reply == Reply(GetStockResponse(StockMessage(productId, warehouseId, s.quantity, s.reserved)))
    {
      var r := usecase.GetStock(productId, warehouseId);
      reply := GetStockReply(productId, warehouseId, r);
    }
  }
}
