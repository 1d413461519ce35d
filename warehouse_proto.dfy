/**
 * The messages of the warehouse service's gRPC API that the model needs: the
 * stock update request the order service sends, and the replies the server
 * builds.
 */
module WarehouseProto {
  import opened Int32

  /** `UpdateStockRequest`: a stock change selected by the `operation` string. */
  datatype UpdateStockRequest = UpdateStockRequest(
    productId: int,
    warehouseId: int,
    quantity: int32,
    reserved: int32,
    operation: string)

  /** `Stock` as it travels on the wire (timestamps left out). */
  datatype StockMessage = StockMessage(productId: int, warehouseId: int, quantity: int32, reserved: int32)

  datatype UpdateStockResponse = UpdateStockResponse(success: bool, stock: StockMessage)

  datatype TransferStockResponse = TransferStockResponse(success: bool, message: string)

  datatype GetStockResponse = GetStockResponse(stock: StockMessage)
}
