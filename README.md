# Checkout, reservation and order lifecycle of an e-commerce system, in Dafny

This project models two services of a small e-commerce system, plus the calls between them.

**The warehouse service** keeps a stock ledger: one record per (product, warehouse) holding `quantity` and `reserved`, both 32-bit. The model covers:

- its repository: the `warehouses` and `stocks` tables;
- its use cases: AddStock, SubtractStock, SetStock, TransferStock, GetStock, and the warehouse listing, creation and patching;
- its gRPC `UpdateStock`, which selects a ledger operation by name.

**The order service** runs the order lifecycle:

- **Checkout** first checks every product with the catalog. It then reserves each item at the first warehouse in directory order that has enough available stock, and stores a pending order with a deadline. If storing fails, it releases the items.
- **ProcessPayment** marks a pending order paid and then deducts each item's reservation.
- **ReleaseExpiredOrders** (the reaper) releases the reservations of expired pending orders and cancels them.
- **CreateOrder, CancelOrder, GetOrder and GetUserOrders** work on the order store alone.

## How the model is organised

The product and warehouse services are what the order service sees over gRPC. They are the `Services` value, an oracle in `OrderRemote`. Each of its four functions answers from every call made so far (the `calls` of a `Transcript`), so any server behaviour is an instance of it, including intermittent failure.

The remote-call loops are functions in `OrderSaga`. The use-case methods in `OrderUsecase` are proved to compute those functions, and the lemmas in `OrderSagaProperties` state what calls those functions make. Each `Transcript` keeps two views of its calls up to date:

- `probes`: the warehouses probed with GetStock;
- `accepted`: the UpdateStock requests that returned without error.

`OrderConformance` connects the order service to the servers in this repository:

- the warehouse server's `UpdateStock` accepts only "add", "subtract" and "set";
- the product server never fills in `Stock`;
- the directory filters on the shop id, which the order service never sets.

Under these conditions every Checkout with a positive quantity fails, and releases and deductions change nothing. These lemmas describe the code as written. They are not corrected.

Some further behaviours of the code are stated as lemmas. Where the source's own comments say what a step is for, they are cited:

- A reservation failure at item k leaves the reservations of items 0..k−1 in place. There is no rollback (`OrderSagaProperties.ReservedItems`). The only release in Checkout is the one after a failed store (order_usecase.go:129).
- Each reservation reads before it writes: a GetStock, then an `add_reserved` UpdateStock (order_usecase.go:66-87). Nothing makes the two one conditional update.
- The comments at order_usecase.go:161, :207 and :268 say that the release and deduction loops find the warehouse where the stock was reserved. The code sends the update to each warehouse in directory order and stops at the first that accepts it. That need not be the warehouse holding the reservation (`OrderConformance.ReleaseMissesReservingWarehouse`).
- CancelOrder releases no stock, and the reaper never picks a cancelled order up again (`OrderUsecase.CancelledOrderIsNeverReaped`).
- CreateOrder stores no deadline (ExpiresAt is the zero time). The reaper's query is `expires_at <= now` (order_repository.go:25), so every sweep selects such an order while it is pending (`OrderRepository.ZeroExpiryIsAlwaysExpired`).
- Nothing keeps `0 <= reserved <= quantity`. SubtractStock can break it (`WarehouseUsecase.SubtractCanBreakRowInvariant`). So can a transfer that overflows the destination or moves a negative amount (`WarehouseRepository.TransferOverflowBreaksRowInvariant`, `WarehouseRepository.TransferNegativeBreaksRowInvariant`).
- UpdateStatus has no pending guard (`OrderRepository.UpdateStatusIsUnconditional`).

Money is in integer minor units. Time is an integer, with 0 standing for Go's zero time. Every store call that can fail takes a boolean saying whether it succeeds (`createOk`, `writeOk`, `queryOk`).

## Model

| member | source | states |
|---|---|---|
| Int32.Wrap | order-service/app/usecase/order_usecase.go:40-42 | `int32(x)` narrowing: identity on the int32 range, otherwise the value shifted by a multiple of 2^32 into it |
| Int32.OperatorsWrap | warehouse-service/app/usecase/warehouse_usecase.go:197-198 | the int32 `+` and `-` used by the ledger are the two's-complement wrap of the exact sum or difference |
| WarehouseRepository.Available | warehouse-service/app/repository/warehouse_repository.go:105 | `quantity - reserved` in int32: the exact difference when it fits, and between 0 and quantity for a well-formed record |
| WarehouseRepository.FindByID | warehouse-service/app/repository/warehouse_repository.go:23-33 | found exactly when a row has the id; the found row is in the table and has that id; otherwise "not found" |
| WarehouseRepository.FindByShopID | warehouse-service/app/repository/warehouse_repository.go:35-49 | a warehouse is listed iff it is in the table, has the shop id, and is active when only active ones are asked for |
| WarehouseRepository.FindByShopIDKeepsOrder | warehouse-service/app/repository/warehouse_repository.go:35-49 | the listing keeps table order: listing a concatenation gives the concatenation of the listings |
| WarehouseRepository.UnsetShopListsNothing | warehouse-service/app/repository/warehouse_repository.go:38-41 | with no warehouse of shop id 0, a listing for shop id 0 (what the order service asks for) is empty |
| WarehouseRepository.Saved | warehouse-service/app/repository/warehouse_repository.go:51-53 | gorm `Save`: rows with the warehouse's id are replaced by it and no other row changes; with no such row it is appended |
| WarehouseRepository.WarehouseRepository.Create | warehouse-service/app/repository/warehouse_repository.go:19-21 | inserts under a fresh auto-increment id that no stored row had, keeping ids distinct |
| WarehouseRepository.WarehouseRepository.Update | warehouse-service/app/repository/warehouse_repository.go:51-53 | the table becomes `Saved`, and ids stay distinct |
| WarehouseRepository.Find | warehouse-service/app/repository/warehouse_repository.go:71-81 | the record under (product, warehouse) iff that key is stored, otherwise "stock not found" |
| WarehouseRepository.Transferred | warehouse-service/app/repository/warehouse_repository.go:96-137 | fails iff the source record is missing (StockNotFound) or has less available than asked (InsufficientStock); on commit only the two keys change, the destination is created if absent, and no reserved count changes |
| WarehouseRepository.TransferConserves | warehouse-service/app/repository/warehouse_repository.go:109-135 | between distinct warehouses the source loses exactly q, the destination gains exactly q, and their sum is kept |
| WarehouseRepository.TransferToSelfIsIdentity | warehouse-service/app/repository/warehouse_repository.go:109-135 | a committed transfer from a warehouse to itself leaves the table unchanged |
| WarehouseRepository.TransferKeepsRowInvariant | warehouse-service/app/repository/warehouse_repository.go:105-110 | because the availability guard runs before the subtraction, a committed transfer of a nonnegative quantity that does not overflow the destination keeps `0 <= reserved <= quantity` in every row |
| WarehouseRepository.TransferOverflowBreaksRowInvariant | warehouse-service/app/repository/warehouse_repository.go:134 | moving 1 unit onto a record holding MAX is committed and wraps it to MIN, breaking the row invariant |
| WarehouseRepository.TransferNegativeBreaksRowInvariant | warehouse-service/app/repository/warehouse_repository.go:105-109 | a transfer of −1 passes the availability guard and creates a destination record of quantity −1 |
| WarehouseRepository.StockRepository.Create | warehouse-service/app/repository/warehouse_repository.go:67-69 | inserts the record, or refuses a taken key with the table unchanged |
| WarehouseRepository.StockRepository.Update | warehouse-service/app/repository/warehouse_repository.go:92-94 | writes the keyed record and no other |
| WarehouseRepository.StockRepository.Delete | warehouse-service/app/repository/warehouse_repository.go:139-141 | removes the keyed record and no other |
| WarehouseRepository.StockRepository.Transfer | warehouse-service/app/repository/warehouse_repository.go:96-137 | one transaction: the table becomes `Transferred` on commit and is untouched on any error |
| WarehouseUsecase.AddStockEffect | warehouse-service/app/usecase/warehouse_usecase.go:179-214 | an existing record gets both deltas with int32 wrap-around (in range, above MAX, below MIN); a missing one is created with the values given; no other record changes |
| WarehouseUsecase.SubtractStockEffect | warehouse-service/app/usecase/warehouse_usecase.go:216-247 | succeeds iff the record exists with quantity and reserved at least the amounts; each refusal has its own error, checked in the source's order, and leaves the table unchanged; for nonnegative amounts both fields drop by exactly those amounts and stay nonnegative |
| WarehouseUsecase.SetStockEffect | warehouse-service/app/usecase/warehouse_usecase.go:249-284 | the keyed record becomes exactly (quantity, reserved), created if absent; no other record changes |
| WarehouseUsecase.SetStockIdempotent | warehouse-service/app/usecase/warehouse_usecase.go:249-284 | two identical SetStock calls have the effect of one |
| WarehouseUsecase.SubtractKeepsRowInvariant | warehouse-service/app/usecase/warehouse_usecase.go:222-231 | a subtraction with `0 <= quantity <= reserved` keeps `0 <= reserved <= quantity` in every row |
| WarehouseUsecase.SubtractCanBreakRowInvariant | warehouse-service/app/usecase/warehouse_usecase.go:222-231 | subtracting (5, 0) from (10, 8) is accepted and leaves (5, 8), which breaks the row invariant |
| WarehouseUsecase.Patched | warehouse-service/app/usecase/warehouse_usecase.go:103-111 | an empty name or location, or an absent active flag, keeps the old field; id and shop id never change |
| WarehouseUsecase.WarehouseUsecase.GetWarehouses | warehouse-service/app/usecase/warehouse_usecase.go:44-64 | the copy loop returns exactly the repository's listing, in order |
| WarehouseUsecase.WarehouseUsecase.CreateWarehouse | warehouse-service/app/usecase/warehouse_usecase.go:66-95 | the warehouse is stored active under the next id before the shop lookup, and stays stored when that lookup fails |
| WarehouseUsecase.WarehouseUsecase.UpdateWarehouse | warehouse-service/app/usecase/warehouse_usecase.go:97-128 | an unknown id is "not found" with nothing changed; otherwise only the row with that id becomes the patched warehouse |
| WarehouseUsecase.WarehouseUsecase.GetStock | warehouse-service/app/usecase/warehouse_usecase.go:163-177 | succeeds iff the key is stored, with the stored record |
| WarehouseUsecase.WarehouseUsecase.AddStock | warehouse-service/app/usecase/warehouse_usecase.go:179-214 | the table and the result are those of `AddStockEffect` |
| WarehouseUsecase.WarehouseUsecase.SubtractStock | warehouse-service/app/usecase/warehouse_usecase.go:216-247 | the table and the result are those of `SubtractStockEffect` |
| WarehouseUsecase.WarehouseUsecase.SetStock | warehouse-service/app/usecase/warehouse_usecase.go:249-284 | the table and the result are those of `SetStockEffect` |
| WarehouseUsecase.WarehouseUsecase.TransferStock | warehouse-service/app/usecase/warehouse_usecase.go:130-161 | the six refusals in the source's order (source found and active, destination found and active, stock found, enough available), each changing nothing; it commits iff both warehouses are active and `Transferred` succeeds |
| WarehouseServer.ParseOperation | warehouse-service/app/delivery/grpc/server.go:145-154 | exactly "add", "subtract" and "set" are recognised, each as its own operation |
| WarehouseServer.OrderServiceOperationsAreUnknown | warehouse-service/app/delivery/grpc/server.go:145-154 | "add_reserved", "subtract_reserved" and "deduct_reserved" are not recognised |
| WarehouseServer.UpdateStockReply | warehouse-service/app/delivery/grpc/server.go:156-171 | a use-case error is Internal; success carries the record's counters and the request's ids |
| WarehouseServer.TransferStockReply | warehouse-service/app/delivery/grpc/server.go:109-120 | an error is Internal, otherwise success |
| WarehouseServer.GetStockReply | warehouse-service/app/delivery/grpc/server.go:122-139 | an error is NotFound, otherwise the record's counters |
| WarehouseServer.WarehouseServer.UpdateStock | warehouse-service/app/delivery/grpc/server.go:141-172 | an unknown operation is InvalidArgument with the ledger unchanged; a known one has exactly the effect of its ledger operation, with quantity and reserved passed on unchanged |
| WarehouseServer.WarehouseServer.TransferStock | warehouse-service/app/delivery/grpc/server.go:109-120 | success with the transferred table iff the transfer commits; otherwise Internal and the ledger unchanged |
| WarehouseServer.WarehouseServer.GetStock | warehouse-service/app/delivery/grpc/server.go:122-139 | NotFound iff the key is not stored, otherwise its counters |
| OrderModel.TotalOfConcatenation | order-service/app/usecase/order_usecase.go:96-100 | the total accumulates item by item: the total of a concatenation is the sum of the totals |
| OrderModel.TotalNonnegative | order-service/app/usecase/order_usecase.go:96-100 | with no negative price or quantity the total is not negative |
| OrderModel.Copied | order-service/app/usecase/order_usecase.go:107-114 | a copied item keeps product, quantity and price and drops the shop id |
| OrderModel.CopiedItems | order-service/app/usecase/order_usecase.go:105-115 | the copy has one item per input item, in order |
| OrderModel.CopyingTwiceIsCopyingOnce | order-service/app/usecase/order_usecase.go:135-145 | copying the stored items again for the reply gives the stored items |
| OrderModel.TotalOfCopiedItems | order-service/app/usecase/order_usecase.go:96-125 | the stored total equals the total of the stored items |
| OrderModel.ReadView | order-service/app/usecase/order_usecase.go:360-388 | an order as read back keeps id, user, total and status, has its items copied, and has no ExpiresAt |
| OrderRepository.FindExpiredOrders | order-service/app/repository/order_repository.go:22-31 | an order is returned iff it is stored, pending, and its deadline is at or before the time given |
| OrderRepository.NothingExpiredFindsNothing | order-service/app/repository/order_repository.go:22-31 | with no expired order stored, the result is empty |
| OrderRepository.ZeroExpiryIsAlwaysExpired | order-service/app/repository/order_repository.go:25 | a pending order with no deadline is selected at every nonnegative time |
| OrderRepository.FindByID | order-service/app/repository/order_repository.go:37-47 | found exactly when a row has the id, and it is that row; otherwise "order not found" |
| OrderRepository.OfUser | order-service/app/repository/order_repository.go:52-61 | the user's orders: exactly the stored rows with that user id |
| OrderRepository.Paged | order-service/app/repository/order_repository.go:59-61 | for nonnegative offset and limit, the slice from the offset at most limit long; never more rows than the limit and never a row not given |
| OrderRepository.Offset | order-service/app/repository/order_repository.go:59 | for page >= 1 and a nonnegative limit, the offset is nonnegative |
| OrderRepository.FindByUserID | order-service/app/repository/order_repository.go:49-67 | the count is all the user's orders whatever the page; for page >= 1 and limit >= 0 the rows are the page's slice of them; every row belongs to the user |
| OrderRepository.WithStatus | order-service/app/repository/order_repository.go:73-75 | the rows with the id take the new status; nothing else changes |
| OrderRepository.UpdateStatusIsUnconditional | order-service/app/repository/order_repository.go:73-75 | a stored order takes any new status from any status: reading it back gives the same order with only the status changed |
| OrderRepository.OrderRepository.Create | order-service/app/repository/order_repository.go:33-35 | on success the order is appended under a fresh id; on failure the table is unchanged |
| OrderRepository.OrderRepository.UpdateStatus | order-service/app/repository/order_repository.go:73-75 | on success the table becomes `WithStatus`; on failure it is unchanged |
| OrderRemote.ProductKey | order-service/app/usecase/order_usecase.go:41 | `int32(item.ProductID)`: the id itself when it fits, and always congruent to it modulo 2^32 |
| OrderRemote.OperationName | order-service/app/usecase/order_usecase.go:82 | the three operations are sent as "add_reserved" (line 82), "subtract_reserved" (line 176) and "deduct_reserved" (line 223), each name for its own operation |
| OrderRemote.Available | order-service/app/usecase/order_usecase.go:75 | `Quantity - Reserved` of a GetStock reply in int32: the exact difference when it fits, and between 0 and quantity when 0 <= reserved <= quantity |
| OrderRemote.RecordKeepsCoherent | order-service/app/usecase/order_usecase.go:66-87 | recording one call keeps `probes` and `accepted` equal to the GetStock warehouses and the accepted updates among the calls |
| OrderRemote.RecordExtends | order-service/app/usecase/order_usecase.go:66-87 | recording a call only appends: the calls, probes and accepted updates before it are kept as a prefix |
| OrderRemote.StockRequest | order-service/app/usecase/order_usecase.go:78-83 | the request carries the narrowed product id, the warehouse, Reserved = the item's quantity and the operation's name; Quantity is set only for a deduction |
| OrderRemote.OrderOperationsAreRejected | warehouse-service/app/delivery/grpc/server.go:145-154 | a ledger that follows the warehouse server rejects every request the order service sends |
| OrderSaga.Preflight | order-service/app/usecase/order_usecase.go:38-51 | at most one GetProduct per remaining item, exactly one each when it passes; a failure is ProductNotFound or InsufficientProductStock |
| OrderSaga.TryReserve | order-service/app/usecase/order_usecase.go:66-88 | one attempt probes exactly the warehouse given; on success exactly its `add_reserved` is accepted, otherwise nothing is |
| OrderSaga.ReserveScan | order-service/app/usecase/order_usecase.go:65-89 | a chosen warehouse is one of the directory's, at or after the scan's start |
| OrderSaga.Reserve | order-service/app/usecase/order_usecase.go:36-94 | no error only if the pre-flight passed; a CannotReserve names an item of the cart; the error is never one of the order store's (OrderNotFound, StoreFailure, QueryFailed, NotPending) |
| OrderSaga.UpdateScan | order-service/app/usecase/order_usecase.go:170-181 | a chosen warehouse is one of the directory's, at or after the scan's start |
| OrderSaga.ReserveItems | order-service/app/usecase/order_usecase.go:54-94 | the loop stops at an item index between its start and the end, and before the end unless every item was reserved |
| OrderSagaProperties.PreflightOnlyLooksUp | order-service/app/usecase/order_usecase.go:38-51 | the pre-flight makes only GetProduct calls: no stock probed, nothing reserved |
| OrderSagaProperties.PreflightPasses | order-service/app/usecase/order_usecase.go:38-51 | a passed pre-flight made one GetProduct per item, in order, each reporting at least the item's quantity |
| OrderSagaProperties.PreflightStops | order-service/app/usecase/order_usecase.go:38-51 | a failed pre-flight stopped at some item k: the items before k passed, and its last call is item k's lookup, which failed |
| OrderSagaProperties.FailedPreflightReachesNoLedger | order-service/app/usecase/order_usecase.go:38-51 | when the pre-flight fails, Checkout makes no directory, ledger or store call |
| OrderSagaProperties.TryReserveCalls | order-service/app/usecase/order_usecase.go:66-88 | one attempt is a GetStock and, only when it found enough available, an add_reserved; it succeeds iff that update was accepted |
| OrderSagaProperties.ReserveScanProbes | order-service/app/usecase/order_usecase.go:65-89 | first fit: GetStock in directory order up to the chosen warehouse and no further, or over all of them when none is chosen |
| OrderSagaProperties.ReserveScanAccepts | order-service/app/usecase/order_usecase.go:65-89 | exactly one add_reserved is accepted, for the chosen warehouse, or none when none is chosen |
| OrderSagaProperties.ReserveScanGuarded | order-service/app/usecase/order_usecase.go:65-89 | every add_reserved directly follows a successful GetStock of the same warehouse that showed enough available |
| OrderSagaProperties.ReserveScanSendsAddReserved | order-service/app/usecase/order_usecase.go:78-83 | the scan sends only add_reserved updates |
| OrderSagaProperties.ReserveItemsSend | order-service/app/usecase/order_usecase.go:54-94 | the reservation loop sends only add_reserved updates |
| OrderSagaProperties.ReserveItemsAccepts | order-service/app/usecase/order_usecase.go:54-94 | the accepted updates are one add_reserved per item before the stopping item, in item order |
| OrderSagaProperties.ReservedItems | order-service/app/usecase/order_usecase.go:54-94 | after a passed pre-flight, k items are reserved, one accepted add_reserved each and nothing else; no error iff k is the whole cart; otherwise the error is DirectoryUnavailable or names item k as CannotReserve, and the k reservations are not undone |
| OrderSagaProperties.UpdateScanCalls | order-service/app/usecase/order_usecase.go:170-181 | the release or deduction scan sends its operation to the warehouses in directory order, stopping at the first accepted update |
| OrderSagaProperties.UpdateScanViews | order-service/app/usecase/order_usecase.go:170-181 | the scan probes no stock and gets exactly the chosen warehouse's update accepted, or none |
| OrderSagaProperties.UpdateScanFilters | order-service/app/usecase/order_usecase.go:170-181 | a scan makes only UpdateStock calls, all with its operation, no GetStock, and gets at most one update accepted |
| OrderSagaProperties.SweepItemsCalls | order-service/app/usecase/order_usecase.go:159-183 | releaseReservedStock and the deduction loop: every call is a GetWarehouses or an UpdateStock of the one operation (no GetProduct, no GetStock), and at most as many updates accepted in total as there are items |
| OrderSagaProperties.SweepOrdersCalls | order-service/app/usecase/order_usecase.go:264-298 | the reaper sends only subtract_reserved and makes no GetStock |
| OrderSagaProperties.NonePendingSweepsNothing | order-service/app/usecase/order_usecase.go:264-266 | orders that are not pending are skipped: with none pending the reaper makes no call |
| OrderConformance.ReserveScanRejected | order-service/app/usecase/order_usecase.go:78-87 | against the warehouse server no reservation attempt is accepted, so the scan chooses nothing |
| OrderConformance.CheckoutFailsAgainstWarehouseServer | order-service/app/usecase/order_usecase.go:54-94 | against the warehouse server every Checkout of a non-empty cart fails, and the ledger has accepted nothing |
| OrderConformance.UpdateScanRejected | order-service/app/usecase/order_usecase.go:170-181 | against the warehouse server a release or deduction scan has nothing accepted |
| OrderConformance.SweepItemsRejected | order-service/app/usecase/order_usecase.go:159-183 | against the warehouse server releaseReservedStock and the deduction loop change no stock |
| OrderConformance.SweepOrdersRejected | order-service/app/usecase/order_usecase.go:264-298 | against the warehouse server the reaper releases no stock |
| OrderConformance.PreflightFailsAgainstProductServer | order-service/app/usecase/order_usecase.go:47-50 | against the product server (Stock always 0), the pre-flight fails once the cart holds an item of positive quantity |
| OrderConformance.CheckoutFailsAgainstProductServer | order-service/app/usecase/order_usecase.go:38-51 | against the product server such a Checkout fails with only product lookups made and nothing reserved |
| OrderConformance.CheckoutFindsNoWarehouse | order-service/app/usecase/order_usecase.go:56-58 | with a directory answering from the warehouse table and no warehouse of shop 0, a Checkout that passed the pre-flight fails at its first item with nothing reserved |
| OrderConformance.ReleaseMissesReservingWarehouse | order-service/app/usecase/order_usecase.go:170-181 | a concrete run: Checkout reserves at warehouse 2, the first with enough stock, but the release subtracts at warehouse 1, the first that accepts |
| OrderUsecase.CheckProducts | order-service/app/usecase/order_usecase.go:38-51 | the GetProduct loop, early returns included, computes the pre-flight |
| OrderUsecase.ReserveStock | order-service/app/usecase/order_usecase.go:54-94 | the nested loops with their flag, `continue` and `break` compute the reservation loop |
| OrderUsecase.SweepStock | order-service/app/usecase/order_usecase.go:159-183 | the release or deduction loop computes the per-item sweep |
| OrderUsecase.ComputeTotal | order-service/app/usecase/order_usecase.go:96-100 | the accumulation loop gives Σ price × quantity |
| OrderUsecase.CopyItems | order-service/app/usecase/order_usecase.go:105-115 | the append loop gives the item-by-item copy |
| OrderUsecase.CancelExpired | order-service/app/usecase/order_usecase.go:291-296 | the status writes of a sweep keep one row per order |
| OrderUsecase.SweepLeavesFailedWrites | order-service/app/usecase/order_usecase.go:291-296 | after a sweep only statuses change, and only to cancelled; an order is still expired iff it was expired and its write failed |
| OrderUsecase.FailedWriteIsRetried | order-service/app/usecase/order_usecase.go:291-296 | an expired order whose cancellation failed is selected again by the next query |
| OrderUsecase.SecondSweepChangesNothing | order-service/app/usecase/order_usecase.go:256-301 | when every write succeeds, a second sweep at the same time finds nothing, changes nothing and makes no call |
| OrderUsecase.CancelledOrderIsNeverReaped | order-service/app/usecase/order_usecase.go:425-439 | a cancelled order is never selected by the reaper, so the stock CancelOrder left reserved is released by neither |
| OrderUsecase.OrderUsecase.Checkout | order-service/app/usecase/order_usecase.go:36-157 | a pre-flight or reservation error returns it with no order stored; on success one pending order is stored with the copied items, the total and deadline now + timeout; a failed store releases every item and stores nothing |
| OrderUsecase.OrderUsecase.ProcessPayment | order-service/app/usecase/order_usecase.go:185-254 | not found, not pending or a failed write returns an error with no change and no call; otherwise the order becomes paid and each item gets a deduction sweep |
| OrderUsecase.OrderUsecase.ReleaseExpiredOrders | order-service/app/usecase/order_usecase.go:256-301 | fails only when the query fails; otherwise every selected order is released and cancelled, and a failed write does not stop the rest |
| OrderUsecase.OrderUsecase.CreateOrder | order-service/app/usecase/order_usecase.go:303-358 | stores a pending order with the copied items, the total and no deadline, with no remote call; a failed store changes nothing |
| OrderUsecase.OrderUsecase.CancelOrder | order-service/app/usecase/order_usecase.go:425-439 | only a stored pending order is cancelled; errors change nothing, and no stock is released |
| OrderUsecase.OrderUsecase.GetOrder | order-service/app/usecase/order_usecase.go:360-388 | the stored order as read back, or "order not found" |
| OrderUsecase.OrderUsecase.GetUserOrders | order-service/app/usecase/order_usecase.go:390-422 | the page of the user's orders, each as read back, and the count of all of them |

## Left out

- Money: the source's `float64` prices and totals are integer minor units here. Floating-point rounding of the accumulated total is not modelled.
- Time: `time.Now()` is the parameter `now`. CreatedAt and UpdatedAt timestamps are not stored, and the order timeout is a plain integer.
- Concurrency: concurrent requests and the reaper's five-minute ticker goroutine (order-service/main.go) are not modelled. Each use case runs as one uninterrupted step against the oracle, and the oracle may answer differently at each call.
- Store faults: only the faults the use cases branch on are parameters (Create, UpdateStatus, the expired-orders query). Other database errors are not modelled: FindByID errors other than not-found, the FindByUserID count and query errors, and every warehouse-service database error.
- OrderRepository.Paged: a limit of 0 returns no rows, as gorm does from about v1.24 on. Older gorm ignored a zero limit and returned every row. The gorm version is not part of this model, and the handler passes `limit` straight from the query string (order-service/app/delivery/orderHandler.go:111), so 0 can occur.
- Row order: result rows appear in table (id) order, since the queries give no ORDER BY. Order ids are assigned 1, 2, … as an auto-increment key would be. Item ids are not modelled.
- Narrowing: only the order service's `int32(item.ProductID)` is modelled (`ProductKey`). The gRPC layers' `int(...)` and `int32(...)` conversions of ids are taken as lossless.
- Payment: the payment method and details are ignored by the source and are not parameters.
- Logging: the `log.Printf` calls have no effect and are omitted.
- Warehouse lookup: GetWarehouse (warehouse_usecase.go:27-42) is not part of the core. Neither are the warehouse `Delete`, the order repository's `Update` and `Delete`, the HTTP handlers, authentication, or the product, shop and user services. The catalog and directory are only oracle functions.
- OrderRemote.Coherent: the `probes` and `accepted` views are kept by `Record`. `RecordKeepsCoherent` proves that one step keeps them equal to filters of `calls`, not that a whole saga does.
- WarehouseRepository.TransferConserves: proved only for a well-formed source record, a nonnegative quantity and a destination whose new quantity does not overflow int32. The source admits all three cases: the guard at warehouse_repository.go:105-109 lets a negative quantity through, SubtractStock can leave a malformed record, and the destination's `+=` wraps.
- WarehouseRepository.TransferKeepsRowInvariant: proved only for a nonnegative quantity and a destination whose new quantity does not overflow int32. `TransferNegativeBreaksRowInvariant` and `TransferOverflowBreaksRowInvariant` show that the invariant fails without either condition.
- WarehouseUsecase.SubtractStockEffect: states the exact new counters only for nonnegative amounts. For negative amounts it states only which requests are accepted and that no other record changes.
- OrderUsecase.CancelExpired: its own contract states only the table's length. Its meaning is stated by `SweepLeavesFailedWrites`, `FailedWriteIsRetried` and `SecondSweepChangesNothing`.
