/**
 * The order service's records: the order aggregate, its items, the four order
 * states, and the errors its use cases return. Money is in integer minor units.
 */
module OrderModel {
  import opened Int32

  datatype OrderStatus = Pending | Paid | Cancelled | Completed

  datatype OrderItem = OrderItem(productId: int, shopId: int, quantity: int32, price: int)

  /** `expiresAt` is 0, Go's zero time, when the order was never given a deadline. */
  datatype Order = Order(
    id: int,
    userId: int,
    items: seq<OrderItem>,
    totalAmount: int,
    status: OrderStatus,
    expiresAt: int)

  datatype OrderError =
    | OrderNotFound
    | StoreFailure
    | QueryFailed
    | NotPending
    | ProductNotFound(productId: int)
    | InsufficientProductStock(productId: int)
    | DirectoryUnavailable
    | CannotReserve(productId: int)

  /** Σ price × quantity, accumulated from the first item to the last. */
  function Total(items: seq<OrderItem>): int {
    if items == [] then 0
    else Total(items[..|items| - 1]) + items[|items| - 1].price * items[|items| - 1].quantity
  }

  /** The total of a concatenation is the sum of the totals: the amount accumulates item by item. */
  lemma {:induction false} TotalOfConcatenation(a: seq<OrderItem>, b: seq<OrderItem>)
    ensures Total(a + b) == Total(a) + Total(b)
    decreases |b|
  {
    if b == [] {
      assert a + b == a;
    } else {
      var n := |b| - 1;
      assert (a + b)[..|a + b| - 1] == a + b[..n];
      TotalOfConcatenation(a, b[..n]);
    }
  }

  /** With no negative price or quantity the total is not negative. */
  lemma {:induction false} TotalNonnegative(items: seq<OrderItem>)
    requires forall k :: 0 <= k < |items| ==> items[k].price >= 0 && items[k].quantity >= 0
    ensures Total(items) >= 0
  {
    if items != [] {
      TotalNonnegative(items[..|items| - 1]);
    }
  }

  /** The fields the use cases copy into a stored or returned item: product, quantity and price. */
  function Copied(item: OrderItem): (r: OrderItem)
    ensures r.productId == item.productId && r.quantity == item.quantity && r.price == item.price
    ensures r.shopId == 0
  {
    OrderItem(item.productId, 0, item.quantity, item.price)
  }

  function CopiedItems(items: seq<OrderItem>): (r: seq<OrderItem>)
    ensures |r| == |items|
    ensures forall i :: 0 <= i < |items| ==> r[i] == Copied(items[i])
  {
    seq(|items|, i requires 0 <= i < |items| => Copied(items[i]))
  }

  /** The returned copy of a stored copy is the stored copy. */
  lemma CopyingTwiceIsCopyingOnce(items: seq<OrderItem>)
    ensures CopiedItems(CopiedItems(items)) == CopiedItems(items)
  {
  }

  /** Copying the items keeps the total: a stored order's amount is Σ price × quantity over its stored items. */
  lemma {:induction false} TotalOfCopiedItems(items: seq<OrderItem>)
    ensures Total(CopiedItems(items)) == Total(items)
  {
    if items != [] {
      var n := |items| - 1;
      assert CopiedItems(items)[..n] == CopiedItems(items[..n]);
      TotalOfCopiedItems(items[..n]);
    }
  }

  /** The order as GetOrder and GetUserOrders return it: items copied, and ExpiresAt not carried over. */
  function ReadView(o: Order): (r: Order)
    ensures r.id == o.id && r.userId == o.userId && r.totalAmount == o.totalAmount && r.status == o.status
    ensures r.items == CopiedItems(o.items)
    ensures r.expiresAt == 0
  {
    Order(o.id, o.userId, CopiedItems(o.items), o.totalAmount, o.status, 0)
  }
}
