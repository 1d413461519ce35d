/**
 * The order service's persistence layer over the `orders` table: the queries as
 * functions of the table's rows (in id order), the writes as methods of the
 * repository class.
 */
module OrderRepository {
  import opened Wrappers
  import opened OrderModel

  /** The `status = pending AND expires_at <= t` condition of FindExpiredOrders. */
  predicate IsExpired(o: Order, t: int) {
    o.status == Pending && o.expiresAt <= t
  }

  /** `FindExpiredOrders(t)`: the rows meeting the condition, in table order. */
  function FindExpiredOrders(orders: seq<Order>, t: int): (r: seq<Order>)
    ensures forall o :: o in r <==> o in orders && IsExpired(o, t)
    ensures |r| <= |orders|
  {
    if orders == [] then []
    else (if IsExpired(orders[0], t) then [orders[0]] else []) + FindExpiredOrders(orders[1..], t)
  }

  /** A table with no expired order gives an empty result. */
  lemma {:induction false} NothingExpiredFindsNothing(orders: seq<Order>, t: int)
    requires forall i :: 0 <= i < |orders| ==> !IsExpired(orders[i], t)
    ensures FindExpiredOrders(orders, t) == []
  {
    if orders != [] {
      NothingExpiredFindsNothing(orders[1..], t);
    }
  }

  /** An order with no deadline (ExpiresAt zero) is selected by every sweep while it is pending. */
  lemma ZeroExpiryIsAlwaysExpired(orders: seq<Order>, o: Order, now: int)
    requires o in orders && o.status == Pending && o.expiresAt == 0 && now >= 0
    ensures o in FindExpiredOrders(orders, now)
  {
  }

  predicate HasOrder(orders: seq<Order>, id: int) {
    exists i :: 0 <= i < |orders| && orders[i].id == id
  }

  /** `FindByID`: the row with that id, or "order not found". */
  function FindByID(orders: seq<Order>, id: int): (r: Result<Order, OrderError>)
    ensures r.Ok? <==> HasOrder(orders, id)
    ensures r.Ok? ==> r.value in orders && r.value.id == id
    ensures r.Err? ==> r.error == OrderNotFound
  {
    if orders == [] then Err(OrderNotFound)
    else if orders[0].id == id then Ok(orders[0])
    else
      var r := FindByID(orders[1..], id);
      assert HasOrder(orders[1..], id) ==> HasOrder(orders, id) by {
        if HasOrder(orders[1..], id) {
          var i :| 0 <= i < |orders[1..]| && orders[1..][i].id == id;
          assert orders[i + 1].id == id;
        }
      }
      assert HasOrder(orders, id) ==> HasOrder(orders[1..], id) by {
        if HasOrder(orders, id) {
          var i :| 0 <= i < |orders| && orders[i].id == id;
          assert i > 0 && orders[1..][i - 1].id == id;
        }
      }
      r
  }

  /** The rows of one user, in table order. */
  function OfUser(orders: seq<Order>, userId: int): (r: seq<Order>)
    ensures forall o :: o in r <==> o in orders && o.userId == userId
    ensures |r| <= |orders|
  {
    if orders == [] then []
    else (if orders[0].userId == userId then [orders[0]] else []) + OfUser(orders[1..], userId)
  }

  function Min(a: int, b: int): int {
    if a <= b then a else b
  }

  /**
   * `Offset(offset).Limit(limit)`: a non-positive offset skips nothing and a negative
   * limit takes everything, as the persistence library builds the query; otherwise the
   * result is the slice from `offset`, at most `limit` long.
   */
  function Paged(rows: seq<Order>, offset: int, limit: int): (r: seq<Order>)
    ensures offset >= 0 && limit >= 0 ==> r == rows[Min(offset, |rows|)..Min(offset + limit, |rows|)]
    ensures limit >= 0 ==> |r| <= limit
    ensures forall o :: o in r ==> o in rows
  {
    var skipped := if offset <= 0 then rows else if offset < |rows| then rows[offset..] else [];
    assert forall o :: o in skipped ==> o in rows;
    if 0 <= limit < |skipped| then skipped[..limit] else skipped
  }

  /** The offset of a page: the rows of the pages before it. */
  function Offset(page: int, limit: int): (r: int)
    ensures page >= 1 && limit >= 0 ==> r >= 0
  {
    (page - 1) * limit
  }

  /**
   * `FindByUserID`: the page starting at `Offset(page, limit)` of the user's orders and
   * the count of all of them, which does not depend on the paging.
   */
  function FindByUserID(orders: seq<Order>, userId: int, page: int, limit: int): (r: (seq<Order>, int))
    ensures r.1 == |OfUser(orders, userId)|
    ensures page >= 1 && limit >= 0 ==>
      var rows, offset := OfUser(orders, userId), Offset(page, limit);
      r.0 == rows[Min(offset, |rows|)..Min(offset + limit, |rows|)]
    ensures limit >= 0 ==> |r.0| <= limit
    ensures forall o :: o in r.0 ==> o in orders && o.userId == userId
  {
    var rows := OfUser(orders, userId);
    (Paged(rows, Offset(page, limit), limit), |rows|)
  }

  /** `UpdateStatus(id, s)`: `UPDATE ... SET status = s WHERE id = ?`, whatever the current status. */
  function WithStatus(orders: seq<Order>, id: int, s: OrderStatus): (r: seq<Order>)
    ensures |r| == |orders|
    ensures forall i :: 0 <= i < |orders| ==> r[i] == (if orders[i].id == id then orders[i].(status := s) else orders[i])
  {
    seq(|orders|, i requires 0 <= i < |orders| => if orders[i].id == id then orders[i].(status := s) else orders[i])
  }

  /**
   * UpdateStatus has no pending guard: a stored order takes the new status from any
   * state, cancelled and completed included, and only its status changes.
   */
  lemma {:induction false} UpdateStatusIsUnconditional(orders: seq<Order>, id: int, s: OrderStatus)
    requires HasOrder(orders, id)
    ensures FindByID(WithStatus(orders, id, s), id) == Ok(FindByID(orders, id).value.(status := s))
  {
    if orders[0].id != id {
      var rest := WithStatus(orders, id, s)[1..];
      assert rest == WithStatus(orders[1..], id, s);
      assert HasOrder(orders[1..], id) by {
        var i :| 0 <= i < |orders| && orders[i].id == id;
        assert i > 0 && orders[1..][i - 1].id == id;
      }
      UpdateStatusIsUnconditional(orders[1..], id, s);
    }
  }

  /** The `orders` table; ids are assigned 1, 2, ... in insertion order. */
  class OrderRepository {
    var orders: seq<Order>

    ghost predicate Valid()
      reads this
    {
      forall i :: 0 <= i < |orders| ==> orders[i].id == i + 1
    }

    constructor ()
      ensures Valid() && orders == []
    {
      orders := [];
    }

    /** `Create`: stores the order under a fresh id, or fails with the store unchanged. */
    method Create(o: Order, ok: bool) returns (r: Result<Order, OrderError>)
      requires Valid()
      modifies this
      ensures Valid()
      ensures ok ==> r == Ok(o.(id := |old(orders)| + 1)) && orders == old(orders) + [r.value]
      ensures ok ==> !HasOrder(old(orders), r.value.id)
      ensures !ok ==> r == Err(StoreFailure) && orders == old(orders)
    {
      if !ok {
        return Err(StoreFailure);
      }
      var stored := o.(id := |orders| + 1);
      orders := orders + [stored];
      r := Ok(stored);
    }

    /** `UpdateStatus`: sets the status of the order with that id, if any. */
    method UpdateStatus(id: int, s: OrderStatus, ok: bool) returns (r: Result<(), OrderError>)
      requires Valid()
      modifies this
      ensures Valid()
      ensures ok ==> r == Ok(()) && orders == WithStatus(old(orders), id, s)
      ensures !ok ==> r == Err(StoreFailure) && orders == old(orders)
    {
      if !ok {
        return Err(StoreFailure);
      }
      orders := WithStatus(orders, id, s);
      r := Ok(());
    }
  }
}
