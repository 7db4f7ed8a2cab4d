/** The user-facing order operations. The database session becomes an
    `OrderStore` object whose `orders` map is the orders table; the caller's
    user id is passed in already resolved. */
module Orders {
  import opened OrderModel

  class OrderStore {
    /** The orders table. */
    var orders: Table
    /** The id the next inserted order receives (the database's autoincrement). */
    var nextId: int

    /** Rows sit under their own ids, and every id was handed out before. */
    ghost predicate Valid()
      reads this
    {
      && WellKeyed(orders)
      && 0 < nextId
      && forall id | id in orders :: 0 < id < nextId
    }

    constructor ()
      ensures Valid()
      ensures orders == map[] && nextId == 1
    {
      orders := map[];
      nextId := 1;
    }

    /** Inserts a pending order owned by the caller, copying the requested
        fields; no existing order changes. */
    method CreateOrder(caller: int, itemName: string, quantity: int, price: Price, now: int)
      returns (o: Order)
      requires Valid()
      modifies this
      ensures Valid()
      ensures o == Order(o.id, caller, itemName, quantity, price, Pending, now, now)
      ensures o.id !in old(orders)
      ensures orders == old(orders)[o.id := o]
      ensures nextId == old(nextId) + 1
    {
      o := Order(nextId, caller, itemName, quantity, price, Pending, now, now);
      orders := orders[nextId := o];
      nextId := nextId + 1;
    }

    /** Exactly the caller's orders, in ascending id order. */
    function GetMyOrders(caller: int): (r: seq<Order>)
      reads this
      requires Valid()
      ensures forall o | o in r :: o.id in orders && orders[o.id] == o && o.userId == caller
      ensures forall id | id in orders && orders[id].userId == caller :: orders[id] in r
      ensures forall i, j :: 0 <= i < j < |r| ==> r[i].id < r[j].id
    {
      OwnedBelowExactly(orders, caller, nextId);
      OwnedBelowAscending(orders, caller, nextId);
      OwnedBelow(orders, caller, nextId)
    }

    /** One order: NotFound when the id is absent, Forbidden when another user
        owns it, and the stored order otherwise. */
    function GetOrder(orderId: int, caller: int): (r: Outcome)
      reads this
      ensures r == NotFound <==> orderId !in orders
      ensures r == Forbidden <==> orderId in orders && orders[orderId].userId != caller
      ensures r.Ok? <==> orderId in orders && orders[orderId].userId == caller
      ensures r.Ok? ==> r.order == orders[orderId]
    {
      if orderId !in orders then NotFound
      else if orders[orderId].userId != caller then Forbidden
      else Ok(orders[orderId])
    }

    /** A partial update with the same NotFound/Forbidden precedence as
        GetOrder; on success only the supplied fields of that one order change. */
    method UpdateOrder(orderId: int, caller: int, patch: OrderPatch) returns (r: Outcome)
      requires Valid()
      modifies this
      ensures Valid() && nextId == old(nextId)
      ensures r == NotFound <==> orderId !in old(orders)
      ensures r == Forbidden <==> orderId in old(orders) && old(orders)[orderId].userId != caller
      ensures r.Ok? <==> orderId in old(orders) && old(orders)[orderId].userId == caller
      ensures r.Ok? ==> r.order == Patched(old(orders)[orderId], patch)
      ensures r.Ok? ==> orders == old(orders)[orderId := r.order]
      ensures !r.Ok? ==> orders == old(orders)
    {
      if orderId !in orders {
        return NotFound;
      }
      var o := orders[orderId];
      if o.userId != caller {
        return Forbidden;
      }
      if patch.itemName.Some? {
        o := o.(itemName := patch.itemName.value);
      }
      if patch.quantity.Some? {
        o := o.(quantity := patch.quantity.value);
      }
      if patch.price.Some? {
        o := o.(price := patch.price.value);
      }
      if patch.status.Some? {
        o := o.(status := patch.status.value);
      }
      orders := orders[orderId := o];
      r := Ok(o);
    }

    /** Cancels an owned order unless it is completed or cancelled, in which
        case the error carries the current status and nothing changes. */
    method CancelOrder(orderId: int, caller: int) returns (r: Outcome)
      requires Valid()
      modifies this
      ensures Valid() && nextId == old(nextId)
      ensures r == NotFound <==> orderId !in old(orders)
      ensures r == Forbidden <==> orderId in old(orders) && old(orders)[orderId].userId != caller
      ensures r.CannotCancel? <==>
                orderId in old(orders) && old(orders)[orderId].userId == caller
                && IsTerminal(old(orders)[orderId].status)
      ensures r.CannotCancel? ==> r.status == old(orders)[orderId].status
      ensures r.Ok? ==> r.order == old(orders)[orderId].(status := Cancelled)
      ensures r.Ok? ==> orders == old(orders)[orderId := r.order]
      ensures !r.Ok? ==> orders == old(orders)
    {
      if orderId !in orders {
        return NotFound;
      }
      var o := orders[orderId];
      if o.userId != caller {
        return Forbidden;
      }
      if o.status == Completed || o.status == Cancelled {
        return CannotCancel(o.status);
      }
      o := o.(status := Cancelled);
      orders := orders[orderId := o];
      r := Ok(o);
    }
  }
}
