/** The order record, its status strings, the partial-update request and the
    outcome of an order-scoped request, with the pure functions over them. */
module OrderModel {

  /** A price is stored and copied, never computed on. */
  type Price = real

  /** Order statuses as the router and the jobs write them. */
  const Pending: string := "pending"
  const Processing: string := "processing"
  const Completed: string := "completed"
  const Cancelled: string := "cancelled"

  /** One row of the orders table; times are seconds. */
  datatype Order = Order(
    id: int,
    userId: int,
    itemName: string,
    quantity: int,
    price: Price,
    status: string,
    createdAt: int,
    updatedAt: int)

  /** The orders table, keyed by order id. */
  type Table = map<int, Order>

  datatype Option<T> = None | Some(value: T)

  /** A partial update: None is a field the request did not supply. */
  datatype OrderPatch = OrderPatch(
    itemName: Option<string>,
    quantity: Option<int>,
    price: Option<Price>,
    status: Option<string>)

  /** The result of an order-scoped request. */
  datatype Outcome = Ok(order: Order) | NotFound | Forbidden | CannotCancel(status: string)

  /** Every row is stored under its own id. */
  ghost predicate WellKeyed(t: Table) {
    forall id | id in t :: t[id].id == id
  }

  /** The statuses that cancelling refuses. */
  predicate IsTerminal(status: string) {
    status == Completed || status == Cancelled
  }

  /** The order after a partial update: each supplied field replaces the old
      value, one field at a time; a supplied status is taken verbatim. */
  function Patched(o: Order, p: OrderPatch): (r: Order)
    ensures r.id == o.id && r.userId == o.userId
    ensures r.createdAt == o.createdAt && r.updatedAt == o.updatedAt
    ensures r.itemName == (if p.itemName.Some? then p.itemName.value else o.itemName)
    ensures r.quantity == (if p.quantity.Some? then p.quantity.value else o.quantity)
    ensures r.price == (if p.price.Some? then p.price.value else o.price)
    ensures r.status == (if p.status.Some? then p.status.value else o.status)
  {
    var o1 := if p.itemName.Some? then o.(itemName := p.itemName.value) else o;
    var o2 := if p.quantity.Some? then o1.(quantity := p.quantity.value) else o1;
    var o3 := if p.price.Some? then o2.(price := p.price.value) else o2;
    if p.status.Some? then o3.(status := p.status.value) else o3
  }

  /** Sending the same update twice has the effect of sending it once. */
  lemma PatchedIdempotent(o: Order, p: OrderPatch)
    ensures Patched(Patched(o, p), p) == Patched(o, p)
  {
  }

  /** An update that supplies no field leaves the order as it was. */
  lemma EmptyPatchIsIdentity(o: Order)
    ensures Patched(o, OrderPatch(None, None, None, None)) == o
  {
  }

  /** The orders with id in [0, n) owned by `owner`, in ascending id order. */
  function OwnedBelow(t: Table, owner: int, n: int): (r: seq<Order>)
    decreases n
  {
    if n <= 0 then []
    else
      OwnedBelow(t, owner, n - 1)
      + (if n - 1 in t && t[n - 1].userId == owner then [t[n - 1]] else [])
  }

  /** OwnedBelow holds exactly the owner's rows with id in [0, n). */
  lemma {:induction false} OwnedBelowExactly(t: Table, owner: int, n: int)
    requires WellKeyed(t)
    ensures forall o :: o in OwnedBelow(t, owner, n) <==>
                        0 <= o.id < n && o.id in t && t[o.id] == o && o.userId == owner
  {
    if n > 0 {
      OwnedBelowExactly(t, owner, n - 1);
    }
  }

  /** Every row in OwnedBelow has an id in [0, n), and the ids strictly ascend. */
  lemma {:induction false} OwnedBelowAscending(t: Table, owner: int, n: int)
    requires WellKeyed(t)
    ensures forall i :: 0 <= i < |OwnedBelow(t, owner, n)| ==> 0 <= OwnedBelow(t, owner, n)[i].id < n
    ensures forall i, j :: 0 <= i < j < |OwnedBelow(t, owner, n)| ==>
                           OwnedBelow(t, owner, n)[i].id < OwnedBelow(t, owner, n)[j].id
  {
    if n > 0 {
      OwnedBelowAscending(t, owner, n - 1);
    }
  }
}
