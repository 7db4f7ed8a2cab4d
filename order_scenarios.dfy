/** Client scenarios over a fresh store, in the shape of the order tests and
    of the documented lifecycle: what a caller can conclude from the
    operations' contracts alone. */
module OrderScenarios {
  import opened OrderModel
  import opened Orders
  import opened OrderProcessor

  /** Creating an order answers with the request's fields and status pending,
      and fetching it by id as its owner returns the same order. */
  method CreateThenGet(user: int, now: int) returns (created: Order, fetched: Outcome)
    ensures created.userId == user && created.status == Pending
    ensures created.itemName == "Item" && created.quantity == 1 && created.price == 15.0
    ensures fetched == Ok(created)
  {
    var store := new OrderStore();
    created := store.CreateOrder(user, "Item", 1, 15.0, now);
    fetched := store.GetOrder(created.id, user);
  }

  /** After creating an order, the owner's list contains it and another
      user's list does not. */
  method ListAfterCreate(user: int, other: int, now: int)
    returns (created: Order, mine: seq<Order>, theirs: seq<Order>)
    requires user != other
    ensures created in mine && |mine| >= 1
    ensures created !in theirs
  {
    var store := new OrderStore();
    created := store.CreateOrder(user, "Item 1", 1, 10.0, now);
    mine := store.GetMyOrders(user);
    theirs := store.GetMyOrders(other);
  }

  /** Another user asking for, updating or cancelling an existing order gets
      Forbidden, not NotFound, and the order stays as created. */
  method ForeignAccess(owner: int, intruder: int, now: int)
    returns (o: Order, get: Outcome, update: Outcome, cancel: Outcome, still: Outcome)
    requires owner != intruder
    ensures get == Forbidden && update == Forbidden && cancel == Forbidden
    ensures still == Ok(o)
  {
    var store := new OrderStore();
    o := store.CreateOrder(owner, "Widget", 3, 9.99, now);
    get := store.GetOrder(o.id, intruder);
    update := store.UpdateOrder(o.id, intruder, OrderPatch(Some("Gadget"), None, None, Some(Completed)));
    cancel := store.CancelOrder(o.id, intruder);
    still := store.GetOrder(o.id, owner);
  }

  /** The first cancel succeeds with status cancelled; the second fails and
      reports the status it found. */
  method CancelTwice(user: int, now: int) returns (first: Outcome, second: Outcome)
    ensures first.Ok? && first.order.status == Cancelled
    ensures second == CannotCancel(Cancelled)
  {
    var store := new OrderStore();
    var o := store.CreateOrder(user, "Item", 1, 20.0, now);
    first := store.CancelOrder(o.id, user);
    second := store.CancelOrder(o.id, user);
  }

  /** An order created at t0 is picked up by the first pass a minute later,
      is not picked up again, and is completed by the second pass two minutes
      after that; it can then no longer be cancelled. */
  method Lifecycle(user: int, t0: int)
    returns (created: Order, run1: JobRun, again: JobRun, afterProcessing: Outcome,
             run2: JobRun, afterCompletion: Outcome, cancel: Outcome)
    ensures created.status == Pending
    ensures run1 == Committed(1) && again == NothingToDo
    ensures afterProcessing.Ok? && afterProcessing.order.status == Processing
    ensures run2 == Committed(1)
    ensures afterCompletion.Ok? && afterCompletion.order.status == Completed
    ensures cancel == CannotCancel(Completed)
  {
    var store := new OrderStore();
    created := store.CreateOrder(user, "Widget", 3, 9.99, t0);
    var t := store.orders;
    assert DueIds(t, ProcessPass, t0 + 60) == {created.id};
    run1 := ProcessPendingOrders(store, t0 + 60, false);
    PassIdempotent(t, ProcessPass, t0 + 60);
    again := ProcessPendingOrders(store, t0 + 60, false);
    afterProcessing := store.GetOrder(created.id, user);
    t := store.orders;
    assert DueIds(t, CompletePass, t0 + 180) == {created.id};
    run2 := CompleteProcessingOrders(store, t0 + 180, false);
    afterCompletion := store.GetOrder(created.id, user);
    cancel := store.CancelOrder(created.id, user);
  }

  /** A pass whose commit fails leaves the order pending. */
  method FailedPassRollsBack(user: int, t0: int) returns (run: JobRun, after: Outcome)
    ensures run == RolledBack
    ensures after.Ok? && after.order.status == Pending
  {
    var store := new OrderStore();
    var o := store.CreateOrder(user, "Widget", 3, 9.99, t0);
    run := ProcessPendingOrders(store, t0 + 60, true);
    after := store.GetOrder(o.id, user);
  }
}
