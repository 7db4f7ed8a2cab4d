# fastorder order core, modelled in Dafny

This project models the order logic of the fastorder backend. The backend keeps an orders table.
Authenticated users create, list, fetch, update and cancel their own orders. Two background passes
advance order status: pending to processing, then processing to completed.

The state is the orders table. `Orders.OrderStore` stands for the database session: its field `orders`
is a map from order id to an `Order` record, and `nextId` plays the autoincrement. The router operations
are its methods and functions. Each takes the caller's user id, already resolved. Each order-scoped
operation applies the source's fixed precedence:
- NotFound when the id is absent;
- then Forbidden when another user owns the order;
- then the operation's own rule.

The two passes are methods in `OrderProcessor`. Each takes the store and the clock value `now`, in
seconds. Each queries the eligible ids into a list, rewrites the status of each one in a staged copy
of the table and counts them. It commits only when the count is positive. A storage error, given as
the parameter `storageFails`, discards the staged copy.

Files:
- `order_model.dfy`: the order record and its status strings, the partial-update request (`OrderPatch`),
  the request outcome (`Ok | NotFound | Forbidden | CannotCancel(status)`), the update function
  `Patched`, and the owner's-orders list `OwnedBelow`.
- `orders_router.dfy`: the class `OrderStore` with the five router operations.
- `order_processor.dfy`: the two passes, their query and result functions, and lemmas about them.
- `order_scenarios.dfy`: client methods for the order tests and the lifecycle, proved from the
  operations' contracts alone.

Behaviour of the code that the model keeps:
- Every write leaves `updatedAt` unchanged. The only write of `updated_at` would be a column default
  in the `Order` model, and that model is not part of this model. So a pass does not refresh it, and
  neither do updating or cancelling.
- `update_order` writes any supplied status string with no transition check.
  `OrderProcessor.PatchReopensTerminalOrder` shows that a completed or cancelled order set back to
  `"pending"` can be cancelled again and is picked up by the first pass again.
- Creating an order checks no quantity, price or name constraint: the request schemas are not part
  of this model.

## Model

| member | source | states |
|---|---|---|
| `Orders.OrderStore.CreateOrder` | app/orders/router.py:19-31 | the new order gets a fresh id, the caller as owner, the requested name, quantity and price, and status `"pending"`; it is added to the table and no existing order changes |
| `Orders.OrderStore.GetMyOrders` | app/orders/router.py:40-41 | every listed order is a stored order owned by the caller, and every stored order owned by the caller is listed; ids strictly ascend, so nothing is listed twice |
| `OrderModel.OwnedBelowExactly` | app/orders/router.py:40 | the owner filter over ids below `n` holds exactly the stored rows owned by that user with an id in that range |
| `OrderModel.OwnedBelowAscending` | app/orders/router.py:40 | the rows the owner filter returns have ids in range, in strictly ascending order |
| `Orders.OrderStore.GetOrder` | app/orders/router.py:51-66 | NotFound exactly when the id is absent; Forbidden exactly when the order exists with another owner; otherwise the stored order itself; a function, so the store is unchanged |
| `Orders.OrderStore.UpdateOrder` | app/orders/router.py:77-104 | the same NotFound/Forbidden precedence, with the table unchanged on both errors; for the owner, the order becomes `Patched` of the old order and no other order changes |
| `OrderModel.Patched` | app/orders/router.py:91-99 | each of name, quantity, price and status takes the supplied value when there is one and keeps the old value otherwise; id, owner and both timestamps never change; a supplied status is stored verbatim |
| `OrderModel.PatchedIdempotent` | app/orders/router.py:91-99 | sending the same partial update twice gives the same order as sending it once |
| `OrderModel.EmptyPatchIsIdentity` | app/orders/router.py:91-99 | an update that supplies no field leaves the order as it was |
| `OrderProcessor.PatchReopensTerminalOrder` | app/orders/router.py:98-99 | a completed or cancelled order patched to status `"pending"` is no longer terminal, so it can be cancelled again, and once it is a minute old the first pass selects it again |
| `Orders.OrderStore.CancelOrder` | app/orders/router.py:114-139 | the same NotFound/Forbidden precedence; an owned completed or cancelled order gives CannotCancel carrying its current status; any other owned order gets status `"cancelled"` with all other fields and orders unchanged; the table is unchanged on every error |
| `OrderProcessor.QueryIdsExactly` | app/jobs/order_processor.py:17-20 | the query result lists exactly the stored ids in range whose order passes the pass's filter |
| `OrderProcessor.QueryIdsCount` | app/jobs/order_processor.py:22-25 | the query result is exactly as long as the set of matching ids, so counting once per listed order counts the matches |
| `OrderProcessor.SettlePass` | app/jobs/order_processor.py:22-29 | a loop that has rewritten every listed order yields the table after the pass, with a count equal to the number of matching orders; with no match the table is unchanged |
| `OrderProcessor.ProcessPendingOrders` | app/jobs/order_processor.py:7-35 | without a storage error, the table becomes the one in which exactly the pending orders created at or before `now - 60` are processing, and the run reports their number, or nothing to do when there are none; a storage error rolls back and leaves the table as before |
| `OrderProcessor.CompleteProcessingOrders` | app/jobs/order_processor.py:38-66 | without a storage error, the table becomes the one in which exactly the processing orders last updated at or before `now - 120` are completed, and the run reports their number, or nothing to do when there are none; a storage error rolls back and leaves the table as before |
| `OrderProcessor.PassFrame` | app/jobs/order_processor.py:17-56 | a pass keeps the set of ids, writes only the status field, changes exactly the orders its filter matches, and never changes a completed or cancelled order |
| `OrderProcessor.PassIdempotent` | app/jobs/order_processor.py:17-56 | after a pass, its filter with the same `now` matches no order, and a second pass changes nothing |
| `OrderProcessor.PassMovesCount` | app/jobs/order_processor.py:17-56 | a pass takes exactly its count of orders out of its source status and adds them to its target status; every other status keeps the same orders |
| `OrderScenarios.CreateThenGet` | tests/test_orders.py:54-67 | creating an order returns status pending with the requested fields, and the owner fetching it by id gets the same order back |
| `OrderScenarios.ListAfterCreate` | tests/test_orders.py:39-51 | after creating an order, the owner's list contains it and another user's list does not |
| `OrderScenarios.ForeignAccess` | app/orders/router.py:51-126 | another user fetching, updating or cancelling an existing order gets Forbidden, never NotFound, and the order stays as created |
| `OrderScenarios.CancelTwice` | tests/test_orders.py:76-89 | the first cancel returns the order with status cancelled; a second cancel fails with CannotCancel carrying `"cancelled"` |
| `OrderScenarios.Lifecycle` | app/jobs/order_processor.py:7-66 | the first pass, a minute after creation, commits one change to processing; repeating it finds nothing; the second pass, three minutes after creation, commits one change to completed; the completed order can then no longer be cancelled |
| `OrderScenarios.FailedPassRollsBack` | app/jobs/order_processor.py:31-35 | a pass whose storage fails reports the rollback, and the order is still pending |

## Left out

- Authentication: resolving the caller from a bearer token, password hashing and token signing are foreign library calls. The caller's user id is a parameter.
- The storage engine: the SQLite setup, the foreign-key setting, session creation and the schema script are storage plumbing. The session is the `orders` map. `db.refresh` rereads what was just written, so it is the identity here.
- Order ids and timestamps come from the database and from column defaults in the `Order` model, which is not part of this model. `nextId` is a modelling device. `CreateOrder` takes `now` and sets both `createdAt` and `updatedAt` to it.
- `OrderProcessor.ProcessPendingOrders`: does not refresh `updatedAt` when it writes the status, because no code that is part of this model does. So the completion dwell counts from the creation time, or from whatever `updatedAt` holds.
- `Orders.OrderStore.UpdateOrder` and `Orders.OrderStore.CancelOrder`: leave `updatedAt` as stored, for the same reason.
- Request validation: the `OrderCreate` and `OrderUpdate` schemas are not part of this model, so no quantity, price or name constraint is modelled. The router treats a field that is None as not supplied (app/orders/router.py:92-99). How an explicit JSON null is parsed depends on the `OrderUpdate` schema, which is outside this model.
- The scheduler, which runs the passes on a timer, and process start-up: these are concurrency and process lifecycle. Every operation and every pass is atomic. Concurrent requests and passes are not modelled.
- Error reporting: the HTTP status codes (404, 403, 400) and the error messages are response plumbing. Each error is a constructor of `Outcome`. The passes' log lines are left out.
- A storage error is one boolean per pass. Where in the pass it happens does not matter: the whole pass rolls back. Storage errors in the router's own commits are not modelled.
- Price: a floating-point value that is only copied. It is modelled as `real`, with no rounding.
- Listing order: the source's query has no ORDER BY. The model lists the caller's orders by ascending id.
- The health check, configuration and logging set-up: these are plumbing.
