/** orderController.ts: the Express handlers behind /api/orders and
    /api/products. Each handler returns what it does with the request: the
    JSON response it writes, or the error it hands to `next`. */
module OrderController {
  import opened Wrappers
  import opened Types
  import opened ApiErrors
  import opened Schema
  import opened OrderRepository
  import opened OrderWrites
  import opened Database
  import opened OrderTransactions
  import opened OrderService
  import opened Http
  import ProductRepository

  /** `GET /api/orders`: 200 with every order and its products, newest first. */
  method GetAllOrders(db: Database, faults: set<Step>) returns (out: Outcome)
    ensures out.Respond? <==> ListStep !in faults
    ensures ListStep in faults ==> out == Forward(ConnectionLost)
    ensures out.Respond? ==> out.response == Success(200, Orders(MapRows(FindAll(db.State()))), None)
  {
    var rows := db.FindAllOrders(ListStep in faults);
    if rows.Err? {
      return Forward(rows.error);
    }
    out := Respond(Success(200, Orders(MapRows(rows.value)), None));
  }

  /** `GET /api/orders/:id`: 200 with the order, or NotFoundError. */
  method GetOrderById(db: Database, id: OrderId, faults: set<Step>) returns (out: Outcome)
    ensures out.Respond? <==> FetchStep !in faults && id in db.orders
    ensures FetchStep in faults ==> out == Forward(ConnectionLost)
    ensures FetchStep !in faults && id !in db.orders ==> out == Forward(OrderNotFound(id))
    ensures out.Respond? ==> out.response == Success(200, OneOrder(MapRowToOrder(Row(db.State(), id))), None)
  {
    var row := db.FindById(id, FetchStep in faults);
    if row.Err? {
      return Forward(row.error);
    }
    if row.value.None? {
      return Forward(OrderNotFound(id));
    }
    out := Respond(Success(200, OneOrder(MapRowToOrder(row.value.value)), None));
  }

  /** The fetch after COMMIT and the response built from it: the order as
      the aggregate query returns it, under the handler's status and message.
      The catch block's ROLLBACK after a failed fetch finds no transaction. */
  method Reply(db: Database, id: OrderId, status: int, message: string, faults: set<Step>) returns (out: Outcome)
    requires db.Valid() && db.Idle() && id in db.orders
    modifies db`orders, db`products, db`links, db`snapshot
    ensures db.Valid() && db.Idle() && db.State() == old(db.State())
    ensures out.Respond? <==> FetchStep !in faults
    ensures FetchStep in faults ==> out == Forward(ConnectionLost)
    ensures out.Respond? ==> out.response == Success(status, OneOrder(MapRowToOrder(Row(db.State(), id))), Some(message))
  {
    var row := db.FindById(id, FetchStep in faults);
    if row.Err? {
      db.Rollback();
      return Forward(row.error);
    }
    out := Respond(Success(status, OneOrder(MapRowToOrder(row.value.value)), Some(message)));
  }

  /** `POST /api/orders`: 201 with the new order. The product check and the
      transaction are all or nothing; only a failed fetch after COMMIT
      reports an error for an order that was committed. The client is
      released on every path. */
  method CreateOrder(db: Database, body: CreateOrderDto, faults: set<Step>) returns (out: Outcome)
    requires db.Valid() && db.Idle()
    modifies db
    ensures db.Valid() && db.Idle()
    ensures db.clientsOut == old(db.clientsOut) && db.products == old(db.products)
    ensures out.Respond? || out.Forward?
    ensures ProductsRefused(old(db.products), body.productIds) && CountStep !in faults ==>
              out == Forward(InvalidProducts()) && db.State() == old(db.State()) && db.nextOrderId == old(db.nextOrderId)
    ensures out.Respond? ==>
              && !ProductsRefused(old(db.products), body.productIds) && Storable(body.orderDescription)
              && db.State() == Created(old(db.State()), old(db.nextOrderId), Stored(body.orderDescription), old(db.clock), OrElse(body.productIds, []))
              && out.response.status == 201 && out.response.success
              && out.response.message == Some("Order created successfully")
              && out.response.data.OneOrder?
              && out.response.data.order.id == old(db.nextOrderId)
              && out.response.data.order.orderDescription == Stored(body.orderDescription)
              && out.response.data.order.createdAt == old(db.clock)
              && ProductIdsOf(out.response.data.order.products) == OrElse(body.productIds, [])
    ensures out.Forward? ==>
              || db.State() == old(db.State())
              || (&& FetchStep in faults && Storable(body.orderDescription)
                  && db.State() == Created(old(db.State()), old(db.nextOrderId), Stored(body.orderDescription), old(db.clock), OrElse(body.productIds, [])))
    ensures faults == {} ==> (out.Respond? <==> !ProductsRefused(old(db.products), body.productIds) && Storable(body.orderDescription))
    ensures out.Forward? ==>
              || out.failure == InvalidProducts() || out.failure == ConnectionLost
              || out.failure == NullDescription || out.failure == ValueTooLong
    ensures && !ProductsRefused(old(db.products), body.productIds)
            && CountStep !in faults && BeginStep !in faults && InsertOrderStep !in faults
            && body.orderDescription.None?
            ==> out == Forward(NullDescription)
    ensures && !ProductsRefused(old(db.products), body.productIds)
            && CountStep !in faults && BeginStep !in faults && InsertOrderStep !in faults
            && body.orderDescription.Some? && FitDescription(body.orderDescription.value).Err?
            ==> out == Forward(ValueTooLong)
    ensures !ProductsRefused(old(db.products), body.productIds) && Storable(body.orderDescription) && out.Forward? ==>
              out.failure == ConnectionLost
  {
    ghost var t0, c0 := db.State(), db.clock;
    db.Connect();
    var created := CreateSteps(db, body, faults);
    if created.Err? {
      db.Rollback();
      out := Forward(created.error);
    } else {
      AcceptedIdsExist(t0.products, body.productIds);
      CreatedOrder(t0, created.value, Stored(body.orderDescription), c0, OrElse(body.productIds, []));
      out := Reply(db, created.value, 201, "Order created successfully", faults);
    }
    db.Release();
  }

  /** `PUT /api/orders/:id`: 200 with the updated order. A missing order and
      a refused product list change nothing; a field that is not given keeps
      its value. */
  method UpdateOrder(db: Database, id: OrderId, body: UpdateOrderDto, faults: set<Step>) returns (out: Outcome)
    requires db.Valid() && db.Idle()
    modifies db
    ensures db.Valid() && db.Idle()
    ensures db.clientsOut == old(db.clientsOut) && db.products == old(db.products)
    ensures db.nextOrderId == old(db.nextOrderId) && db.clock == old(db.clock)
    ensures out.Respond? || out.Forward?
    ensures ExistsStep !in faults && id !in old(db.orders) ==>
              out == Forward(OrderNotFound(id)) && db.State() == old(db.State())
    ensures && ExistsStep !in faults && CountStep !in faults && id in old(db.orders)
            && ProductsRefused(old(db.products), body.productIds) ==>
              out == Forward(InvalidProducts()) && db.State() == old(db.State())
    ensures out.Respond? ==>
              && id in old(db.orders)
              && !ProductsRefused(old(db.products), body.productIds) && Assignable(body.orderDescription)
              && db.State() == Updated(old(db.State()), id, Assigned(body.orderDescription), body.productIds)
              && out.response.status == 200 && out.response.success
              && out.response.message == Some("Order updated successfully")
              && out.response.data.OneOrder?
              && out.response.data.order.id == id
              && out.response.data.order.createdAt == old(db.orders[id].createdAt)
              && out.response.data.order.orderDescription == OrElse(Assigned(body.orderDescription), old(db.orders[id].description))
              && ProductIdsOf(out.response.data.order.products) == OrElse(body.productIds, LinkedIds(old(db.links), id))
    ensures out.Forward? ==>
              || db.State() == old(db.State())
              || (&& FetchStep in faults && id in old(db.orders) && Assignable(body.orderDescription)
                  && db.State() == Updated(old(db.State()), id, Assigned(body.orderDescription), body.productIds))
    ensures faults == {} ==>
              (out.Respond? <==> id in old(db.orders) && !ProductsRefused(old(db.products), body.productIds) && Assignable(body.orderDescription))
    ensures out.Forward? ==>
              || out.failure == OrderNotFound(id) || out.failure == InvalidProducts()
              || out.failure == ConnectionLost || out.failure == ValueTooLong
    ensures && id in old(db.orders) && !ProductsRefused(old(db.products), body.productIds)
            && ExistsStep !in faults && CountStep !in faults && BeginStep !in faults && UpdateStep !in faults
            && body.orderDescription.Some? && FitDescription(body.orderDescription.value).Err?
            ==> out == Forward(ValueTooLong)
    ensures && id in old(db.orders) && !ProductsRefused(old(db.products), body.productIds)
            && Assignable(body.orderDescription) && out.Forward?
            ==> out.failure == ConnectionLost
  {
    ghost var t0 := db.State();
    db.Connect();
    var updated := UpdateSteps(db, id, body, faults);
    if updated.Err? {
      db.Rollback();
      out := Forward(updated.error);
    } else {
      AcceptedIdsExist(t0.products, body.productIds);
      UpdatedOrder(t0, id, Assigned(body.orderDescription), body.productIds);
      out := Reply(db, id, 200, "Order updated successfully", faults);
    }
    db.Release();
  }

  /** `DELETE /api/orders/:id`: 200 with `data: null`; the order's map rows go
      by cascade; a missing order is NotFoundError and changes nothing. */
  method DeleteOrder(db: Database, id: OrderId, faults: set<Step>) returns (out: Outcome)
    requires db.Valid()
    modifies db`orders, db`links
    ensures db.Valid()
    ensures out.Respond? <==> DeleteStep !in faults && id in old(db.orders)
    ensures DeleteStep in faults ==> out == Forward(ConnectionLost)
    ensures DeleteStep !in faults && id !in old(db.orders) ==> out == Forward(OrderNotFound(id))
    ensures out.Respond? ==>
              && out.response == Success(200, NullData, Some("Order deleted successfully"))
              && db.State() == RemoveOrder(old(db.State()), id) && id !in db.orders
    ensures !out.Respond? ==> db.State() == old(db.State())
  {
    ghost var t0 := db.State();
    var count := db.Delete(id, DeleteStep in faults);
    if count.Err? {
      return Forward(count.error);
    }
    if count.value == 0 {
      RemoveMissingOrder(t0, id);
      return Forward(OrderNotFound(id));
    }
    out := Respond(Success(200, NullData, Some("Order deleted successfully")));
  }

  /** `GET /api/products`: 200 with every product in id order. */
  method GetAllProducts(db: Database, faults: set<Step>) returns (out: Outcome)
    ensures out.Respond? <==> ListStep !in faults
    ensures ListStep in faults ==> out == Forward(ConnectionLost)
    ensures out.Respond? ==> out.response == Success(200, Products(ProductRepository.FindAll(db.products)), None)
  {
    var rows := db.FindAllProducts(ListStep in faults);
    if rows.Err? {
      return Forward(rows.error);
    }
    out := Respond(Success(200, Products(rows.value), None));
  }
}
