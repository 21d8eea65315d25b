/** orderService.ts: the order operations as a service that returns the order
    or fails, over the same database session as the controller. */
module OrderService {
  import opened Wrappers
  import opened Types
  import opened ApiErrors
  import opened Schema
  import opened OrderRepository
  import opened OrderWrites
  import opened Database
  import opened OrderTransactions
  import ProductRepository

  /** `mapRowToOrder`: the row's fields, with a null products column read as
      the empty list. */
  function MapRowToOrder(row: OrderRow): (o: OrderWithProducts)
    ensures o.id == row.id && o.orderDescription == row.orderDescription && o.createdAt == row.createdAt
    ensures row.products.Some? ==> o.products == row.products.value
    ensures row.products.None? ==> o.products == []
  {
    OrderWithProducts(row.id, row.orderDescription, row.createdAt, OrElse(row.products, []))
  }

  /** In a consistent state an order's mapped aggregate carries its own
      fields and lists exactly its linked products, in map-row order. */
  lemma MappedOrder(t: Tables, id: OrderId)
    requires Consistent(t) && id in t.orders
    ensures var o := MapRowToOrder(Row(t, id));
      && o.id == id && o.orderDescription == t.orders[id].description
      && o.createdAt == t.orders[id].createdAt
      && ProductIdsOf(o.products) == LinkedIds(t.links, id)
  {
    FindByIdProducts(t, id);
  }

  /** The order a committed create hands back: the new id, the stored
      description, and exactly the listed products. */
  lemma CreatedOrder(t: Tables, id: OrderId, description: string, createdAt: nat, ids: seq<ProductId>)
    requires Consistent(t) && id !in t.orders && |description| <= DescriptionLimit
    requires forall k | 0 <= k < |ids| :: ids[k] in t.products
    ensures var u := Created(t, id, description, createdAt, ids);
      && id in u.orders && Consistent(u)
      && var o := MapRowToOrder(Row(u, id));
      && o.id == id && o.orderDescription == description && o.createdAt == createdAt
      && ProductIdsOf(o.products) == ids
  {
    CreatedSpec(t, id, description, createdAt, ids, id);
    CreatedConsistent(t, id, description, createdAt, ids);
    MappedOrder(Created(t, id, description, createdAt, ids), id);
  }

  /** The order a committed update hands back: a given field replaces the
      old value, a missing one keeps it. */
  lemma UpdatedOrder(t: Tables, id: OrderId, description: Option<string>, ids: Option<seq<ProductId>>)
    requires Consistent(t) && id in t.orders
    requires description.Some? ==> |description.value| <= DescriptionLimit
    requires ids.Some? ==> forall k | 0 <= k < |ids.value| :: ids.value[k] in t.products
    ensures var u := Updated(t, id, description, ids);
      && id in u.orders && Consistent(u)
      && var o := MapRowToOrder(Row(u, id));
      && o.id == id && o.createdAt == t.orders[id].createdAt
      && o.orderDescription == OrElse(description, t.orders[id].description)
      && ProductIdsOf(o.products) == OrElse(ids, LinkedIds(t.links, id))
  {
    UpdatedSpec(t, id, description, ids, id);
    UpdatedConsistent(t, id, description, ids);
    MappedOrder(Updated(t, id, description, ids), id);
  }

  function MapRows(rows: seq<OrderRow>): seq<OrderWithProducts>
  {
    seq(|rows|, k requires 0 <= k < |rows| => MapRowToOrder(rows[k]))
  }

  /** `getAllOrders`: every order with its products, newest first. */
  method GetAllOrders(db: Database, faults: set<Step>) returns (r: Result<seq<OrderWithProducts>, Failure>)
    ensures r.Ok? <==> ListStep !in faults
    ensures r.Err? ==> r.error == ConnectionLost
    ensures r.Ok? ==> r.value == MapRows(FindAll(db.State()))
    ensures r.Ok? ==> |r.value| == |db.orders|
    ensures r.Ok? ==> forall k | 0 <= k < |r.value| ::
              r.value[k].id in db.orders && r.value[k] == MapRowToOrder(Row(db.State(), r.value[k].id))
    ensures r.Ok? ==> forall i, j | 0 <= i < j < |r.value| :: r.value[i].createdAt >= r.value[j].createdAt
  {
    var rows := db.FindAllOrders(ListStep in faults);
    if rows.Err? {
      return Err(rows.error);
    }
    r := Ok(MapRows(rows.value));
  }

  /** `getOrderById`: the order with its products, or NotFoundError. */
  method GetOrderById(db: Database, id: OrderId, faults: set<Step>) returns (r: Result<OrderWithProducts, Failure>)
    ensures r.Ok? <==> FetchStep !in faults && id in db.orders
    ensures FetchStep in faults ==> r == Err(ConnectionLost)
    ensures FetchStep !in faults && id !in db.orders ==> r == Err(OrderNotFound(id))
    ensures r.Ok? ==> r.value == MapRowToOrder(Row(db.State(), id))
    ensures r.Ok? && Consistent(db.State()) ==>
              && r.value.id == id && r.value.orderDescription == db.orders[id].description
              && ProductIdsOf(r.value.products) == LinkedIds(db.links, id)
  {
    var row := db.FindById(id, FetchStep in faults);
    if row.Err? {
      return Err(row.error);
    }
    if row.value.None? {
      return Err(OrderNotFound(id));
    }
    if Consistent(db.State()) {
      MappedOrder(db.State(), id);
    }
    r := Ok(MapRowToOrder(row.value.value));
  }

  /** `createOrder`: the new order with its products. The product check and
      the transaction are all or nothing; the fetch after COMMIT is returned
      without being awaited, so its failure reaches the caller with the order
      committed and without a ROLLBACK. */
  method CreateOrder(db: Database, data: CreateOrderDto, faults: set<Step>) returns (r: Result<OrderWithProducts, Failure>)
    requires db.Valid() && db.Idle()
    modifies db
    ensures db.Valid() && db.Idle()
    ensures db.clientsOut == old(db.clientsOut) && db.products == old(db.products)
    ensures ProductsRefused(old(db.products), data.productIds) && CountStep !in faults ==>
              r == Err(InvalidProducts()) && db.State() == old(db.State()) && db.nextOrderId == old(db.nextOrderId)
    ensures r.Ok? ==>
              && !ProductsRefused(old(db.products), data.productIds) && Storable(data.orderDescription)
              && db.State() == Created(old(db.State()), old(db.nextOrderId), Stored(data.orderDescription), old(db.clock), OrElse(data.productIds, []))
              && r.value.id == old(db.nextOrderId) && r.value.orderDescription == Stored(data.orderDescription)
              && r.value.createdAt == old(db.clock)
              && ProductIdsOf(r.value.products) == OrElse(data.productIds, [])
    ensures r.Err? ==>
              || db.State() == old(db.State())
              || (&& FetchStep in faults && Storable(data.orderDescription)
                  && db.State() == Created(old(db.State()), old(db.nextOrderId), Stored(data.orderDescription), old(db.clock), OrElse(data.productIds, [])))
    ensures faults == {} ==> (r.Ok? <==> !ProductsRefused(old(db.products), data.productIds) && Storable(data.orderDescription))
    ensures r.Err? ==>
              || r.error == InvalidProducts() || r.error == ConnectionLost
              || r.error == NullDescription || r.error == ValueTooLong
    ensures && !ProductsRefused(old(db.products), data.productIds)
            && CountStep !in faults && BeginStep !in faults && InsertOrderStep !in faults
            && data.orderDescription.None?
            ==> r == Err(NullDescription)
    ensures && !ProductsRefused(old(db.products), data.productIds)
            && CountStep !in faults && BeginStep !in faults && InsertOrderStep !in faults
            && data.orderDescription.Some? && FitDescription(data.orderDescription.value).Err?
            ==> r == Err(ValueTooLong)
    ensures !ProductsRefused(old(db.products), data.productIds) && Storable(data.orderDescription) && r.Err? ==>
              r.error == ConnectionLost
  {
    ghost var t0, c0 := db.State(), db.clock;
    db.Connect();
    var created := CreateSteps(db, data, faults);
    if created.Err? {
      db.Rollback();
      r := Err(created.error);
    } else {
      AcceptedIdsExist(t0.products, data.productIds);
      CreatedOrder(t0, created.value, Stored(data.orderDescription), c0, OrElse(data.productIds, []));
      r := GetOrderById(db, created.value, faults);
    }
    db.Release();
  }

  /** `updateOrder`: the order after the update. A missing order and a
      refused product list change nothing; a field that is not given keeps
      its value. */
  method UpdateOrder(db: Database, id: OrderId, data: UpdateOrderDto, faults: set<Step>) returns (r: Result<OrderWithProducts, Failure>)
    requires db.Valid() && db.Idle()
    modifies db
    ensures db.Valid() && db.Idle()
    ensures db.clientsOut == old(db.clientsOut) && db.products == old(db.products)
    ensures db.nextOrderId == old(db.nextOrderId) && db.clock == old(db.clock)
    ensures ExistsStep !in faults && id !in old(db.orders) ==>
              r == Err(OrderNotFound(id)) && db.State() == old(db.State())
    ensures && ExistsStep !in faults && CountStep !in faults && id in old(db.orders)
            && ProductsRefused(old(db.products), data.productIds) ==>
              r == Err(InvalidProducts()) && db.State() == old(db.State())
    ensures r.Ok? ==>
              && id in old(db.orders)
              && !ProductsRefused(old(db.products), data.productIds) && Assignable(data.orderDescription)
              && db.State() == Updated(old(db.State()), id, Assigned(data.orderDescription), data.productIds)
              && r.value.id == id && r.value.createdAt == old(db.orders[id].createdAt)
              && r.value.orderDescription == OrElse(Assigned(data.orderDescription), old(db.orders[id].description))
              && ProductIdsOf(r.value.products) == OrElse(data.productIds, LinkedIds(old(db.links), id))
    ensures r.Err? ==>
              || db.State() == old(db.State())
              || (&& FetchStep in faults && id in old(db.orders) && Assignable(data.orderDescription)
                  && db.State() == Updated(old(db.State()), id, Assigned(data.orderDescription), data.productIds))
    ensures faults == {} ==>
              (r.Ok? <==> id in old(db.orders) && !ProductsRefused(old(db.products), data.productIds) && Assignable(data.orderDescription))
    ensures r.Err? ==>
              || r.error == OrderNotFound(id) || r.error == InvalidProducts()
              || r.error == ConnectionLost || r.error == ValueTooLong
    ensures && id in old(db.orders) && !ProductsRefused(old(db.products), data.productIds)
            && ExistsStep !in faults && CountStep !in faults && BeginStep !in faults && UpdateStep !in faults
            && data.orderDescription.Some? && FitDescription(data.orderDescription.value).Err?
            ==> r == Err(ValueTooLong)
    ensures && id in old(db.orders) && !ProductsRefused(old(db.products), data.productIds)
            && Assignable(data.orderDescription) && r.Err?
            ==> r.error == ConnectionLost
  {
    ghost var t0 := db.State();
    db.Connect();
    var updated := UpdateSteps(db, id, data, faults);
    if updated.Err? {
      db.Rollback();
      r := Err(updated.error);
    } else {
      AcceptedIdsExist(t0.products, data.productIds);
      UpdatedOrder(t0, id, Assigned(data.orderDescription), data.productIds);
      r := GetOrderById(db, id, faults);
    }
    db.Release();
  }

  /** `deleteOrder`: the order and, by cascade, its map rows go; a missing
      order is NotFoundError and changes nothing. */
  method DeleteOrder(db: Database, id: OrderId, faults: set<Step>) returns (r: Result<(), Failure>)
    requires db.Valid()
    modifies db`orders, db`links
    ensures db.Valid()
    ensures r.Ok? <==> DeleteStep !in faults && id in old(db.orders)
    ensures DeleteStep in faults ==> r == Err(ConnectionLost)
    ensures DeleteStep !in faults && id !in old(db.orders) ==> r == Err(OrderNotFound(id))
    ensures r.Ok? ==> db.State() == RemoveOrder(old(db.State()), id) && id !in db.orders
    ensures r.Err? ==> db.State() == old(db.State())
  {
    ghost var t0 := db.State();
    var count := db.Delete(id, DeleteStep in faults);
    if count.Err? {
      return Err(count.error);
    }
    if count.value == 0 {
      RemoveMissingOrder(t0, id);
      return Err(OrderNotFound(id));
    }
    r := Ok(());
  }
}
