/** The statements createOrder and updateOrder send on their checked-out pool
    client, from the product check up to COMMIT. orderController.ts and
    orderService.ts send the same sequence; the catch block (ROLLBACK), the
    fetch after COMMIT and `client.release()` are left to their callers. */
module OrderTransactions {
  import opened Wrappers
  import opened Text
  import opened Types
  import opened ApiErrors
  import opened Schema
  import opened OrderRepository
  import opened OrderWrites
  import opened Database
  import ProductRepository

  const InvalidProductsMessage: string := "One or more product IDs are invalid"

  /** `new BadRequestError('One or more product IDs are invalid')`. */
  function InvalidProducts(): (f: Failure)
    ensures f.Api? && f.error.statusCode == 400 && f.error.isOperational
    ensures f.error.message == InvalidProductsMessage
  {
    Api(BadRequestError(Some(InvalidProductsMessage)))
  }

  /** `new NotFoundError(`Order with id ${id} not found`)`. */
  function OrderNotFound(id: OrderId): (f: Failure)
    ensures f.Api? && f.error.statusCode == 404 && f.error.isOperational
    ensures f.error.message == "Order with id " + IntToString(id) + " not found"
  {
    Api(NotFoundError(Some("Order with id " + IntToString(id) + " not found")))
  }

  /** The check before BEGIN refuses the list: it is non-empty and fewer
      products match than it has entries. */
  predicate ProductsRefused(products: map<ProductId, ProductRecord>, ids: Option<seq<ProductId>>)
  {
    ids.Some? && |ids.value| > 0 && !ProductRepository.ExistsAll(products, ids.value)
  }

  /** A list the check lets through names only existing products. */
  lemma AcceptedIdsExist(products: map<ProductId, ProductRecord>, ids: Option<seq<ProductId>>)
    requires !ProductsRefused(products, ids)
    ensures ids.Some? ==> forall k | 0 <= k < |ids.value| :: ids.value[k] in products
  {
    if ids.Some? && |ids.value| > 0 {
      ProductRepository.ExistsAllIff(products, ids.value);
    }
  }

  /** The INSERT into `orders` accepts the description. */
  predicate Storable(description: Option<string>)
  {
    description.Some? && FitDescription(description.value).Ok?
  }

  /** What the INSERT stores. */
  function Stored(description: Option<string>): string
    requires Storable(description)
  {
    FitDescription(description.value).value
  }

  /** The UPDATE of `orders` accepts the description, or none is sent. */
  predicate Assignable(description: Option<string>)
  {
    description.None? || FitDescription(description.value).Ok?
  }

  /** What the UPDATE stores, if one is sent. */
  function Assigned(description: Option<string>): Option<string>
    requires Assignable(description)
  {
    if description.Some? then Some(FitDescription(description.value).value) else None
  }

  /** createOrder from BEGIN to COMMIT, once the product list is known to
      name existing products. */
  method CreateTransaction(db: Database, description: Option<string>, ids: seq<ProductId>, faults: set<Step>) returns (r: Result<OrderId, Failure>)
    requires db.Valid() && db.Idle()
    requires forall k | 0 <= k < |ids| :: ids[k] in db.products
    modifies db`orders, db`products, db`links, db`nextOrderId, db`clock, db`snapshot
    ensures db.Valid()
    ensures db.products == old(db.products)
    ensures db.nextOrderId == old(db.nextOrderId) || db.nextOrderId == old(db.nextOrderId) + 1
    ensures r.Err? ==> db.RollbackImage() == old(db.State())
    ensures r.Ok? ==>
              && db.Idle() && Storable(description)
              && r.value == old(db.nextOrderId) && db.nextOrderId == r.value + 1 && db.clock == old(db.clock) + 1
              && db.State() == Created(old(db.State()), r.value, Stored(description), old(db.clock), ids)
    ensures && Storable(description) && BeginStep !in faults && InsertOrderStep !in faults
            && InsertMappingsStep !in faults && CommitStep !in faults
            ==> r.Ok?
    ensures r.Err? ==> r.error == ConnectionLost || r.error == NullDescription || r.error == ValueTooLong
    ensures BeginStep !in faults && InsertOrderStep !in faults && description.None? ==> r == Err(NullDescription)
    ensures && BeginStep !in faults && InsertOrderStep !in faults
            && description.Some? && FitDescription(description.value).Err?
            ==> r == Err(ValueTooLong)
    ensures Storable(description) && r.Err? ==> r.error == ConnectionLost
  {
    var begun := db.Begin(BeginStep in faults);
    if begun.Err? {
      return Err(begun.error);
    }
    var inserted := db.InsertOrder(description, InsertOrderStep in faults);
    if inserted.Err? {
      return Err(inserted.error);
    }
    // addProductMappings sends nothing for an empty list, as the inline code's guard does
    var mapped := db.AddProductMappings(inserted.value, ids, InsertMappingsStep in faults);
    if mapped.Err? {
      return Err(mapped.error);
    }
    var committed := db.Commit(CommitStep in faults);
    if committed.Err? {
      return Err(committed.error);
    }
    r := Ok(inserted.value);
  }

  /** createOrder from the product check to COMMIT. On success the new order
      and its map rows are committed; on failure a ROLLBACK would leave the
      tables as they were, although the sequence may have moved on. */
  method CreateSteps(db: Database, body: CreateOrderDto, faults: set<Step>) returns (r: Result<OrderId, Failure>)
    requires db.Valid() && db.Idle()
    modifies db`orders, db`products, db`links, db`nextOrderId, db`clock, db`snapshot
    ensures db.Valid()
    ensures db.products == old(db.products)
    ensures db.nextOrderId == old(db.nextOrderId) || db.nextOrderId == old(db.nextOrderId) + 1
    ensures r.Err? ==> db.RollbackImage() == old(db.State())
    ensures ProductsRefused(old(db.products), body.productIds) && CountStep !in faults ==>
              && r == Err(InvalidProducts()) && db.Idle()
              && db.State() == old(db.State()) && db.nextOrderId == old(db.nextOrderId)
    ensures r.Ok? ==>
              && db.Idle()
              && !ProductsRefused(old(db.products), body.productIds) && Storable(body.orderDescription)
              && r.value == old(db.nextOrderId) && db.nextOrderId == r.value + 1 && db.clock == old(db.clock) + 1
              && db.State() == Created(old(db.State()), r.value, Stored(body.orderDescription), old(db.clock), OrElse(body.productIds, []))
    ensures && !ProductsRefused(old(db.products), body.productIds) && Storable(body.orderDescription)
            && CountStep !in faults && BeginStep !in faults && InsertOrderStep !in faults
            && InsertMappingsStep !in faults && CommitStep !in faults
            ==> r.Ok?
    ensures r.Err? ==>
              || r.error == InvalidProducts() || r.error == ConnectionLost
              || r.error == NullDescription || r.error == ValueTooLong
    ensures && !ProductsRefused(old(db.products), body.productIds)
            && CountStep !in faults && BeginStep !in faults && InsertOrderStep !in faults
            && body.orderDescription.None?
            ==> r == Err(NullDescription)
    ensures && !ProductsRefused(old(db.products), body.productIds)
            && CountStep !in faults && BeginStep !in faults && InsertOrderStep !in faults
            && body.orderDescription.Some? && FitDescription(body.orderDescription.value).Err?
            ==> r == Err(ValueTooLong)
    ensures !ProductsRefused(old(db.products), body.productIds) && Storable(body.orderDescription) && r.Err? ==>
              r.error == ConnectionLost
  {
    var ids := OrElse(body.productIds, []);
    if |ids| > 0 {
      var count := db.CountByIds(ids, CountStep in faults);
      if count.Err? {
        return Err(count.error);
      }
      if count.value != |ids| {
        return Err(InvalidProducts());
      }
      ProductRepository.ExistsAllIff(db.products, ids);
    }
    r := CreateTransaction(db, body.orderDescription, ids, faults);
  }

  /** updateOrder from BEGIN to COMMIT, once the order is known to exist and
      the product list to name existing products. */
  method UpdateTransaction(db: Database, id: OrderId, body: UpdateOrderDto, faults: set<Step>) returns (r: Result<(), Failure>)
    requires db.Valid() && db.Idle() && id in db.orders
    requires body.productIds.Some? ==> forall k | 0 <= k < |body.productIds.value| :: body.productIds.value[k] in db.products
    modifies db`orders, db`products, db`links, db`snapshot
    ensures db.Valid()
    ensures db.products == old(db.products)
    ensures r.Err? ==> db.RollbackImage() == old(db.State())
    ensures r.Ok? ==>
              && db.Idle() && Assignable(body.orderDescription)
              && db.State() == Updated(old(db.State()), id, Assigned(body.orderDescription), body.productIds)
    ensures && Assignable(body.orderDescription) && BeginStep !in faults && UpdateStep !in faults
            && DeleteMappingsStep !in faults && InsertMappingsStep !in faults && CommitStep !in faults
            ==> r.Ok?
    ensures r.Err? ==> r.error == ConnectionLost || r.error == ValueTooLong
    ensures && BeginStep !in faults && UpdateStep !in faults
            && body.orderDescription.Some? && FitDescription(body.orderDescription.value).Err?
            ==> r == Err(ValueTooLong)
    ensures Assignable(body.orderDescription) && r.Err? ==> r.error == ConnectionLost
  {
    ghost var t0 := db.State();
    var begun := db.Begin(BeginStep in faults);
    if begun.Err? {
      return Err(begun.error);
    }
    if body.orderDescription.Some? {
      var written := db.UpdateDescription(id, body.orderDescription.value, UpdateStep in faults);
      if written.Err? {
        return Err(written.error);
      }
    }
    assert db.State() == if body.orderDescription.Some? then SetDescription(t0, id, Assigned(body.orderDescription).value) else t0;
    if body.productIds.Some? {
      var cleared := db.DeleteProductMappings(id, DeleteMappingsStep in faults);
      if cleared.Err? {
        return Err(cleared.error);
      }
      // addProductMappings sends nothing for an empty list, as the inline code's guard does
      var mapped := db.AddProductMappings(id, body.productIds.value, InsertMappingsStep in faults);
      if mapped.Err? {
        return Err(mapped.error);
      }
    }
    var committed := db.Commit(CommitStep in faults);
    if committed.Err? {
      return Err(committed.error);
    }
    r := Ok(());
  }

  /** updateOrder from the existence check to COMMIT. A missing order is
      reported before anything is written; on success the given fields are
      committed; on failure a ROLLBACK would leave the tables as they were. */
  method UpdateSteps(db: Database, id: OrderId, body: UpdateOrderDto, faults: set<Step>) returns (r: Result<(), Failure>)
    requires db.Valid() && db.Idle()
    modifies db`orders, db`products, db`links, db`snapshot
    ensures db.Valid()
    ensures db.products == old(db.products)
    ensures r.Err? ==> db.RollbackImage() == old(db.State())
    ensures ExistsStep !in faults && id !in old(db.orders) ==>
              r == Err(OrderNotFound(id)) && db.Idle() && db.State() == old(db.State())
    ensures && ExistsStep !in faults && CountStep !in faults && id in old(db.orders)
            && ProductsRefused(old(db.products), body.productIds) ==>
              r == Err(InvalidProducts()) && db.Idle() && db.State() == old(db.State())
    ensures r.Ok? ==>
              && db.Idle() && id in old(db.orders)
              && !ProductsRefused(old(db.products), body.productIds) && Assignable(body.orderDescription)
              && db.State() == Updated(old(db.State()), id, Assigned(body.orderDescription), body.productIds)
    ensures && id in old(db.orders) && !ProductsRefused(old(db.products), body.productIds)
            && Assignable(body.orderDescription)
            && ExistsStep !in faults && CountStep !in faults && BeginStep !in faults && UpdateStep !in faults
            && DeleteMappingsStep !in faults && InsertMappingsStep !in faults && CommitStep !in faults
            ==> r.Ok?
    ensures r.Err? ==>
              || r.error == OrderNotFound(id) || r.error == InvalidProducts()
              || r.error == ConnectionLost || r.error == ValueTooLong
    ensures && id in old(db.orders) && !ProductsRefused(old(db.products), body.productIds)
            && ExistsStep !in faults && CountStep !in faults && BeginStep !in faults && UpdateStep !in faults
            && body.orderDescription.Some? && FitDescription(body.orderDescription.value).Err?
            ==> r == Err(ValueTooLong)
    ensures && id in old(db.orders) && !ProductsRefused(old(db.products), body.productIds)
            && Assignable(body.orderDescription) && r.Err?
            ==> r.error == ConnectionLost
  {
    var found := db.OrderExists(id, ExistsStep in faults);
    if found.Err? {
      return Err(found.error);
    }
    if !found.value {
      return Err(OrderNotFound(id));
    }
    if body.productIds.Some? && |body.productIds.value| > 0 {
      var count := db.CountByIds(body.productIds.value, CountStep in faults);
      if count.Err? {
        return Err(count.error);
      }
      if count.value != |body.productIds.value| {
        return Err(InvalidProducts());
      }
      ProductRepository.ExistsAllIff(db.products, body.productIds.value);
    }
    r := UpdateTransaction(db, id, body, faults);
  }
}
