/** The PostgreSQL database the backend talks to, as one session over the three
    tables (backend/src/config/db.ts). Each method is one SQL statement the
    repositories, the service or the controller send; `fail` says that the
    round trip to the server fails (a dropped connection), which the caller
    chooses, since the model has no network. */
module Database {
  import opened Wrappers
  import opened Types
  import opened ApiErrors
  import opened Schema
  import opened OrderRepository
  import ProductRepository

  /** The statements that can fail for reasons outside the model. */
  datatype Step =
    | CreateTablesStep | CreateIndexesStep | CountAllStep | SeedStep
    | ExistsStep | CountStep | BeginStep | InsertOrderStep | UpdateStep
    | DeleteMappingsStep | InsertMappingsStep | CommitStep | FetchStep
    | DeleteStep | ListStep

  class Database {
    var orders: map<OrderId, OrderRecord>
    var products: map<ProductId, ProductRecord>
    var links: seq<Link>
    /** The next value of the `orders.id` SERIAL sequence. */
    var nextOrderId: int
    /** NOW(): a counter that grows with every order inserted. */
    var clock: nat
    /** While a transaction is open, the tables as they were at BEGIN. */
    var snapshot: Option<Tables>
    /** Pool clients checked out and not yet released. */
    var clientsOut: nat

    function State(): Tables
      reads this`orders, this`products, this`links
    {
      Tables(orders, products, links)
    }

    /** The schema's constraints hold, and the sequence is ahead of every id
        it has handed out, also in the image a ROLLBACK would restore. */
    predicate Valid()
      reads this`orders, this`products, this`links, this`nextOrderId, this`snapshot
    {
      && Consistent(State())
      && 1 <= nextOrderId
      && (forall id | id in orders :: id < nextOrderId)
      && (snapshot.Some? ==> Consistent(snapshot.value) && forall id | id in snapshot.value.orders :: id < nextOrderId)
    }

    /** The tables a ROLLBACK now would leave. */
    function RollbackImage(): Tables
      reads this`orders, this`products, this`links, this`snapshot
    {
      if snapshot.Some? then snapshot.value else State()
    }

    /** No transaction is open. */
    predicate Idle()
      reads this`snapshot
    {
      snapshot.None?
    }

    /** A database with the three tables created and empty. */
    constructor ()
      ensures Valid() && Idle()
      ensures State() == Tables(map[], map[], []) && nextOrderId == 1 && clientsOut == 0
    {
      orders, products, links := map[], map[], [];
      nextOrderId, clock := 1, 0;
      snapshot := None;
      clientsOut := 0;
    }

    // ---- the pool

    /** `pool.connect()`. */
    method Connect()
      modifies this`clientsOut
      ensures clientsOut == old(clientsOut) + 1
    {
      clientsOut := clientsOut + 1;
    }

    /** `client.release()`. */
    method Release()
      requires clientsOut > 0
      modifies this`clientsOut
      ensures clientsOut == old(clientsOut) - 1
    {
      clientsOut := clientsOut - 1;
    }

    // ---- transaction control

    /** `BEGIN`; inside an open transaction PostgreSQL only warns. */
    method Begin(fail: bool) returns (r: Result<(), Failure>)
      requires Valid()
      modifies this`snapshot
      ensures Valid()
      ensures r.Ok? <==> !fail
      ensures r.Err? ==> r.error == ConnectionLost && snapshot == old(snapshot)
      ensures r.Ok? ==> snapshot == if old(snapshot).Some? then old(snapshot) else Some(State())
    {
      if fail {
        return Err(ConnectionLost);
      }
      if snapshot.None? {
        snapshot := Some(State());
      }
      r := Ok(());
    }

    /** `COMMIT`: the transaction's writes stay. A COMMIT whose round trip fails
        is taken as the server aborting the transaction. Outside a transaction
        PostgreSQL only warns. */
    method Commit(fail: bool) returns (r: Result<(), Failure>)
      requires Valid()
      modifies this`snapshot, this`orders, this`products, this`links
      ensures Valid() && Idle()
      ensures r.Ok? <==> !fail || old(snapshot).None?
      ensures r.Ok? ==> State() == old(State())
      ensures r.Err? ==> r.error == ConnectionLost && State() == old(RollbackImage())
    {
      if snapshot.None? {
        return Ok(());
      }
      if fail {
        orders, products, links := snapshot.value.orders, snapshot.value.products, snapshot.value.links;
        snapshot := None;
        return Err(ConnectionLost);
      }
      snapshot := None;
      r := Ok(());
    }

    /** `ROLLBACK`: the tables go back to their image at BEGIN; outside a
        transaction PostgreSQL only warns. The sequence is not rolled back. */
    method Rollback()
      requires Valid()
      modifies this`snapshot, this`orders, this`products, this`links
      ensures Valid() && Idle()
      ensures State() == old(RollbackImage())
    {
      if snapshot.Some? {
        orders, products, links := snapshot.value.orders, snapshot.value.products, snapshot.value.links;
        snapshot := None;
      }
    }

    // ---- reads

    /** `SELECT COUNT(*) FROM products WHERE id = ANY($1)` (`countByIds`). */
    method CountByIds(ids: seq<ProductId>, fail: bool) returns (r: Result<nat, Failure>)
      ensures r.Ok? <==> !fail
      ensures r.Err? ==> r.error == ConnectionLost
      ensures r.Ok? ==> r.value == ProductRepository.CountByIds(products, ids)
    {
      if fail {
        return Err(ConnectionLost);
      }
      r := Ok(ProductRepository.CountByIds(products, ids));
    }

    /** `SELECT id FROM orders WHERE id = $1` (`exists`). */
    method OrderExists(id: OrderId, fail: bool) returns (r: Result<bool, Failure>)
      ensures r.Ok? <==> !fail
      ensures r.Err? ==> r.error == ConnectionLost
      ensures r.Ok? ==> (r.value <==> id in orders)
    {
      if fail {
        return Err(ConnectionLost);
      }
      r := Ok(Exists(State(), id));
    }

    /** The aggregate query for one order (`findById`). */
    method FindById(id: OrderId, fail: bool) returns (r: Result<Option<OrderRow>, Failure>)
      ensures r.Ok? <==> !fail
      ensures r.Err? ==> r.error == ConnectionLost
      ensures r.Ok? ==> (r.value.None? <==> id !in orders)
      ensures r.Ok? ==> r.value == OrderRepository.FindById(State(), id)
    {
      if fail {
        return Err(ConnectionLost);
      }
      r := Ok(OrderRepository.FindById(State(), id));
    }

    /** The aggregate query for all orders, newest first (`findAll`). */
    method FindAllOrders(fail: bool) returns (r: Result<seq<OrderRow>, Failure>)
      ensures r.Ok? <==> !fail
      ensures r.Err? ==> r.error == ConnectionLost
      ensures r.Ok? ==> r.value == OrderRepository.FindAll(State()) && |r.value| == |orders|
    {
      if fail {
        return Err(ConnectionLost);
      }
      r := Ok(OrderRepository.FindAll(State()));
    }

    /** `SELECT id, product_name, product_description FROM products ORDER BY id`. */
    method FindAllProducts(fail: bool) returns (r: Result<seq<Product>, Failure>)
      ensures r.Ok? <==> !fail
      ensures r.Err? ==> r.error == ConnectionLost
      ensures r.Ok? ==> r.value == ProductRepository.FindAll(products) && |r.value| == |products|
    {
      if fail {
        return Err(ConnectionLost);
      }
      r := Ok(ProductRepository.FindAll(products));
    }

    /** `SELECT COUNT(*) FROM products`. */
    method CountAllProducts(fail: bool) returns (r: Result<nat, Failure>)
      ensures r.Ok? <==> !fail
      ensures r.Err? ==> r.error == ConnectionLost
      ensures r.Ok? ==> (r.value == 0 <==> products == map[])
      ensures r.Ok? ==> r.value == |products|
    {
      if fail {
        return Err(ConnectionLost);
      }
      r := Ok(|products|);
    }

    /** `CREATE TABLE IF NOT EXISTS ...` and `CREATE INDEX IF NOT EXISTS ...`:
        the tables already exist in the model, so only the round trip remains. */
    method CreateIfMissing(fail: bool) returns (r: Result<(), Failure>)
      ensures r.Ok? <==> !fail
      ensures r.Err? ==> r.error == ConnectionLost
    {
      if fail {
        return Err(ConnectionLost);
      }
      r := Ok(());
    }

    // ---- writes

    /** `INSERT INTO orders (order_description) VALUES ($1) RETURNING id,
        created_at` (`create`). The id comes from the sequence, which advances
        even when the row is then refused: a missing description violates NOT
        NULL, a long one VARCHAR(100). */
    method InsertOrder(description: Option<string>, fail: bool) returns (r: Result<OrderId, Failure>)
      requires Valid()
      modifies this`orders, this`nextOrderId, this`clock
      ensures Valid()
      ensures fail ==> r == Err(ConnectionLost) && nextOrderId == old(nextOrderId)
      ensures !fail ==> nextOrderId == old(nextOrderId) + 1
      ensures !fail && description.None? ==> r == Err(NullDescription)
      ensures !fail && description.Some? && FitDescription(description.value).Err? ==> r == Err(ValueTooLong)
      ensures r.Ok? <==> !fail && description.Some? && FitDescription(description.value).Ok?
      ensures r.Ok? ==> && r.value == old(nextOrderId) && r.value !in old(orders)
                        && State() == OrderRepository.InsertOrder(old(State()), r.value, FitDescription(description.value).value, old(clock))
                        && clock == old(clock) + 1
      ensures r.Err? ==> orders == old(orders) && clock == old(clock)
    {
      if fail {
        return Err(ConnectionLost);
      }
      var id := nextOrderId;
      nextOrderId := nextOrderId + 1;
      if description.None? {
        return Err(NullDescription);
      }
      var fitted := FitDescription(description.value);
      if fitted.Err? {
        return Err(fitted.error);
      }
      InsertOrderConsistent(State(), id, fitted.value, clock);
      orders := orders[id := OrderRecord(fitted.value, clock)];
      clock := clock + 1;
      r := Ok(id);
    }

    /** `UPDATE orders SET order_description = $1 WHERE id = $2`
        (`updateDescription`). No matching row means no change and no error. */
    method UpdateDescription(id: OrderId, description: string, fail: bool) returns (r: Result<(), Failure>)
      requires Valid()
      modifies this`orders
      ensures Valid()
      ensures r.Ok? <==> !fail && (id !in old(orders) || FitDescription(description).Ok?)
      ensures r.Err? ==> orders == old(orders) && r.error == (if fail then ConnectionLost else ValueTooLong)
      ensures r.Ok? && id in old(orders) ==> State() == SetDescription(old(State()), id, FitDescription(description).value)
      ensures r.Ok? && id !in old(orders) ==> orders == old(orders)
    {
      if fail {
        return Err(ConnectionLost);
      }
      if id !in orders {
        return Ok(());
      }
      var fitted := FitDescription(description);
      if fitted.Err? {
        return Err(fitted.error);
      }
      SetDescriptionConsistent(State(), id, fitted.value);
      orders := SetDescription(State(), id, fitted.value).orders;
      r := Ok(());
    }

    /** `DELETE FROM orders WHERE id = $1 RETURNING id` (`delete`): the row
        count, 0 or 1, and by `ON DELETE CASCADE` the order's map rows go too. */
    method Delete(id: OrderId, fail: bool) returns (r: Result<nat, Failure>)
      requires Valid()
      modifies this`orders, this`links
      ensures Valid()
      ensures r.Ok? <==> !fail
      ensures r.Err? ==> r.error == ConnectionLost && State() == old(State())
      ensures r.Ok? ==> r.value == (if id in old(orders) then 1 else 0)
      ensures r.Ok? ==> State() == RemoveOrder(old(State()), id)
    {
      if fail {
        return Err(ConnectionLost);
      }
      var count := if id in orders then 1 else 0;
      RemoveOrderConsistent(State(), id);
      var u := RemoveOrder(State(), id);
      orders, links := u.orders, u.links;
      r := Ok(count);
    }

    /** `addProductMappings`: nothing is sent for an empty list; otherwise one
        multi-row INSERT, refused as a whole when a row would reference a
        missing order or product. */
    method AddProductMappings(id: OrderId, ids: seq<ProductId>, fail: bool) returns (r: Result<(), Failure>)
      requires Valid()
      modifies this`links
      ensures Valid()
      ensures ids == [] ==> r.Ok? && links == old(links)
      ensures ids != [] && fail ==> r == Err(ConnectionLost)
      ensures r.Ok? <==> ids == [] || (!fail && id in orders && forall k | 0 <= k < |ids| :: ids[k] in products)
      ensures r.Ok? ==> State() == AddMappings(old(State()), id, ids)
      ensures r.Err? ==> links == old(links) && (r.error == ConnectionLost || r.error == MissingReference)
    {
      if ids == [] {
        return Ok(());
      }
      if fail {
        return Err(ConnectionLost);
      }
      if id !in orders || exists k | 0 <= k < |ids| :: ids[k] !in products {
        return Err(MissingReference);
      }
      AddMappingsConsistent(State(), id, ids);
      links := links + MappingRows(id, ids);
      r := Ok(());
    }

    /** `DELETE FROM order_product_map WHERE order_id = $1` (`deleteProductMappings`). */
    method DeleteProductMappings(id: OrderId, fail: bool) returns (r: Result<(), Failure>)
      requires Valid()
      modifies this`links
      ensures Valid()
      ensures r.Ok? <==> !fail
      ensures r.Err? ==> r.error == ConnectionLost && links == old(links)
      ensures r.Ok? ==> State() == RemoveMappings(old(State()), id)
    {
      if fail {
        return Err(ConnectionLost);
      }
      RemoveMappingsConsistent(State(), id);
      links := WithoutOrder(links, id);
      r := Ok(());
    }

    /** The seed INSERT with `ON CONFLICT (id) DO NOTHING`. */
    method InsertSeedProducts(fail: bool) returns (r: Result<(), Failure>)
      requires Valid()
      modifies this`products
      ensures Valid()
      ensures r.Ok? <==> !fail
      ensures r.Err? ==> r.error == ConnectionLost && products == old(products)
      ensures r.Ok? ==> products == Seeded(old(products))
    {
      if fail {
        return Err(ConnectionLost);
      }
      InsertKeepsNamesShort(products, SeedProducts);
      products := Seeded(products);
      r := Ok(());
    }
  }

  /** `SELECT COUNT(*) FROM products`, then the seed INSERT only when the
      count is 0. */
  method SeedIfEmpty(db: Database, faults: set<Step>) returns (r: Result<(), Failure>)
    requires db.Valid() && db.Idle()
    modifies db`products
    ensures db.Valid() && db.Idle()
    ensures r.Ok? <==> CountAllStep !in faults && (old(db.products) == map[] ==> SeedStep !in faults)
    ensures r.Ok? && old(db.products) == map[] ==> IsSeedTable(db.products)
    ensures old(db.products) != map[] || r.Err? ==> db.products == old(db.products)
  {
    var count := db.CountAllProducts(CountAllStep in faults);
    if count.Err? {
      return Err(count.error);
    }
    r := Ok(());
    if count.value == 0 {
      ghost var before := db.products;
      r := db.InsertSeedProducts(SeedStep in faults);
      SeedOfEmpty(before);
    }
  }

  /** `initializeDatabase`: create what is missing, then seed the products only
      when the table is empty; an error is rethrown, and the client is
      released on every path. */
  method InitializeDatabase(db: Database, faults: set<Step>) returns (r: Result<(), Failure>)
    requires db.Valid() && db.Idle()
    modifies db
    ensures db.Valid() && db.Idle()
    ensures db.clientsOut == old(db.clientsOut)
    ensures db.orders == old(db.orders) && db.links == old(db.links)
    ensures db.nextOrderId == old(db.nextOrderId) && db.clock == old(db.clock)
    ensures r.Ok? <==> && CreateTablesStep !in faults && CreateIndexesStep !in faults && CountAllStep !in faults
                        && (old(db.products) == map[] ==> SeedStep !in faults)
    ensures r.Ok? && old(db.products) == map[] ==> IsSeedTable(db.products)
    ensures old(db.products) != map[] || r.Err? ==> db.products == old(db.products)
  {
    db.Connect();
    r := db.CreateIfMissing(CreateTablesStep in faults);
    if r.Ok? {
      r := db.CreateIfMissing(CreateIndexesStep in faults);
      if r.Ok? {
        r := SeedIfEmpty(db, faults);
      }
    }
    db.Release();
  }
}
