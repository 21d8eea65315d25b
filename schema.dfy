/** The tables `initializeDatabase` creates, the constraints they carry and the
    seed rows (backend/src/config/db.ts). */
module Schema {
  import opened Wrappers
  import opened Text
  import opened Types
  import opened ApiErrors

  /** `order_description VARCHAR(100)` and `product_name VARCHAR(100)`. */
  const DescriptionLimit: nat := 100

  /** A row of `orders`, without its key. */
  datatype OrderRecord = OrderRecord(description: string, createdAt: nat)

  /** A row of `products`, without its key; the description column is nullable. */
  datatype ProductRecord = ProductRecord(name: string, description: Option<string>)

  /** A row of `order_product_map` (its own serial key is never read). */
  datatype Link = Link(orderId: OrderId, productId: ProductId)

  /** The three tables: `orders` and `products` keyed by their primary keys,
      `order_product_map` as its rows in insertion order. */
  datatype Tables = Tables(
    orders: map<OrderId, OrderRecord>,
    products: map<ProductId, ProductRecord>,
    links: seq<Link>)

  /** The constraints of the schema: the VARCHAR(100) columns fit, and every map
      row references an existing order and an existing product. */
  predicate Consistent(t: Tables)
  {
    && (forall id | id in t.orders :: |t.orders[id].description| <= DescriptionLimit)
    && NamesFit(t.products)
    && (forall k | 0 <= k < |t.links| :: t.links[k].orderId in t.orders && t.links[k].productId in t.products)
  }

  /** PostgreSQL's errors for the constraints, and a dropped connection. */
  const ValueTooLong: Failure := Plain("value too long for type character varying(100)", Some("22001"))
  const NullDescription: Failure := Plain("null value in column \"order_description\" violates not-null constraint", Some("23502"))
  const MissingReference: Failure := Plain("insert or update on table \"order_product_map\" violates foreign key constraint", Some("23503"))
  const ConnectionLost: Failure := Plain("Connection terminated unexpectedly", None)

  predicate AllBlank(s: string)
  {
    forall k | 0 <= k < |s| :: s[k] == ' '
  }

  /** Assigning `s` to a VARCHAR(100) column: a longer string is refused unless
      everything past the limit is spaces, which PostgreSQL then cuts off. */
  function FitDescription(s: string): (r: Result<string, Failure>)
    ensures r.Ok? <==> |s| <= DescriptionLimit || AllBlank(s[DescriptionLimit..])
    ensures r.Ok? ==> |r.value| <= DescriptionLimit && r.value <= s && AllBlank(s[|r.value|..])
    ensures |s| <= DescriptionLimit ==> r == Ok(s)
    ensures r.Ok? && |s| > DescriptionLimit ==> r.value == s[..DescriptionLimit]
    ensures r.Err? ==> r.error == ValueTooLong
  {
    if |s| <= DescriptionLimit then Ok(s)
    else if AllBlank(s[DescriptionLimit..]) then Ok(s[..DescriptionLimit])
    else Err(ValueTooLong)
  }

  /** The four products `initializeDatabase` seeds. */
  const SeedProducts: seq<Product> := [
    Product(1, "HP laptop", Some("This is HP laptop")),
    Product(2, "lenovo laptop", Some("This is lenovo")),
    Product(3, "Car", Some("This is Car")),
    Product(4, "Bike", Some("This is Bike"))
  ]

  function IdsOfRows(rows: seq<Product>): set<ProductId>
  {
    set k | 0 <= k < |rows| :: rows[k].id
  }

  /** `INSERT INTO products ... ON CONFLICT (id) DO NOTHING`: the rows go in
      left to right and a row whose id is already present is skipped, so no
      existing product is overwritten. */
  function InsertIgnoringConflicts(products: map<ProductId, ProductRecord>, rows: seq<Product>): (r: map<ProductId, ProductRecord>)
    ensures r.Keys == products.Keys + IdsOfRows(rows)
    ensures forall id | id in products :: r[id] == products[id]
    decreases |rows|
  {
    if rows == [] then products
    else
      var p := rows[0];
      var next := if p.id in products then products else products[p.id := ProductRecord(p.productName, p.productDescription)];
      assert IdsOfRows(rows) == {p.id} + IdsOfRows(rows[1..]) by {
        forall x | x in IdsOfRows(rows) ensures x in {p.id} + IdsOfRows(rows[1..]) {
          var k :| 0 <= k < |rows| && rows[k].id == x;
          if k > 0 { assert rows[1..][k - 1] == rows[k]; }
        }
        forall x | x in IdsOfRows(rows[1..]) ensures x in IdsOfRows(rows) {
          var k :| 0 <= k < |rows[1..]| && rows[1..][k].id == x;
          assert rows[k + 1] == rows[1..][k];
        }
      }
      InsertIgnoringConflicts(next, rows[1..])
  }

  /** The products table after seeding an empty one. */
  const SeededTable: map<ProductId, ProductRecord> := map[
    1 := ProductRecord("HP laptop", Some("This is HP laptop")),
    2 := ProductRecord("lenovo laptop", Some("This is lenovo")),
    3 := ProductRecord("Car", Some("This is Car")),
    4 := ProductRecord("Bike", Some("This is Bike"))
  ]

  /** `m` is the seeded products table: ids 1 to 4, with their names and descriptions. */
  predicate IsSeedTable(m: map<ProductId, ProductRecord>)
  {
    m == SeededTable
  }

  /** One step of `InsertIgnoringConflicts` when the first row's id is new. */
  lemma InsertFresh(products: map<ProductId, ProductRecord>, p: Product, rest: seq<Product>)
    requires p.id !in products
    ensures InsertIgnoringConflicts(products, [p] + rest)
         == InsertIgnoringConflicts(products[p.id := ProductRecord(p.productName, p.productDescription)], rest)
  {
    assert ([p] + rest)[0] == p;
    assert ([p] + rest)[1..] == rest;
  }

  /** The products table after the seed INSERT. */
  function Seeded(products: map<ProductId, ProductRecord>): map<ProductId, ProductRecord>
  {
    InsertIgnoringConflicts(products, SeedProducts)
  }

  /** Seeding an empty table yields exactly the products 1 to 4 with their
      listed names and descriptions. */
  lemma SeedOfEmpty(products: map<ProductId, ProductRecord>)
    requires products == map[]
    ensures IsSeedTable(Seeded(products))
  {
    var p1, p2, p3, p4 := SeedProducts[0], SeedProducts[1], SeedProducts[2], SeedProducts[3];
    assert SeedProducts == [p1] + ([p2] + ([p3] + ([p4] + [])));
    var m1 := map[][1 := ProductRecord(p1.productName, p1.productDescription)];
    var m2 := m1[2 := ProductRecord(p2.productName, p2.productDescription)];
    var m3 := m2[3 := ProductRecord(p3.productName, p3.productDescription)];
    var m4 := m3[4 := ProductRecord(p4.productName, p4.productDescription)];
    InsertFresh(map[], p1, [p2] + ([p3] + ([p4] + [])));
    InsertFresh(m1, p2, [p3] + ([p4] + []));
    InsertFresh(m2, p3, [p4] + []);
    InsertFresh(m3, p4, []);
    assert m4 == SeededTable;
  }

  /** Seeding never overwrites a product that is already there. */
  lemma SeedKeepsExisting(products: map<ProductId, ProductRecord>, id: ProductId)
    requires id in products
    ensures id in Seeded(products) && Seeded(products)[id] == products[id]
  {
  }

  predicate NamesFit(products: map<ProductId, ProductRecord>)
  {
    forall id | id in products :: |products[id].name| <= DescriptionLimit
  }

  /** Rows whose names fit keep every product name within VARCHAR(100). */
  lemma {:induction false} InsertKeepsNamesShort(products: map<ProductId, ProductRecord>, rows: seq<Product>)
    requires NamesFit(products)
    requires forall k | 0 <= k < |rows| :: |rows[k].productName| <= DescriptionLimit
    ensures NamesFit(InsertIgnoringConflicts(products, rows))
    decreases |rows|
  {
    if rows != [] {
      var p := rows[0];
      var next := if p.id in products then products else products[p.id := ProductRecord(p.productName, p.productDescription)];
      assert forall k | 0 <= k < |rows[1..]| :: rows[1..][k] == rows[k + 1];
      assert |rows[0].productName| <= DescriptionLimit;
      assert InsertIgnoringConflicts(products, rows) == InsertIgnoringConflicts(next, rows[1..]);
      assert NamesFit(next);
      InsertKeepsNamesShort(next, rows[1..]);
    }
  }
}
