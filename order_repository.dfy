/** The order queries and statements of backend/src/repositories/orderRepository.ts
    (the controller issues the same SQL inline), as functions of the tables:
    the read queries are what they return, the writes are the tables they leave. */
module OrderRepository {
  import opened Wrappers
  import opened Types
  import opened Schema
  import ProductRepository

  // ---------------------------------------------------------------------
  // order_product_map rows of one order

  /** The product ids of the map rows of order `id`, in row order. */
  function LinkedIds(links: seq<Link>, id: OrderId): seq<ProductId>
  {
    if links == [] then []
    else (if links[0].orderId == id then [links[0].productId] else []) + LinkedIds(links[1..], id)
  }

  lemma {:induction false} LinkedIdsAppend(a: seq<Link>, b: seq<Link>, id: OrderId)
    ensures LinkedIds(a + b, id) == LinkedIds(a, id) + LinkedIds(b, id)
  {
    if a != [] {
      assert (a + b)[1..] == a[1..] + b;
      assert (a + b)[0] == a[0];
      LinkedIdsAppend(a[1..], b, id);
    } else {
      assert a + b == b;
    }
  }

  /** An order that no map row references has no linked products. */
  lemma {:induction false} LinkedIdsNone(links: seq<Link>, id: OrderId)
    requires forall k | 0 <= k < |links| :: links[k].orderId != id
    ensures LinkedIds(links, id) == []
  {
    if links != [] {
      LinkedIdsNone(links[1..], id);
    }
  }

  /** Every linked id comes from a map row of that order. */
  lemma {:induction false} LinkedIdsFrom(links: seq<Link>, id: OrderId)
    ensures forall p | p in LinkedIds(links, id) :: Link(id, p) in links
  {
    if links != [] {
      LinkedIdsFrom(links[1..], id);
      assert forall l | l in links[1..] :: l in links;
    }
  }

  /** The rows `INSERT INTO order_product_map (order_id, product_id) VALUES
      ($1, $2), ($1, $3), ...` writes: one row per listed id, in list order. */
  function MappingRows(id: OrderId, ids: seq<ProductId>): (r: seq<Link>)
    ensures |r| == |ids|
    ensures forall k | 0 <= k < |ids| :: r[k] == Link(id, ids[k])
  {
    seq(|ids|, k requires 0 <= k < |ids| => Link(id, ids[k]))
  }

  /** The rows written for `id` link it to exactly the listed ids, in order,
      and link no other order to anything. */
  lemma {:induction false} MappingRowsLinked(id: OrderId, ids: seq<ProductId>, other: OrderId)
    ensures LinkedIds(MappingRows(id, ids), id) == ids
    ensures other != id ==> LinkedIds(MappingRows(id, ids), other) == []
  {
    var rows := MappingRows(id, ids);
    if ids != [] {
      assert rows[1..] == MappingRows(id, ids[1..]);
      MappingRowsLinked(id, ids[1..], other);
    }
  }

  /** `DELETE FROM order_product_map WHERE order_id = $1`: the rows of the other
      orders, in their original order. */
  function WithoutOrder(links: seq<Link>, id: OrderId): (r: seq<Link>)
    ensures |r| <= |links|
  {
    if links == [] then []
    else (if links[0].orderId == id then [] else [links[0]]) + WithoutOrder(links[1..], id)
  }

  /** Without rows for the order, deleting its map rows changes nothing. */
  lemma {:induction false} WithoutOrderNone(links: seq<Link>, id: OrderId)
    requires forall k | 0 <= k < |links| :: links[k].orderId != id
    ensures WithoutOrder(links, id) == links
  {
    if links != [] {
      WithoutOrderNone(links[1..], id);
      assert links == [links[0]] + links[1..];
    }
  }

  /** Deleting an order's map rows removes all and only the rows of that order. */
  lemma {:induction false} WithoutOrderRows(links: seq<Link>, id: OrderId)
    ensures forall l :: l in WithoutOrder(links, id) <==> l in links && l.orderId != id
  {
    if links != [] {
      WithoutOrderRows(links[1..], id);
      assert links == [links[0]] + links[1..];
    }
  }

  /** ... so that order is left with no products and every other order keeps
      exactly the products it had. */
  lemma {:induction false} WithoutOrderLinked(links: seq<Link>, id: OrderId, other: OrderId)
    ensures LinkedIds(WithoutOrder(links, id), id) == []
    ensures other != id ==> LinkedIds(WithoutOrder(links, id), other) == LinkedIds(links, other)
  {
    if links != [] {
      WithoutOrderLinked(links[1..], id, other);
      var head := if links[0].orderId == id then [] else [links[0]];
      LinkedIdsAppend(head, WithoutOrder(links[1..], id), id);
      LinkedIdsAppend(head, WithoutOrder(links[1..], id), other);
      if head != [] {
        assert head[1..] == [];
      }
    }
  }

  // ---------------------------------------------------------------------
  // The aggregate read: an order with its products

  /** The `products` column of the aggregate query: one entry per map row of
      the order whose product exists (`FILTER (WHERE p.id IS NOT NULL)`),
      in map-row order. */
  function ProductsIn(links: seq<Link>, products: map<ProductId, ProductRecord>, id: OrderId): (r: seq<Product>)
    ensures forall k | 0 <= k < |r| :: r[k].id in products && r[k] == ProductRepository.AsProduct(products, r[k].id)
  {
    if links == [] then []
    else
      var l := links[0];
      (if l.orderId == id && l.productId in products then [ProductRepository.AsProduct(products, l.productId)] else [])
      + ProductsIn(links[1..], products, id)
  }

  /** When every linked product exists, the aggregate lists exactly the linked
      product ids, in map-row order. */
  lemma {:induction false} ProductsInIds(links: seq<Link>, products: map<ProductId, ProductRecord>, id: OrderId)
    requires forall k | 0 <= k < |links| :: links[k].productId in products
    ensures ProductIdsOf(ProductsIn(links, products, id)) == LinkedIds(links, id)
  {
    if links != [] {
      ProductsInIds(links[1..], products, id);
      var l := links[0];
      var head := if l.orderId == id then [ProductRepository.AsProduct(products, l.productId)] else [];
      var rest := ProductsIn(links[1..], products, id);
      assert ProductsIn(links, products, id) == head + rest;
      assert ProductIdsOf(head + rest) == ProductIdsOf(head) + ProductIdsOf(rest);
    }
  }

  function Row(t: Tables, id: OrderId): (r: OrderRow)
    requires id in t.orders
  {
    OrderRow(id, t.orders[id].description, t.orders[id].createdAt, Some(ProductsIn(t.links, t.products, id)))
  }

  /** `findById`: the aggregate row of the order, or null when no order has
      that id. `COALESCE(..., '[]')` makes the products column never null. */
  function FindById(t: Tables, id: OrderId): (r: Option<OrderRow>)
    ensures r.None? <==> id !in t.orders
    ensures r.Some? ==> && r.value.id == id
                        && r.value.orderDescription == t.orders[id].description
                        && r.value.createdAt == t.orders[id].createdAt
                        && r.value.products.Some?
  {
    if id in t.orders then Some(Row(t, id)) else None
  }

  /** In a consistent state the row's products are those of the order's map
      rows, in row order. */
  lemma FindByIdProducts(t: Tables, id: OrderId)
    requires Consistent(t) && id in t.orders
    ensures FindById(t, id).Some?
    ensures ProductIdsOf(FindById(t, id).value.products.value) == LinkedIds(t.links, id)
  {
    ProductsInIds(t.links, t.products, id);
  }

  /** `exists`: `SELECT id FROM orders WHERE id = $1` returned a row. */
  function Exists(t: Tables, id: OrderId): (b: bool)
    ensures b <==> FindById(t, id).Some?
  {
    id in t.orders
  }

  // ---------------------------------------------------------------------
  // findAll: ORDER BY o.created_at DESC

  /** `a` sorts before `b` in `ORDER BY created_at DESC`; PostgreSQL leaves ties
      unordered, and the model breaks them by the larger id. */
  predicate Newer(orders: map<OrderId, OrderRecord>, a: OrderId, b: OrderId)
    requires a in orders && b in orders
  {
    orders[a].createdAt > orders[b].createdAt || (orders[a].createdAt == orders[b].createdAt && a > b)
  }

  predicate IsNewest(orders: map<OrderId, OrderRecord>, m: OrderId, s: set<OrderId>)
  {
    m in s && s <= orders.Keys && forall y | y in s && y != m :: Newer(orders, m, y)
  }

  lemma {:induction false} NewestExists(orders: map<OrderId, OrderRecord>, s: set<OrderId>)
    requires |s| > 0 && s <= orders.Keys
    ensures exists m :: IsNewest(orders, m, s)
    decreases |s|
  {
    var x := ProductRepository.Element(s);
    var rest := s - {x};
    assert s == rest + {x};
    if |rest| == 0 {
      assert rest == {};
      assert IsNewest(orders, x, s);
    } else {
      NewestExists(orders, rest);
      var m :| IsNewest(orders, m, rest);
      if Newer(orders, x, m) {
        assert IsNewest(orders, x, s);
      } else {
        assert IsNewest(orders, m, s);
      }
    }
  }

  function Newest(orders: map<OrderId, OrderRecord>, s: set<OrderId>): (m: OrderId)
    requires |s| > 0 && s <= orders.Keys
    ensures IsNewest(orders, m, s)
  {
    NewestExists(orders, s);
    var m :| IsNewest(orders, m, s);
    m
  }

  /** The ids of `s`, newest first. */
  function NewestFirst(orders: map<OrderId, OrderRecord>, s: set<OrderId>): (r: seq<OrderId>)
    requires s <= orders.Keys
    ensures |r| == |s|
    ensures forall k | 0 <= k < |r| :: r[k] in s
    ensures forall x | x in s :: x in r
    ensures forall i, j | 0 <= i < j < |r| :: Newer(orders, r[i], r[j])
    decreases |s|
  {
    if |s| == 0 then []
    else
      var m := Newest(orders, s);
      var rest := NewestFirst(orders, s - {m});
      assert forall x | x in s :: x == m || x in rest;
      [m] + rest
  }

  /** `findAll`: every order's aggregate row, newest first. */
  function FindAll(t: Tables): (r: seq<OrderRow>)
    ensures |r| == |t.orders|
    ensures forall k | 0 <= k < |r| :: r[k].id in t.orders && r[k] == Row(t, r[k].id)
    ensures forall i, j | 0 <= i < j < |r| :: r[i].createdAt >= r[j].createdAt
  {
    var ids := NewestFirst(t.orders, t.orders.Keys);
    seq(|ids|, k requires 0 <= k < |ids| => Row(t, ids[k]))
  }

  /** Every order appears in `findAll`, as the row `findById` returns for it. */
  lemma FindAllComplete(t: Tables, id: OrderId)
    requires id in t.orders
    ensures exists k :: 0 <= k < |FindAll(t)| && Some(FindAll(t)[k]) == FindById(t, id)
  {
    var ids := NewestFirst(t.orders, t.orders.Keys);
    var k :| 0 <= k < |ids| && ids[k] == id;
    assert FindAll(t)[k] == Row(t, id);
  }

  // ---------------------------------------------------------------------
  // The writes, as the tables they leave

  /** `INSERT INTO orders (order_description) VALUES ($1)` with `id` drawn
      from the serial sequence and `createdAt` from NOW(). */
  function InsertOrder(t: Tables, id: OrderId, description: string, createdAt: nat): Tables
  {
    t.(orders := t.orders[id := OrderRecord(description, createdAt)])
  }

  /** `UPDATE orders SET order_description = $1 WHERE id = $2`: no row, no change. */
  function SetDescription(t: Tables, id: OrderId, description: string): Tables
  {
    if id in t.orders then t.(orders := t.orders[id := t.orders[id].(description := description)]) else t
  }

  /** `DELETE FROM orders WHERE id = $1`, with `ON DELETE CASCADE` removing the
      order's map rows. */
  function RemoveOrder(t: Tables, id: OrderId): Tables
  {
    t.(orders := t.orders - {id}, links := WithoutOrder(t.links, id))
  }

  /** `addProductMappings`: the new rows go after the existing ones. */
  function AddMappings(t: Tables, id: OrderId, ids: seq<ProductId>): Tables
  {
    t.(links := t.links + MappingRows(id, ids))
  }

  /** `deleteProductMappings`. */
  function RemoveMappings(t: Tables, id: OrderId): Tables
  {
    t.(links := WithoutOrder(t.links, id))
  }

  /** `create` adds exactly one order, under the fresh id, with the given
      description, and changes no other row. */
  lemma InsertOrderSpec(t: Tables, id: OrderId, description: string, createdAt: nat)
    requires id !in t.orders
    ensures var u := InsertOrder(t, id, description, createdAt);
      && u.orders.Keys == t.orders.Keys + {id}
      && u.orders[id] == OrderRecord(description, createdAt)
      && (forall o | o in t.orders :: u.orders[o] == t.orders[o])
      && u.products == t.products && u.links == t.links
      && |u.orders| == |t.orders| + 1
  {
  }

  /** `updateDescription` changes only that order's description. */
  lemma SetDescriptionSpec(t: Tables, id: OrderId, description: string)
    ensures var u := SetDescription(t, id, description);
      && u.orders.Keys == t.orders.Keys
      && (id in t.orders ==> u.orders[id] == OrderRecord(description, t.orders[id].createdAt))
      && (forall o | o in t.orders && o != id :: u.orders[o] == t.orders[o])
      && u.products == t.products && u.links == t.links
  {
  }

  /** `delete` removes that one order and, by cascade, exactly its map rows;
      the order is then not found. */
  lemma RemoveOrderSpec(t: Tables, id: OrderId, other: OrderId)
    ensures var u := RemoveOrder(t, id);
      && u.orders.Keys == t.orders.Keys - {id}
      && (forall o | o in u.orders :: u.orders[o] == t.orders[o])
      && u.products == t.products
      && (forall l :: l in u.links <==> l in t.links && l.orderId != id)
      && LinkedIds(u.links, id) == []
      && (other != id ==> LinkedIds(u.links, other) == LinkedIds(t.links, other))
      && FindById(u, id).None?
  {
    WithoutOrderRows(t.links, id);
    WithoutOrderLinked(t.links, id, other);
  }

  /** `addProductMappings` appends one `(orderId, p)` row per listed id, in list
      order, so the order gains exactly those ids and no other order changes;
      an empty list changes nothing. */
  lemma AddMappingsSpec(t: Tables, id: OrderId, ids: seq<ProductId>, other: OrderId)
    ensures var u := AddMappings(t, id, ids);
      && u.orders == t.orders && u.products == t.products
      && u.links[|t.links|..] == MappingRows(id, ids)
      && LinkedIds(u.links, id) == LinkedIds(t.links, id) + ids
      && (other != id ==> LinkedIds(u.links, other) == LinkedIds(t.links, other))
      && (ids == [] ==> u == t)
  {
    var u := AddMappings(t, id, ids);
    LinkedIdsAppend(t.links, MappingRows(id, ids), id);
    LinkedIdsAppend(t.links, MappingRows(id, ids), other);
    MappingRowsLinked(id, ids, other);
    if ids == [] {
      assert u.links == t.links;
    }
  }

  /** `deleteProductMappings` removes all and only that order's map rows. */
  lemma RemoveMappingsSpec(t: Tables, id: OrderId, other: OrderId)
    ensures var u := RemoveMappings(t, id);
      && u.orders == t.orders && u.products == t.products
      && (forall l :: l in u.links <==> l in t.links && l.orderId != id)
      && LinkedIds(u.links, id) == []
      && (other != id ==> LinkedIds(u.links, other) == LinkedIds(t.links, other))
  {
    WithoutOrderRows(t.links, id);
    WithoutOrderLinked(t.links, id, other);
  }

  // ---------------------------------------------------------------------
  // The schema constraints are kept

  /** Deleting a missing order changes nothing in a consistent state. */
  lemma RemoveMissingOrder(t: Tables, id: OrderId)
    requires Consistent(t) && id !in t.orders
    ensures RemoveOrder(t, id) == t
  {
    WithoutOrderNone(t.links, id);
  }

  lemma InsertOrderConsistent(t: Tables, id: OrderId, description: string, createdAt: nat)
    requires Consistent(t) && |description| <= DescriptionLimit
    ensures Consistent(InsertOrder(t, id, description, createdAt))
  {
  }

  lemma SetDescriptionConsistent(t: Tables, id: OrderId, description: string)
    requires Consistent(t) && |description| <= DescriptionLimit
    ensures Consistent(SetDescription(t, id, description))
  {
  }

  /** Removing an order leaves no map row pointing at it. */
  lemma RemoveOrderConsistent(t: Tables, id: OrderId)
    requires Consistent(t)
    ensures Consistent(RemoveOrder(t, id))
  {
    WithoutOrderRows(t.links, id);
    var u := RemoveOrder(t, id);
    forall k | 0 <= k < |u.links| ensures u.links[k].orderId in u.orders && u.links[k].productId in u.products {
      assert u.links[k] in t.links;
    }
  }

  lemma RemoveMappingsConsistent(t: Tables, id: OrderId)
    requires Consistent(t)
    ensures Consistent(RemoveMappings(t, id))
  {
    WithoutOrderRows(t.links, id);
    var u := RemoveMappings(t, id);
    forall k | 0 <= k < |u.links| ensures u.links[k].orderId in u.orders && u.links[k].productId in u.products {
      assert u.links[k] in t.links;
    }
  }

  /** Mapping rows for an existing order and existing products keep the
      foreign keys satisfied. */
  lemma AddMappingsConsistent(t: Tables, id: OrderId, ids: seq<ProductId>)
    requires Consistent(t) && id in t.orders
    requires forall k | 0 <= k < |ids| :: ids[k] in t.products
    ensures Consistent(AddMappings(t, id, ids))
  {
  }
}
