/** What the create and update transactions of orderController.ts and
    orderService.ts commit, as functions of the tables before them. */
module OrderWrites {
  import opened Wrappers
  import opened Types
  import opened Schema
  import opened OrderRepository

  /** createOrder's transaction: the order row, then one map row per listed id. */
  function Created(t: Tables, id: OrderId, description: string, createdAt: nat, ids: seq<ProductId>): Tables
  {
    AddMappings(InsertOrder(t, id, description, createdAt), id, ids)
  }

  /** updateOrder's transaction: the description if one is given, then, if a
      list is given, delete-then-insert of the order's map rows. */
  function Updated(t: Tables, id: OrderId, description: Option<string>, ids: Option<seq<ProductId>>): Tables
  {
    var t1 := if description.Some? then SetDescription(t, id, description.value) else t;
    if ids.Some? then AddMappings(RemoveMappings(t1, id), id, ids.value) else t1
  }

  /** A created order is the one new order, with the given description, linked
      to exactly the listed ids in list order; every other order keeps its row
      and its products. */
  lemma CreatedSpec(t: Tables, id: OrderId, description: string, createdAt: nat, ids: seq<ProductId>, other: OrderId)
    requires Consistent(t) && id !in t.orders
    ensures var u := Created(t, id, description, createdAt, ids);
      && u.orders.Keys == t.orders.Keys + {id}
      && u.orders[id] == OrderRecord(description, createdAt)
      && (forall o | o in t.orders :: u.orders[o] == t.orders[o])
      && u.products == t.products
      && LinkedIds(u.links, id) == ids
      && (other != id ==> LinkedIds(u.links, other) == LinkedIds(t.links, other))
      && |u.links| == |t.links| + |ids|
  {
    var t1 := InsertOrder(t, id, description, createdAt);
    LinkedIdsNone(t.links, id);
    AddMappingsSpec(t1, id, ids, other);
  }

  lemma CreatedConsistent(t: Tables, id: OrderId, description: string, createdAt: nat, ids: seq<ProductId>)
    requires Consistent(t) && |description| <= DescriptionLimit
    requires forall k | 0 <= k < |ids| :: ids[k] in t.products
    ensures Consistent(Created(t, id, description, createdAt, ids))
  {
    InsertOrderConsistent(t, id, description, createdAt);
    AddMappingsConsistent(InsertOrder(t, id, description, createdAt), id, ids);
  }

  /** Fetching the created order returns it with the given description and
      with product ids exactly the listed ones. */
  lemma CreatedFound(t: Tables, id: OrderId, description: string, createdAt: nat, ids: seq<ProductId>)
    requires Consistent(t) && id !in t.orders && |description| <= DescriptionLimit
    requires forall k | 0 <= k < |ids| :: ids[k] in t.products
    ensures var r := FindById(Created(t, id, description, createdAt, ids), id);
      && r.Some? && r.value.id == id && r.value.orderDescription == description
      && r.value.createdAt == createdAt && r.value.products.Some?
      && ProductIdsOf(r.value.products.value) == ids
  {
    var u := Created(t, id, description, createdAt, ids);
    CreatedSpec(t, id, description, createdAt, ids, id);
    CreatedConsistent(t, id, description, createdAt, ids);
    FindByIdProducts(u, id);
  }

  /** An update leaves a field that is not given as it was, and a given list
      becomes the order's whole product list (`[]` clears it); other orders
      keep their rows and their products. */
  lemma UpdatedSpec(t: Tables, id: OrderId, description: Option<string>, ids: Option<seq<ProductId>>, other: OrderId)
    requires id in t.orders
    ensures var u := Updated(t, id, description, ids);
      && u.orders.Keys == t.orders.Keys
      && u.products == t.products
      && u.orders[id] == OrderRecord(OrElse(description, t.orders[id].description), t.orders[id].createdAt)
      && LinkedIds(u.links, id) == OrElse(ids, LinkedIds(t.links, id))
      && (other != id && other in t.orders ==> u.orders[other] == t.orders[other])
      && (other != id ==> LinkedIds(u.links, other) == LinkedIds(t.links, other))
      && (description.None? && ids.None? ==> u == t)
  {
    var t1 := if description.Some? then SetDescription(t, id, description.value) else t;
    if ids.Some? {
      var t2 := RemoveMappings(t1, id);
      RemoveMappingsSpec(t1, id, other);
      AddMappingsSpec(t2, id, ids.value, other);
    }
  }

  lemma UpdatedConsistent(t: Tables, id: OrderId, description: Option<string>, ids: Option<seq<ProductId>>)
    requires Consistent(t) && id in t.orders
    requires description.Some? ==> |description.value| <= DescriptionLimit
    requires ids.Some? ==> forall k | 0 <= k < |ids.value| :: ids.value[k] in t.products
    ensures Consistent(Updated(t, id, description, ids))
  {
    var t1 := if description.Some? then SetDescription(t, id, description.value) else t;
    if description.Some? {
      SetDescriptionConsistent(t, id, description.value);
    }
    if ids.Some? {
      RemoveMappingsConsistent(t1, id);
      AddMappingsConsistent(RemoveMappings(t1, id), id, ids.value);
    }
  }

  /** Fetching the updated order returns the new description (or the old one)
      and the new product list (or the old one). */
  lemma UpdatedFound(t: Tables, id: OrderId, description: Option<string>, ids: Option<seq<ProductId>>)
    requires Consistent(t) && id in t.orders
    requires description.Some? ==> |description.value| <= DescriptionLimit
    requires ids.Some? ==> forall k | 0 <= k < |ids.value| :: ids.value[k] in t.products
    ensures var r := FindById(Updated(t, id, description, ids), id);
      && r.Some? && r.value.orderDescription == OrElse(description, t.orders[id].description)
      && ProductIdsOf(r.value.products.value) == OrElse(ids, LinkedIds(t.links, id))
  {
    UpdatedSpec(t, id, description, ids, id);
    UpdatedConsistent(t, id, description, ids);
    FindByIdProducts(Updated(t, id, description, ids), id);
  }
}
