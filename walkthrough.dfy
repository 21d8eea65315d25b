/** One order's life through the controller on a freshly initialised
    database: create, update, delete, then fetch. */
module Walkthrough {
  import opened Wrappers
  import opened Types
  import opened Schema
  import opened Database
  import opened OrderTransactions
  import opened Http
  import OrderController
  import ProductRepository

  /** With no faults, an order for products 1 and 3 is created (201), its
      products are replaced by product 2 (200) while the description stays,
      it is deleted (200), and fetching it afterwards is NotFoundError. */
  method CreateUpdateDelete() returns (created: Outcome, updated: Outcome, deleted: Outcome, fetched: Outcome)
    ensures created.Respond? && created.response.status == 201
    ensures created.response.data.OneOrder?
    ensures created.response.data.order.orderDescription == "Office Supplies Order"
    ensures ProductIdsOf(created.response.data.order.products) == [1, 3]
    ensures updated.Respond? && updated.response.status == 200
    ensures updated.response.data.OneOrder?
    ensures updated.response.data.order.orderDescription == "Office Supplies Order"
    ensures ProductIdsOf(updated.response.data.order.products) == [2]
    ensures deleted.Respond? && deleted.response.status == 200
    ensures fetched == Forward(OrderNotFound(created.response.data.order.id))
  {
    var db := new Database();
    var initialised := InitializeDatabase(db, {});
    assert db.products == SeededTable;
    ProductRepository.ExistsAllIff(db.products, [1, 3]);
    ProductRepository.ExistsAllIff(db.products, [2]);
    assert !ProductsRefused(db.products, Some([1, 3])) && !ProductsRefused(db.products, Some([2]));
    assert FitDescription("Office Supplies Order") == Ok("Office Supplies Order");
    created := OrderController.CreateOrder(db, CreateOrderDto(Some("Office Supplies Order"), Some([1, 3])), {});
    var id := created.response.data.order.id;
    assert id in db.orders;
    updated := OrderController.UpdateOrder(db, id, UpdateOrderDto(None, Some([2])), {});
    assert id in db.orders;
    deleted := OrderController.DeleteOrder(db, id, {});
    fetched := OrderController.GetOrderById(db, id, {});
  }
}
