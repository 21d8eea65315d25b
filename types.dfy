/** The records the backend exchanges (backend/src/types/index.ts). */
module Types {
  import opened Wrappers

  type OrderId = int
  type ProductId = int

  /** A product as the API returns it. */
  datatype Product = Product(id: ProductId, productName: string, productDescription: Option<string>)

  /** One row of the order aggregate query: `products` is nullable in the row type. */
  datatype OrderRow = OrderRow(id: OrderId, orderDescription: string, createdAt: nat, products: Option<seq<Product>>)

  /** An order together with its products, as the API returns it. */
  datatype OrderWithProducts = OrderWithProducts(id: OrderId, orderDescription: string, createdAt: nat, products: seq<Product>)

  /** The body of a create request as the controller reads it; the fields are
      optional here because the controller handles their absence. */
  datatype CreateOrderDto = CreateOrderDto(orderDescription: Option<string>, productIds: Option<seq<ProductId>>)

  /** The body of an update request: each field may be left out. */
  datatype UpdateOrderDto = UpdateOrderDto(orderDescription: Option<string>, productIds: Option<seq<ProductId>>)

  /** One entry of a validation error list. */
  datatype ValidationError = ValidationError(field: string, message: string)

  function ProductIdsOf(products: seq<Product>): (r: seq<ProductId>)
    ensures |r| == |products|
    ensures forall k | 0 <= k < |products| :: r[k] == products[k].id
  {
    seq(|products|, k requires 0 <= k < |products| => products[k].id)
  }
}
