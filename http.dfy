/** Express responses and middleware control flow, as values. */
module Http {
  import opened Wrappers
  import opened Types
  import opened ApiErrors

  /** The `data` field of a JSON body: absent, `null`, or what was fetched. */
  datatype Payload =
    | NoData
    | NullData
    | OneOrder(order: OrderWithProducts)
    | Orders(orders: seq<OrderWithProducts>)
    | Products(products: seq<Product>)

  /** A status code and the JSON body `{ success, message?, data?, errors? }`. */
  datatype Response = Response(
    status: int,
    success: bool,
    message: Option<string>,
    data: Payload,
    errors: Option<seq<ValidationError>>)

  /** What a handler does with a request: write a response, call `next()`, or
      call `next(error)`. */
  datatype Outcome =
    | Respond(response: Response)
    | Continue
    | Forward(failure: Failure)

  /** `res.status(status).json({ success: true, data, message })`. */
  function Success(status: int, data: Payload, message: Option<string>): Response
  {
    Response(status, true, message, data, None)
  }

  /** `res.status(status).json({ success: false, message })`. */
  function ErrorResponse(status: int, message: string): Response
  {
    Response(status, false, Some(message), NoData, None)
  }
}
