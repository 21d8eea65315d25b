/** The validator chains of backend/src/validators/orderValidators.ts, over
    request values whose JSON type is already known, and the body the
    controller then receives. */
module OrderValidators {
  import opened Wrappers
  import opened Text
  import opened Types
  import opened Schema
  import opened ValidateRequest

  /** A path segment or a JSON scalar as `isInt` sees it. */
  datatype Value = Int(i: int) | NotInt

  /** The `productIds` field of a body. */
  datatype IdsField = Missing | NotArray | Array(items: seq<Value>)

  /** A request body; `None` is an absent description. */
  datatype Body = Body(orderDescription: Option<string>, productIds: IdsField)

  const IdMessage := "Order ID must be a positive integer"
  const RequiredMessage := "Order description is required"
  const CannotBeEmptyMessage := "Order description cannot be empty"
  const TooLongMessage := "Order description must not exceed 100 characters"
  const AtLeastOneMessage := "At least one product must be selected"
  const PositiveIdsMessage := "Product IDs must be positive integers"

  /** `isInt({ min: 1 })`. */
  predicate PositiveInt(v: Value)
  {
    v.Int? && v.i >= 1
  }

  /** `param('id').isInt({ min: 1 })` (`orderIdValidation`, and the first chain
      of `updateOrderValidation`). */
  function OrderIdErrors(id: Value): (r: seq<FieldError>)
    ensures r == [] <==> PositiveInt(id)
    ensures r != [] ==> r == [FieldError(Some("id"), IdMessage)]
  {
    if PositiveInt(id) then [] else [FieldError(Some("id"), IdMessage)]
  }

  /** The rule both bodies put on a present description. */
  predicate ValidDescription(s: string)
  {
    0 < |Trim(s)| <= DescriptionLimit
  }

  /** `.trim().notEmpty().withMessage(emptyMessage).isLength({ max: 100 })`:
      both checks run on the trimmed value, and at most one can fail. */
  function DescriptionErrors(s: string, emptyMessage: string): (r: seq<FieldError>)
    ensures r == [] <==> ValidDescription(s)
    ensures |r| <= 1
    ensures Trim(s) == [] ==> r == [FieldError(Some("orderDescription"), emptyMessage)]
    ensures |Trim(s)| > DescriptionLimit ==> r == [FieldError(Some("orderDescription"), TooLongMessage)]
  {
    var t := Trim(s);
    (if |t| == 0 then [FieldError(Some("orderDescription"), emptyMessage)] else [])
    + (if |t| > DescriptionLimit then [FieldError(Some("orderDescription"), TooLongMessage)] else [])
  }

  /** `'productIds[k]'`. */
  function ElementPath(k: nat): string
  {
    "productIds[" + NatToString(k) + "]"
  }

  predicate AllPositive(items: seq<Value>)
  {
    forall k | 0 <= k < |items| :: PositiveInt(items[k])
  }

  /** `body('productIds.*').isInt({ min: 1 })` over `items[from..]`: one error
      per element that is not a positive integer, in element order. */
  function ElementErrors(items: seq<Value>, from: nat): (r: seq<FieldError>)
    requires from <= |items|
    ensures r == [] <==> forall k | from <= k < |items| :: PositiveInt(items[k])
    ensures forall e | e in r :: e.msg == PositiveIdsMessage
    ensures |r| <= |items| - from
    decreases |items| - from
  {
    if from == |items| then []
    else
      (if PositiveInt(items[from]) then [] else [FieldError(Some(ElementPath(from)), PositiveIdsMessage)])
      + ElementErrors(items, from + 1)
  }

  /** The two chains on `productIds`: `isArray({ min: 1 })`, then the element
      chain on `productIds.*`, applied here to the items of an array. For an
      object express-validator would also check each of its values; such a
      field fails `isArray` either way, so only the error list differs. */
  function ProductIdsErrors(f: IdsField): (r: seq<FieldError>)
  {
    (if f.Array? && |f.items| >= 1 then [] else [FieldError(Some("productIds"), AtLeastOneMessage)])
    + (if f.Array? then ElementErrors(f.items, 0) else [])
  }

  predicate ValidIds(f: IdsField)
  {
    f.Array? && |f.items| >= 1 && AllPositive(f.items)
  }

  lemma ProductIdsErrorsIff(f: IdsField)
    ensures ProductIdsErrors(f) == [] <==> ValidIds(f)
  {
  }

  /** `createOrderValidation`, chain by chain; a missing description trims to
      the empty string. */
  function CreateErrors(b: Body): seq<FieldError>
  {
    DescriptionErrors(OrElse(b.orderDescription, ""), RequiredMessage) + ProductIdsErrors(b.productIds)
  }

  /** `updateOrderValidation`: `optional()` skips a chain whose field is absent. */
  function UpdateErrors(id: Value, b: Body): seq<FieldError>
  {
    OrderIdErrors(id)
    + (if b.orderDescription.Some? then DescriptionErrors(b.orderDescription.value, CannotBeEmptyMessage) else [])
    + (if b.productIds.Missing? then [] else ProductIdsErrors(b.productIds))
  }

  /** A create body passes iff it has a description that is 1 to 100
      characters after trimming and a non-empty array of positive integers. */
  predicate ValidCreate(b: Body)
  {
    b.orderDescription.Some? && ValidDescription(b.orderDescription.value) && ValidIds(b.productIds)
  }

  /** The body rules of an update: each field that is present meets the
      create rule. */
  predicate ValidUpdateBody(b: Body)
  {
    && (b.orderDescription.Some? ==> ValidDescription(b.orderDescription.value))
    && (!b.productIds.Missing? ==> ValidIds(b.productIds))
  }

  /** An update passes iff the id is a positive integer and the body rules hold. */
  predicate ValidUpdate(id: Value, b: Body)
  {
    PositiveInt(id) && ValidUpdateBody(b)
  }

  lemma CreateErrorsIff(b: Body)
    ensures CreateErrors(b) == [] <==> ValidCreate(b)
  {
    ProductIdsErrorsIff(b.productIds);
    if b.orderDescription.None? {
      assert Trim("") == [];
    }
  }

  lemma UpdateErrorsIff(id: Value, b: Body)
    ensures UpdateErrors(id, b) == [] <==> ValidUpdate(id, b)
  {
    ProductIdsErrorsIff(b.productIds);
  }

  /** An update cannot send `productIds: []`: the minimum length of 1 applies to
      a present list, so the controller's clear branch is not reachable over
      HTTP. */
  lemma UpdateRejectsEmptyList(id: Value, b: Body)
    requires b.productIds == Array([])
    ensures !ValidUpdate(id, b)
    ensures FieldError(Some("productIds"), AtLeastOneMessage) in UpdateErrors(id, b)
  {
    var pre := OrderIdErrors(id) + (if b.orderDescription.Some? then DescriptionErrors(b.orderDescription.value, CannotBeEmptyMessage) else []);
    assert UpdateErrors(id, b) == pre + ProductIdsErrors(b.productIds);
    assert ProductIdsErrors(b.productIds)[0] == FieldError(Some("productIds"), AtLeastOneMessage);
    assert UpdateErrors(id, b)[|pre|] == FieldError(Some("productIds"), AtLeastOneMessage);
  }

  function Ints(items: seq<Value>): (r: seq<ProductId>)
    requires AllPositive(items)
    ensures |r| == |items|
    ensures forall k | 0 <= k < |items| :: r[k] == items[k].i && r[k] >= 1
  {
    seq(|items|, k requires 0 <= k < |items| => items[k].i)
  }

  /** The body the controller reads after a create body passed: the sanitizer
      has trimmed the description. */
  function CreateDto(b: Body): (d: CreateOrderDto)
    requires ValidCreate(b)
    ensures d.orderDescription == Some(Trim(b.orderDescription.value))
    ensures d.productIds.Some? && |d.productIds.value| >= 1
    ensures forall k | 0 <= k < |d.productIds.value| :: d.productIds.value[k] >= 1
  {
    CreateOrderDto(Some(Trim(b.orderDescription.value)), Some(Ints(b.productIds.items)))
  }

  /** The body the controller reads after an update passed. */
  function UpdateDto(b: Body): (d: UpdateOrderDto)
    requires ValidUpdateBody(b)
    ensures d.orderDescription == if b.orderDescription.Some? then Some(Trim(b.orderDescription.value)) else None
    ensures d.productIds.Some? <==> !b.productIds.Missing?
    ensures d.productIds.Some? ==> |d.productIds.value| >= 1
    ensures d.productIds.Some? ==> forall k | 0 <= k < |d.productIds.value| :: d.productIds.value[k] >= 1
  {
    UpdateOrderDto(
      if b.orderDescription.Some? then Some(Trim(b.orderDescription.value)) else None,
      if b.productIds.Missing? then None else Some(Ints(b.productIds.items)))
  }

  /** A validated description fits `VARCHAR(100)` as it is, so the database
      never refuses it or cuts it. */
  lemma ValidatedDescriptionFits(s: string)
    requires ValidDescription(s)
    ensures FitDescription(Trim(s)) == Ok(Trim(s))
    ensures Trim(s) != []
  {
  }
}
