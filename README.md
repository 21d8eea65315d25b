# Order management: a Dafny model

This project models the core of an order-management web application.
- **Backend:** an Express REST API over PostgreSQL.
- **Frontend:** a React list and form.

An order has a description, a creation time and a set of products, linked through the `order_product_map` table.

The model covers five areas:

- **The database.** The three tables are `orders`, `products` and `order_product_map`.
  - The schema's constraints are an invariant: `Schema.Consistent`, kept by `Database.Database.Valid`.
  - The `Database` class holds the tables and the `orders.id` sequence. It also holds a creation-time counter and the pre-BEGIN image of an open transaction.
  - Each statement the code sends is a method of that class: the counts, the aggregate reads, INSERT, UPDATE, DELETE and the transaction control.
  - `initializeDatabase` seeds the four products only into an empty table.
- **The write path.** `createOrder` and `updateOrder` run in this order:
  - the checks: the order exists, and the product count matches the list;
  - BEGIN, the writes, COMMIT;
  - ROLLBACK in the catch block, and `client.release()` in `finally`.

  The controller (`OrderController`), which the routes call, and the service (`OrderService`) share the statements up to COMMIT (`OrderTransactions`). They differ after COMMIT: the controller awaits its fetch and answers with a response; the service returns the fetch without awaiting it.
- **Reads and deletes.**
  - `getAllOrders` lists every order, newest first.
  - `getOrderById` returns the order or NotFoundError.
  - `deleteOrder`: the order's map rows go with it by cascade.
  - `getAllProducts` lists the products in id order.
- **Validation and errors.**
  - The express-validator chains are predicates and error lists: `OrderValidators`.
  - `validateRequest` and `errorHandler`/`notFoundHandler` are functions from errors to responses.
  - The `ApiError` classes are one datatype.
- **The frontend logic.**
  - In the order list: the search filter, which of the four views is shown, and the product label.
  - In the order form: the product toggle, the initial values and the form rules.

Things outside the program are parameters:
- **Failed round trips.** A round trip to the server that fails (a dropped connection) is given by the caller: `fail: bool` for one statement, or `faults: set<Step>` for a handler. A failed statement never reaches the server.
- **Environment.** `NODE_ENV === 'production'` is a `production` flag.
- **Creation time.** `created_at` is a counter that grows with every inserted order.

PostgreSQL behaviour the code relies on is modelled explicitly:
- The `orders.id` sequence is not rolled back.
- `VARCHAR(100)` refuses a longer value unless the excess is spaces, which are cut off.
- ROLLBACK and COMMIT outside a transaction change nothing.

The model takes one assumption about failures: a COMMIT whose round trip fails is taken to abort the transaction (see "## Left out").

Three facts about the code that the model makes explicit:
- **Duplicate ids in `productIds`.** They are refused with 400 before BEGIN. `COUNT(*) ... WHERE id = ANY($1)` counts each product row once, so the check `count === length` fails for a list that repeats an id (`ProductRepository.ExistsAllIff`, `ProductRepository.DuplicateFails`).
- **The aggregate's `products` column.** It lists one entry per map row, in map-row order (`json_agg` without `DISTINCT`).
- **Seeded product 2.** It is `lenovo laptop`, with description `This is lenovo`.

## Model

| member | source | states |
|---|---|---|
| ApiErrors.NewApiError | backend/src/utils/ApiError.ts:1-12 | keeps the status code and the message as given; `isOperational` is true unless `false` is passed |
| ApiErrors.BadRequestError | backend/src/utils/ApiError.ts:14-18 | status 400, operational, message as given or `Bad request` |
| ApiErrors.NotFoundError | backend/src/utils/ApiError.ts:20-24 | status 404, operational, message as given or `Resource not found` |
| ApiErrors.InternalServerError | backend/src/utils/ApiError.ts:26-30 | status 500, not operational, message as given or `Internal server error` |
| Types.ProductIdsOf | frontend/src/components/orders/OrderForm.tsx:47-50 | the ids of the products, one per product, in order |
| Schema.FitDescription | backend/src/config/db.ts:31 | accepted iff the value has at most 100 characters or only spaces past the 100th; what is stored is a prefix of at most 100 characters with only spaces cut; a short value is stored as is and a long one as exactly its first 100 characters; otherwise the error is `value too long` |
| Schema.InsertIgnoringConflicts | backend/src/config/db.ts:60-66 | the ids afterwards are the old ids plus the inserted ones, and every existing product keeps its row |
| Schema.SeedOfEmpty | backend/src/config/db.ts:59-67 | seeding an empty table yields exactly products 1 to 4 with their names and descriptions |
| Schema.SeedKeepsExisting | backend/src/config/db.ts:66 | `ON CONFLICT (id) DO NOTHING`: a product already present is never overwritten |
| Schema.InsertKeepsNamesShort | backend/src/config/db.ts:37 | inserting rows whose names fit keeps every product name within 100 characters |
| Text.TrimStart | backend/src/validators/orderValidators.ts:9 | the result is a suffix of the input, what was dropped is whitespace, and the result does not start with whitespace |
| Text.TrimEnd | backend/src/validators/orderValidators.ts:9 | the result is a prefix of the input, what was dropped is whitespace, and the result does not end with whitespace |
| Text.TrimSpec | backend/src/validators/orderValidators.ts:9 | `Trim` (`trim()`) keeps a contiguous piece of the input with only whitespace around it and none at either end of the piece |
| Text.TrimIdempotent | backend/src/validators/orderValidators.ts:9 | trimming twice is trimming once |
| Text.ToLower | frontend/src/components/orders/OrderList.tsx:23 | same length; each character is lowered, ASCII letters only |
| Text.LowerIdempotent | frontend/src/components/orders/OrderList.tsx:23-26 | lowering twice is lowering once |
| Text.IncludesAt | frontend/src/components/orders/OrderList.tsx:25-26 | `Includes` (`includes`) holds iff the term occurs at some offset as a contiguous piece |
| Text.IncludesEmpty | frontend/src/components/orders/OrderList.tsx:25-26 | every string includes the empty string |
| Text.NatToString | frontend/src/components/orders/OrderList.tsx:104 | the decimal digits that denote the number, without a leading zero |
| Text.IntToString | frontend/src/components/orders/OrderList.tsx:25 | `id.toString()`: the decimal rendering of the number, with a minus sign before the digits of a negative one |
| Text.LowerOfDigits | frontend/src/components/orders/OrderList.tsx:25 | lowering a decimal rendering leaves it unchanged |
| ProductRepository.Ascending | backend/src/repositories/productRepository.ts:8 | `ORDER BY id`: every id of the set exactly once, strictly ascending |
| ProductRepository.FindAll | backend/src/repositories/productRepository.ts:6-11 | every product exactly once, ids strictly ascending, columns as stored |
| ProductRepository.DistinctCount | backend/src/repositories/productRepository.ts:13-20 | a list has at most as many distinct ids as entries, and exactly as many iff it has no duplicates |
| ProductRepository.CountBounds | backend/src/repositories/productRepository.ts:13-20 | `CountByIds` (`countByIds`) is the number of distinct listed ids that are products, at most the distinct ids, at most the length |
| ProductRepository.ExistsAllIff | backend/src/repositories/productRepository.ts:22-25 | `ExistsAll` (`existsAll`) holds iff every listed id is a product and no id is listed twice (so it holds for `[]`) |
| ProductRepository.DuplicateFails | backend/src/repositories/productRepository.ts:22-25 | a list with a repeated id never passes `existsAll` |
| OrderRepository.LinkedIdsAppend | backend/src/repositories/orderRepository.ts:21 | the products of an order over two runs of map rows are those of the first run, then those of the second |
| OrderRepository.LinkedIdsNone | backend/src/repositories/orderRepository.ts:21 | an order that no map row references has no products |
| OrderRepository.LinkedIdsFrom | backend/src/repositories/orderRepository.ts:21 | every product of an order comes from a map row of that order |
| OrderRepository.MappingRows | backend/src/repositories/orderRepository.ts:88-92 | one `(orderId, p)` row per listed id, in list order |
| OrderRepository.MappingRowsLinked | backend/src/repositories/orderRepository.ts:88-92 | the written rows link the order to exactly the listed ids in order, and no other order to anything |
| OrderRepository.WithoutOrder | backend/src/repositories/orderRepository.ts:96 | the rows left after deleting an order's map rows are never more than before |
| OrderRepository.WithoutOrderNone | backend/src/repositories/orderRepository.ts:96 | with no rows for the order, the delete changes nothing |
| OrderRepository.WithoutOrderRows | backend/src/repositories/orderRepository.ts:96 | a row remains iff it was there and belongs to another order |
| OrderRepository.WithoutOrderLinked | backend/src/repositories/orderRepository.ts:96 | the order is left with no products; every other order keeps exactly its products |
| OrderRepository.ProductsIn | backend/src/repositories/orderRepository.ts:10-22 | every entry of the aggregate is an existing product with its stored columns |
| OrderRepository.ProductsInIds | backend/src/repositories/orderRepository.ts:10-22 | when every linked product exists, the aggregate lists exactly the order's linked ids in map-row order |
| OrderRepository.FindById | backend/src/repositories/orderRepository.ts:35-45 | null iff no order has the id; otherwise the order's own id, description and creation time, with a non-null products column |
| OrderRepository.FindByIdProducts | backend/src/repositories/orderRepository.ts:35-45 | in a consistent state the row's products are exactly the order's linked products |
| OrderRepository.Exists | backend/src/repositories/orderRepository.ts:47-51 | `exists` holds iff `findById` finds the order |
| OrderRepository.NewestFirst | backend/src/repositories/orderRepository.ts:30 | every order id exactly once, each newer than the ones after it |
| OrderRepository.FindAll | backend/src/repositories/orderRepository.ts:26-33 | one row per order, each the order's aggregate row, with `created_at` never increasing |
| OrderRepository.FindAllComplete | backend/src/repositories/orderRepository.ts:26-45 | every order appears in `findAll` as the row `findById` returns |
| OrderRepository.InsertOrderSpec | backend/src/repositories/orderRepository.ts:53-62 | `InsertOrder` (`create`): exactly one new order under the fresh id with the given description; no other row changes |
| OrderRepository.SetDescriptionSpec | backend/src/repositories/orderRepository.ts:64-73 | `SetDescription` (`updateDescription`): only that order's description changes; its creation time and all other rows stay |
| OrderRepository.RemoveOrderSpec | backend/src/repositories/orderRepository.ts:75-78 | `RemoveOrder` (`delete`): only that order goes, with exactly its map rows; other orders keep their rows and products; the order is then not found |
| OrderRepository.AddMappingsSpec | backend/src/repositories/orderRepository.ts:81-93 | `AddMappings` (`addProductMappings`): the new rows are appended in list order; the order gains exactly those ids; others are unchanged; an empty list changes nothing |
| OrderRepository.RemoveMappingsSpec | backend/src/repositories/orderRepository.ts:95-97 | `RemoveMappings` (`deleteProductMappings`): all and only that order's map rows go |
| OrderRepository.RemoveMissingOrder | backend/src/repositories/orderRepository.ts:75-78 | deleting an order that does not exist changes nothing |
| OrderRepository.InsertOrderConsistent | backend/src/config/db.ts:28-46 | inserting an order with a description that fits keeps the schema constraints |
| OrderRepository.SetDescriptionConsistent | backend/src/config/db.ts:28-46 | updating a description with one that fits keeps the schema constraints |
| OrderRepository.RemoveOrderConsistent | backend/src/config/db.ts:43 | the cascade leaves no map row pointing at the deleted order |
| OrderRepository.RemoveMappingsConsistent | backend/src/config/db.ts:41-45 | deleting map rows keeps the schema constraints |
| OrderRepository.AddMappingsConsistent | backend/src/config/db.ts:41-45 | map rows for an existing order and existing products keep the foreign keys satisfied |
| OrderWrites.CreatedSpec | backend/src/controllers/orderController.ts:139-158 | the created order is the one new order, with its description, linked to exactly the listed ids in order; other orders keep their rows and products |
| OrderWrites.CreatedConsistent | backend/src/controllers/orderController.ts:139-158 | the create transaction keeps the schema constraints |
| OrderWrites.CreatedFound | backend/src/controllers/orderController.ts:161-192 | fetching the created order returns its description and exactly the listed product ids |
| OrderWrites.UpdatedSpec | backend/src/controllers/orderController.ts:244-269 | a field not given keeps its value; a given list becomes the order's whole product list (`[]` clears it); no other order changes |
| OrderWrites.UpdatedConsistent | backend/src/controllers/orderController.ts:244-269 | the update transaction keeps the schema constraints |
| OrderWrites.UpdatedFound | backend/src/controllers/orderController.ts:274-305 | fetching the updated order returns the new or old description and the new or old product list |
| Database.Database.constructor | backend/src/config/db.ts:28-46 | the tables exist and are empty; the sequence starts at 1 |
| Database.Database.Connect | backend/src/controllers/orderController.ts:119 | one more client is checked out |
| Database.Database.Release | backend/src/controllers/orderController.ts:203 | one client fewer is checked out |
| Database.Database.Begin | backend/src/controllers/orderController.ts:136 | the tables as they are become the image a ROLLBACK restores; a BEGIN inside a transaction keeps the first image; a lost connection changes nothing |
| Database.Database.Commit | backend/src/controllers/orderController.ts:158 | the writes stay; a failed COMMIT leaves the pre-BEGIN tables |
| Database.Database.Rollback | backend/src/controllers/orderController.ts:200 | the tables return to their image at BEGIN; outside a transaction nothing changes |
| Database.Database.CountByIds | backend/src/controllers/orderController.ts:126-129 | the count of `countByIds`, or a lost connection |
| Database.Database.OrderExists | backend/src/controllers/orderController.ts:220-223 | true iff the order exists, or a lost connection |
| Database.Database.FindById | backend/src/repositories/orderRepository.ts:35-45 | the order's aggregate row, null iff it is missing, or a lost connection |
| Database.Database.FindAllOrders | backend/src/repositories/orderRepository.ts:26-33 | one aggregate row per order, newest first, or a lost connection |
| Database.Database.FindAllProducts | backend/src/repositories/productRepository.ts:6-11 | every product in id order, or a lost connection |
| Database.Database.CountAllProducts | backend/src/config/db.ts:57 | the number of products, 0 iff the table is empty |
| Database.Database.CreateIfMissing | backend/src/config/db.ts:28-54 | succeeds unless the round trip fails |
| Database.Database.InsertOrder | backend/src/repositories/orderRepository.ts:53-62 | the sequence advances once the statement runs; a missing description violates NOT NULL, a long one VARCHAR(100); otherwise one new order under the drawn id |
| Database.Database.UpdateDescription | backend/src/repositories/orderRepository.ts:64-73 | the order's description is replaced by what the column accepts; a missing order changes nothing and is no error; a failure is a lost connection or the VARCHAR error |
| Database.Database.Delete | backend/src/repositories/orderRepository.ts:75-78 | the row count is 1 or 0 as the order existed; the order and its map rows are gone |
| Database.Database.AddProductMappings | backend/src/repositories/orderRepository.ts:81-93 | nothing is sent for `[]`; otherwise the rows are appended, or the whole INSERT is refused on a missing reference |
| Database.Database.DeleteProductMappings | backend/src/repositories/orderRepository.ts:95-97 | the order's map rows are removed |
| Database.Database.InsertSeedProducts | backend/src/config/db.ts:60-67 | the products become the seeded table over the old one |
| Database.SeedIfEmpty | backend/src/config/db.ts:57-69 | the seed runs only on an empty table and then yields products 1 to 4; a non-empty table is unchanged |
| Database.InitializeDatabase | backend/src/config/db.ts:21-78 | succeeds iff no statement fails; seeds only an empty table; leaves orders, map rows and a non-empty products table unchanged; releases the client |
| OrderTransactions.InvalidProducts | backend/src/controllers/orderController.ts:131-133 | a 400 BadRequestError: `One or more product IDs are invalid` |
| OrderTransactions.OrderNotFound | backend/src/controllers/orderController.ts:92-94 | a 404 NotFoundError naming the id |
| OrderTransactions.AcceptedIdsExist | backend/src/controllers/orderController.ts:125-134 | a list the count check lets through names only existing products |
| OrderTransactions.CreateTransaction | backend/src/controllers/orderController.ts:136-158 | success commits exactly the new order and its map rows under the next id; on failure a ROLLBACK restores the tables; with no fault and a storable description it succeeds; a missing description is the NOT NULL error, a long one the VARCHAR error, and any other failure a lost connection |
| OrderTransactions.CreateSteps | backend/src/controllers/orderController.ts:124-158 | a refused list is BadRequestError before BEGIN with nothing changed; otherwise as the transaction; an error is the 400, a lost connection, a NOT NULL or a VARCHAR violation, and the last two arise exactly when the description is missing or too long |
| OrderTransactions.UpdateTransaction | backend/src/controllers/orderController.ts:241-271 | success commits exactly the given fields; on failure a ROLLBACK restores the tables; a description too long for the column is the VARCHAR error, any other failure a lost connection |
| OrderTransactions.UpdateSteps | backend/src/controllers/orderController.ts:219-271 | a missing order is NotFoundError and a refused list BadRequestError, both before BEGIN with nothing changed; otherwise as the transaction, with the same errors |
| OrderService.MapRowToOrder | backend/src/services/orderService.ts:25-30 | copies id, description and creation time; null products become `[]` |
| OrderService.MappedOrder | backend/src/services/orderService.ts:42-56 | in a consistent state the mapped order carries its own fields and exactly its linked products |
| OrderService.CreatedOrder | backend/src/services/orderService.ts:78-96 | the order a committed create returns: new id, stored description, exactly the listed products |
| OrderService.UpdatedOrder | backend/src/services/orderService.ts:127-152 | the order a committed update returns: given fields replaced, others kept |
| OrderService.GetAllOrders | backend/src/services/orderService.ts:33-40 | exactly the mapped rows of `findAll`: every order, newest first; or the connection error |
| OrderService.GetOrderById | backend/src/services/orderService.ts:42-57 | the mapped order iff it exists; NotFoundError iff it is missing |
| OrderService.CreateOrder | backend/src/services/orderService.ts:59-103 | a refused list changes nothing; success commits and returns the new order with exactly the listed products; an error leaves the tables as before, except a failed fetch after COMMIT; the error rethrown is the 400, a lost connection, or the NOT NULL or VARCHAR error exactly when the description is missing or too long; the client is released |
| OrderService.UpdateOrder | backend/src/services/orderService.ts:105-159 | a missing order or a refused list changes nothing; success commits and returns the given fields, the others kept; the error rethrown is the 404, the 400, a lost connection, or the VARCHAR error exactly when the description is too long; the client is released |
| OrderService.DeleteOrder | backend/src/services/orderService.ts:161-167 | NotFoundError iff no row was removed; otherwise the order and its map rows are gone |
| OrderController.GetAllOrders | backend/src/controllers/orderController.ts:14-56 | 200 with every order and its products, newest first, or the connection error forwarded |
| OrderController.GetOrderById | backend/src/controllers/orderController.ts:59-111 | 200 with the order iff it exists; NotFoundError iff it is missing |
| OrderController.Reply | backend/src/controllers/orderController.ts:161-198 | the fetch after COMMIT answers with the order under the given status and message; a failed fetch is forwarded and its ROLLBACK changes nothing |
| OrderController.CreateOrder | backend/src/controllers/orderController.ts:114-205 | 201 `Order created successfully` with the new order and exactly the listed products; a refused list changes nothing; an error leaves the tables as before, except a failed fetch after COMMIT; the error forwarded is the 400, a lost connection, or the NOT NULL or VARCHAR error exactly when the description is missing or too long; the client is released; with no fault it answers 201 iff the list passes and the description is stored |
| OrderController.UpdateOrder | backend/src/controllers/orderController.ts:208-318 | 200 `Order updated successfully`: given fields replaced, others kept; a missing order or a refused list changes nothing; the error forwarded is the 404, the 400, a lost connection, or the VARCHAR error exactly when the description is too long; the client is released; with no fault it answers 200 iff the order exists, the list passes and the description fits |
| OrderController.DeleteOrder | backend/src/controllers/orderController.ts:321-346 | 200 with `data: null` iff the order existed, which is then gone with its map rows; otherwise NotFoundError and nothing changes |
| OrderController.GetAllProducts | backend/src/controllers/orderController.ts:349-366 | 200 with every product in id order, or the connection error forwarded |
| Walkthrough.CreateUpdateDelete | backend/src/controllers/orderController.ts:114-346 | on a freshly seeded database: create with products 1 and 3 answers 201 with exactly them; update to product 2 answers 200 with exactly it and the description kept; delete answers 200; the fetch is then NotFoundError |
| ValidateRequest.Entry | backend/src/middleware/validateRequest.ts:13-16 | the field is the error's path, or `unknown`; the message is the error's |
| ValidateRequest.Entries | backend/src/middleware/validateRequest.ts:13-16 | one entry per error, in order |
| ValidateRequest.ValidateRequest | backend/src/middleware/validateRequest.ts:5-27 | `next()` iff there are no errors; otherwise 400 `Validation failed` with the entries, and the controller is not reached |
| OrderValidators.OrderIdErrors | backend/src/validators/orderValidators.ts:3-5 | no error iff the id is an integer of at least 1; otherwise the one id error |
| OrderValidators.DescriptionErrors | backend/src/validators/orderValidators.ts:8-13 | no error iff the trimmed description has 1 to 100 characters; at most one error, naming which rule failed |
| OrderValidators.ElementErrors | backend/src/validators/orderValidators.ts:17-19 | no error iff every element is a positive integer; each error carries the positive-ids message |
| OrderValidators.ProductIdsErrorsIff | backend/src/validators/orderValidators.ts:14-19 | no error iff the field is a non-empty array of positive integers |
| OrderValidators.CreateErrorsIff | backend/src/validators/orderValidators.ts:7-20 | a create body passes iff its trimmed description has 1 to 100 characters and its ids are a non-empty array of positive integers |
| OrderValidators.UpdateErrorsIff | backend/src/validators/orderValidators.ts:22-39 | an update passes iff the id is a positive integer and each present field meets the create rule |
| OrderValidators.UpdateRejectsEmptyList | backend/src/validators/orderValidators.ts:31-34 | `productIds: []` is refused on update, so the clearing branch is not reachable over HTTP |
| OrderValidators.Ints | backend/src/validators/orderValidators.ts:17-19 | the validated ids as integers, each at least 1 |
| OrderValidators.CreateDto | backend/src/validators/orderValidators.ts:7-20 | the controller reads the trimmed description and a non-empty list of positive ids |
| OrderValidators.UpdateDto | backend/src/validators/orderValidators.ts:22-39 | for a body that meets the update rules: the trimmed description if present; the list is present iff it was sent, and then a non-empty list of positive ids |
| OrderValidators.ValidatedDescriptionFits | backend/src/validators/orderValidators.ts:8-13 | a validated description fits VARCHAR(100) unchanged and is not empty |
| ErrorHandler.HandleError | backend/src/middleware/errorHandler.ts:4-57 | an ApiError answers with its own status and message; otherwise 500 iff the code is not one of the three known ones, with the message hidden in production; never success, never data |
| ErrorHandler.KnownCodes | backend/src/middleware/errorHandler.ts:22-47 | 23505 is 409, 23503 is 400 `Referenced resource does not exist`, 22P02 is 400 `Invalid input format`, whatever the message |
| ErrorHandler.ProductionHidesMessages | backend/src/middleware/errorHandler.ts:50-56 | in production an error that is not an ApiError shows one of four fixed messages |
| ErrorHandler.ModelFailures | backend/src/middleware/errorHandler.ts:13-56 | the error classes keep their status; a foreign-key violation is 400; NOT NULL, VARCHAR and connection errors are 500 |
| ErrorHandler.NotFoundHandler | backend/src/middleware/errorHandler.ts:60-69 | 404 `Route {method} {url} not found` |
| OrderList.FilterOrders | frontend/src/components/orders/OrderList.tsx:22-28 | an order is kept iff it is in the input and `Matches` the term: its id text or lowered description includes the lowered term |
| OrderList.FilterSubsequence | frontend/src/components/orders/OrderList.tsx:22 | the kept orders are a subsequence of the input: order is preserved |
| OrderList.EmptyTermKeepsAll | frontend/src/components/orders/OrderList.tsx:25-26 | an empty search keeps every order |
| OrderList.FilterIgnoresCase | frontend/src/components/orders/OrderList.tsx:23-26 | terms that lower to the same text select the same orders |
| OrderList.Display | frontend/src/components/orders/OrderList.tsx:30-54 | spinner iff loading; `No orders found` iff loaded and empty; `No matching orders found` iff loaded, non-empty and nothing matches; otherwise the table of the kept orders |
| OrderList.EmptySearchShowsAll | frontend/src/components/orders/OrderList.tsx:22-56 | without a search term a loaded non-empty list shows every order in order |
| OrderList.ProductLabel | frontend/src/components/orders/OrderList.tsx:104 | `product` iff the count is 1, `products` otherwise |
| OrderList.BadgeExamples | frontend/src/components/orders/OrderList.test.tsx:61-69 | `Badge` (the count and its label) reads `1 product` and `3 products` |
| OrderList.LoweredOffice | frontend/src/components/orders/OrderList.test.tsx:7-13 | the first mock order lowers to `office supplies order` and its id renders as `1` |
| OrderList.LoweredElectronics | frontend/src/components/orders/OrderList.test.tsx:14-19 | the second mock order lowers to `electronics order` and its id renders as `2` |
| OrderList.FilterPair | frontend/src/components/orders/OrderList.tsx:22-28 | over two orders the filter keeps each one that matches, in order |
| OrderList.NoMatchWithout | frontend/src/components/orders/OrderList.tsx:23-26 | an order does not match a term holding a character missing from its id text and one missing from its lowered description |
| OrderList.SearchById | frontend/src/components/orders/OrderList.test.tsx:101-105 | searching `1` keeps the first mock order only |
| OrderList.SearchByDescription | frontend/src/components/orders/OrderList.test.tsx:107-111 | searching `electronics` keeps the second mock order only |
| OrderList.SearchWithoutResults | frontend/src/components/orders/OrderList.test.tsx:113-117 | searching `nonexistent` shows `No matching orders found` |
| OrderList.SearchIgnoresCase | frontend/src/components/orders/OrderList.test.tsx:119-122 | searching `OFFICE` keeps `Office Supplies Order` |
| OrderForm.Without | frontend/src/components/orders/OrderForm.tsx:56-60 | every occurrence of the id goes; every other id stays; the list shrinks iff the id was there |
| OrderForm.WithoutConcat | frontend/src/components/orders/OrderForm.tsx:56-60 | the other ids keep their order: removing from two runs is removing from each and joining |
| OrderForm.Toggle | frontend/src/components/orders/OrderForm.tsx:54-64 | the id's membership flips; other ids keep theirs; an absent id is appended at the end |
| OrderForm.WithoutAppended | frontend/src/components/orders/OrderForm.tsx:56-62 | removing an id just appended gives back the list |
| OrderForm.ToggleTwice | frontend/src/components/orders/OrderForm.tsx:54-64 | toggling an absent id twice gives back the selection |
| OrderForm.WithoutDistinct | frontend/src/components/orders/OrderForm.tsx:56-60 | removing an id keeps a duplicate-free list duplicate-free |
| OrderForm.ToggleDistinct | frontend/src/components/orders/OrderForm.tsx:54-64 | toggling keeps a duplicate-free selection duplicate-free |
| OrderForm.InitialValues | frontend/src/components/orders/OrderForm.tsx:34-52 | empty description and selection, or in edit mode the order's description and product ids in order |
| OrderForm.EditStartsFromOrder | frontend/src/components/orders/OrderForm.tsx:44-52 | editing a fetched order starts from its stored description and its linked products |
| OrderForm.FormErrors | frontend/src/components/orders/OrderForm.tsx:89-162 | no message iff the description has 1 to 100 characters and a product is selected; each message appears iff its rule fails |
| OrderForm.FormAcceptedByServer | frontend/src/components/orders/OrderForm.tsx:89-95 | the body `SubmittedBody` sends for a form without errors, with no blanks at either end of the description and positive ids, passes the server's create validation |
| OrderForm.BlankDescription | frontend/src/components/orders/OrderForm.tsx:89-95 | a description of one blank passes the form but not the server, which trims first |

## Left out

- Network and pool: the `pg` pool, SSL, the `pool.on` handlers and logging are not modelled. A failed round trip is a parameter. `pool.connect()` and the catch block's `ROLLBACK` are taken never to fail.
- Concurrency: the model is single-threaded. It has no other request between the checks and BEGIN, no isolation levels, and no race between the two clients of a handler.
- The service's fetch after COMMIT is returned without being awaited. The model runs it before `client.release()`, and no ROLLBACK follows a failed fetch. Which of the two finishes first is not observable in the model.
- Timestamps: `created_at` is a counter that grows with every inserted order, not a time, and date formatting in the list is not modelled. PostgreSQL leaves ties in `ORDER BY created_at DESC` unordered; the model breaks them by the larger id.
- Order of aggregate products: `json_agg` has no `ORDER BY`. The model lists the products in map-row order.
- Path ids are integers in the model. The NotFound message renders the integer, whereas the code interpolates the raw path string (for example `007`).
- JSON values: an absent field is `None`. `null`, wrong JSON types and express-validator's string-to-integer coercion are not modelled. The validators see values whose JSON type is already known.
- Text: `trim()` removes space, tab, line feed and carriage return only, and lowering covers the ASCII letters only. No other Unicode whitespace, case folding or normalisation is modelled. Lengths count `char`s. react-hook-form's `maxLength` counts UTF-16 code units and validator.js's `isLength` counts code points, so the two can differ from each other and from the model once a description holds characters outside the Basic Multilingual Plane.
- `OrderList.ProductLabel`: takes the count as a number. `OrderList.tsx:104` reads `order.product_count`, which the frontend `Order` type (`frontend/src/types/index.ts:9-14`) does not have.
- The list's orders use the backend `OrderWithProducts` record, with `created_at` as the counter. `OrderForm.tsx` imports an `OrderWithProducts` type that the frontend types file does not define.
- React plumbing: `register`, `setValue`, `watch`, `useEffect` and rendering are not modelled. Only the values they compute are.
- Routing and app setup (`app.ts`, `orderRoutes.ts`) and `productService.ts` are not part of this model.
- The indexes in `db.ts` have no effect on results: they appear only as a round trip that can fail.
- `Database.Database.Commit`: a COMMIT whose round trip fails is taken to abort the transaction. If the server ran the COMMIT and only its reply was lost, the order would stay committed, the catch block's ROLLBACK would find no transaction, and the client would still get an error. So the clause "an error leaves the tables as before, except a failed fetch" of `OrderController.CreateOrder`, `OrderController.UpdateOrder`, `OrderService.CreateOrder` and `OrderService.UpdateOrder` rests on this assumption.
- Integer width: every id column is `INT`/`SERIAL`, a 32-bit integer, but `isInt({ min: 1 })` sets no upper bound. In PostgreSQL an id above 2147483647 used in a query fails with SQLSTATE 22003 (`out of range for type integer`), and the error handler answers 500. The model's ids are unbounded integers, so such an id is simply one that no row has. The members below rest on ids being within that range.
- `Database.Database.CountByIds`: an id above 2147483647 counts as no product here; the source's `ANY($1)` fails with 22003.
- `Database.Database.OrderExists`: an id above 2147483647 gives false here; the source fails with 22003.
- `Database.Database.FindById`: an id above 2147483647 gives null here; the source fails with 22003.
- `Database.Database.Delete`: an id above 2147483647 gives row count 0 here; the source fails with 22003.
- `OrderTransactions.CreateSteps`: a product id above 2147483647 is refused with 400 here; the source answers 500.
- `OrderTransactions.UpdateSteps`: a path id above 2147483647 is NotFoundError here, and a product id above it a 400; the source answers 500 for both.
- `OrderService.GetOrderById`: an id above 2147483647 is NotFoundError here; the source answers 500.
- `OrderService.CreateOrder`: a product id above 2147483647 is refused with 400 here; the source answers 500.
- `OrderService.UpdateOrder`: a path id above 2147483647 is NotFoundError here, and a product id above it a 400; the source answers 500 for both.
- `OrderService.DeleteOrder`: an id above 2147483647 is NotFoundError here; the source answers 500.
- `OrderController.GetOrderById`: `GET /api/orders/3000000000` is NotFoundError here; the source answers 500.
- `OrderController.CreateOrder`: `productIds: [3000000000]` is refused with 400 here; the source answers 500.
- `OrderController.UpdateOrder`: a path id above 2147483647 is NotFoundError here, and a product id above it a 400; the source answers 500 for both.
- `OrderController.DeleteOrder`: a path id above 2147483647 is NotFoundError here; the source answers 500.
- The `orders.id` sequence has no upper limit in the model; a SERIAL column's sequence stops at 2147483647.
- `OrderService.CreateOrder`, `OrderService.UpdateOrder`: which faulty step produced a lost connection is not told apart; every such step gives the same error.
