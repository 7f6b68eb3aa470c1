# Order service: placement orchestrator and detail aggregator

A Dafny model of the order microservice's service layer (`OrderServiceImpl`).

**Placing an order** (`placeOrder`) runs these steps in order:

1. Ask the product service to reduce stock for the request's product and quantity. If that throws, the exception propagates and nothing is saved.
2. Build an order with status CREATED from the request and the current time, and save it. The repository assigns its id.
3. Build a payment request from the saved order's id and the request's payment mode and total amount.
4. Call the payment service. A normal return gives PLACED; any exception gives PAYMENT_FAILED.
5. Set that status on the same record and save it again.
6. Return the id, whatever the payment did. Stock is never restored: the only call to the product service is the reduction in step 1.

**Reading an order** (`getOrderDetails`) works like this:

1. Look the order up. An unknown id throws `CustomException(…, "NOT_FOUND", 404)` before any product fetch.
2. Fetch the product record for the order's product id.
3. Return a view of the order. Product name, id and price come from the fetched record. Quantity comes from the stored order.

Files and modules:

- `wrappers.dfy` (`Wrappers`): `Option` and `Result`.
- `orders.dfy` (`Orders`): the records: request, order entity, payment request, product record, order view, exceptions and collaborator outcomes. It also holds the status texts and the decimal rendering of an id used in the NOT_FOUND message, with the reading that gives the id back.
- `repository.dfy` (`Repository`): the order repository. `Store` is its contents as a value: a map from id to order plus the next fresh id. `OrderRepository` is the object whose map `save` updates in place. Its ghost `saves` log records every entity as saved, with its id.
- `order_service.dfy` (`OrderService`): the steps of `placeOrder` as functions, and `PlaceOrderSpec`, the whole placement on a store value. Also the method `OrderServiceImpl.PlaceOrder`, proved equal to `PlaceOrderSpec`, and `GetOrderDetails` as a function of the repository's contents that looks the order up with `Store.FindById`.
- `properties.dfy` (`OrderServiceProperties`): properties that relate several calls: read-back after placement, independence of the lookup from the product service, and runs of many placements.

The collaborators are parameters of each call:

- `reduceQuantity: (int, int) -> Outcome` gives how the product service answers the reduction it is sent.
- `doPayment: PaymentRequest -> Outcome` gives how the payment service answers the request it is sent.
- `fetchProduct: int -> Result<ProductDetails, Exception>` gives what the product service returns for a product id.

So contracts can say which arguments each collaborator receives. When these calls succeed is not decided here. The clock is the parameter `now`.

The status change is not a separate update operation: the second save writes the whole entity again, with only its status changed, and the model does the same.

## Model

| member | source | states |
|---|---|---|
| Repository.Store.FindById | src/main/java/com/hacatac/orderservice/service/impl/OrderServiceImpl.java:86-89 | the lookup finds a record exactly when the id is stored, and returns that record |
| Repository.Store.Save | src/main/java/com/hacatac/orderservice/service/impl/OrderServiceImpl.java:55 | an entity without an id is stored under a fresh id (not in use before) that it then carries, and exactly one key is added; an entity with a stored id replaces that record only, with no new key; every other record is unchanged and the store invariant is kept |
| Repository.OrderRepository.Save | src/main/java/com/hacatac/orderservice/service/impl/OrderServiceImpl.java:76 | the repository's new contents and the returned entity are those of `Store.Save` on the old contents; the entity as saved, with its id, is appended to the log of saves |
| OrderService.NewOrder | src/main/java/com/hacatac/orderservice/service/impl/OrderServiceImpl.java:47-53 | the order built before the first save has no id, status CREATED, the request's amount, product id and quantity, and the given time |
| OrderService.PaymentRequestFor | src/main/java/com/hacatac/orderservice/service/impl/OrderServiceImpl.java:59-63 | the payment request carries the saved order's id and the request's payment mode and total amount |
| OrderService.StatusAfterPayment | src/main/java/com/hacatac/orderservice/service/impl/OrderServiceImpl.java:65-73 | the status is PLACED if and only if payment returned normally, PAYMENT_FAILED if and only if it threw, and never CREATED |
| OrderService.PlaceOrderSpec | src/main/java/com/hacatac/orderservice/service/impl/OrderServiceImpl.java:35-81 | a failed stock reduction returns its exception and leaves the store unchanged. Otherwise: exactly one new order under a fresh id, which is returned whatever the payment did; the order holds the request's product, quantity and amount and the creation time; it is PLACED if and only if paying its own id, mode and amount returned normally, else PAYMENT_FAILED; all earlier orders are untouched; the store invariant is kept |
| OrderService.OrderServiceImpl.PlaceOrder | src/main/java/com/hacatac/orderservice/service/impl/OrderServiceImpl.java:35-81 | the method leaves the repository and returns what `PlaceOrderSpec` gives for the old contents. It makes no save when stock reduction throws. Otherwise it makes exactly two saves of the same record: first with status CREATED, then with only the status changed, to a status CREATED may move to |
| OrderService.NotFound | src/main/java/com/hacatac/orderservice/service/impl/OrderServiceImpl.java:88-89 | the exception for an unknown id is a CustomException with code NOT_FOUND and status 404 |
| OrderService.GetOrderDetails | src/main/java/com/hacatac/orderservice/service/impl/OrderServiceImpl.java:84-116 | the order is looked up with `Store.FindById`; an unknown id fails with NOT_FOUND/404; a fetch exception propagates; otherwise the view's order id, status text, amount and date are the stored order's, product name, id and price are the fetched record's, and the product quantity is the stored order's |
| Orders.OrderStatus.Name | src/main/java/com/hacatac/orderservice/service/impl/OrderServiceImpl.java:49-73 | the status texts CREATED, PLACED and PAYMENT_FAILED stored on the entity and returned in the view (line 109), each text exactly for its own status |
| Orders.DecimalString | src/main/java/com/hacatac/orderservice/service/impl/OrderServiceImpl.java:88 | the id in the NOT_FOUND message is written in decimal, with a leading minus sign exactly for negative ids, and reading the text back as a decimal number gives the id |
| Orders.DecimalStringInjective | src/main/java/com/hacatac/orderservice/service/impl/OrderServiceImpl.java:88 | two different ids never give the same text, so the NOT_FOUND message names the id that was asked for |
| OrderServiceProperties.PlacedOrderReadsBack | src/main/java/com/hacatac/orderservice/service/impl/OrderServiceImpl.java:98-113 | right after a placement that got past stock reduction, reading the returned id gives a view with that id, PLACED or PAYMENT_FAILED according to the payment, the request's amount, the creation time and the request's quantity |
| OrderServiceProperties.UnknownOrderFetchesNothing | src/main/java/com/hacatac/orderservice/service/impl/OrderServiceImpl.java:86-96 | for an unknown id the result is the same failure whatever the product service would answer, so no product fetch takes part |
| OrderServiceProperties.ViewIgnoresFetchedQuantity | src/main/java/com/hacatac/orderservice/service/impl/OrderServiceImpl.java:98-104 | two product answers that differ only in quantity give the same view |
| OrderServiceProperties.Run | src/main/java/com/hacatac/orderservice/service/impl/OrderServiceImpl.java:35-81 | placements repeated one after the other, as successive requests arrive, keep the store invariant (ids match keys, all below the next fresh id) |
| OrderServiceProperties.StoredOrdersNeverChange | src/main/java/com/hacatac/orderservice/service/impl/OrderServiceImpl.java:47-76 | an order stored before a run of placements is still stored afterwards, with the same data and status |
| OrderServiceProperties.OneOrderPerStockReduction | src/main/java/com/hacatac/orderservice/service/impl/OrderServiceImpl.java:43-55 | a run of placements adds exactly as many orders as there were calls whose stock reduction completed |
| OrderServiceProperties.NoOrderLeftCreated | src/main/java/com/hacatac/orderservice/service/impl/OrderServiceImpl.java:65-76 | once all calls have returned, every stored order is PLACED or PAYMENT_FAILED, if that held before the run |
| OrderServiceProperties.PlacementScenario | src/main/java/com/hacatac/orderservice/service/impl/OrderServiceImpl.java:35-81 | product 10, amount 500, quantity 2, card: with payment going through the order reads back PLACED, amount 500, quantity 2; with payment throwing the call still returns the id and the order reads back PAYMENT_FAILED |
| OrderServiceProperties.UnknownIdScenario | src/main/java/com/hacatac/orderservice/service/impl/OrderServiceImpl.java:86-89 | reading id 999 from an empty repository, whatever its first id, fails with NOT_FOUND and status 404 |

## Left out

- Spring wiring, dependency injection and the HTTP controller. The controller only forwards to the service and wraps results in HTTP 200. The `OrderService` interface only declares the two signatures.
- The product and payment clients and the REST template: their internals, URLs and the rules for when they succeed. They are the function parameters described above.
- Logging.
- The clock. `Instant.now()` is the parameter `now`, which is only copied.
- A null product record from the REST template. The model assumes a record or an exception is returned.
- Exceptions thrown by the repository itself, such as database errors.
- A crash between the two saves, concurrency, and the missing transaction around the saves.
- JPA's id generation strategy and the `Order` entity class, which is not part of this model. Ids come from a counter; any fresh id would do.
- Repository.Store.Save: saving an entity whose id is not stored is excluded by a precondition, because JPA's merge behaviour for that case lies outside the modelled files. The service never does it.
- Repository.OrderRepository.Save: entities are values. The aliasing between the entity returned by the first save and the stored record is not modelled.
- Java `long` widths: ids, amounts and quantities are unbounded integers. The service does no arithmetic on them.
- The `PaymentMode` enumeration, which is not part of this model. A mode is identified by its constant's name.
