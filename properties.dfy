/** Properties of the order service that relate several calls: reading an
    order back after placing it, what the detail lookup does not depend on,
    and what any run of placements does to the orders stored before it. */
module OrderServiceProperties {
  import opened Wrappers
  import opened Orders
  import opened Repository
  import opened OrderService

  /** Reading an order back right after placing it shows the request's
      amount, the creation date, the request's quantity, and PLACED or
      PAYMENT_FAILED according to how the payment of that order ended. */
  lemma PlacedOrderReadsBack(
    s: Store,
    request: OrderRequest,
    now: Instant,
    reduceQuantity: (int, int) -> Outcome,
    doPayment: PaymentRequest -> Outcome,
    fetchProduct: int -> Result<ProductDetails, Exception>)
    requires s.Valid()
    requires reduceQuantity(request.productId, request.quantity).Completed?
    requires fetchProduct(request.productId).Success?
    ensures
      var p := PlaceOrderSpec(s, request, now, reduceQuantity, doPayment);
      var paid := doPayment(PaymentRequest(s.nextId, request.paymentMode, request.totalAmount));
      var fetched := fetchProduct(request.productId).value;
      && p.result == Success(s.nextId)
      && p.store.IdsMatchKeys()
      && GetOrderDetails(p.store, s.nextId, fetchProduct)
         == Success(OrderResponse(
              s.nextId,
              if paid.Completed? then "PLACED" else "PAYMENT_FAILED",
              request.totalAmount,
              now,
              ProductDetails(fetched.productId, fetched.productName, fetched.price, request.quantity)))
  {
  }

  /** An unknown id fails the same way whatever the product service would
      answer: the product is never asked for. */
  lemma UnknownOrderFetchesNothing(
    store: Store,
    orderId: int,
    fetch1: int -> Result<ProductDetails, Exception>,
    fetch2: int -> Result<ProductDetails, Exception>)
    requires store.IdsMatchKeys()
    requires orderId !in store.orders
    ensures GetOrderDetails(store, orderId, fetch1) == GetOrderDetails(store, orderId, fetch2)
    ensures GetOrderDetails(store, orderId, fetch1).Failure?
  {
  }

  /** The view does not depend on the quantity the product service reports:
      two answers that differ only there give the same view. */
  lemma ViewIgnoresFetchedQuantity(
    store: Store,
    orderId: int,
    fetch1: int -> Result<ProductDetails, Exception>,
    fetch2: int -> Result<ProductDetails, Exception>)
    requires store.IdsMatchKeys()
    requires orderId in store.orders
    requires fetch1(store.orders[orderId].productId).Success?
    requires fetch2(store.orders[orderId].productId).Success?
    requires fetch2(store.orders[orderId].productId).value
          == fetch1(store.orders[orderId].productId).value.(quantity := fetch2(store.orders[orderId].productId).value.quantity)
    ensures GetOrderDetails(store, orderId, fetch1) == GetOrderDetails(store, orderId, fetch2)
  {
  }

  /** One call of `placeOrder`, with the collaborators' answers for it. */
  datatype PlaceOrderCall = PlaceOrderCall(
    request: OrderRequest,
    now: Instant,
    reduceQuantity: (int, int) -> Outcome,
    doPayment: PaymentRequest -> Outcome)

  /** Whether a call got past stock reduction (and so stored an order). */
  predicate StockReduced(c: PlaceOrderCall)
  {
    c.reduceQuantity(c.request.productId, c.request.quantity).Completed?
  }

  /** The repository after a run of placements, one after the other. */
  function Run(s: Store, calls: seq<PlaceOrderCall>): (r: Store)
    requires s.Valid()
    ensures r.Valid()
    decreases |calls|
  {
    if calls == [] then s
    else
      var c := calls[0];
      Run(PlaceOrderSpec(s, c.request, c.now, c.reduceQuantity, c.doPayment).store, calls[1..])
  }

  /** How many calls of a run got past stock reduction. */
  function CountStockReduced(calls: seq<PlaceOrderCall>): (n: nat)
    ensures n <= |calls|
  {
    if calls == [] then 0
    else (if StockReduced(calls[0]) then 1 else 0) + CountStockReduced(calls[1..])
  }

  /** An order, once stored, is never changed or removed by later
      placements: its data and its status stay as they are. */
  lemma {:induction false} StoredOrdersNeverChange(s: Store, calls: seq<PlaceOrderCall>)
    requires s.Valid()
    ensures forall k :: k in s.orders ==> k in Run(s, calls).orders && Run(s, calls).orders[k] == s.orders[k]
    decreases |calls|
  {
    if calls != [] {
      var c := calls[0];
      var s1 := PlaceOrderSpec(s, c.request, c.now, c.reduceQuantity, c.doPayment).store;
      StoredOrdersNeverChange(s1, calls[1..]);
    }
  }

  /** Each placement that gets past stock reduction adds exactly one order;
      the others add none. */
  lemma {:induction false} OneOrderPerStockReduction(s: Store, calls: seq<PlaceOrderCall>)
    requires s.Valid()
    ensures |Run(s, calls).orders| == |s.orders| + CountStockReduced(calls)
    decreases |calls|
  {
    if calls != [] {
      var c := calls[0];
      var s1 := PlaceOrderSpec(s, c.request, c.now, c.reduceQuantity, c.doPayment).store;
      OneOrderPerStockReduction(s1, calls[1..]);
    }
  }

  /** Once every call has returned, no order is left in CREATED: each one
      holds PLACED or PAYMENT_FAILED. */
  lemma {:induction false} NoOrderLeftCreated(s: Store, calls: seq<PlaceOrderCall>)
    requires s.Valid()
    requires forall k :: k in s.orders ==> s.orders[k].status != Created
    ensures forall k :: k in Run(s, calls).orders ==> Run(s, calls).orders[k].status != Created
    decreases |calls|
  {
    if calls != [] {
      var c := calls[0];
      var s1 := PlaceOrderSpec(s, c.request, c.now, c.reduceQuantity, c.doPayment).store;
      NoOrderLeftCreated(s1, calls[1..]);
    }
  }

  /** The placement scenario: product 10, amount 500, quantity 2, paid by
      card, stock reduced. With the payment going through the order reads
      back PLACED; with the payment throwing the call still returns the id
      and the order reads back PAYMENT_FAILED. */
  lemma PlacementScenario(s: Store, now: Instant, product: ProductDetails, declined: Exception)
    requires s.Valid()
    ensures
      var request := OrderRequest(10, 500, 2, PaymentMode("CARD"));
      var reduce := (productId: int, quantity: int) => Completed;
      var fetch := (productId: int) => Success(product);
      var paid := PlaceOrderSpec(s, request, now, reduce, (pr: PaymentRequest) => Completed);
      var failed := PlaceOrderSpec(s, request, now, reduce, (pr: PaymentRequest) => Threw(declined));
      && paid.result == Success(s.nextId)
      && failed.result == Success(s.nextId)
      && GetOrderDetails(paid.store, s.nextId, fetch).Success?
      && GetOrderDetails(paid.store, s.nextId, fetch).value.orderStatus == "PLACED"
      && GetOrderDetails(paid.store, s.nextId, fetch).value.amount == 500
      && GetOrderDetails(paid.store, s.nextId, fetch).value.productDetails.quantity == 2
      && GetOrderDetails(failed.store, s.nextId, fetch).Success?
      && GetOrderDetails(failed.store, s.nextId, fetch).value.orderStatus == "PAYMENT_FAILED"
  {
  }

  /** The lookup scenario: id 999 in an empty repository fails with NOT_FOUND and HTTP status 404. */
  lemma UnknownIdScenario(firstId: int, fetch: int -> Result<ProductDetails, Exception>)
    ensures
      var r := GetOrderDetails(Store(map[], firstId), 999, fetch);
      && r.Failure?
      && r.error.CustomException?
      && r.error.errorCode == "NOT_FOUND"
      && r.error.status == 404
  {
  }
}
