/** The order service: placing an order (reduce stock, save the order as
    CREATED, pay, save the final status) and reading an order back joined
    with its product's current record.

    The collaborators are parameters of each call: `reduceQuantity` and
    `doPayment` give how the product and payment services answer the
    request they are sent, `fetchProduct` what the product service returns
    for a product id. When they succeed is decided outside this service. */
module OrderService {
  import opened Wrappers
  import opened Orders
  import opened Repository

  /** The order built from a request before it is saved: no id yet, status
      CREATED, amount, product and quantity from the request, date `now`. */
  function NewOrder(request: OrderRequest, now: Instant): (o: Order)
    ensures o.id.None? && o.status == Created && o.orderDate == now
    ensures o.amount == request.totalAmount
    ensures o.productId == request.productId && o.quantity == request.quantity
  {
    Order(None, request.productId, request.quantity, request.totalAmount, now, Created)
  }

  /** The payment request for a saved order: its id, the request's payment
      mode and total amount. */
  function PaymentRequestFor(order: Order, request: OrderRequest): (p: PaymentRequest)
    requires order.id.Some?
    ensures p.orderId == order.id.value
    ensures p.paymentMode == request.paymentMode && p.amount == request.totalAmount
  {
    PaymentRequest(order.id.value, request.paymentMode, request.totalAmount)
  }

  /** Any way the payment call can end, collapsed into a final status:
      PLACED exactly when it returned normally, PAYMENT_FAILED for every
      exception, whatever it was. */
  function StatusAfterPayment(payment: Outcome): (s: OrderStatus)
    ensures s == Placed <==> payment.Completed?
    ensures s == PaymentFailed <==> payment.Threw?
    ensures Created.CanMoveTo(s)
  {
    match payment
    case Completed => Placed
    case Threw(_) => PaymentFailed
  }

  /** The effect of one placement: the repository's new contents and what
      the call returns or throws. */
  datatype Placement = Placement(store: Store, result: Result<int, Exception>)

  /** `placeOrder` on a repository holding `s`, as a value. */
  function PlaceOrderSpec(
    s: Store,
    request: OrderRequest,
    now: Instant,
    reduceQuantity: (int, int) -> Outcome,
    doPayment: PaymentRequest -> Outcome): (p: Placement)
    requires s.Valid()
    ensures p.store.Valid()
    // A failed stock reduction propagates its exception; nothing is stored.
    ensures reduceQuantity(request.productId, request.quantity).Threw? ==>
      p == Placement(s, Failure(reduceQuantity(request.productId, request.quantity).exception))
    // Otherwise exactly one new order exists, under a fresh id that is
    // returned, whatever the payment did.
    ensures reduceQuantity(request.productId, request.quantity).Completed? ==>
      && s.nextId !in s.orders
      && p.result == Success(s.nextId)
      && p.store.orders.Keys == s.orders.Keys + {s.nextId}
      && |p.store.orders| == |s.orders| + 1
    // The new order holds the request's data and the final status that
    // the payment of its own id, mode and amount led to.
    ensures reduceQuantity(request.productId, request.quantity).Completed? ==>
      var o := p.store.orders[s.nextId];
      var paid := doPayment(PaymentRequest(s.nextId, request.paymentMode, request.totalAmount));
      && o.id == Some(s.nextId)
      && o.productId == request.productId
      && o.quantity == request.quantity
      && o.amount == request.totalAmount
      && o.orderDate == now
      && (o.status == Placed <==> paid.Completed?)
      && (o.status == PaymentFailed <==> paid.Threw?)
    // Every order stored before is untouched.
    ensures forall k :: k in s.orders ==> k in p.store.orders && p.store.orders[k] == s.orders[k]
  {
    match reduceQuantity(request.productId, request.quantity)
    case Threw(e) => Placement(s, Failure(e))
    case Completed =>
      var (s1, created) := s.Save(NewOrder(request, now));
      var status := StatusAfterPayment(doPayment(PaymentRequestFor(created, request)));
      var (s2, _) := s1.Save(created.(status := status));
      assert s2.orders.Keys == s.orders.Keys + {s.nextId};
      Placement(s2, Success(created.id.value))
  }

  /** The exception thrown for an unknown order id. */
  function NotFound(orderId: int): (e: Exception)
    ensures e.CustomException? && e.errorCode == "NOT_FOUND" && e.status == 404
  {
    CustomException("Order not found for the order Id" + DecimalString(orderId), "NOT_FOUND", 404)
  }

  /** `getOrderDetails`: look the order up or throw NOT_FOUND, fetch its
      product, and join the two. */
  function GetOrderDetails(
    store: Store,
    orderId: int,
    fetchProduct: int -> Result<ProductDetails, Exception>): (r: Result<OrderResponse, Exception>)
    requires store.IdsMatchKeys()
    // Unknown id: NOT_FOUND, 404, and the product is never fetched.
    ensures orderId !in store.orders ==> r == Failure(NotFound(orderId))
    // Known id whose product fetch throws: that exception propagates.
    ensures orderId in store.orders && fetchProduct(store.orders[orderId].productId).Failure? ==>
      r == Failure(fetchProduct(store.orders[orderId].productId).error)
    // Known id: order fields from the stored order; product name, id and
    // price from the fetched record; quantity from the stored order.
    ensures orderId in store.orders && fetchProduct(store.orders[orderId].productId).Success? ==>
      var o := store.orders[orderId];
      var fetched := fetchProduct(o.productId).value;
      && r.Success?
      && r.value.orderId == orderId
      && r.value.orderStatus == o.status.Name()
      && r.value.amount == o.amount
      && r.value.orderDate == o.orderDate
      && r.value.productDetails.productName == fetched.productName
      && r.value.productDetails.productId == fetched.productId
      && r.value.productDetails.price == fetched.price
      && r.value.productDetails.quantity == o.quantity
  {
    match store.FindById(orderId)
    case None => Failure(NotFound(orderId))
    case Some(order) =>
      match fetchProduct(order.productId)
      case Failure(e) => Failure(e)
      case Success(productDetails) =>
        var productDetail := ProductDetails(
          productDetails.productId,
          productDetails.productName,
          productDetails.price,
          order.quantity);
        Success(OrderResponse(order.id.value, order.status.Name(), order.amount, order.orderDate, productDetail))
  }

  /** The service object; it holds the repository it writes to. */
  class OrderServiceImpl {
    const repository: OrderRepository

    constructor (repository: OrderRepository)
      ensures this.repository == repository
    {
      this.repository := repository;
    }

    /** `placeOrder`: reduce stock (an exception here propagates before
        anything is saved), save the order as CREATED, pay for it, save it
        again with the status the payment led to, and return its id. */
    method PlaceOrder(
      request: OrderRequest,
      now: Instant,
      reduceQuantity: (int, int) -> Outcome,
      doPayment: PaymentRequest -> Outcome) returns (r: Result<int, Exception>)
      requires repository.Valid()
      modifies repository
      ensures repository.Valid()
      ensures Placement(repository.Model(), r)
           == PlaceOrderSpec(old(repository.Model()), request, now, reduceQuantity, doPayment)
      // No save at all when stock reduction fails.
      ensures r.Failure? ==> repository.saves == old(repository.saves)
      // Otherwise two saves of one record: first CREATED, then the same
      // record with only its status moved on.
      ensures r.Success? ==>
        var created := NewOrder(request, now).(id := Some(old(repository.nextId)));
        var final := created.(status := StatusAfterPayment(doPayment(PaymentRequestFor(created, request))));
        && repository.saves == old(repository.saves) + [created, final]
        && created.status.CanMoveTo(final.status)
    {
      match reduceQuantity(request.productId, request.quantity) {
        case Threw(e) =>
          return Failure(e);
        case Completed =>
      }

      var order := NewOrder(request, now);
      order := repository.Save(order);

      var paymentRequest := PaymentRequestFor(order, request);

      var orderStatus: OrderStatus;
      match doPayment(paymentRequest) {
        case Completed =>
          orderStatus := Placed;
        case Threw(_) =>
          orderStatus := PaymentFailed;
      }

      order := order.(status := orderStatus);
      var _ := repository.Save(order);

      return Success(order.id.value);
    }
  }
}
