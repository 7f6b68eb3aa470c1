/** The records that the order service reads, builds and stores: the
    placement request, the order entity, the payment request, the product
    record fetched from the product service and the order view returned
    to callers, together with the exceptions that the service throws or
    lets through. */
module Orders {
  import opened Wrappers

  /** A point in time, as read from the clock when an order is created.
      Nothing in the service computes with it; it is only copied. */
  datatype Instant = Instant(epochSecond: int, nano: int)

  /** The payment instrument named in a request. Its set of constants is
      declared outside the modelled files, so a mode is identified by its
      constant's name ("CARD", ...). */
  datatype PaymentMode = PaymentMode(name: string)

  /** The lifecycle of an order: created before payment, then either placed
      or failed for payment. The entity stores the status as text. */
  datatype OrderStatus = Created | Placed | PaymentFailed {
    /** The text the entity stores for the status; each status has its own
        text, so the text names the status back. */
    function Name(): (s: string)
      ensures s == "CREATED" <==> this == Created
      ensures s == "PLACED" <==> this == Placed
      ensures s == "PAYMENT_FAILED" <==> this == PaymentFailed
    {
      match this
      case Created => "CREATED"
      case Placed => "PLACED"
      case PaymentFailed => "PAYMENT_FAILED"
    }

    /** The only moves the service makes: CREATED to one of the two final
        statuses. */
    predicate CanMoveTo(next: OrderStatus)
    {
      this == Created && next != Created
    }
  }

  /** The body of a placement request. */
  datatype OrderRequest = OrderRequest(
    productId: int,
    totalAmount: int,
    quantity: int,
    paymentMode: PaymentMode)

  /** The stored order entity. `id` is None until the repository assigns
      one on the first save. */
  datatype Order = Order(
    id: Option<int>,
    productId: int,
    quantity: int,
    amount: int,
    orderDate: Instant,
    status: OrderStatus)

  /** What the payment service is asked to charge. */
  datatype PaymentRequest = PaymentRequest(
    orderId: int,
    paymentMode: PaymentMode,
    amount: int)

  /** A product record, as returned by the product service and as embedded
      in an order view. */
  datatype ProductDetails = ProductDetails(
    productId: int,
    productName: string,
    price: int,
    quantity: int)

  /** The view of one order returned by the detail lookup. */
  datatype OrderResponse = OrderResponse(
    orderId: int,
    orderStatus: string,
    amount: int,
    orderDate: Instant,
    productDetails: ProductDetails)

  /** An exception: the service's own CustomException (message, error code,
      HTTP status), or one raised by a remote collaborator, which the model
      only carries along. */
  datatype Exception =
    | CustomException(message: string, errorCode: string, status: int)
    | RemoteException(description: string)

  /** How a call to a collaborator with no result payload ended: it returned
      normally, or it threw. */
  datatype Outcome = Completed | Threw(exception: Exception)

  /** The characters '0'..'9' for the digits 0..9. */
  function DigitChar(d: nat): (c: char)
    requires d < 10
    ensures '0' <= c <= '9'
    ensures c as int == '0' as int + d
  {
    "0123456789"[d]
  }

  predicate AllDigits(s: string)
  {
    forall i :: 0 <= i < |s| ==> '0' <= s[i] <= '9'
  }

  /** The number a string of decimal digits denotes. */
  function DigitsValue(s: string): (n: nat)
    requires AllDigits(s)
    decreases |s|
  {
    if s == [] then 0
    else DigitsValue(s[..|s| - 1]) * 10 + (s[|s| - 1] as int - '0' as int)
  }

  /** The decimal digits of a non-negative number, without leading zeros:
      they denote that number. */
  function Digits(n: nat): (s: string)
    ensures |s| >= 1 && AllDigits(s)
    ensures s[0] == '0' ==> n == 0
    ensures DigitsValue(s) == n
    decreases n
  {
    if n < 10 then
      [DigitChar(n)]
    else
      var init := Digits(n / 10);
      var s := init + [DigitChar(n % 10)];
      assert s[..|s| - 1] == init;
      s
  }

  /** The number a decimal rendering denotes: a leading minus sign negates
      the digits after it. */
  function DecimalValue(s: string): (n: int)
    requires |s| >= 1
    requires s[0] == '-' ==> AllDigits(s[1..])
    requires s[0] != '-' ==> AllDigits(s)
  {
    if s[0] == '-' then -(DigitsValue(s[1..]) as int) else DigitsValue(s)
  }

  /** A long written out in decimal, as string concatenation does it: a
      minus sign before the digits of a negative value. Reading the text
      back gives the number. */
  function DecimalString(n: int): (s: string)
    ensures |s| >= 1
    ensures (s[0] == '-') <==> n < 0
    ensures s[0] == '-' ==> AllDigits(s[1..])
    ensures s[0] != '-' ==> AllDigits(s)
    ensures DecimalValue(s) == n
  {
    if n < 0 then
      var s := "-" + Digits(-n);
      assert s[1..] == Digits(-n);
      s
    else
      Digits(n)
  }

  /** Different ids give different texts, so the NOT_FOUND message tells
      which id was asked for. */
  lemma DecimalStringInjective(m: int, n: int)
    requires DecimalString(m) == DecimalString(n)
    ensures m == n
  {
  }
}
