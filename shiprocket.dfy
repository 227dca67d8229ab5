/** POST `/create-order` of routes/shiprocketRoutes.js: the ad-hoc order
    sent to the courier, built from the request's `orderData` and
    `orderId`, and the handler's error path. The login to the courier, the
    order submission, the clock (`Date.now()` and the ISO timestamp) and
    the random id part are parameters. `parseInt(quantity)` and
    `parseFloat(product.price)` are given as their results, `None` for NaN,
    and prices are `real`: IEEE rounding is not modelled. A falsy string
    field is the empty string. */
module Shiprocket {
  import opened Common

  datatype ProductRef = ProductRef(title: string, id: string, price: Option<real>)

  /** The `orderData` of the request body. `product` is `None` when absent. */
  datatype OrderData = OrderData(
    name: string, lastName: string, address: string, city: string, pincode: string,
    state: string, email: string, phone: string, quantity: Option<int>,
    product: Option<ProductRef>, paymentMethod: string)

  datatype OrderItem = OrderItem(
    name: string, sku: string, units: Option<int>, sellingPrice: Option<real>,
    discount: int, tax: int, hsn: int)

  /** `shiprocketOrderData`. */
  datatype CourierOrder = CourierOrder(
    orderId: string, orderDate: string, pickupLocation: string, channelId: string,
    billingCustomerName: string, billingLastName: string, billingAddress: string,
    billingCity: string, billingPincode: string, billingState: string,
    billingCountry: string, billingEmail: string, billingPhone: string,
    shippingIsBilling: bool, orderItems: seq<OrderItem>, paymentMethod: string,
    subTotal: Option<real>, length: real, breadth: real, height: real, weight: real)

  /** `parseFloat(price) * parseInt(quantity)`: NaN (`None`) when either is. */
  function SubTotal(price: Option<real>, units: Option<int>): (t: Option<real>)
    ensures t.Some? <==> price.Some? && units.Some?
  {
    if price.Some? && units.Some? then Some(price.value * units.value as real) else None
  }

  /** The order id: the caller's, or `WF-<Date.now()>-<random part>`. */
  function OrderIdFor(orderId: string, now: nat, randomPart: string): (id: string)
    ensures orderId != "" ==> id == orderId
    ensures orderId == "" ==> |id| > 3 && id[..3] == "WF-"
  {
    if orderId != "" then orderId else "WF-" + Decimal(now) + "-" + randomPart
  }

  /** `new Date().toISOString().split('T')[0]`. */
  function OrderDate(isoNow: string): (d: string)
    ensures 'T' !in d
  {
    Split(isoNow, 'T')[0]
  }

  /** The ISO timestamp `<date>T<time>` gives its date part. */
  lemma OrderDateOfTimestamp(date: string, time: string)
    requires 'T' !in date
    ensures OrderDate(date + "T" + time) == date
  {
    SplitPrefix(date, time, 'T');
  }

  /** The one line item, for a present product. */
  function ItemFor(p: ProductRef, quantity: Option<int>, now: nat): (item: OrderItem)
    ensures item.name == p.title && item.units == quantity && item.sellingPrice == p.price
    ensures item.discount == 0 && item.tax == 18 && item.hsn == 621710
    ensures p.id != "" ==> item.sku == "SKU-" + p.id
    ensures p.id == "" ==> item.sku == "SKU-" + Decimal(now)
  {
    OrderItem(p.title, "SKU-" + (if p.id != "" then p.id else Decimal(now)),
              quantity, p.price, 0, 18, 621710)
  }

  /** `shiprocketOrderData`, for an `orderData` that has a product. */
  function BuildOrder(data: OrderData, orderId: string, now: nat, randomPart: string,
                      isoNow: string): (o: CourierOrder)
    requires data.product.Some?
    ensures o.orderId == OrderIdFor(orderId, now, randomPart)
    ensures o.orderDate == OrderDate(isoNow)
    ensures o.billingLastName == (if data.lastName != "" then data.lastName else "NA")
    ensures o.billingCustomerName == data.name && o.billingEmail == data.email && o.billingPhone == data.phone
    ensures o.billingAddress == data.address && o.billingCity == data.city
    ensures o.billingPincode == data.pincode && o.billingState == data.state
    ensures o.pickupLocation == "Home" && o.channelId == "5794009"
    ensures o.billingCountry == "India" && o.shippingIsBilling
    ensures o.paymentMethod == "COD" <==> data.paymentMethod == "COD"
    ensures o.paymentMethod == "COD" || o.paymentMethod == "Prepaid"
    ensures |o.orderItems| == 1 && o.orderItems[0] == ItemFor(data.product.value, data.quantity, now)
    ensures o.length == 10.0 && o.breadth == 5.0 && o.height == 2.0 && o.weight == 0.5
  {
    var p := data.product.value;
    CourierOrder(
      OrderIdFor(orderId, now, randomPart), OrderDate(isoNow), "Home", "5794009",
      data.name, if data.lastName != "" then data.lastName else "NA", data.address,
      data.city, data.pincode, data.state, "India", data.email, data.phone, true,
      [ItemFor(p, data.quantity, now)],
      if data.paymentMethod == "COD" then "COD" else "Prepaid",
      SubTotal(p.price, data.quantity), 10.0, 5.0, 2.0, 0.5)
  }

  /** The sub-total is the sole item's selling price times its units. */
  lemma SubTotalMatchesItem(data: OrderData, orderId: string, now: nat, randomPart: string,
                            isoNow: string)
    requires data.product.Some?
    ensures var o := BuildOrder(data, orderId, now, randomPart, isoNow);
            var item := o.orderItems[0];
            o.subTotal.Some? <==> item.sellingPrice.Some? && item.units.Some?
    ensures var o := BuildOrder(data, orderId, now, randomPart, isoNow);
            var item := o.orderItems[0];
            o.subTotal.Some? ==> o.subTotal.value == item.sellingPrice.value * item.units.value as real
  {
  }

  /** What the courier answers to the order submission. An empty message
      stands for an error without one. */
  datatype Remote = Accepted(orderId: string, shipmentId: string) | RemoteError(message: string)

  datatype Reply =
    | Created(orderId: string, shipmentId: string, message: string)
    | Failed(status: int, message: string)
    /** A property read on `undefined` throws a `TypeError`: 500 with the
        engine's message, which is not modelled. */
    | TypeErrorReply(status: int)

  /** The reply and the order submitted to the courier, if any. */
  datatype Outcome = Outcome(reply: Reply, submitted: Option<CourierOrder>)

  /** The handler. `loggedIn` is whether the courier login succeeded, and
      `submit` is the courier's answer to an order. */
  function CreateOrder(loggedIn: bool, orderData: Option<OrderData>, orderId: string, now: nat,
                       randomPart: string, isoNow: string, submit: CourierOrder -> Remote): (r: Outcome)
    // the login comes first: its failure submits nothing, whatever the body
    ensures !loggedIn ==> r == Outcome(Failed(500, "Failed to authenticate with Shiprocket"), None)
    ensures loggedIn && (orderData.None? || orderData.value.product.None?) ==>
              r == Outcome(TypeErrorReply(500), None)
    // an order is submitted exactly when the body has a product
    ensures r.submitted.Some? <==> loggedIn && orderData.Some? && orderData.value.product.Some?
    ensures r.submitted.Some? ==>
              r.submitted.value == BuildOrder(orderData.value, orderId, now, randomPart, isoNow)
    ensures r.submitted.Some? ==>
              match submit(r.submitted.value)
              case Accepted(id, shipment) => r.reply == Created(id, shipment, "Order created successfully")
              case RemoteError(m) =>
                r.reply == Failed(500, if m != "" then m else "Failed to create Shiprocket order")
  {
    if !loggedIn then Outcome(Failed(500, "Failed to authenticate with Shiprocket"), None)
    else if orderData.None? || orderData.value.product.None? then Outcome(TypeErrorReply(500), None)
    else
      var o := BuildOrder(orderData.value, orderId, now, randomPart, isoNow);
      match submit(o)
      case Accepted(id, shipment) => Outcome(Created(id, shipment, "Order created successfully"), Some(o))
      case RemoteError(m) =>
        Outcome(Failed(500, if m != "" then m else "Failed to create Shiprocket order"), Some(o))
  }

  /** Only the cash-on-delivery flag decides the payment method: two bodies
      that differ in any other way agree on it. */
  lemma PaymentMethodOnlyFromFlag(d1: OrderData, d2: OrderData, orderId: string, now: nat,
                                  randomPart: string, isoNow: string)
    requires d1.product.Some? && d2.product.Some?
    requires (d1.paymentMethod == "COD") == (d2.paymentMethod == "COD")
    ensures BuildOrder(d1, orderId, now, randomPart, isoNow).paymentMethod ==
            BuildOrder(d2, orderId, now, randomPart, isoNow).paymentMethod
  {
  }

  /** A generated id carries the clock reading it was made from. */
  lemma GeneratedIdCarriesClock(now: nat, randomPart: string)
    ensures var id := OrderIdFor("", now, randomPart);
            id[3..3 + |Decimal(now)|] == Decimal(now) && id[3 + |Decimal(now)|] == '-'
  {
    var id := OrderIdFor("", now, randomPart);
    assert id == "WF-" + Decimal(now) + "-" + randomPart;
    assert id[3..3 + |Decimal(now)|] == Decimal(now);
  }
}
