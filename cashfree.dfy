/** The payment-gateway routes of cashfree.js: the order payload of
    `/create-order`, the status classification of `/verify-payment`, and
    the signature check and event dispatch of `/webhook`. The gateway's
    answers, the clock, the environment, `JSON.stringify` and the
    HMAC-SHA256 hex digest (RFC 2104 over the SHA-256 of FIPS 180-4) are
    parameters. A request field left undefined is `None`. */
module Cashfree {
  import opened Common

  // ---------------------------------------------------------------------
  // POST /create-order
  // ---------------------------------------------------------------------

  datatype Customer = Customer(name: string, email: string, phone: string)

  /** The gateway order. `amount` is passed through as it came. */
  datatype GatewayOrder = GatewayOrder(
    orderId: string, amount: string, currency: string,
    customerId: string, customerName: string, customerEmail: string, customerPhone: string,
    returnUrl: string, notifyUrl: string, note: string)

  /** A template-literal interpolation: `undefined` is rendered as text. */
  function Render(v: Option<string>): (s: string)
    ensures v.Some? ==> s == v.value
    ensures v.None? ==> s == "undefined"
  {
    if v.Some? then v.value else "undefined"
  }

  /** The payload, for a request with a customer and a product. `title` and
      `quantity` are the JavaScript renderings of `product.title` and
      `quantity`. */
  function OrderPayload(amount: string, customer: Customer, title: Option<string>,
                        quantity: Option<string>, now: nat, clientUrl: string,
                        backendUrl: string): (o: GatewayOrder)
    ensures o.orderId == "ORDER-" + Decimal(now)
    ensures o.currency == "INR" && o.amount == amount
    // the customer is identified by the phone number
    ensures o.customerId == customer.phone && o.customerPhone == customer.phone
    ensures o.customerName == customer.name && o.customerEmail == customer.email
    ensures o.note == Render(title) + " x " + Render(quantity)
    ensures o.returnUrl == clientUrl + "/Cashfree?payment_status=success&order_id={order_id}"
    ensures o.notifyUrl == backendUrl + "/api/cashfree/webhook"
  {
    GatewayOrder("ORDER-" + Decimal(now), amount, "INR",
                 customer.phone, customer.name, customer.email, customer.phone,
                 clientUrl + "/Cashfree?payment_status=success&order_id={order_id}",
                 backendUrl + "/api/cashfree/webhook",
                 Render(title) + " x " + Render(quantity))
  }

  /** Order ids from distinct clock readings are distinct. */
  lemma OrderIdsDistinct(a: string, c: Customer, t: Option<string>, q: Option<string>,
                         now1: nat, now2: nat, u1: string, u2: string)
    requires now1 != now2
    ensures OrderPayload(a, c, t, q, now1, u1, u2).orderId != OrderPayload(a, c, t, q, now2, u1, u2).orderId
  {
    var o1 := OrderPayload(a, c, t, q, now1, u1, u2).orderId;
    var o2 := OrderPayload(a, c, t, q, now2, u1, u2).orderId;
    if o1 == o2 {
      assert o1[6..] == Decimal(now1);
      assert o2[6..] == Decimal(now2);
      DecimalInjective(now1, now2);
    }
  }

  /** The gateway's created order: the payment link and what else it
      returns. */
  datatype GatewayReply = GatewayReply(paymentLink: Option<string>, cfOrderId: string, orderToken: string)

  datatype CreateReply =
    | PaymentLink(link: Option<string>)
    | CreateFailed(status: int, error: string)

  /** The handler. `product` is `None` when absent and otherwise holds the
      rendering of its title; `gateway` answers an order, `None` when the
      request fails. */
  function CreateOrder(amount: string, customer: Option<Customer>, product: Option<Option<string>>,
                       quantity: Option<string>, now: nat, clientUrl: string, backendUrl: string,
                       gateway: GatewayOrder -> Option<GatewayReply>): (r: CreateReply)
    // a missing customer or product throws while the payload is built
    ensures customer.None? || product.None? ==> r == CreateFailed(500, "Order creation failed")
    ensures customer.Some? && product.Some? ==>
              var o := OrderPayload(amount, customer.value, product.value, quantity, now, clientUrl, backendUrl);
              (gateway(o).None? ==> r == CreateFailed(500, "Order creation failed")) &&
              (gateway(o).Some? ==> r == PaymentLink(gateway(o).value.paymentLink))
  {
    if customer.None? || product.None? then CreateFailed(500, "Order creation failed")
    else
      var o := OrderPayload(amount, customer.value, product.value, quantity, now, clientUrl, backendUrl);
      match gateway(o)
      case None => CreateFailed(500, "Order creation failed")
      case Some(g) => PaymentLink(g.paymentLink)
  }

  /** Only the payment link reaches the caller: gateway replies that agree
      on it give the same answer. */
  lemma OnlyPaymentLinkReturned(amount: string, customer: Option<Customer>, product: Option<Option<string>>,
                                quantity: Option<string>, now: nat, clientUrl: string, backendUrl: string,
                                g1: GatewayOrder -> Option<GatewayReply>,
                                g2: GatewayOrder -> Option<GatewayReply>)
    requires customer.Some? && product.Some?
    requires var o := OrderPayload(amount, customer.value, product.value, quantity, now, clientUrl, backendUrl);
             g1(o).Some? && g2(o).Some? && g1(o).value.paymentLink == g2(o).value.paymentLink
    ensures CreateOrder(amount, customer, product, quantity, now, clientUrl, backendUrl, g1) ==
            CreateOrder(amount, customer, product, quantity, now, clientUrl, backendUrl, g2)
  {
  }

  // ---------------------------------------------------------------------
  // POST /verify-payment
  // ---------------------------------------------------------------------

  /** The gateway's order lookup: failed, or the `order_status` it gave. */
  datatype Lookup = LookupFailed | Fetched(orderStatus: Option<string>)

  datatype VerifyReply = VerifyReply(status: int, success: bool, text: Option<string>)

  function VerifyPayment(lookup: Lookup): (r: VerifyReply)
    // paid exactly when the gateway says PAID
    ensures r.success <==> lookup == Fetched(Some("PAID"))
    ensures lookup.LookupFailed? ==> r == VerifyReply(500, false, Some("Payment verification failed"))
    ensures lookup.Fetched? && !r.success ==> r == VerifyReply(200, false, Some("Payment not completed"))
  {
    match lookup
    case LookupFailed => VerifyReply(500, false, Some("Payment verification failed"))
    case Fetched(s) =>
      if s == Some("PAID") then VerifyReply(200, true, None)
      else VerifyReply(200, false, Some("Payment not completed"))
  }

  // ---------------------------------------------------------------------
  // POST /webhook
  // ---------------------------------------------------------------------

  /** The parsed webhook body: its `event`, and its `order.order_id` when
      `order` is present. */
  datatype WebhookBody = WebhookBody(event: Option<string>, order: Option<string>)

  /** The event branch taken, which only logs. */
  datatype Dispatch = PaymentSucceeded(orderId: string) | PaymentFailed(orderId: string) | Unhandled

  datatype WebhookReply = WebhookReply(status: int, message: string)

  datatype WebhookOutcome = WebhookOutcome(reply: WebhookReply, dispatched: Option<Dispatch>)

  /** The `switch` on the event. */
  function DispatchFor(event: Option<string>, orderId: string): (d: Dispatch)
    ensures d.PaymentSucceeded? <==> event == Some("order.paid")
    ensures d.PaymentFailed? <==> event == Some("order.failed")
    ensures !d.Unhandled? ==> d.orderId == orderId
  {
    if event == Some("order.paid") then PaymentSucceeded(orderId)
    else if event == Some("order.failed") then PaymentFailed(orderId)
    else Unhandled
  }

  /** The signature the route expects for a body. */
  function ExpectedSignature(secret: string, body: WebhookBody,
                             stringify: WebhookBody -> string,
                             hmacHex: (string, string) -> string): string
  {
    hmacHex(secret, stringify(body))
  }

  /** The handler. `secret` is the client secret from the environment
      (`None` when unset, which makes `createHmac` throw) and `signature` the
      `x-webhook-signature` header. */
  function Webhook(secret: Option<string>, signature: Option<string>, body: WebhookBody,
                   stringify: WebhookBody -> string, hmacHex: (string, string) -> string): (r: WebhookOutcome)
    ensures secret.None? ==> r == WebhookOutcome(WebhookReply(500, "Webhook processing failed"), None)
    // a missing or different signature is refused and nothing is dispatched
    ensures secret.Some? && signature != Some(ExpectedSignature(secret.value, body, stringify, hmacHex)) ==>
              r == WebhookOutcome(WebhookReply(400, "Invalid signature"), None)
    ensures r.dispatched.Some? ==> r.reply == WebhookReply(200, "Webhook processed successfully")
    ensures r.dispatched.Some? ==> body.order.Some? && r.dispatched.value == DispatchFor(body.event, body.order.value)
  {
    match secret
    case None => WebhookOutcome(WebhookReply(500, "Webhook processing failed"), None)
    case Some(key) =>
      if signature != Some(ExpectedSignature(key, body, stringify, hmacHex)) then
        WebhookOutcome(WebhookReply(400, "Invalid signature"), None)
      else
        match body.order
        case None => WebhookOutcome(WebhookReply(500, "Webhook processing failed"), None)
        case Some(orderId) =>
          WebhookOutcome(WebhookReply(200, "Webhook processed successfully"),
                         Some(DispatchFor(body.event, orderId)))
  }

  /** A webhook is processed exactly when the secret is set, its signature
      is the HMAC of the serialised body, and the body has an order; this
      holds for every event, known or not. */
  lemma {:induction false} WebhookAcceptedIff(secret: Option<string>, signature: Option<string>,
                                              body: WebhookBody, stringify: WebhookBody -> string,
                                              hmacHex: (string, string) -> string)
    ensures Webhook(secret, signature, body, stringify, hmacHex).reply.status == 200 <==>
            secret.Some? && signature == Some(hmacHex(secret.value, stringify(body))) && body.order.Some?
    ensures Webhook(secret, signature, body, stringify, hmacHex).reply.status == 200 <==>
            Webhook(secret, signature, body, stringify, hmacHex).dispatched.Some?
  {
    var r := Webhook(secret, signature, body, stringify, hmacHex);
    if secret.Some? && signature == Some(hmacHex(secret.value, stringify(body))) && body.order.Some? {
      assert r.dispatched.Some?;
    }
  }

  /** The event never decides the reply: two bodies with the same order,
      whatever their events, each correctly signed with a set secret, get
      the same reply, which is 200 exactly when the order is present. */
  lemma EventDoesNotDecideStatus(secret: string, b1: WebhookBody, b2: WebhookBody,
                                 stringify: WebhookBody -> string, hmacHex: (string, string) -> string)
    requires b1.order == b2.order
    ensures Webhook(Some(secret), Some(hmacHex(secret, stringify(b1))), b1, stringify, hmacHex).reply ==
            Webhook(Some(secret), Some(hmacHex(secret, stringify(b2))), b2, stringify, hmacHex).reply
    ensures Webhook(Some(secret), Some(hmacHex(secret, stringify(b1))), b1, stringify, hmacHex).reply ==
            (if b1.order.Some? then WebhookReply(200, "Webhook processed successfully")
             else WebhookReply(500, "Webhook processing failed"))
  {
  }
}
