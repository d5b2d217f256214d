/**
 * payments/views.py: payment initiation and the gateway's callbacks. The
 * gateway session (SSLCommerz `createSession`) is outside the model: its
 * response is an input. The success callback re-enters the checkout
 * action as the owner of the cart its token names; that re-entry is
 * modelled as a direct call of `OrderViews.Checkout`.
 */
module PaymentViews {
  import opened Wrappers
  import opened ProductModels
  import opened CartModels
  import opened OrderModels
  import opened OrderViews
  import opened PaymentToken

  /** The phone sent for a customer without one. */
  const DefaultPhone: string := "01234567891"

  /** The customer fields initiation reads from `request.user`. */
  datatype Customer = Customer(firstName: string, lastName: string, email: string, phone: Option<string>)

  /** The fields of the session request that depend on the request. */
  datatype SessionRequest = SessionRequest(
    totalAmount: string, currency: string, tranId: string,
    successUrl: string, failUrl: string, cancelUrl: string,
    customerName: string, customerEmail: string, customerPhone: string, itemCount: string)

  /**
   * The payload `initiate_payment` posts: the token of the cart on today's
   * date, the callback URLs under the backend URL, and the customer's phone
   * or, when it is None, the default phone (set on the in-memory user only).
   */
  function InitiationRequest(customer: Customer, cartId: nat, amount: string, totalItems: string,
                             today: Date, backendUrl: string): (req: SessionRequest)
    requires ValidDate(today)
    ensures req.tranId == Token(cartId, today)
    ensures ExtractCartId(Some(req.tranId)) == Some(cartId)
    ensures customer.phone.Some? ==> req.customerPhone == customer.phone.value
    ensures customer.phone.None? ==> req.customerPhone == DefaultPhone
    ensures req.currency == "BDT" && req.totalAmount == amount && req.itemCount == totalItems
  {
    TokenRoundTrip(cartId, today);
    SessionRequest(amount, "BDT", Token(cartId, today),
                   backendUrl + "/payment/api/success/", backendUrl + "/payment/api/fail/",
                   backendUrl + "/payment/api/cancel/",
                   customer.firstName + " " + customer.lastName, customer.email,
                   customer.phone.GetOr(DefaultPhone), totalItems)
  }

  datatype InitiationResponse =
    | PaymentUrl(url: string)   // 200 {"payment_url": ...}
    | InitiationFailed          // 400 "Payment initiation failed"
    | MissingPageUrl            // KeyError on response["GatewayPageURL"]: 500

  /** The response of `initiate_payment` to the gateway's answer. */
  function InitiationResult(gateway: map<string, string>): (r: InitiationResponse)
    ensures r.PaymentUrl? <==> "status" in gateway && gateway["status"] == "SUCCESS" && "GatewayPageURL" in gateway
    ensures r.PaymentUrl? ==> r.url == gateway["GatewayPageURL"]
    ensures r == InitiationFailed <==> !("status" in gateway && gateway["status"] == "SUCCESS")
  {
    if "status" in gateway && gateway["status"] == "SUCCESS" then
      if "GatewayPageURL" in gateway then PaymentUrl(gateway["GatewayPageURL"]) else MissingPageUrl
    else InitiationFailed
  }

  datatype CallbackResponse =
    | Redirect(location: string)
    | BadRequest(error: string)   // 400 {"error": ...}

  datatype SuccessOutcome = SuccessOutcome(response: CallbackResponse, state: CheckoutState)

  /**
   * `payment_success`, on table values: resolve the token to a cart, run
   * checkout as the cart's owner, redirect only on 201.
   */
  function PaymentSuccessSpec(tranId: Option<string>, frontendUrl: string, carts: seq<Cart>,
                              before: CheckoutState): SuccessOutcome
    requires VariantsExist(before.items, before.variants)
  {
    match CartWithId(carts, ExtractCartId(tranId))
    case None => SuccessOutcome(BadRequest("Cart not found for transaction."), before)
    case Some(cart) =>
      var out := CheckoutSpec(cart.user, carts, before);
      if out.result.StatusCode() == 201
      then SuccessOutcome(Redirect(frontendUrl + "/payment/success/"), out.state)
      else SuccessOutcome(BadRequest("Checkout failed after payment."), out.state)
  }

  /** `payment_success`. */
  method PaymentSuccess(tranId: Option<string>, frontendUrl: string, carts: CartTable, cartItems: CartItemTable,
                        variants: VariantTable, orders: OrderTable, orderItems: OrderItemTable)
    returns (response: CallbackResponse)
    requires VariantsExist(cartItems.rows, variants.rows)
    modifies cartItems, variants, orders, orderItems
    ensures PaymentSuccessSpec(tranId, frontendUrl, carts.rows,
                               old(CheckoutState(cartItems.rows, variants.rows, orders.rows, orders.nextId, orderItems.rows)))
         == SuccessOutcome(response, CheckoutState(cartItems.rows, variants.rows, orders.rows, orders.nextId, orderItems.rows))
  {
    var cart := CartWithId(carts.rows, ExtractCartId(tranId));
    if cart.None? {
      return BadRequest("Cart not found for transaction.");
    }
    var result := Checkout(cart.value.user, carts, cartItems, variants, orders, orderItems);
    if result.StatusCode() == 201 {
      response := Redirect(frontendUrl + "/payment/success/");
    } else {
      response := BadRequest("Checkout failed after payment.");
    }
  }

  /** `payment_cancel`: a redirect to a fixed page; it reads and writes no table. */
  function PaymentCancel(frontendUrl: string): (r: CallbackResponse)
    ensures r.Redirect? && r.location == frontendUrl + "/payment/cancel/"
  {
    Redirect(frontendUrl + "/payment/cancel/")
  }

  /** `payment_fail`: a redirect to a fixed page; it reads and writes no table. */
  function PaymentFail(frontendUrl: string): (r: CallbackResponse)
    ensures r.Redirect? && r.location == frontendUrl + "/payment/fail/"
  {
    Redirect(frontendUrl + "/payment/fail/")
  }

  // ---------------------------------------------------------------------------

  /** A token that names no cart gives 400 "Cart not found for transaction." and runs no checkout. */
  lemma SuccessWithoutCart(tranId: Option<string>, frontendUrl: string, carts: seq<Cart>, before: CheckoutState)
    requires VariantsExist(before.items, before.variants)
    requires ExtractCartId(tranId).None? || forall c | c in carts :: c.id as int != ExtractCartId(tranId).value
    ensures PaymentSuccessSpec(tranId, frontendUrl, carts, before)
         == SuccessOutcome(BadRequest("Cart not found for transaction."), before)
  {
  }

  /**
   * With a cart found, the callback's effect is exactly that of checkout run
   * as the cart's owner, and it redirects to the success page exactly when
   * checkout answered 201; otherwise it answers 400 "Checkout failed after payment."
   */
  lemma SuccessRunsCheckoutAsOwner(tranId: Option<string>, frontendUrl: string, carts: seq<Cart>,
                                   before: CheckoutState, cart: Cart)
    requires VariantsExist(before.items, before.variants)
    requires CartWithId(carts, ExtractCartId(tranId)) == Some(cart)
    ensures var out := PaymentSuccessSpec(tranId, frontendUrl, carts, before);
      var checkout := CheckoutSpec(cart.user, carts, before);
      && out.state == checkout.state
      && (out.response == Redirect(frontendUrl + "/payment/success/") <==> checkout.result.Created?)
      && (out.response == BadRequest("Checkout failed after payment.") <==> !checkout.result.Created?)
  {
  }

  /**
   * End to end: paying for a cart whose lines are all in stock, with the
   * token initiation built for it, redirects to the success page, empties
   * that cart and records one order for the cart's owner whose total is
   * the cart's price-times-quantity sum.
   */
  lemma PaidCartBecomesOrder(today: Date, frontendUrl: string, carts: seq<Cart>, nextCartId: nat,
                             before: CheckoutState, cart: Cart)
    requires ValidDate(today) && CartsValid(carts, nextCartId) && cart in carts
    requires VariantsExist(before.items, before.variants)
    requires var lines := LinesOf(before.items, cart.id);
      lines != [] && InStock(lines, before.variants)
    ensures var out := PaymentSuccessSpec(Some(Token(cart.id, today)), frontendUrl, carts, before);
      var lines := LinesOf(before.items, cart.id);
      && out.response == Redirect(frontendUrl + "/payment/success/")
      && LinesOf(out.state.items, cart.id) == []
      && out.state.orders == before.orders + [Order(before.nextOrderId, cart.user, Pending, Unpaid,
                                                    LinesTotal(lines, before.variants), None)]
  {
    TokenRoundTrip(cart.id, today);
    UniqueCartId(carts, nextCartId, cart);
    OwnersCart(carts, nextCartId, cart);
    CheckoutClearsCart(cart.user, carts, before, cart);
  }

  /**
   * The reconciliation failure: when a line of the paid cart has become
   * short of stock, the callback answers 400 "Checkout failed after payment.",
   * yet an empty order shell (total 0, pending, unpaid) is left behind.
   */
  lemma PaidCartShortOfStock(today: Date, frontendUrl: string, carts: seq<Cart>, nextCartId: nat,
                             before: CheckoutState, cart: Cart, k: nat)
    requires ValidDate(today) && CartsValid(carts, nextCartId) && cart in carts
    requires VariantsExist(before.items, before.variants)
    requires var lines := LinesOf(before.items, cart.id);
      && k < |lines| && InStock(lines[..k], before.variants)
      && lines[k].quantity > before.variants[lines[k].variant].stock
    ensures var out := PaymentSuccessSpec(Some(Token(cart.id, today)), frontendUrl, carts, before);
      && out.response == BadRequest("Checkout failed after payment.")
      && out.state == before.(orders := before.orders + [Order(before.nextOrderId, cart.user, Pending, Unpaid, 0, None)],
                              nextOrderId := before.nextOrderId + 1)
  {
    TokenRoundTrip(cart.id, today);
    UniqueCartId(carts, nextCartId, cart);
    OwnersCart(carts, nextCartId, cart);
    CheckoutShortOfStock(cart.user, carts, before, cart, k);
  }

  /** With keys unique, looking a cart up by its own key finds it. */
  lemma UniqueCartId(carts: seq<Cart>, nextCartId: nat, cart: Cart)
    requires CartsValid(carts, nextCartId) && cart in carts
    ensures CartWithId(carts, Some(cart.id as int)) == Some(cart)
  {
    var found := CartWithId(carts, Some(cart.id as int)).value;
    var i :| 0 <= i < |carts| && carts[i] == found;
    var j :| 0 <= j < |carts| && carts[j] == cart;
    assert i == j;
  }

  /** With one cart per user, the owner's cart is the cart itself. */
  lemma OwnersCart(carts: seq<Cart>, nextCartId: nat, cart: Cart)
    requires CartsValid(carts, nextCartId) && cart in carts
    ensures CartOf(carts, cart.user) == Some(cart)
  {
  }
}
