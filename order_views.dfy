/**
 * orders/views.py: the order endpoints. `Checkout` turns the requesting
 * user's cart into an order; it is specified by the pure `CheckoutSpec`
 * over the values of the five tables it reads, and the lemmas below state
 * what the specification promises.
 *
 * As in the source, the insufficient-stock path returns an error response
 * instead of raising, so the surrounding transaction commits: the order
 * row created before the stock check (total 0, pending, unpaid, no items)
 * survives, while stock, order items and cart lines are left as they were.
 */
module OrderViews {
  import opened Wrappers
  import opened Accounts
  import opened ProductModels
  import opened CartModels
  import opened OrderModels

  /** The first cart line whose quantity exceeds its variant's stock. */
  datatype Shortage = Shortage(variant: nat, available: nat)

  datatype CheckoutResult =
    | Created(order: Order, items: seq<OrderItem>)  // 201 with the serialized order
    | CartNotFound                                  // 400 "Cart not found."
    | CartEmpty                                     // 400 "Cart is empty."
    | NotEnoughStock(shortage: Shortage)            // 400 "Not enough stock for ... Available: ..."
  {
    function StatusCode(): (code: int)
      ensures code == 201 <==> Created?
      ensures !Created? ==> code == 400
    {
      if Created? then 201 else 400
    }
  }

  /** The values of the tables checkout writes. */
  datatype CheckoutState = CheckoutState(items: seq<CartItem>, variants: map<nat, Variant>,
                                         orders: seq<Order>, nextOrderId: nat,
                                         orderItems: seq<OrderItem>)

  datatype CheckoutOutcome = CheckoutOutcome(result: CheckoutResult, state: CheckoutState)

  /** Every line asks for no more than its variant's stock. */
  predicate InStock(lines: seq<CartItem>, variants: map<nat, Variant>)
    requires VariantsExist(lines, variants)
  {
    forall i | 0 <= i < |lines| :: lines[i].quantity <= variants[lines[i].variant].stock
  }

  /** No two lines name the same variant. */
  predicate DistinctVariants(lines: seq<CartItem>)
  {
    forall i, j | 0 <= i < j < |lines| :: lines[i].variant != lines[j].variant
  }

  /** The stock check of the loop, in loop order: the first line that is short, if any. */
  function FirstShortage(lines: seq<CartItem>, variants: map<nat, Variant>): (r: Option<Shortage>)
    requires VariantsExist(lines, variants)
    ensures r.None? <==> InStock(lines, variants)
  {
    if lines == [] then None
    else if lines[0].quantity > variants[lines[0].variant].stock
    then Some(Shortage(lines[0].variant, variants[lines[0].variant].stock))
    else
      var r := FirstShortage(lines[1..], variants);
      assert InStock(lines, variants) <==> InStock(lines[1..], variants) by {
        if InStock(lines[1..], variants) {
          forall i | 0 <= i < |lines| ensures lines[i].quantity <= variants[lines[i].variant].stock {
            if i > 0 { assert lines[i] == lines[1..][i - 1]; }
          }
        }
      }
      r
  }

  /** The order items the loop appends, one per line, with the variant's current price. */
  function OrderItemsFor(lines: seq<CartItem>, variants: map<nat, Variant>, order: nat): (items: seq<OrderItem>)
    requires VariantsExist(lines, variants)
    ensures |items| == |lines|
    ensures forall k | 0 <= k < |lines| ::
      items[k] == OrderItem(order, lines[k].variant, lines[k].quantity, variants[lines[k].variant].price)
  {
    if lines == [] then []
    else
      var last := lines[|lines| - 1];
      OrderItemsFor(lines[..|lines| - 1], variants, order)
        + [OrderItem(order, last.variant, last.quantity, variants[last.variant].price)]
  }

  /** The `total_price` the loop accumulates: the sum of price times quantity. */
  function LinesTotal(lines: seq<CartItem>, variants: map<nat, Variant>): nat
    requires VariantsExist(lines, variants)
  {
    if lines == [] then 0
    else
      var last := lines[|lines| - 1];
      LinesTotal(lines[..|lines| - 1], variants) + variants[last.variant].price * last.quantity
  }

  /**
   * The variant table after the bulk update: each line's variant gets the
   * stock read at the start minus the line's quantity.
   */
  function Decremented(variants: map<nat, Variant>, lines: seq<CartItem>): (r: map<nat, Variant>)
    requires VariantsExist(lines, variants) && InStock(lines, variants)
    ensures r.Keys == variants.Keys
  {
    if lines == [] then variants
    else
      var last := lines[|lines| - 1];
      var v := variants[last.variant];
      assert last.quantity <= v.stock;
      Decremented(variants, lines[..|lines| - 1])[last.variant := v.(stock := v.stock - last.quantity)]
  }

  /** The checkout action, on table values. */
  function CheckoutSpec(user: nat, carts: seq<Cart>, before: CheckoutState): CheckoutOutcome
    requires VariantsExist(before.items, before.variants)
  {
    match CartOf(carts, user)
    case None => CheckoutOutcome(CartNotFound, before)
    case Some(cart) =>
      var lines := LinesOf(before.items, cart.id);
      if lines == [] then CheckoutOutcome(CartEmpty, before)
      else
        var shell := NewOrder(before.nextOrderId, user, 0);
        match FirstShortage(lines, before.variants)
        case Some(s) =>
          CheckoutOutcome(NotEnoughStock(s),
                          before.(orders := before.orders + [shell], nextOrderId := before.nextOrderId + 1))
        case None =>
          var placed := OrderItemsFor(lines, before.variants, shell.id);
          var order := shell.(totalPrice := LinesTotal(lines, before.variants));
          CheckoutOutcome(Created(order, placed),
                          CheckoutState(WithoutCart(before.items, cart.id),
                                        Decremented(before.variants, lines),
                                        before.orders + [order], before.nextOrderId + 1,
                                        before.orderItems + placed))
  }

  // ---------------------------------------------------------------------------
  // What the checkout specification promises

  /** The stock check reports the first short line, in cart-line order, with the stock it saw. */
  lemma {:induction false} FirstShortageAt(lines: seq<CartItem>, variants: map<nat, Variant>, i: nat)
    requires VariantsExist(lines, variants)
    requires i < |lines| && InStock(lines[..i], variants)
    requires lines[i].quantity > variants[lines[i].variant].stock
    ensures FirstShortage(lines, variants) == Some(Shortage(lines[i].variant, variants[lines[i].variant].stock))
  {
    if i > 0 {
      assert lines[..i][0] == lines[0];
      assert lines[1..][..i - 1] == lines[..i][1..];
      assert lines[1..][i - 1] == lines[i];
      FirstShortageAt(lines[1..], variants, i - 1);
    }
  }

  /** Summing OrderItem.total_price over the snapshot gives the accumulated total. */
  lemma {:induction false} OrderItemsTotal(lines: seq<CartItem>, variants: map<nat, Variant>, order: nat)
    requires VariantsExist(lines, variants)
    ensures ItemsTotal(OrderItemsFor(lines, variants, order)) == LinesTotal(lines, variants)
  {
    if lines != [] {
      var prefix := lines[..|lines| - 1];
      OrderItemsTotal(prefix, variants, order);
      var items := OrderItemsFor(lines, variants, order);
      assert items[..|items| - 1] == OrderItemsFor(prefix, variants, order);
    }
  }

  /** A variant no line names keeps its row. */
  lemma {:induction false} DecrementedOther(variants: map<nat, Variant>, lines: seq<CartItem>, v: nat)
    requires VariantsExist(lines, variants) && InStock(lines, variants)
    requires v in variants && forall x | x in lines :: x.variant != v
    ensures Decremented(variants, lines)[v] == variants[v]
  {
    if lines != [] {
      var prefix := lines[..|lines| - 1];
      assert forall x | x in prefix :: x in lines;
      DecrementedOther(variants, prefix, v);
    }
  }

  /** With distinct variants, line k's variant loses exactly line k's quantity and keeps its price. */
  lemma {:induction false} DecrementedLine(variants: map<nat, Variant>, lines: seq<CartItem>, k: nat)
    requires VariantsExist(lines, variants) && InStock(lines, variants) && DistinctVariants(lines)
    requires k < |lines|
    ensures Decremented(variants, lines)[lines[k].variant]
         == variants[lines[k].variant].(stock := variants[lines[k].variant].stock - lines[k].quantity)
  {
    if k < |lines| - 1 {
      var prefix := lines[..|lines| - 1];
      assert prefix[k] == lines[k];
      assert lines[|lines| - 1].variant != lines[k].variant;
      DecrementedLine(variants, prefix, k);
    }
  }

  /** Without a cart, checkout answers CartNotFound and changes nothing. */
  lemma CheckoutWithoutCart(user: nat, carts: seq<Cart>, before: CheckoutState)
    requires VariantsExist(before.items, before.variants)
    requires forall c | c in carts :: c.user != user
    ensures CheckoutSpec(user, carts, before) == CheckoutOutcome(CartNotFound, before)
  {
  }

  /** With an empty cart, checkout answers CartEmpty and changes nothing: no order, no stock, same cart. */
  lemma CheckoutWithEmptyCart(user: nat, carts: seq<Cart>, before: CheckoutState, cart: Cart)
    requires VariantsExist(before.items, before.variants)
    requires CartOf(carts, user) == Some(cart)
    requires forall x | x in before.items :: x.cart != cart.id
    ensures CheckoutSpec(user, carts, before) == CheckoutOutcome(CartEmpty, before)
  {
    NoLinesOf(before.items, cart.id);
  }

  /**
   * When line k of the cart is the first one short of stock, checkout reports
   * that variant and its stock; the only change is an empty order shell with
   * total 0, pending and unpaid.
   */
  lemma CheckoutShortOfStock(user: nat, carts: seq<Cart>, before: CheckoutState, cart: Cart, k: nat)
    requires VariantsExist(before.items, before.variants)
    requires CartOf(carts, user) == Some(cart)
    requires var lines := LinesOf(before.items, cart.id);
      && k < |lines| && InStock(lines[..k], before.variants)
      && lines[k].quantity > before.variants[lines[k].variant].stock
    ensures var lines := LinesOf(before.items, cart.id);
      var out := CheckoutSpec(user, carts, before);
      && out.result == NotEnoughStock(Shortage(lines[k].variant, before.variants[lines[k].variant].stock))
      && out.state == before.(orders := before.orders + [Order(before.nextOrderId, user, Pending, Unpaid, 0, None)],
                              nextOrderId := before.nextOrderId + 1)
  {
    var lines := LinesOf(before.items, cart.id);
    assert VariantsExist(lines, before.variants);
    FirstShortageAt(lines, before.variants, k);
  }

  /** Checkout succeeds exactly when the user has a cart, it has lines, and every line is in stock. */
  lemma CheckoutSucceedsIff(user: nat, carts: seq<Cart>, before: CheckoutState)
    requires VariantsExist(before.items, before.variants)
    ensures CheckoutSpec(user, carts, before).result.Created? <==>
      && CartOf(carts, user).Some?
      && var lines := LinesOf(before.items, CartOf(carts, user).value.id);
         lines != [] && InStock(lines, before.variants)
  {
  }

  /**
   * A successful checkout creates one new order, pending, unpaid and without
   * a tran_id, and one order item per cart line with that line's variant and
   * quantity and the variant's price at checkout time; the order's total is
   * the sum of its items' price times quantity.
   */
  lemma CheckoutCreatesOrder(user: nat, carts: seq<Cart>, before: CheckoutState, cart: Cart)
    requires VariantsExist(before.items, before.variants)
    requires CartOf(carts, user) == Some(cart)
    requires CheckoutSpec(user, carts, before).result.Created?
    ensures var lines := LinesOf(before.items, cart.id);
      var out := CheckoutSpec(user, carts, before);
      var order := out.result.order;
      var placed := out.result.items;
      && order == Order(before.nextOrderId, user, Pending, Unpaid, order.totalPrice, None)
      && out.state.orders == before.orders + [order]
      && out.state.nextOrderId == before.nextOrderId + 1
      && |placed| == |lines|
      && (forall k | 0 <= k < |lines| ::
            placed[k] == OrderItem(order.id, lines[k].variant, lines[k].quantity,
                                    before.variants[lines[k].variant].price))
      && out.state.orderItems == before.orderItems + placed
      && order.totalPrice == ItemsTotal(placed)
  {
    var lines := LinesOf(before.items, cart.id);
    assert VariantsExist(lines, before.variants);
    OrderItemsTotal(lines, before.variants, before.nextOrderId);
  }

  /**
   * A successful checkout takes from each cart line's variant exactly the
   * line's quantity and keeps its price; every variant not in the cart keeps
   * its row, and no variant is added or removed.
   */
  lemma CheckoutDecrementsStock(user: nat, carts: seq<Cart>, before: CheckoutState, cart: Cart)
    requires VariantsExist(before.items, before.variants)
    requires Increasing(before.items) && UniquePerCartAndVariant(before.items)
    requires CartOf(carts, user) == Some(cart)
    requires CheckoutSpec(user, carts, before).result.Created?
    ensures var lines := LinesOf(before.items, cart.id);
      var after := CheckoutSpec(user, carts, before).state.variants;
      && after.Keys == before.variants.Keys
      && (forall k | 0 <= k < |lines| ::
            && after[lines[k].variant].stock + lines[k].quantity == before.variants[lines[k].variant].stock
            && after[lines[k].variant].price == before.variants[lines[k].variant].price)
      && (forall v | v in before.variants && (forall x | x in lines :: x.variant != v) ::
            after[v] == before.variants[v])
  {
    var lines := LinesOf(before.items, cart.id);
    assert VariantsExist(lines, before.variants);
    assert InStock(lines, before.variants);
    var after := CheckoutSpec(user, carts, before).state.variants;
    assert after == Decremented(before.variants, lines);
    assert DistinctVariants(lines) by {
      forall i, j | 0 <= i < j < |lines| ensures lines[i].variant != lines[j].variant {
        LinesHaveDistinctVariants(before.items, cart.id, i, j);
      }
    }
    forall k | 0 <= k < |lines|
      ensures after[lines[k].variant].stock + lines[k].quantity == before.variants[lines[k].variant].stock
      ensures after[lines[k].variant].price == before.variants[lines[k].variant].price
    {
      DecrementedLine(before.variants, lines, k);
    }
    forall v | v in before.variants && (forall x | x in lines :: x.variant != v)
      ensures after[v] == before.variants[v]
    {
      DecrementedOther(before.variants, lines, v);
    }
  }

  /** A successful checkout deletes every line of the user's cart and touches no other line. */
  lemma CheckoutClearsCart(user: nat, carts: seq<Cart>, before: CheckoutState, cart: Cart)
    requires VariantsExist(before.items, before.variants)
    requires CartOf(carts, user) == Some(cart)
    requires CheckoutSpec(user, carts, before).result.Created?
    ensures var after := CheckoutSpec(user, carts, before).state.items;
      && LinesOf(after, cart.id) == []
      && (forall x :: x in after <==> x in before.items && x.cart != cart.id)
  {
    var after := CheckoutSpec(user, carts, before).state.items;
    assert after == WithoutCart(before.items, cart.id);
    NoLinesOf(after, cart.id);
  }

  /** A table with no line of `cart` lists no lines for it. */
  lemma NoLinesOf(items: seq<CartItem>, cart: nat)
    requires forall x | x in items :: x.cart != cart
    ensures LinesOf(items, cart) == []
  {
    if LinesOf(items, cart) != [] {
      assert LinesOf(items, cart)[0] in LinesOf(items, cart);
    }
  }

  // ---------------------------------------------------------------------------
  // OrderViewSet

  /**
   * The loop of `checkout` over the cart lines, in order: it stops at the
   * first line whose quantity exceeds the stock read at the start, and
   * otherwise snapshots each line into an order item, decrements a copy of
   * the variant and accumulates price times quantity.
   */
  method ProcessLines(lines: seq<CartItem>, stock: map<nat, Variant>, order: nat)
    returns (shortage: Option<Shortage>, placed: seq<OrderItem>, total: nat, updated: map<nat, Variant>)
    requires VariantsExist(lines, stock)
    ensures shortage == FirstShortage(lines, stock)
    ensures shortage.None? ==> (&& InStock(lines, stock)
                                && placed == OrderItemsFor(lines, stock, order)
                                && total == LinesTotal(lines, stock)
                                && updated == Decremented(stock, lines))
  {
    total := 0;
    placed := [];
    updated := stock;
    var i := 0;
    while i < |lines|
      invariant 0 <= i <= |lines|
      invariant InStock(lines[..i], stock)
      invariant placed == OrderItemsFor(lines[..i], stock, order)
      invariant total == LinesTotal(lines[..i], stock)
      invariant updated == Decremented(stock, lines[..i])
    {
      var line := lines[i];
      var variant := stock[line.variant];
      if line.quantity > variant.stock {
        FirstShortageAt(lines, stock, i);
        return Some(Shortage(line.variant, variant.stock)), placed, total, updated;
      }
      assert lines[..i + 1][..i] == lines[..i];
      placed := placed + [OrderItem(order, line.variant, line.quantity, variant.price)];
      updated := updated[line.variant := variant.(stock := variant.stock - line.quantity)];
      total := total + variant.price * line.quantity;
      i := i + 1;
    }
    assert lines[..i] == lines;
    shortage := None;
  }

  /**
   * `OrderViewSet.checkout` for the authenticated `user`: the order row is
   * created before the loop; only after the loop are the items, the stocks,
   * the total and the cart deletion written.
   */
  method Checkout(user: nat, carts: CartTable, cartItems: CartItemTable, variants: VariantTable,
                  orders: OrderTable, orderItems: OrderItemTable) returns (r: CheckoutResult)
    requires VariantsExist(cartItems.rows, variants.rows)
    modifies cartItems, variants, orders, orderItems
    ensures CheckoutSpec(user, carts.rows, old(CheckoutState(cartItems.rows, variants.rows, orders.rows,
                                                             orders.nextId, orderItems.rows)))
         == CheckoutOutcome(r, CheckoutState(cartItems.rows, variants.rows, orders.rows,
                                             orders.nextId, orderItems.rows))
    ensures cartItems.nextId == old(cartItems.nextId)
  {
    var found := CartOf(carts.rows, user);
    if found.None? {
      return CartNotFound;
    }
    var cart := found.value;
    var lines := LinesOf(cartItems.rows, cart.id);
    if lines == [] {
      return CartEmpty;
    }
    var order := NewOrder(orders.nextId, user, 0);
    orders.rows := orders.rows + [order];
    orders.nextId := orders.nextId + 1;
    var shortage, placed, total, updated := ProcessLines(lines, variants.rows, order.id);
    if shortage.Some? {
      return NotEnoughStock(shortage.value);
    }
    orderItems.rows := orderItems.rows + placed;
    variants.rows := updated;
    order := order.(totalPrice := total);
    orders.rows := orders.rows[|orders.rows| - 1 := order];
    cartItems.rows := WithoutCart(cartItems.rows, cart.id);
    r := Created(order, placed);
  }

  /** `get_queryset`: staff see every order, everyone else only their own. */
  function VisibleOrders(orders: seq<Order>, user: User): (r: seq<Order>)
    ensures forall o :: o in r <==> o in orders && (user.isStaff || o.user == user.id)
    ensures KeysIncreasing(orders) ==> KeysIncreasing(r)
  {
    if orders == [] then []
    else if user.isStaff || orders[0].user == user.id then [orders[0]] + VisibleOrders(orders[1..], user)
    else VisibleOrders(orders[1..], user)
  }

  predicate KeysIncreasing(orders: seq<Order>)
  {
    forall i, j | 0 <= i < j < |orders| :: orders[i].id < orders[j].id
  }

  /** A sequence backwards. */
  function Reversed(s: seq<Order>): (r: seq<Order>)
    ensures |r| == |s|
    ensures forall k | 0 <= k < |s| :: r[k] == s[|s| - 1 - k]
  {
    if s == [] then [] else Reversed(s[1..]) + [s[0]]
  }

  /** The order list as served: the visible orders in descending key order (ordering = ['-id']). */
  function OrderListing(orders: seq<Order>, user: User): seq<Order>
  {
    Reversed(VisibleOrders(orders, user))
  }

  /**
   * The listing holds exactly the orders the user may see, newest first:
   * non-staff users see only their own orders, staff see all.
   */
  lemma OrderListingIsVisibleNewestFirst(orders: seq<Order>, nextId: nat, user: User)
    requires OrdersValid(orders, nextId)
    ensures var l := OrderListing(orders, user);
      && (forall o :: o in l <==> o in orders && (user.isStaff || o.user == user.id))
      && (forall i, j | 0 <= i < j < |l| :: l[i].id > l[j].id)
  {
    var v := VisibleOrders(orders, user);
    var l := OrderListing(orders, user);
    forall o ensures o in l <==> o in v {
      if o in v {
        var k :| 0 <= k < |v| && v[k] == o;
        assert l[|v| - 1 - k] == o;
      }
    }
  }

  /** `create`: direct creation is refused with 405, whatever the request. */
  function CreateStatus(): (code: int)
    ensures code == 405
  {
    405
  }

  datatype AdminResult = Updated(order: Order) | Deleted | Denied | NotFound | InvalidChoice

  /** Position of the order with primary key `id`. */
  function OrderIndex(orders: seq<Order>, id: nat): (r: Option<nat>)
    ensures r.Some? ==> r.value < |orders| && orders[r.value].id == id
    ensures r.None? <==> forall o | o in orders :: o.id != id
  {
    if orders == [] then None
    else if orders[0].id == id then Some(0)
    else match OrderIndex(orders[1..], id)
      case None => None
      case Some(k) => Some(k + 1)
  }

  /**
   * `update` and `partial_update`: a non-staff user is refused before the
   * order is even looked up; staff may set `status` and `payment_status`
   * to any of their choices, with no transition rule. Omitted fields keep
   * their value (both fields have defaults, so neither is required).
   */
  method UpdateOrder(user: User, id: nat, status: Option<string>, payment: Option<string>, orders: OrderTable)
    returns (r: AdminResult)
    modifies orders
    ensures orders.nextId == old(orders.nextId)
    ensures !user.isStaff ==> r == Denied && orders.rows == old(orders.rows)
    ensures r.Updated? ==> user.isStaff && OrderIndex(old(orders.rows), id).Some?
    ensures r.Updated? ==>
      var k := OrderIndex(old(orders.rows), id).value;
      && Changed(old(orders.rows)[k], status, payment) == Some(r.order)
      && orders.rows == old(orders.rows)[k := r.order]
    ensures !r.Updated? ==> orders.rows == old(orders.rows)
    ensures user.isStaff && OrderIndex(old(orders.rows), id).None? ==> r == NotFound
    ensures user.isStaff && OrderIndex(old(orders.rows), id).Some? ==>
      (r.Updated? <==> Changed(old(orders.rows)[OrderIndex(old(orders.rows), id).value], status, payment).Some?)
  {
    if !user.isStaff {
      return Denied;
    }
    var found := OrderIndex(orders.rows, id);
    if found.None? {
      return NotFound;
    }
    var k := found.value;
    var o := orders.rows[k];
    if status.Some? {
      var s := ParseStatus(status.value);
      if s.None? {
        return InvalidChoice;
      }
      o := o.(status := s.value);
    }
    if payment.Some? {
      var p := ParsePayment(payment.value);
      if p.None? {
        return InvalidChoice;
      }
      o := o.(paymentStatus := p.value);
    }
    orders.rows := orders.rows[k := o];
    r := Updated(o);
  }

  /**
   * The order after a staff update: each supplied field must be one of its
   * choices and replaces the stored value; total, user and tran_id stay.
   */
  function Changed(o: Order, status: Option<string>, payment: Option<string>): (r: Option<Order>)
    ensures r.Some? <==> (status.None? || ParseStatus(status.value).Some?)
                         && (payment.None? || ParsePayment(payment.value).Some?)
    ensures r.Some? ==> && r.value.id == o.id && r.value.user == o.user
                        && r.value.totalPrice == o.totalPrice && r.value.tranId == o.tranId
                        && (status.None? ==> r.value.status == o.status)
                        && (status.Some? ==> StatusValue(r.value.status) == status.value)
                        && (payment.None? ==> r.value.paymentStatus == o.paymentStatus)
                        && (payment.Some? ==> PaymentValue(r.value.paymentStatus) == payment.value)
  {
    var s := if status.None? then Some(o.status) else ParseStatus(status.value);
    var p := if payment.None? then Some(o.paymentStatus) else ParsePayment(payment.value);
    if s.None? || p.None? then None
    else Some(o.(status := s.value, paymentStatus := p.value))
  }

  /** Every order but the one with key `id`. */
  function WithoutOrderRow(orders: seq<Order>, id: nat): (rest: seq<Order>)
    ensures forall o :: o in rest <==> o in orders && o.id != id
  {
    if orders == [] then []
    else if orders[0].id != id then [orders[0]] + WithoutOrderRow(orders[1..], id)
    else WithoutOrderRow(orders[1..], id)
  }

  /** `destroy`: staff only; deleting an order deletes its items (on_delete=CASCADE). */
  method DestroyOrder(user: User, id: nat, orders: OrderTable, orderItems: OrderItemTable) returns (r: AdminResult)
    modifies orders, orderItems
    ensures orders.nextId == old(orders.nextId)
    ensures !user.isStaff ==> r == Denied
    ensures user.isStaff ==> (r == Deleted <==> OrderIndex(old(orders.rows), id).Some?)
    ensures r == Deleted ==> orders.rows == WithoutOrderRow(old(orders.rows), id)
                             && orderItems.rows == WithoutOrder(old(orderItems.rows), id)
    ensures r != Deleted ==> orders.rows == old(orders.rows) && orderItems.rows == old(orderItems.rows)
  {
    if !user.isStaff {
      return Denied;
    }
    if OrderIndex(orders.rows, id).None? {
      return NotFound;
    }
    orders.rows := WithoutOrderRow(orders.rows, id);
    orderItems.rows := WithoutOrder(orderItems.rows, id);
    r := Deleted;
  }
}
