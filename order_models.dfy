/**
 * orders/models.py: orders with their status and payment-status value
 * sets, and order items that snapshot a variant's price. Money is integer
 * cents. The order table is kept in primary-key order; listings show it in
 * descending key order (Meta.ordering = ['-id']).
 */
module OrderModels {
  import opened Wrappers

  /** STATUS_CHOICES. */
  datatype OrderStatus = Pending | Processing | Shipped | Delivered | Cancelled

  /** PAYMENT_STATUS_CHOICES. */
  datatype PaymentStatus = Unpaid | PaymentPending | Paid | PaymentFailed | Refunded

  /** The stored value of a status choice. */
  function StatusValue(s: OrderStatus): string
  {
    match s
    case Pending => "pending"
    case Processing => "processing"
    case Shipped => "shipped"
    case Delivered => "delivered"
    case Cancelled => "cancelled"
  }

  /** Choice validation of the `status` field: only the five stored values are accepted. */
  function ParseStatus(v: string): (r: Option<OrderStatus>)
    ensures r.Some? ==> StatusValue(r.value) == v
  {
    if v == "pending" then Some(Pending)
    else if v == "processing" then Some(Processing)
    else if v == "shipped" then Some(Shipped)
    else if v == "delivered" then Some(Delivered)
    else if v == "cancelled" then Some(Cancelled)
    else None
  }

  /** The stored value of a payment-status choice. */
  function PaymentValue(s: PaymentStatus): string
  {
    match s
    case Unpaid => "unpaid"
    case PaymentPending => "pending"
    case Paid => "paid"
    case PaymentFailed => "failed"
    case Refunded => "refunded"
  }

  /** Choice validation of the `payment_status` field. */
  function ParsePayment(v: string): (r: Option<PaymentStatus>)
    ensures r.Some? ==> PaymentValue(r.value) == v
  {
    if v == "unpaid" then Some(Unpaid)
    else if v == "pending" then Some(PaymentPending)
    else if v == "paid" then Some(Paid)
    else if v == "failed" then Some(PaymentFailed)
    else if v == "refunded" then Some(Refunded)
    else None
  }

  /** Every status is accepted back from its stored value, so the value sets are exactly the choices. */
  lemma ChoicesRoundTrip(s: OrderStatus, p: PaymentStatus)
    ensures ParseStatus(StatusValue(s)) == Some(s)
    ensures ParsePayment(PaymentValue(p)) == Some(p)
  {
  }

  /** An order; `tranId` is the optional `tran_id`, created_at/updated_at are left out. */
  datatype Order = Order(id: nat, user: nat, status: OrderStatus, paymentStatus: PaymentStatus,
                         totalPrice: nat, tranId: Option<string>)

  /** `Order.objects.create(user=user, total_price=total)`: the field defaults apply. */
  function NewOrder(id: nat, user: nat, total: nat): (o: Order)
    ensures o.id == id && o.user == user && o.totalPrice == total
    ensures o.status == Pending && o.paymentStatus == Unpaid && o.tranId == None
  {
    Order(id, user, Pending, Unpaid, total, None)
  }

  /** An order line: a snapshot of the variant, the quantity and the unit price. */
  datatype OrderItem = OrderItem(order: nat, variant: nat, quantity: nat, price: nat)

  /** `OrderItem.total_price`. */
  function ItemTotal(i: OrderItem): nat
  {
    i.price * i.quantity
  }

  /** Sum of `total_price` over order lines. */
  function ItemsTotal(items: seq<OrderItem>): nat
  {
    if items == [] then 0 else ItemsTotal(items[..|items| - 1]) + ItemTotal(items[|items| - 1])
  }

  /** Adding one line to a sum of order lines adds exactly that line's price times quantity. */
  lemma ItemsTotalAppend(items: seq<OrderItem>, i: OrderItem)
    ensures ItemsTotal(items + [i]) == ItemsTotal(items) + i.price * i.quantity
  {
    assert (items + [i])[..|items|] == items;
  }

  class OrderTable {
    var rows: seq<Order>
    var nextId: nat
  }

  class OrderItemTable {
    var rows: seq<OrderItem>
  }

  /** Order table invariant: keys increasing and below the next key. */
  predicate OrdersValid(rows: seq<Order>, nextId: nat)
  {
    && (forall i, j | 0 <= i < j < |rows| :: rows[i].id < rows[j].id)
    && (forall i | 0 <= i < |rows| :: rows[i].id < nextId)
  }

  /** A variant some order line refers to; on_delete=PROTECT makes deleting it fail. */
  predicate Referenced(items: seq<OrderItem>, variant: nat)
  {
    exists i | 0 <= i < |items| :: items[i].variant == variant
  }

  /** The order-line table after the cascade that deleting an order causes. */
  function WithoutOrder(items: seq<OrderItem>, order: nat): (rest: seq<OrderItem>)
    ensures forall x :: x in rest <==> x in items && x.order != order
  {
    if items == [] then []
    else if items[0].order != order then [items[0]] + WithoutOrder(items[1..], order)
    else WithoutOrder(items[1..], order)
  }
}
