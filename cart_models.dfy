/**
 * cart/models.py: one cart per user (a OneToOneField) and cart lines that
 * are unique per (cart, variant), have a quantity of at least one and are
 * listed in primary-key order. Both tables are kept in primary-key order.
 */
module CartModels {
  import opened Wrappers
  import opened ProductModels

  datatype Cart = Cart(id: nat, user: nat)

  datatype CartItem = CartItem(id: nat, cart: nat, variant: nat, quantity: nat)

  /** The field default of `CartItem.quantity`. */
  const DefaultQuantity: nat := 1

  class CartTable {
    var rows: seq<Cart>
    var nextId: nat
  }

  class CartItemTable {
    var rows: seq<CartItem>
    var nextId: nat
  }

  /** The primary keys of the cart table. */
  function CartIds(carts: seq<Cart>): set<nat>
  {
    set c | c in carts :: c.id
  }

  /** Cart table invariant: keys increasing and below the next key, and no user with two carts. */
  predicate CartsValid(carts: seq<Cart>, nextId: nat)
  {
    && (forall i, j | 0 <= i < j < |carts| :: carts[i].id < carts[j].id)
    && (forall i | 0 <= i < |carts| :: carts[i].id < nextId)
    && (forall x, y | x in carts && y in carts && x.user == y.user :: x == y)
  }

  /** Cart lines in strictly increasing primary-key order (Meta.ordering = ['id']). */
  predicate Increasing(items: seq<CartItem>)
  {
    forall i, j | 0 <= i < j < |items| :: items[i].id < items[j].id
  }

  /** Every line names an existing variant (the foreign key of CartItem.variant). */
  predicate VariantsExist(items: seq<CartItem>, variants: map<nat, Variant>)
  {
    forall x | x in items :: x.variant in variants
  }

  /** At most one line per (cart, variant) (Meta.unique_together). */
  predicate UniquePerCartAndVariant(items: seq<CartItem>)
  {
    forall x, y | x in items && y in items && x.cart == y.cart && x.variant == y.variant :: x == y
  }

  /** Cart-line table invariant: the model constraints plus both foreign keys. */
  predicate ItemsValid(items: seq<CartItem>, carts: seq<Cart>, variants: map<nat, Variant>, nextId: nat)
  {
    && Increasing(items)
    && (forall x | x in items :: x.id < nextId && x.quantity >= 1 && x.cart in CartIds(carts))
    && VariantsExist(items, variants)
    && UniquePerCartAndVariant(items)
  }

  /** `Cart.objects.filter(user=user).first()`: the user's cart with the lowest key, if any. */
  function CartOf(carts: seq<Cart>, user: nat): (r: Option<Cart>)
    ensures r.Some? ==> r.value in carts && r.value.user == user
    ensures r.None? <==> forall c | c in carts :: c.user != user
  {
    if carts == [] then None
    else if carts[0].user == user then Some(carts[0])
    else CartOf(carts[1..], user)
  }

  /** `Cart.objects.filter(id=id).first()`; a `None` id matches no row. */
  function CartWithId(carts: seq<Cart>, id: Option<int>): (r: Option<Cart>)
    ensures r.Some? ==> r.value in carts && id == Some(r.value.id as int)
    ensures r.None? <==> id.None? || forall c | c in carts :: c.id as int != id.value
  {
    if id.None? || carts == [] then None
    else if carts[0].id as int == id.value then Some(carts[0])
    else CartWithId(carts[1..], id)
  }

  /** `CartItem.objects.filter(cart=cart)`: the lines of one cart, in table order. */
  function LinesOf(items: seq<CartItem>, cart: nat): (lines: seq<CartItem>)
    ensures forall x :: x in lines <==> x in items && x.cart == cart
    ensures Increasing(items) ==> Increasing(lines)
  {
    if items == [] then []
    else if items[0].cart == cart then [items[0]] + LinesOf(items[1..], cart)
    else LinesOf(items[1..], cart)
  }

  /** The table after deleting every line of one cart. */
  function WithoutCart(items: seq<CartItem>, cart: nat): (rest: seq<CartItem>)
    ensures forall x :: x in rest <==> x in items && x.cart != cart
    ensures Increasing(items) ==> Increasing(rest)
  {
    if items == [] then []
    else if items[0].cart != cart then [items[0]] + WithoutCart(items[1..], cart)
    else WithoutCart(items[1..], cart)
  }

  /** The table after the cascade that deleting a variant causes (on_delete=CASCADE). */
  function WithoutVariant(items: seq<CartItem>, variant: nat): (rest: seq<CartItem>)
    ensures forall x :: x in rest <==> x in items && x.variant != variant
    ensures Increasing(items) ==> Increasing(rest)
  {
    if items == [] then []
    else if items[0].variant != variant then [items[0]] + WithoutVariant(items[1..], variant)
    else WithoutVariant(items[1..], variant)
  }

  /** Position of `CartItem.objects.filter(cart=cart, variant=variant).first()`. */
  function LineIndex(items: seq<CartItem>, cart: nat, variant: nat): (r: Option<nat>)
    ensures r.Some? ==> r.value < |items| && items[r.value].cart == cart && items[r.value].variant == variant
    ensures r.None? <==> forall x | x in items :: !(x.cart == cart && x.variant == variant)
  {
    if items == [] then None
    else if items[0].cart == cart && items[0].variant == variant then Some(0)
    else match LineIndex(items[1..], cart, variant)
      case None => None
      case Some(k) => Some(k + 1)
  }

  /** Position of the line with primary key `id`. */
  function IndexOfId(items: seq<CartItem>, id: nat): (r: Option<nat>)
    ensures r.Some? ==> r.value < |items| && items[r.value].id == id
    ensures r.None? <==> forall x | x in items :: x.id != id
  {
    if items == [] then None
    else if items[0].id == id then Some(0)
    else match IndexOfId(items[1..], id)
      case None => None
      case Some(k) => Some(k + 1)
  }

  /** The owner of `cart`, following the CartItem.cart foreign key. */
  function OwnerOf(carts: seq<Cart>, cart: nat): (r: Option<nat>)
    ensures r.Some? ==> Cart(cart, r.value) in carts
    ensures r.None? <==> cart !in CartIds(carts)
  {
    if carts == [] then None
    else if carts[0].id == cart then Some(carts[0].user)
    else OwnerOf(carts[1..], cart)
  }

  /** Two lines of one cart never share a variant, when the table invariant holds. */
  lemma {:induction false} LinesHaveDistinctVariants(items: seq<CartItem>, cart: nat, i: nat, j: nat)
    requires Increasing(items) && UniquePerCartAndVariant(items)
    requires i < j < |LinesOf(items, cart)|
    ensures LinesOf(items, cart)[i].variant != LinesOf(items, cart)[j].variant
  {
    var lines := LinesOf(items, cart);
    assert lines[i] in items && lines[j] in items;
    assert lines[i].id < lines[j].id;
  }

  /** The user's cart and the cart table after `Cart.objects.get_or_create(user=user)`. */
  datatype CartGot = CartGot(cart: Cart, rows: seq<Cart>, nextId: nat)

  /** `Cart.objects.get_or_create(user=user)`: the existing cart, or a new one under the next key. */
  function GetOrCreateCart(carts: seq<Cart>, nextId: nat, user: nat): (got: CartGot)
    ensures got.cart in got.rows && got.cart.user == user
    ensures forall c | c in carts :: c in got.rows
  {
    match CartOf(carts, user)
    case Some(cart) => CartGot(cart, carts, nextId)
    case None => CartGot(Cart(nextId, user), carts + [Cart(nextId, user)], nextId + 1)
  }

  /** get_or_create keeps one cart per user, and afterwards the user's cart is the one returned. */
  lemma GetOrCreateKeepsCartsValid(carts: seq<Cart>, nextId: nat, user: nat)
    requires CartsValid(carts, nextId)
    ensures CartsValid(GetOrCreateCart(carts, nextId, user).rows, GetOrCreateCart(carts, nextId, user).nextId)
    ensures CartOf(GetOrCreateCart(carts, nextId, user).rows, user) == Some(GetOrCreateCart(carts, nextId, user).cart)
    ensures CartIds(carts) <= CartIds(GetOrCreateCart(carts, nextId, user).rows)
  {
    var got := GetOrCreateCart(carts, nextId, user);
    if CartOf(carts, user).None? {
      assert forall i | 0 <= i < |got.rows| :: got.rows[i] in carts || i == |carts|;
      var r := CartOf(got.rows, user);
      assert r.Some? by { assert got.cart in got.rows; }
    }
  }

  /** A second get_or_create for the same user changes nothing. */
  lemma GetOrCreateIdempotent(carts: seq<Cart>, nextId: nat, user: nat)
    requires CartsValid(carts, nextId)
    ensures var got := GetOrCreateCart(carts, nextId, user);
            GetOrCreateCart(got.rows, got.nextId, user) == got
  {
    GetOrCreateKeepsCartsValid(carts, nextId, user);
  }

  /** Two cart rows with one key are the same row. */
  lemma {:induction false} CartKeysUnique(carts: seq<Cart>, nextId: nat, x: Cart, y: Cart)
    requires CartsValid(carts, nextId)
    requires x in carts && y in carts && x.id == y.id
    ensures x == y
  {
    var i :| 0 <= i < |carts| && carts[i] == x;
    var j :| 0 <= j < |carts| && carts[j] == y;
    if i < j {
      assert carts[i].id < carts[j].id;
    } else if j < i {
      assert carts[j].id < carts[i].id;
    }
  }
}
