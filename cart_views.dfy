/**
 * cart/views.py: the cart endpoints of an authenticated user (the
 * IsAuthenticated permission is modelled by taking a `User`, not a
 * `Requester`). Each write endpoint is a specification function on a
 * `CartState` and a method over the two tables that is proved to perform
 * it.
 */
module CartViews {
  import opened Wrappers
  import opened Accounts
  import opened ProductModels
  import opened CartModels
  import opened CartSerializers

  /** Both cart tables at one moment. */
  datatype CartState = CartState(carts: seq<Cart>, nextCartId: nat, items: seq<CartItem>, nextItemId: nat)

  predicate StateValid(s: CartState, variants: map<nat, Variant>)
  {
    CartsValid(s.carts, s.nextCartId) && ItemsValid(s.items, s.carts, variants, s.nextItemId)
  }

  function StateOf(carts: CartTable, cartItems: CartItemTable): CartState
    reads carts, cartItems
  {
    CartState(carts.rows, carts.nextId, cartItems.rows, cartItems.nextId)
  }

  /** The state after `Cart.objects.get_or_create(user=user)`, and the cart it gives. */
  function WithCartOf(s: CartState, user: nat): (Cart, CartState)
  {
    var got := GetOrCreateCart(s.carts, s.nextCartId, user);
    (got.cart, s.(carts := got.rows, nextCartId := got.nextId))
  }

  // ---------------------------------------------------------------- listings

  /** `CartViewSet.get_queryset`: every cart for staff, otherwise the user's own. */
  function VisibleCarts(carts: seq<Cart>, user: User): (r: seq<Cart>)
    ensures forall c :: c in r <==> c in carts && (user.isStaff || c.user == user.id)
    ensures (forall i, j | 0 <= i < j < |carts| :: carts[i].id < carts[j].id)
            ==> (forall i, j | 0 <= i < j < |r| :: r[i].id < r[j].id)
  {
    if carts == [] then []
    else if user.isStaff || carts[0].user == user.id then [carts[0]] + VisibleCarts(carts[1..], user)
    else VisibleCarts(carts[1..], user)
  }

  /** A customer sees exactly their own cart, when they have one, and nothing else. */
  lemma CustomerSeesOwnCart(carts: seq<Cart>, nextId: nat, user: User)
    requires CartsValid(carts, nextId) && !user.isStaff
    ensures VisibleCarts(carts, user) == (match CartOf(carts, user.id) case None => [] case Some(c) => [c])
  {
    var r := VisibleCarts(carts, user);
    if CartOf(carts, user.id).Some? {
      assert CartOf(carts, user.id).value in r;
    }
  }

  /**
   * `CartViewSet.get_object`: retrieve ignores the key in the URL and looks
   * up the requesting user's own cart, for staff too; `None` is a 404.
   */
  function RetrieveCart(carts: seq<Cart>, user: User, pk: nat): Option<Cart>
  {
    CartOf(carts, user.id)
  }

  /**
   * Whatever key is asked for, retrieve answers with the user's own cart, or
   * 404 exactly when the user has none: staff, who list every cart, cannot
   * retrieve another user's cart by its key.
   */
  lemma RetrieveGivesOwnCart(carts: seq<Cart>, user: User, pk: nat, pk': nat)
    ensures RetrieveCart(carts, user, pk) == RetrieveCart(carts, user, pk')
    ensures var r := RetrieveCart(carts, user, pk);
            && (r.Some? ==> r.value in carts && r.value.user == user.id)
            && (r.None? <==> forall c | c in carts :: c.user != user.id)
  {
  }

  /** A staff user lists another user's cart, yet retrieving it by its key does not give it. */
  lemma StaffListsButCannotRetrieve(carts: seq<Cart>, user: User, c: Cart)
    requires user.isStaff && c in carts && c.user != user.id
    ensures c in VisibleCarts(carts, user)
    ensures RetrieveCart(carts, user, c.id) != Some(c)
  {
  }

  /** `CartItemViewSet.get_queryset`: every line for staff, otherwise the lines whose cart the user owns. */
  function VisibleItems(items: seq<CartItem>, carts: seq<Cart>, user: User): (r: seq<CartItem>)
    ensures forall x :: x in r <==> x in items && (user.isStaff || OwnerOf(carts, x.cart) == Some(user.id))
    ensures Increasing(items) ==> Increasing(r)
  {
    if items == [] then []
    else if user.isStaff || OwnerOf(carts, items[0].cart) == Some(user.id) then
      [items[0]] + VisibleItems(items[1..], carts, user)
    else VisibleItems(items[1..], carts, user)
  }

  /** Following the cart-to-user relation gives a customer exactly the lines of their own cart. */
  lemma {:induction false} CustomerSeesOwnLines(items: seq<CartItem>, carts: seq<Cart>, nextId: nat, user: User)
    requires CartsValid(carts, nextId) && !user.isStaff
    ensures VisibleItems(items, carts, user) == (match CartOf(carts, user.id) case None => [] case Some(c) => LinesOf(items, c.id))
  {
    if items != [] {
      CustomerSeesOwnLines(items[1..], carts, nextId, user);
      var x := items[0];
      var own := OwnerOf(carts, x.cart);
      match CartOf(carts, user.id)
      case None =>
        assert own != Some(user.id);
      case Some(c) =>
        if own == Some(user.id) {
          assert Cart(x.cart, user.id) in carts;
          assert x.cart == c.id;
        }
        if x.cart == c.id {
          assert own.Some? by { assert c.id in CartIds(carts); }
          CartKeysUnique(carts, nextId, c, Cart(x.cart, own.value));
        }
    }
  }

  // ---------------------------------------------------------------- create

  datatype CreateResult =
    | Added(line: CartItem)                     // a new line, 201
    | Merged(line: CartItem)                    // the quantity added to the existing line, 201
    | Invalid(error: CartItemError)             // the serializer refused the data, 400
    | ExceedsStock(available: nat, inCart: nat) // perform_create refused the quantity, 400

  function CreateStatus(r: CreateResult): (code: int)
    ensures code == 201 <==> r.Added? || r.Merged?
    ensures code != 201 ==> code == 400
  {
    if r.Added? || r.Merged? then 201 else 400
  }

  datatype LineOutcome = LineOutcome(result: CreateResult, items: seq<CartItem>, nextId: nat)

  /** The quantity of `variant` in `cart`, 0 when the cart has no such line. */
  function QuantityOf(items: seq<CartItem>, cart: nat, variant: nat): (q: nat)
    ensures q > 0 ==> exists x | x in items :: x.cart == cart && x.variant == variant && x.quantity == q
  {
    match LineIndex(items, cart, variant)
    case None => 0
    case Some(k) => items[k].quantity
  }

  /** The second half of `perform_create`: merge into the cart's line for `variant`, or add one, within `stock`. */
  function AddLine(items: seq<CartItem>, nextId: nat, cart: nat, variant: nat, quantity: nat, stock: nat): LineOutcome
  {
    match LineIndex(items, cart, variant)
    case Some(k) =>
      var merged := items[k].quantity + quantity;
      if merged > stock then LineOutcome(ExceedsStock(stock, items[k].quantity), items, nextId)
      else LineOutcome(Merged(items[k].(quantity := merged)), items[k := items[k].(quantity := merged)], nextId)
    case None =>
      if quantity > stock then LineOutcome(ExceedsStock(stock, 0), items, nextId)
      else
        var line := CartItem(nextId, cart, variant, quantity);
        LineOutcome(Added(line), items + [line], nextId + 1)
  }

  /** The whole create endpoint: serializer validation, then `perform_create`. */
  function CreateSpec(user: nat, attrs: Attrs, s: CartState, variants: map<nat, Variant>): (CreateResult, CartState)
  {
    match Validate(attrs, None, variants)
    case Failure(e) => (Invalid(e), s)
    case Success(_) =>
      var (cart, s1) := WithCartOf(s, user);
      var variant := attrs.variant.value;
      var out := AddLine(s1.items, s1.nextItemId, cart.id, variant, attrs.quantity.value as nat, variants[variant].stock);
      (out.result, s1.(items := out.items, nextItemId := out.nextId))
  }

  /** A `variant_detail` key that names no variant is a 400 that creates neither a cart nor a line. */
  lemma UnknownVariantRefused(user: nat, attrs: Attrs, s: CartState, variants: map<nat, Variant>)
    requires attrs.variant.Some? && attrs.variant.value !in variants
    ensures CreateSpec(user, attrs, s, variants) == (Invalid(UnknownVariant(attrs.variant.value)), s)
    ensures CreateStatus(CreateSpec(user, attrs, s, variants).0) == 400
  {
  }

  /** Adding a line keeps the line table invariant. */
  lemma AddLineKeepsItemsValid(items: seq<CartItem>, nextId: nat, carts: seq<Cart>, variants: map<nat, Variant>,
                               cart: nat, variant: nat, quantity: nat, stock: nat)
    requires ItemsValid(items, carts, variants, nextId)
    requires cart in CartIds(carts) && variant in variants && quantity >= 1
    ensures var out := AddLine(items, nextId, cart, variant, quantity, stock);
            ItemsValid(out.items, carts, variants, out.nextId)
  {
    var out := AddLine(items, nextId, cart, variant, quantity, stock);
    match LineIndex(items, cart, variant)
    case Some(k) =>
      if out.items != items {
        forall x | x in out.items ensures x == out.items[k] || x in items {
        }
      }
    case None =>
  }

  /** An accepted create leaves the requested quantity on top of what the cart held, and never more than the stock. */
  lemma AddLineQuantity(items: seq<CartItem>, nextId: nat, cart: nat, variant: nat, quantity: nat, stock: nat)
    requires Increasing(items) && UniquePerCartAndVariant(items)
    requires forall x | x in items :: x.id < nextId
    ensures var out := AddLine(items, nextId, cart, variant, quantity, stock);
            && ((out.result.Added? || out.result.Merged?) <==> QuantityOf(items, cart, variant) + quantity <= stock)
            && (out.result.ExceedsStock? ==> out.items == items && out.nextId == nextId)
            && (out.result.Added? || out.result.Merged? ==>
                  && QuantityOf(out.items, cart, variant) == QuantityOf(items, cart, variant) + quantity
                  && out.result.line in out.items)
  {
    var out := AddLine(items, nextId, cart, variant, quantity, stock);
    match LineIndex(items, cart, variant)
    case Some(k) =>
      if !out.result.ExceedsStock? {
        assert out.items[k] in out.items;
      }
    case None =>
      if !out.result.ExceedsStock? {
      }
  }

  /** Create touches no line but the one for (cart, variant). */
  lemma AddLineLeavesOtherLines(items: seq<CartItem>, nextId: nat, cart: nat, variant: nat, quantity: nat, stock: nat,
                                x: CartItem)
    requires x.cart != cart || x.variant != variant
    ensures x in AddLine(items, nextId, cart, variant, quantity, stock).items <==> x in items
  {
    var out := AddLine(items, nextId, cart, variant, quantity, stock);
    match LineIndex(items, cart, variant)
    case Some(k) =>
      if out.items != items {
        if x in items {
          var i :| 0 <= i < |items| && items[i] == x;
          assert out.items[i] == x;
        }
      }
    case None =>
  }

  /** The create endpoint keeps both table invariants. */
  lemma CreateKeepsStateValid(user: nat, attrs: Attrs, s: CartState, variants: map<nat, Variant>)
    requires StateValid(s, variants)
    ensures StateValid(CreateSpec(user, attrs, s, variants).1, variants)
  {
    if Validate(attrs, None, variants).Success? {
      GetOrCreateKeepsCartsValid(s.carts, s.nextCartId, user);
      var (cart, s1) := WithCartOf(s, user);
      assert ItemsValid(s1.items, s1.carts, variants, s1.nextItemId);
      assert cart.id in CartIds(s1.carts);
      AddLineKeepsItemsValid(s1.items, s1.nextItemId, s1.carts, variants, cart.id, attrs.variant.value,
                             attrs.quantity.value as nat, variants[attrs.variant.value].stock);
    }
  }

  /**
   * Once the data is valid the user has a cart, even when the quantity is then
   * refused: the get_or_create runs first and is not rolled back.
   */
  lemma CreateAlwaysLeavesCart(user: nat, attrs: Attrs, s: CartState, variants: map<nat, Variant>)
    requires CartsValid(s.carts, s.nextCartId)
    ensures var (r, s') := CreateSpec(user, attrs, s, variants);
            && (r.Invalid? <==> Validate(attrs, None, variants).Failure?)
            && (r.Invalid? ==> s' == s)
            && (!r.Invalid? ==> CartOf(s'.carts, user).Some?)
  {
    if Validate(attrs, None, variants).Success? {
      GetOrCreateKeepsCartsValid(s.carts, s.nextCartId, user);
    }
  }

  /**
   * `perform_create`'s own stock refusal only fires for a variant already in
   * the cart: for a new line the serializer has checked the same stock.
   */
  lemma CreateRefusesOnlyMerges(user: nat, attrs: Attrs, s: CartState, variants: map<nat, Variant>)
    requires StateValid(s, variants)
    ensures var r := CreateSpec(user, attrs, s, variants).0;
            r.ExceedsStock? ==> r.inCart >= 1 && !r.Added?
  {
    if Validate(attrs, None, variants).Success? {
      var (cart, s1) := WithCartOf(s, user);
      var k := LineIndex(s1.items, cart.id, attrs.variant.value);
      if k.Some? {
        assert s1.items[k.value] in s.items;
      }
    }
  }

  /** `CartItemViewSet.create` as a method on the two tables. */
  method CreateCartItem(user: nat, attrs: Attrs, carts: CartTable, cartItems: CartItemTable, variants: VariantTable)
    returns (r: CreateResult)
    modifies carts, cartItems
    ensures CreateSpec(user, attrs, old(StateOf(carts, cartItems)), variants.rows) == (r, StateOf(carts, cartItems))
  {
    var checked := Validate(attrs, None, variants.rows);
    if checked.Failure? {
      return Invalid(checked.error);
    }
    var got := GetOrCreateCart(carts.rows, carts.nextId, user);
    carts.rows, carts.nextId := got.rows, got.nextId;
    var variant := attrs.variant.value;
    var quantity := attrs.quantity.value as nat;
    var stock := variants.rows[variant].stock;
    var k := LineIndex(cartItems.rows, got.cart.id, variant);
    if k.Some? {
      var existing := cartItems.rows[k.value];
      var merged := existing.quantity + quantity;
      if merged > stock {
        return ExceedsStock(stock, existing.quantity);
      }
      cartItems.rows := cartItems.rows[k.value := existing.(quantity := merged)];
      r := Merged(existing.(quantity := merged));
    } else {
      // The refusal of line 63 cannot fire: the serializer compared the same quantity with the same stock.
      assert quantity <= stock;
      var line := CartItem(cartItems.nextId, got.cart.id, variant, quantity);
      cartItems.rows, cartItems.nextId := cartItems.rows + [line], cartItems.nextId + 1;
      r := Added(line);
    }
  }

  // ---------------------------------------------------------------- update

  datatype UpdateResult =
    | Saved(line: CartItem)            // 200
    | NotFound                         // the line is not in the user's queryset, 404
    | UpdateInvalid(error: CartItemError) // 400
    | Forbidden                        // PermissionDenied, 403
    | QuantityExceedsStock             // 400
    | ServerError                      // the conflicting-variant branch fails on a missing attribute, 500

  function UpdateStatus(r: UpdateResult): (code: int)
    ensures code == 200 <==> r.Saved?
    ensures code == 404 <==> r.NotFound?
    ensures code == 403 <==> r.Forbidden?
    ensures code == 500 <==> r.ServerError?
  {
    match r
    case Saved(_) => 200
    case NotFound => 404
    case UpdateInvalid(_) => 400
    case Forbidden => 403
    case QuantityExceedsStock => 400
    case ServerError => 500
  }

  /**
   * Whether `perform_update` reaches the branch that looks for another line of
   * the cart with the new variant and finds one.
   */
  predicate VariantConflict(items: seq<CartItem>, line: CartItem, newVariant: nat)
  {
    newVariant != line.variant && LineIndex(items, line.cart, newVariant).Some?
  }

  /** Serializer validation and `perform_update` for the line found, which is stored at position `i`. */
  function PerformUpdate(user: User, line: CartItem, i: nat, attrs: Attrs, s: CartState, variants: map<nat, Variant>)
    : (UpdateResult, CartState)
    requires line.variant in variants && i < |s.items|
  {
    match Validate(attrs, Some(line.variant), variants)
    case Failure(e) => (UpdateInvalid(e), s)
    case Success(_) =>
      if OwnerOf(s.carts, line.cart) != Some(user.id) && !user.isStaff then (Forbidden, s)
      else
        var newVariant := attrs.variant.GetOr(line.variant);
        if VariantConflict(s.items, line, newVariant) then (ServerError, WithCartOf(s, user.id).1)
        else
          var quantity := attrs.quantity.value as nat;
          if quantity > variants[newVariant].stock then (QuantityExceedsStock, s)
          else
            var saved := line.(variant := newVariant, quantity := quantity);
            (Saved(saved), s.(items := s.items[i := saved]))
  }

  /**
   * The update endpoint (PUT and PATCH): look the line up in the user's
   * queryset, then validate and `perform_update`.
   */
  function UpdateSpec(user: User, id: nat, attrs: Attrs, s: CartState, variants: map<nat, Variant>): (UpdateResult, CartState)
    requires VariantsExist(s.items, variants)
  {
    var visible := VisibleItems(s.items, s.carts, user);
    match IndexOfId(visible, id)
    case None => (NotFound, s)
    case Some(j) =>
      assert visible[j] in s.items;
      PerformUpdate(user, visible[j], IndexOfId(s.items, id).value, attrs, s, variants)
  }

  /** A line outside the user's queryset is never found, so the permission check in `perform_update` cannot fire. */
  lemma UpdateNeverForbidden(user: User, id: nat, attrs: Attrs, s: CartState, variants: map<nat, Variant>)
    requires VariantsExist(s.items, variants)
    ensures UpdateSpec(user, id, attrs, s, variants).0 != Forbidden
  {
  }

  /** A customer can never change a line of someone else's cart. */
  lemma UpdateOnlyOwnLines(user: User, id: nat, attrs: Attrs, s: CartState, variants: map<nat, Variant>)
    requires VariantsExist(s.items, variants)
    requires !user.isStaff
    requires forall x | x in s.items && x.id == id :: OwnerOf(s.carts, x.cart) != Some(user.id)
    ensures UpdateSpec(user, id, attrs, s, variants) == (NotFound, s)
  {
  }

  /** In a table with increasing keys, the row at `i` is the one row with its key. */
  lemma {:induction false} RowWithKey(items: seq<CartItem>, x: CartItem, i: nat)
    requires Increasing(items) && x in items && i < |items| && items[i].id == x.id
    ensures items[i] == x
  {
  }

  /**
   * Rewriting row `i` with a line of the same key and cart, a positive
   * quantity and a variant the cart does not already hold in another line
   * keeps the invariant and leaves every other line as it was.
   */
  lemma RewriteKeepsItemsValid(items: seq<CartItem>, carts: seq<Cart>, variants: map<nat, Variant>, nextId: nat,
                               i: nat, saved: CartItem)
    requires ItemsValid(items, carts, variants, nextId)
    requires i < |items| && saved.id == items[i].id && saved.cart == items[i].cart
    requires saved.quantity >= 1 && saved.variant in variants
    requires saved.variant == items[i].variant || LineIndex(items, saved.cart, saved.variant).None?
    ensures ItemsValid(items[i := saved], carts, variants, nextId)
    ensures forall x: CartItem | x.id != saved.id :: x in items[i := saved] <==> x in items
  {
    var out := items[i := saved];
    forall x | x in out ensures x == saved || (x in items && x.id != saved.id) {
      var l :| 0 <= l < |out| && out[l] == x;
      if l != i {
        assert items[l].id < items[i].id || items[i].id < items[l].id;
      }
    }
    forall x | x in items && x.id != saved.id ensures x in out {
      var l :| 0 <= l < |items| && items[l] == x;
      assert out[l] == x;
    }
  }

  /**
   * A saved update rewrites exactly the addressed line, within its new
   * variant's stock, and keeps both table invariants; the failing branch adds
   * at most a cart for the user and no line.
   */
  lemma PerformUpdateKeepsStateValid(user: User, line: CartItem, i: nat, attrs: Attrs, s: CartState, variants: map<nat, Variant>)
    requires StateValid(s, variants)
    requires i < |s.items| && s.items[i] == line
    ensures var (r, s') := PerformUpdate(user, line, i, attrs, s, variants);
            && StateValid(s', variants)
            && (r.ServerError? ==> s'.items == s.items && CartOf(s'.carts, user.id).Some?)
            && (!r.Saved? && !r.ServerError? ==> s' == s)
            && (r.Saved? ==>
                  && r.line.id == line.id && r.line in s'.items
                  && r.line.quantity <= variants[r.line.variant].stock
                  && s'.carts == s.carts
                  && forall x: CartItem | x.id != line.id :: x in s'.items <==> x in s.items)
  {
    if Validate(attrs, Some(line.variant), variants).Success?
       && (OwnerOf(s.carts, line.cart) == Some(user.id) || user.isStaff)
    {
      var newVariant := attrs.variant.GetOr(line.variant);
      if VariantConflict(s.items, line, newVariant) {
        GetOrCreateKeepsCartsValid(s.carts, s.nextCartId, user.id);
      } else if attrs.quantity.value <= variants[newVariant].stock {
        var saved := line.(variant := newVariant, quantity := attrs.quantity.value as nat);
        RewriteKeepsItemsValid(s.items, s.carts, variants, s.nextItemId, i, saved);
        assert s.items[i := saved][i] == saved;
      }
    }
  }

  /** The update endpoint keeps both invariants and, when it saves, changes only the line with key `id`. */
  lemma UpdateKeepsStateValid(user: User, id: nat, attrs: Attrs, s: CartState, variants: map<nat, Variant>)
    requires StateValid(s, variants)
    ensures var (r, s') := UpdateSpec(user, id, attrs, s, variants);
            && StateValid(s', variants)
            && (r.ServerError? ==> s'.items == s.items && CartOf(s'.carts, user.id).Some?)
            && (!r.Saved? && !r.ServerError? ==> s' == s)
            && (r.Saved? ==>
                  && r.line.id == id && r.line in s'.items
                  && r.line.quantity <= variants[r.line.variant].stock
                  && s'.carts == s.carts
                  && forall x: CartItem | x.id != id :: x in s'.items <==> x in s.items)
  {
    var visible := VisibleItems(s.items, s.carts, user);
    match IndexOfId(visible, id)
    case None =>
    case Some(j) =>
      var line := visible[j];
      assert line in s.items;
      var i := IndexOfId(s.items, id).value;
      RowWithKey(s.items, line, i);
      PerformUpdateKeepsStateValid(user, line, i, attrs, s, variants);
  }

  /** `CartItemViewSet.update` as a method on the two tables. */
  method UpdateCartItem(user: User, id: nat, attrs: Attrs, carts: CartTable, cartItems: CartItemTable, variants: VariantTable)
    returns (r: UpdateResult)
    requires VariantsExist(cartItems.rows, variants.rows)
    modifies carts, cartItems
    ensures UpdateSpec(user, id, attrs, old(StateOf(carts, cartItems)), variants.rows) == (r, StateOf(carts, cartItems))
  {
    var visible := VisibleItems(cartItems.rows, carts.rows, user);
    var j := IndexOfId(visible, id);
    if j.None? {
      return NotFound;
    }
    var line := visible[j.value];
    assert line in cartItems.rows;
    var checked := Validate(attrs, Some(line.variant), variants.rows);
    if checked.Failure? {
      return UpdateInvalid(checked.error);
    }
    if OwnerOf(carts.rows, line.cart) != Some(user.id) && !user.isStaff {
      return Forbidden;
    }
    var newVariant := attrs.variant.GetOr(line.variant);
    if newVariant != line.variant {
      var existing := LineIndex(cartItems.rows, line.cart, newVariant);
      if existing.Some? {
        var got := GetOrCreateCart(carts.rows, carts.nextId, user.id);
        carts.rows, carts.nextId := got.rows, got.nextId;
        return ServerError;
      }
    }
    var quantity := attrs.quantity.value as nat;
    if quantity > variants.rows[newVariant].stock {
      return QuantityExceedsStock;
    }
    var i := IndexOfId(cartItems.rows, id).value;
    var saved := line.(variant := newVariant, quantity := quantity);
    cartItems.rows := cartItems.rows[i := saved];
    r := Saved(saved);
  }

  // ---------------------------------------------------------------- destroy

  datatype DestroyResult = Removed | Missing | Refused  // 204, 404, 403

  /** The line table after `instance.delete()`. */
  function WithoutLine(items: seq<CartItem>, id: nat): (rest: seq<CartItem>)
    ensures forall x :: x in rest <==> x in items && x.id != id
    ensures Increasing(items) ==> Increasing(rest)
  {
    if items == [] then []
    else if items[0].id != id then [items[0]] + WithoutLine(items[1..], id)
    else WithoutLine(items[1..], id)
  }

  /** The destroy endpoint: look the line up in the user's queryset, then `perform_destroy`. */
  function DestroySpec(user: User, id: nat, s: CartState): (DestroyResult, CartState)
  {
    var visible := VisibleItems(s.items, s.carts, user);
    match IndexOfId(visible, id)
    case None => (Missing, s)
    case Some(j) =>
      if OwnerOf(s.carts, visible[j].cart) != Some(user.id) && !user.isStaff then (Refused, s)
      else (Removed, s.(items := WithoutLine(s.items, id)))
  }

  /**
   * Only the user's own lines (any line, for staff) can be deleted; a deletion
   * removes exactly the addressed line and keeps both invariants.
   */
  lemma DestroyRemovesOwnLine(user: User, id: nat, s: CartState, variants: map<nat, Variant>)
    requires StateValid(s, variants)
    ensures var (r, s') := DestroySpec(user, id, s);
            && StateValid(s', variants)
            && !r.Refused?
            && (r.Removed? <==> exists x | x in s.items :: x.id == id && (user.isStaff || OwnerOf(s.carts, x.cart) == Some(user.id)))
            && (r.Removed? ==> s'.carts == s.carts && forall x :: x in s'.items <==> x in s.items && x.id != id)
            && (r.Missing? ==> s' == s)
  {
    var visible := VisibleItems(s.items, s.carts, user);
    if exists x | x in s.items :: x.id == id && (user.isStaff || OwnerOf(s.carts, x.cart) == Some(user.id)) {
      var x :| x in s.items && x.id == id && (user.isStaff || OwnerOf(s.carts, x.cart) == Some(user.id));
      assert x in visible;
    }
    var j := IndexOfId(visible, id);
    if j.Some? {
      assert visible[j.value] in visible;
    }
  }

  /** `CartItemViewSet.destroy` as a method on the line table. */
  method DestroyCartItem(user: User, id: nat, carts: CartTable, cartItems: CartItemTable) returns (r: DestroyResult)
    modifies cartItems
    ensures DestroySpec(user, id, old(StateOf(carts, cartItems))) == (r, StateOf(carts, cartItems))
  {
    var visible := VisibleItems(cartItems.rows, carts.rows, user);
    var j := IndexOfId(visible, id);
    if j.None? {
      return Missing;
    }
    if OwnerOf(carts.rows, visible[j.value].cart) != Some(user.id) && !user.isStaff {
      return Refused;
    }
    cartItems.rows := WithoutLine(cartItems.rows, id);
    r := Removed;
  }
}
