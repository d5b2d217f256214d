/**
 * wishlist/views.py: `WishlistItemViewSet` for an authenticated user (the
 * IsAuthenticated permission is modelled by taking the user's key). Each
 * endpoint is a specification function on a `WishState` and a method over
 * the two tables proved to perform it.
 */
module WishlistViews {
  import opened Wrappers
  import opened ProductModels
  import opened WishlistModels

  /** Both wishlist tables at one moment. */
  datatype WishState = WishState(lists: seq<Wishlist>, nextListId: nat, items: seq<WishlistItem>, nextItemId: nat)

  predicate StateValid(s: WishState, variants: map<nat, Variant>)
  {
    WishlistsValid(s.lists, s.nextListId) && WishItemsValid(s.items, s.lists, variants, s.nextItemId)
  }

  function StateOf(lists: WishlistTable, items: WishlistItemTable): WishState
    reads lists, items
  {
    WishState(lists.rows, lists.nextId, items.rows, items.nextId)
  }

  // ---------------------------------------------------------------- listing

  /** `get_queryset`: `WishlistItem.objects.filter(wishlist__user=user)`. */
  function VisibleWishItems(items: seq<WishlistItem>, lists: seq<Wishlist>, user: nat): (r: seq<WishlistItem>)
    ensures forall x :: x in r <==> x in items && WishlistOwner(lists, x.wishlist) == Some(user)
    ensures KeysIncreasing(items) ==> KeysIncreasing(r)
  {
    if items == [] then []
    else if WishlistOwner(lists, items[0].wishlist) == Some(user) then [items[0]] + VisibleWishItems(items[1..], lists, user)
    else VisibleWishItems(items[1..], lists, user)
  }

  /** The listing holds exactly the items of the user's own wishlist. */
  lemma ListingShowsOwnWishlist(items: seq<WishlistItem>, lists: seq<Wishlist>, nextId: nat, user: nat)
    requires WishlistsValid(lists, nextId)
    ensures forall x :: x in VisibleWishItems(items, lists, user) <==>
              x in items && WishlistOf(lists, user).Some? && x.wishlist == WishlistOf(lists, user).value.id
  {
    forall x | x in items
      ensures WishlistOwner(lists, x.wishlist) == Some(user)
              <==> WishlistOf(lists, user).Some? && x.wishlist == WishlistOf(lists, user).value.id
    {
      var own := WishlistOwner(lists, x.wishlist);
      if own == Some(user) {
        assert Wishlist(x.wishlist, user) in lists;
      }
      if WishlistOf(lists, user).Some? && x.wishlist == WishlistOf(lists, user).value.id {
        var w := WishlistOf(lists, user).value;
        assert own.Some? by { assert w.id in WishlistIds(lists); }
        WishlistKeysUnique(lists, nextId, w, Wishlist(x.wishlist, own.value));
      }
    }
  }

  // ---------------------------------------------------------------- create

  datatype AddResult =
    | VariantIdRequired               // 400 "Variant ID is required."
    | VariantNotFound                 // 404 "Product variant not found."
    | AlreadyInWishlist               // 200 "Already in wishlist."
    | AddedToWishlist(item: WishlistItem) // 201

  function AddStatus(r: AddResult): (code: int)
    ensures code == 201 <==> r.AddedToWishlist?
    ensures code == 200 <==> r.AlreadyInWishlist?
    ensures code == 404 <==> r.VariantNotFound?
    ensures code == 400 <==> r.VariantIdRequired?
  {
    match r
    case VariantIdRequired => 400
    case VariantNotFound => 404
    case AlreadyInWishlist => 200
    case AddedToWishlist(_) => 201
  }

  /** Whether `ProductVariant.objects.get(id=id)` finds a row. */
  predicate VariantExists(id: int, variants: map<nat, Variant>)
  {
    id >= 0 && id as nat in variants
  }

  /**
   * `create`: a falsy `variant_id` (absent or 0) is refused, then the variant
   * is looked up, then the wishlist and the item are each got or created.
   */
  function AddSpec(user: nat, variantId: Option<int>, s: WishState, variants: map<nat, Variant>): (AddResult, WishState)
  {
    if variantId.None? || variantId.value == 0 then (VariantIdRequired, s)
    else if !VariantExists(variantId.value, variants) then (VariantNotFound, s)
    else
      var got := GetOrCreateWishlist(s.lists, s.nextListId, user);
      var s1 := s.(lists := got.rows, nextListId := got.nextId);
      var variant := variantId.value as nat;
      match ItemIndex(s1.items, got.wishlist.id, variant)
      case Some(_) => (AlreadyInWishlist, s1)
      case None =>
        var item := WishlistItem(s1.nextItemId, got.wishlist.id, variant);
        (AddedToWishlist(item), s1.(items := s1.items + [item], nextItemId := s1.nextItemId + 1))
  }

  /** Whether the user's wishlist already holds `variant`. */
  predicate InWishlist(s: WishState, user: nat, variant: nat)
  {
    WishlistOf(s.lists, user).Some? && ItemIndex(s.items, WishlistOf(s.lists, user).value.id, variant).Some?
  }

  /**
   * The refusals change nothing; a known variant ends up in the user's
   * wishlist, answered 200 with no change when it was there already and 201
   * with exactly one new item otherwise.
   */
  lemma AddOutcome(user: nat, variantId: Option<int>, s: WishState, variants: map<nat, Variant>)
    requires StateValid(s, variants)
    ensures var (r, s') := AddSpec(user, variantId, s, variants);
            && (r.VariantIdRequired? <==> variantId.None? || variantId.value == 0)
            && (r.VariantNotFound? <==> variantId.Some? && variantId.value != 0 && !VariantExists(variantId.value, variants))
            && (r.VariantIdRequired? || r.VariantNotFound? ==> s' == s)
            && (r.AlreadyInWishlist? <==>
                  && variantId.Some? && variantId.value != 0 && VariantExists(variantId.value, variants)
                  && InWishlist(s, user, variantId.value as nat))
            && (r.AlreadyInWishlist? ==> s' == s)
            && (r.AddedToWishlist? ==>
                  && s'.items == s.items + [r.item]
                  && r.item.variant as int == variantId.value
                  && WishlistOf(s'.lists, user) == Some(Wishlist(r.item.wishlist, user)))
            && (!r.VariantIdRequired? && !r.VariantNotFound? ==> InWishlist(s', user, variantId.value as nat))
  {
    if variantId.Some? && variantId.value != 0 && VariantExists(variantId.value, variants) {
      GetOrCreateKeepsWishlistsValid(s.lists, s.nextListId, user);
      var got := GetOrCreateWishlist(s.lists, s.nextListId, user);
      var variant := variantId.value as nat;
      var s1 := s.(lists := got.rows, nextListId := got.nextId);
      if WishlistOf(s.lists, user).Some? {
        assert s1 == s;
      } else {
        assert ItemIndex(s.items, got.wishlist.id, variant).None? by {
          forall x | x in s.items ensures x.wishlist != got.wishlist.id {
            assert x.wishlist in WishlistIds(s.lists);
          }
        }
        assert !InWishlist(s, user, variant);
      }
      if ItemIndex(s1.items, got.wishlist.id, variant).None? {
        var item := WishlistItem(s1.nextItemId, got.wishlist.id, variant);
        var items' := s1.items + [item];
        assert items'[|s1.items|] == item;
        assert got.wishlist.id in WishlistIds(got.rows);
      }
    }
  }

  /** Adding keeps both invariants. */
  lemma AddKeepsStateValid(user: nat, variantId: Option<int>, s: WishState, variants: map<nat, Variant>)
    requires StateValid(s, variants)
    ensures StateValid(AddSpec(user, variantId, s, variants).1, variants)
  {
    if variantId.Some? && variantId.value != 0 && VariantExists(variantId.value, variants) {
      GetOrCreateKeepsWishlistsValid(s.lists, s.nextListId, user);
      var got := GetOrCreateWishlist(s.lists, s.nextListId, user);
      var variant := variantId.value as nat;
      MoreWishlistsKeepWishItemsValid(s.items, s.lists, got.rows, variants, s.nextItemId);
      if ItemIndex(s.items, got.wishlist.id, variant).None? {
        assert got.wishlist.id in WishlistIds(got.rows);
        AppendKeepsWishItemsValid(s.items, got.rows, variants, s.nextItemId,
                                  WishlistItem(s.nextItemId, got.wishlist.id, variant));
      }
    }
  }

  /** Adding is idempotent: a second add of the same variant answers 200 and changes nothing. */
  lemma AddIdempotent(user: nat, variantId: Option<int>, s: WishState, variants: map<nat, Variant>)
    requires StateValid(s, variants)
    requires variantId.Some? && variantId.value != 0 && VariantExists(variantId.value, variants)
    ensures var s' := AddSpec(user, variantId, s, variants).1;
            AddSpec(user, variantId, s', variants) == (AlreadyInWishlist, s')
  {
    AddOutcome(user, variantId, s, variants);
    AddKeepsStateValid(user, variantId, s, variants);
    var s' := AddSpec(user, variantId, s, variants).1;
    AddOutcome(user, variantId, s', variants);
  }

  /** `WishlistItemViewSet.create` as a method on the two tables. */
  method AddWishlistItem(user: nat, variantId: Option<int>, lists: WishlistTable, items: WishlistItemTable,
                         variants: VariantTable) returns (r: AddResult)
    modifies lists, items
    ensures AddSpec(user, variantId, old(StateOf(lists, items)), variants.rows) == (r, StateOf(lists, items))
  {
    if variantId.None? || variantId.value == 0 {
      return VariantIdRequired;
    }
    if !VariantExists(variantId.value, variants.rows) {
      return VariantNotFound;
    }
    var got := GetOrCreateWishlist(lists.rows, lists.nextId, user);
    lists.rows, lists.nextId := got.rows, got.nextId;
    var variant := variantId.value as nat;
    if ItemIndex(items.rows, got.wishlist.id, variant).Some? {
      return AlreadyInWishlist;
    }
    var item := WishlistItem(items.nextId, got.wishlist.id, variant);
    items.rows, items.nextId := items.rows + [item], items.nextId + 1;
    r := AddedToWishlist(item);
  }

  // ---------------------------------------------------------------- destroy

  datatype RemoveResult = RemovedItem | NoSuchItem | NotAllowed  // 204, 404, 403

  /** `get_object` on a queryset: the row with key `id`, if listed. */
  function ItemWithId(items: seq<WishlistItem>, id: nat): (r: Option<WishlistItem>)
    ensures r.Some? ==> r.value in items && r.value.id == id
    ensures r.None? <==> forall x | x in items :: x.id != id
  {
    if items == [] then None
    else if items[0].id == id then Some(items[0])
    else ItemWithId(items[1..], id)
  }

  /** The item table after deleting the row with key `id`. */
  function WithoutItem(items: seq<WishlistItem>, id: nat): (rest: seq<WishlistItem>)
    ensures forall x :: x in rest <==> x in items && x.id != id
    ensures KeysIncreasing(items) ==> KeysIncreasing(rest)
  {
    if items == [] then []
    else if items[0].id != id then [items[0]] + WithoutItem(items[1..], id)
    else WithoutItem(items[1..], id)
  }

  /** `destroy`: `get_object` through the user's queryset, the owner check, then the delete. */
  function RemoveSpec(user: nat, id: nat, s: WishState): (RemoveResult, WishState)
  {
    match ItemWithId(VisibleWishItems(s.items, s.lists, user), id)
    case None => (NoSuchItem, s)
    case Some(x) =>
      if WishlistOwner(s.lists, x.wishlist) != Some(user) then (NotAllowed, s)
      else (RemovedItem, s.(items := WithoutItem(s.items, id)))
  }

  /**
   * An item of another user's wishlist is not in the queryset, so it is
   * answered 404 and the 403 branch never fires; a removal deletes exactly
   * the addressed item.
   */
  lemma RemoveOutcome(user: nat, id: nat, s: WishState, variants: map<nat, Variant>)
    requires StateValid(s, variants)
    ensures var (r, s') := RemoveSpec(user, id, s);
            && !r.NotAllowed?
            && (r.RemovedItem? <==> exists x | x in s.items :: x.id == id && WishlistOwner(s.lists, x.wishlist) == Some(user))
            && (r.RemovedItem? ==> s'.lists == s.lists && forall x :: x in s'.items <==> x in s.items && x.id != id)
            && (r.NoSuchItem? ==> s' == s)
  {
    var visible := VisibleWishItems(s.items, s.lists, user);
    if exists x | x in s.items :: x.id == id && WishlistOwner(s.lists, x.wishlist) == Some(user) {
      var x :| x in s.items && x.id == id && WishlistOwner(s.lists, x.wishlist) == Some(user);
      assert x in visible;
    }
  }

  /** Removing an item keeps both invariants. */
  lemma RemoveKeepsStateValid(user: nat, id: nat, s: WishState, variants: map<nat, Variant>)
    requires StateValid(s, variants)
    ensures StateValid(RemoveSpec(user, id, s).1, variants)
  {
    var rest := WithoutItem(s.items, id);
    assert UniquePerWishlistAndVariant(rest);
    assert WishItemsValid(rest, s.lists, variants, s.nextItemId);
  }

  /** `WishlistItemViewSet.destroy` as a method on the item table. */
  method RemoveWishlistItem(user: nat, id: nat, lists: WishlistTable, items: WishlistItemTable) returns (r: RemoveResult)
    modifies items
    ensures RemoveSpec(user, id, old(StateOf(lists, items))) == (r, StateOf(lists, items))
  {
    var found := ItemWithId(VisibleWishItems(items.rows, lists.rows, user), id);
    if found.None? {
      return NoSuchItem;
    }
    if WishlistOwner(lists.rows, found.value.wishlist) != Some(user) {
      return NotAllowed;
    }
    items.rows := WithoutItem(items.rows, id);
    r := RemovedItem;
  }
}
