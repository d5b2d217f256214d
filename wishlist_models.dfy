/**
 * wishlist/models.py: one wishlist per user (a OneToOneField) and wishlist
 * items that are unique per (wishlist, variant) and listed in primary-key
 * order. Both tables are kept in primary-key order.
 */
module WishlistModels {
  import opened Wrappers
  import opened ProductModels

  datatype Wishlist = Wishlist(id: nat, user: nat)

  datatype WishlistItem = WishlistItem(id: nat, wishlist: nat, variant: nat)

  class WishlistTable {
    var rows: seq<Wishlist>
    var nextId: nat
  }

  class WishlistItemTable {
    var rows: seq<WishlistItem>
    var nextId: nat
  }

  function WishlistIds(lists: seq<Wishlist>): set<nat>
  {
    set w | w in lists :: w.id
  }

  /** Wishlist table invariant: keys increasing and below the next key, and no user with two wishlists. */
  predicate WishlistsValid(lists: seq<Wishlist>, nextId: nat)
  {
    && (forall i, j | 0 <= i < j < |lists| :: lists[i].id < lists[j].id)
    && (forall i | 0 <= i < |lists| :: lists[i].id < nextId)
    && (forall x, y | x in lists && y in lists && x.user == y.user :: x == y)
  }

  /** Items in strictly increasing primary-key order (Meta.ordering = ['id']). */
  predicate KeysIncreasing(items: seq<WishlistItem>)
  {
    forall i, j | 0 <= i < j < |items| :: items[i].id < items[j].id
  }

  /** At most one item per (wishlist, variant) (Meta.unique_together). */
  predicate UniquePerWishlistAndVariant(items: seq<WishlistItem>)
  {
    forall x, y | x in items && y in items && x.wishlist == y.wishlist && x.variant == y.variant :: x == y
  }

  /** Item table invariant: the model constraints plus both foreign keys. */
  predicate WishItemsValid(items: seq<WishlistItem>, lists: seq<Wishlist>, variants: map<nat, Variant>, nextId: nat)
  {
    && KeysIncreasing(items)
    && (forall x | x in items :: x.id < nextId && x.wishlist in WishlistIds(lists) && x.variant in variants)
    && UniquePerWishlistAndVariant(items)
  }

  /** `Wishlist.objects.filter(user=user).first()`. */
  function WishlistOf(lists: seq<Wishlist>, user: nat): (r: Option<Wishlist>)
    ensures r.Some? ==> r.value in lists && r.value.user == user
    ensures r.None? <==> forall w | w in lists :: w.user != user
  {
    if lists == [] then None
    else if lists[0].user == user then Some(lists[0])
    else WishlistOf(lists[1..], user)
  }

  /** The owner of a wishlist, following WishlistItem.wishlist. */
  function WishlistOwner(lists: seq<Wishlist>, wishlist: nat): (r: Option<nat>)
    ensures r.Some? ==> Wishlist(wishlist, r.value) in lists
    ensures r.None? <==> wishlist !in WishlistIds(lists)
  {
    if lists == [] then None
    else if lists[0].id == wishlist then Some(lists[0].user)
    else WishlistOwner(lists[1..], wishlist)
  }

  /** Position of `WishlistItem.objects.filter(wishlist=wishlist, variant=variant).first()`. */
  function ItemIndex(items: seq<WishlistItem>, wishlist: nat, variant: nat): (r: Option<nat>)
    ensures r.Some? ==> r.value < |items| && items[r.value].wishlist == wishlist && items[r.value].variant == variant
    ensures r.None? <==> forall x | x in items :: !(x.wishlist == wishlist && x.variant == variant)
  {
    if items == [] then None
    else if items[0].wishlist == wishlist && items[0].variant == variant then Some(0)
    else match ItemIndex(items[1..], wishlist, variant)
      case None => None
      case Some(k) => Some(k + 1)
  }

  /** The item table after the cascade that deleting a variant causes (on_delete=CASCADE). */
  function WithoutVariantItems(items: seq<WishlistItem>, variant: nat): (rest: seq<WishlistItem>)
    ensures forall x :: x in rest <==> x in items && x.variant != variant
    ensures KeysIncreasing(items) ==> KeysIncreasing(rest)
  {
    if items == [] then []
    else if items[0].variant != variant then [items[0]] + WithoutVariantItems(items[1..], variant)
    else WithoutVariantItems(items[1..], variant)
  }

  /** The user's wishlist and the table after `Wishlist.objects.get_or_create(user=user)`. */
  datatype WishlistGot = WishlistGot(wishlist: Wishlist, rows: seq<Wishlist>, nextId: nat)

  function GetOrCreateWishlist(lists: seq<Wishlist>, nextId: nat, user: nat): (got: WishlistGot)
    ensures got.wishlist in got.rows && got.wishlist.user == user
    ensures forall w | w in lists :: w in got.rows
  {
    match WishlistOf(lists, user)
    case Some(w) => WishlistGot(w, lists, nextId)
    case None => WishlistGot(Wishlist(nextId, user), lists + [Wishlist(nextId, user)], nextId + 1)
  }

  /** get_or_create keeps one wishlist per user, and afterwards the user's wishlist is the one returned. */
  lemma GetOrCreateKeepsWishlistsValid(lists: seq<Wishlist>, nextId: nat, user: nat)
    requires WishlistsValid(lists, nextId)
    ensures var got := GetOrCreateWishlist(lists, nextId, user);
            && WishlistsValid(got.rows, got.nextId)
            && WishlistOf(got.rows, user) == Some(got.wishlist)
            && WishlistIds(lists) <= WishlistIds(got.rows)
  {
    var got := GetOrCreateWishlist(lists, nextId, user);
    if WishlistOf(lists, user).None? {
      assert forall i | 0 <= i < |got.rows| :: got.rows[i] in lists || i == |lists|;
      assert WishlistOf(got.rows, user).Some? by { assert got.wishlist in got.rows; }
    }
  }

  /** Two wishlist rows with one key are the same row. */
  lemma {:induction false} WishlistKeysUnique(lists: seq<Wishlist>, nextId: nat, x: Wishlist, y: Wishlist)
    requires WishlistsValid(lists, nextId)
    requires x in lists && y in lists && x.id == y.id
    ensures x == y
  {
    var i :| 0 <= i < |lists| && lists[i] == x;
    var j :| 0 <= j < |lists| && lists[j] == y;
    if i < j {
      assert lists[i].id < lists[j].id;
    } else if j < i {
      assert lists[j].id < lists[i].id;
    }
  }

  /** Appending an item under the next key, for a (wishlist, variant) not yet present, keeps the invariant. */
  lemma AppendKeepsWishItemsValid(items: seq<WishlistItem>, lists: seq<Wishlist>, variants: map<nat, Variant>,
                                  nextId: nat, item: WishlistItem)
    requires WishItemsValid(items, lists, variants, nextId)
    requires item.id == nextId && item.wishlist in WishlistIds(lists) && item.variant in variants
    requires ItemIndex(items, item.wishlist, item.variant).None?
    ensures WishItemsValid(items + [item], lists, variants, nextId + 1)
  {
    var items' := items + [item];
    assert forall x | x in items' :: x == item || x in items;
    assert KeysIncreasing(items') by {
      forall i, j | 0 <= i < j < |items'| ensures items'[i].id < items'[j].id {
        if j == |items| {
          assert items[i] in items;
        }
      }
    }
  }

  /** Adding wishlists never invalidates the item table. */
  lemma MoreWishlistsKeepWishItemsValid(items: seq<WishlistItem>, lists: seq<Wishlist>, lists': seq<Wishlist>,
                                        variants: map<nat, Variant>, nextId: nat)
    requires WishItemsValid(items, lists, variants, nextId)
    requires WishlistIds(lists) <= WishlistIds(lists')
    ensures WishItemsValid(items, lists', variants, nextId)
  {
  }
}
