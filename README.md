# pzafira cloth store — a Dafny model of the shop's rules

The system is a Django REST shop selling clothing. Customers:

- keep a cart of product variants (product, colour, size, each with its own
  stock and price);
- check the cart out into an order;
- pay through the SSLCommerz gateway, whose success callback runs checkout
  again for the paid cart;
- keep a wishlist, review products and store shipping addresses.

Staff manage the catalogue and the orders.

This project models the rules of the shop on in-memory tables. They are:

- the checkout action of the order endpoints, with its stock check, price
  snapshot, total, stock decrement and cart clearing;
- the payment token (`tran_id`), its parser and the callbacks that use it;
- the cart endpoints and the cart-line serializer's validation;
- the value sets and defaults of orders;
- the single-default rule of shipping addresses and the single-primary rule
  of product-image updates;
- the get-or-create insertion of wishlist items and the one-review-per-product
  rule;
- the permission classes and the staff/owner visibility filters of the
  listings;
- variant deletion with its PROTECT and CASCADE rules.

Every ORM table is a `class` with its rows and the next primary key:

- row values are datatypes;
- tables are `seq`s in primary-key order, and the variant table is a `map`.

Each endpoint that writes has two parts:

- a specification function on table values (`CheckoutSpec`, `CreateSpec`,
  `UpdateSpec`, `AddSpec`, `SaveSpec`, …);
- a method over the table objects that is proved to perform it. The method's
  `ensures` relates the new table contents to the function applied to the old
  contents.

The lemmas then state what the specification functions promise. Money is
integer cents: the source's `DecimalField(decimal_places=2)`. Stock is a
natural number: `PositiveIntegerField`.

Files, one module each:

- wrappers.dfy (module Wrappers): `Option` (Python's `None`) and `Result` (a raised ValidationError)
- accounts.dfy (module Accounts): `request.user`: anonymous or an account with a staff flag
- product_models.dfy (module ProductModels): products/models.py
- product_permissions.dfy (module ProductPermissions): products/permissions.py
- user_permissions.dfy (module UserPermissions): users/permissions.py
- cart_models.dfy (module CartModels): cart/models.py and the ORM look-ups on it
- cart_serializers.dfy (module CartSerializers): cart/serializers.py
- cart_views.dfy (module CartViews): cart/views.py
- order_models.dfy (module OrderModels): orders/models.py
- order_views.dfy (module OrderViews): orders/views.py
- payment_token.dfy (module PaymentToken): payments/views.py, the token and its parser
- payment_views.dfy (module PaymentViews): payments/views.py, the endpoints
- shipping_models.dfy (module ShippingModels): shipping/models.py
- wishlist_models.dfy (module WishlistModels): wishlist/models.py
- wishlist_views.dfy (module WishlistViews): wishlist/views.py
- review_views.dfy (module ReviewViews): reviews/views.py
- product_views.dfy (module ProductViews): products/views.py

### Where the model follows the code rather than the documented intent

- **Checkout is not atomic on a stock shortage.** The order row is created
  before the stock loop. The shortage path returns an error response instead of
  raising, so the `transaction.atomic` decorator commits an empty order with total 0,
  pending and unpaid. `CheckoutShortOfStock` and `PaidCartShortOfStock` state
  this. The same holds after a successful payment whose cart has meanwhile run
  short of stock.
- **Checkout never stores `tran_id`.** The payment callback passes it, but
  checkout ignores it, so new orders have `tranId == None`.
- **The cart and wishlist 403 branches cannot fire.** The owner checks of
  cart-line update and delete, and of wishlist-item delete, run after
  `get_object`. `get_object` looks the row up in the user's own queryset, so
  someone else's row is answered 404 before any check. See
  `UpdateNeverForbidden`, `UpdateOnlyOwnLines`, `DestroyRemovesOwnLine` and
  `RemoveOutcome`.
- **Changing a cart line to a variant the cart already holds is a server
  error.** The branch first runs `get_or_create` for the requester's cart, then
  reads `existing_item.stock`, an attribute a cart line does not have.
  `PerformUpdate` models this as `ServerError` after the `get_or_create`. The
  only effect that persists is the cart, when the requester had none.
- **`perform_create` can only refuse a merge.** Its own "Only N items
  available" refusal of a new line can never fire, because the serializer
  already compared the same quantity with the same stock.
  `CreateRefusesOnlyMerges` proves this, and `CreateCartItem` asserts it.
- **Image create does not keep a single primary image.** Only update clears the
  other primaries, and only when the raw form value is exactly `"true"`.
  `CreateImageCanLeaveTwoPrimaries` gives a concrete case.
- **Cart retrieve ignores the key.** Staff list every cart, but `get_object`
  looks up the requester's own cart, so retrieving another user's cart by its
  key gives the requester's cart or a 404 (`StaffListsButCannotRetrieve`).

## Model

| member | source | states |
|---|---|---|
| ProductPermissions.SafeMethodsAlwaysGranted | products/permissions.py:8-10 | GET, HEAD and OPTIONS are granted to every requester, anonymous ones included |
| ProductPermissions.WritesNeedStaff | products/permissions.py:8-11 | any other method is granted exactly to authenticated staff; an anonymous write is always denied |
| ProductPermissions.DependsOnlyOnStaffFlag | products/permissions.py:8-11 | two requesters with the same staff flag get the same decision for every method |
| UserPermissions.OwnerOnly | users/permissions.py:8-9 | IsOwner grants exactly when the object is the requesting account (same key); another user's object and an anonymous requester are refused |
| UserPermissions.AdminIsStaff | users/permissions.py:16-17 | IsAdmin grants exactly to authenticated staff; it takes no object or view |
| CartModels.CartOf | orders/views.py:77 | the result is a cart of the user and is `None` exactly when the user has no cart |
| CartModels.CartWithId | payments/views.py:79 | finds a cart with the given key; `None` exactly when the key is `None` or no cart has it |
| CartModels.LinesOf | orders/views.py:82-84 | holds exactly the lines of the cart, and keeps the table's key order |
| CartModels.WithoutCart | orders/views.py:123 | after deleting a cart's lines, exactly the other carts' lines remain, in key order |
| CartModels.WithoutVariant | cart/models.py:13 | the CASCADE from a deleted variant leaves exactly the lines of other variants, in key order |
| CartModels.LineIndex | cart/views.py:52 | finds the cart's line for the variant, and `None` exactly when the cart has no such line |
| CartModels.LinesHaveDistinctVariants | cart/models.py:18 | under unique (cart, variant), two lines of one cart never share a variant |
| CartModels.GetOrCreateCart | cart/views.py:48 | the returned cart belongs to the user and is in the table; no existing cart is lost |
| CartModels.GetOrCreateKeepsCartsValid | cart/models.py:7 | get_or_create keeps at most one cart per user and increasing keys; afterwards the user's cart is the one returned |
| CartModels.GetOrCreateIdempotent | cart/views.py:48 | a second get_or_create for the same user changes nothing and returns the same cart |
| CartSerializers.Validate | cart/serializers.py:12-52 | valid data is returned unchanged; it is valid exactly when a supplied `variant_detail` key names a variant, the quantity is present, a variant to check exists and 1 <= quantity <= that variant's stock; an unknown key, missing quantity, missing variant on create, quantity <= 0 and quantity above stock each give their own error, the last carrying the stock read |
| CartSerializers.UpdateChecksInstanceVariant | cart/serializers.py:38-40 | on update the verdict is the same whatever existing variant the data supplies, because the instance's variant is checked |
| CartViews.VisibleCarts | cart/views.py:16-20 | staff see every cart, anyone else only carts they own, in key order |
| CartViews.CustomerSeesOwnCart | cart/views.py:16-20 | a customer's cart listing is exactly their one cart, or empty |
| CartViews.RetrieveGivesOwnCart | cart/views.py:22-23 | retrieve answers with the requester's own cart whatever key is asked, for staff too; 404 exactly when the user has no cart |
| CartViews.StaffListsButCannotRetrieve | cart/views.py:16-23 | a staff user lists another user's cart, yet retrieving it by its key does not give that cart |
| CartViews.VisibleItems | cart/views.py:39-45 | staff see every line, anyone else exactly the lines whose cart they own, in key order |
| CartViews.CustomerSeesOwnLines | cart/views.py:39-45 | a customer's line listing is exactly the lines of their own cart, in key order, or empty |
| CartViews.AddLineQuantity | cart/views.py:52-67 | an add is accepted exactly when the cart's quantity of the variant plus the requested quantity is within stock; then that quantity rises by exactly the requested amount; a refusal changes nothing |
| CartViews.AddLineLeavesOtherLines | cart/views.py:52-67 | every line for another (cart, variant) is in the table afterwards exactly when it was before |
| CartViews.UnknownVariantRefused | cart/serializers.py:12-17 | a `variant_detail` key naming no variant is a 400 that creates neither a cart nor a line |
| CartViews.AddLineKeepsItemsValid | cart/views.py:52-67 | merging or inserting keeps increasing keys, quantities >= 1, both foreign keys and one line per (cart, variant) |
| CartViews.CreateKeepsStateValid | cart/views.py:47-67 | the create endpoint keeps the invariants of both cart tables |
| CartViews.CreateAlwaysLeavesCart | cart/views.py:48 | invalid data changes nothing; valid data always leaves the user with a cart, even when the quantity is then refused |
| CartViews.CreateRefusesOnlyMerges | cart/views.py:62-66 | perform_create's stock refusal only happens for a variant already in the cart |
| CartViews.CreateCartItem | cart/views.py:47-67 | the method's result and new tables are those of `CreateSpec` on the old tables |
| CartViews.UpdateNeverForbidden | cart/views.py:72-73 | the update endpoint never answers 403: the permission check cannot be reached for a line outside the user's queryset |
| CartViews.UpdateOnlyOwnLines | cart/views.py:39-45 | a customer addressing a line of someone else's cart gets 404 and nothing changes |
| CartViews.PerformUpdateKeepsStateValid | cart/views.py:69-94 | a saved update rewrites only the addressed line, within the new variant's stock, and keeps both invariants; the conflicting-variant 500 only adds the requester's cart; other outcomes change nothing |
| CartViews.UpdateKeepsStateValid | cart/views.py:69-94 | the same for the whole update endpoint, addressed by key: only the line with that key can change |
| CartViews.UpdateCartItem | cart/views.py:69-94 | the method's result and new tables are those of `UpdateSpec` on the old tables |
| CartViews.WithoutLine | cart/views.py:100 | deleting a line leaves exactly the other lines, in key order |
| CartViews.DestroyRemovesOwnLine | cart/views.py:97-100 | delete never answers 403; it succeeds exactly when a line with that key is visible to the user (own cart, or any for staff), removes exactly that line and keeps both invariants; otherwise nothing changes |
| CartViews.DestroyCartItem | cart/views.py:97-100 | the method's result and new line table are those of `DestroySpec` |
| OrderModels.ParseStatus | orders/models.py:7-13 | an accepted status value is the stored value of the parsed choice |
| OrderModels.ParsePayment | orders/models.py:15-21 | an accepted payment-status value is the stored value of the parsed choice |
| OrderModels.ChoicesRoundTrip | orders/models.py:7-21 | every status and payment status is accepted back from its stored value |
| OrderModels.NewOrder | orders/models.py:24-27 | a new order is pending, unpaid and without tran_id, with the given user and total |
| OrderModels.ItemsTotalAppend | orders/models.py:44-46 | adding an order item adds exactly its price times quantity to the sum of item totals |
| OrderModels.WithoutOrder | orders/models.py:39 | the CASCADE from a deleted order leaves exactly the other orders' items |
| OrderViews.FirstShortage | orders/views.py:96-102 | `None` exactly when every line is within its variant's stock |
| OrderViews.FirstShortageAt | orders/views.py:96-102 | when line k is the first short line, the report names its variant and the stock checkout saw |
| OrderViews.OrderItemsFor | orders/views.py:104-109 | one order item per line, with the line's variant and quantity and the variant's current price |
| OrderViews.OrderItemsTotal | orders/views.py:113-120 | the sum of the item totals equals the total checkout accumulates |
| OrderViews.Decremented | orders/views.py:111-116 | the bulk stock update keeps the set of variants |
| OrderViews.DecrementedLine | orders/views.py:111-116 | with distinct variants, each line's variant loses exactly the line's quantity and keeps its price |
| OrderViews.DecrementedOther | orders/views.py:111-116 | a variant no line names keeps its row |
| OrderViews.CheckoutWithoutCart | orders/views.py:77-79 | without a cart: CartNotFound and no table changes |
| OrderViews.CheckoutWithEmptyCart | orders/views.py:82-87 | with an empty cart: CartEmpty, no order, no stock change, cart unchanged |
| OrderViews.CheckoutShortOfStock | orders/views.py:90-102 | when line k is the first short one: NotEnoughStock with its variant and stock; stock, order items and cart lines unchanged, but an order with total 0, pending, unpaid is added |
| OrderViews.CheckoutSucceedsIff | orders/views.py:71-126 | checkout succeeds exactly when the user has a cart, it has lines and every line is in stock |
| OrderViews.CheckoutCreatesOrder | orders/views.py:89-120 | on success: one new pending, unpaid order without tran_id under the next key; one order item per cart line with its variant, quantity and price at checkout time; total == sum of item totals |
| OrderViews.CheckoutDecrementsStock | orders/views.py:96-116 | on success each cart line's variant loses exactly the line's quantity and keeps its price; other variants keep their rows; no variant appears or disappears |
| OrderViews.CheckoutClearsCart | orders/views.py:123 | on success the user's cart has no lines, and every other cart's lines are kept |
| OrderViews.ProcessLines | orders/views.py:96-113 | the loop reports exactly the first shortage; with none, its items, total and stocks are those of the specification functions |
| OrderViews.Checkout | orders/views.py:71-126 | the method's result and new tables are those of `CheckoutSpec` on the old tables |
| OrderViews.VisibleOrders | orders/views.py:45-47 | staff see every order, anyone else exactly their own, in key order |
| OrderViews.OrderListingIsVisibleNewestFirst | orders/views.py:45-47 | the listing holds exactly the visible orders, in strictly descending key order (ordering `-id`) |
| OrderViews.CreateStatus | orders/views.py:50-54 | direct order creation is always answered 405 |
| OrderViews.UpdateOrder | orders/views.py:56-64 | non-staff are refused with no change; staff update only the addressed order, each supplied field to one of its choices; an unknown key or value changes nothing |
| OrderViews.Changed | orders/models.py:24-25 | an update is accepted exactly when each supplied status is one of its choices; supplied fields take their value, omitted ones and total, user, tran_id stay |
| OrderViews.DestroyOrder | orders/views.py:66-69 | non-staff are refused; staff delete exactly when the order exists, removing it and its items; otherwise nothing changes |
| PaymentToken.Yyyymmdd | payments/views.py:41 | `%Y%m%d` is always eight digits |
| PaymentToken.Token | payments/views.py:41 | the token is the prefix followed by the cart id's digits and eight date digits |
| PaymentToken.RemovePrefixes | payments/views.py:16 | the replace never lengthens the string |
| PaymentToken.NoPrefixUnchanged | payments/views.py:16 | a string without the letter t is left as it is by the replace |
| PaymentToken.LeadingPrefixDeleted | payments/views.py:16 | a leading copy of the prefix is deleted |
| PaymentToken.ParseInt | payments/views.py:16 | only a non-empty string parses |
| PaymentToken.DecimalRoundTrip | payments/views.py:41 | the digits of `str(n)` have value n |
| PaymentToken.TokenRoundTrip | payments/views.py:14-18 | the token built for any cart on any date extracts back to that cart |
| PaymentToken.TokensOfDistinctCartsDiffer | payments/views.py:41 | tokens of different carts differ, whatever their dates |
| PaymentToken.TokenExample | payments/views.py:14-18 | cart 7 on 2024-01-15 gives "transectionId720240115", which extracts to 7 |
| PaymentToken.ShortTokensGiveNone | payments/views.py:15-18 | a missing token, or one whose rest is at most eight characters, gives `None` |
| PaymentToken.NonNumericGivesNone | payments/views.py:15-18 | a rest that does not start with a digit or sign gives `None` (such as the token of a missing cart id) |
| PaymentViews.InitiationRequest | payments/views.py:22-58 | the session request carries the token of the cart on today's date, which extracts back to the cart; the phone is the customer's or the default one; currency BDT |
| PaymentViews.InitiationResult | payments/views.py:63-69 | payment_url exactly when the gateway says SUCCESS and gives a page URL; 400 exactly when it does not say SUCCESS |
| PaymentViews.PaymentSuccess | payments/views.py:72-101 | the method's response and new tables are those of `PaymentSuccessSpec` |
| PaymentViews.PaymentCancel | payments/views.py:104-106 | a redirect to the fixed cancel page |
| PaymentViews.PaymentFail | payments/views.py:109-111 | a redirect to the fixed fail page |
| PaymentViews.SuccessWithoutCart | payments/views.py:78-82 | a token naming no cart gives 400 "Cart not found for transaction." and changes nothing |
| PaymentViews.SuccessRunsCheckoutAsOwner | payments/views.py:84-101 | with a cart found, the tables change exactly as checkout by the cart's owner changes them; redirect to success exactly when checkout created an order, otherwise 400 "Checkout failed after payment." |
| PaymentViews.PaidCartBecomesOrder | payments/views.py:72-101 | paying for an in-stock cart with its own token redirects to success, empties that cart and records one order for its owner with the cart's total |
| PaymentViews.PaidCartShortOfStock | payments/views.py:98-101 | paying for a cart with a short line gives 400 and leaves an empty order shell |
| PaymentViews.UniqueCartId | payments/views.py:79 | with distinct keys, looking a cart up by its key finds it |
| PaymentViews.OwnersCart | payments/views.py:84 | with one cart per user, the owner's cart is the cart itself |
| ShippingModels.ClearDefaults | shipping/models.py:27 | the bulk update clears the default flag of every row of the user except the excluded pk, and changes nothing else |
| ShippingModels.SaveWritesDraft | shipping/models.py:28 | the saved row is in the table under its key, with the draft's fields |
| ShippingModels.SaveKeepsAddressesValid | shipping/models.py:24-28 | saving a new or an existing address keeps keys distinct and below the next key |
| ShippingModels.SavedDefaultIsTheOnlyDefault | shipping/models.py:25-28 | after saving a default address it is the user's only default address |
| ShippingModels.OtherRowsKept | shipping/models.py:25-27 | a non-default save, and any save for other users' rows, keeps every other row exactly |
| ShippingModels.SaveKeepsOneDefaultPerUser | shipping/models.py:24-28 | a save keeps at most one default address per user |
| ShippingModels.AddressTable.Save | shipping/models.py:24-28 | the method's saved row and new table are those of `SaveSpec` on the old table |
| WishlistModels.ItemIndex | wishlist/views.py:38 | finds the wishlist's item for the variant, and `None` exactly when there is none |
| WishlistModels.WithoutVariantItems | wishlist/models.py:14 | the CASCADE from a deleted variant leaves exactly the items of other variants, in key order |
| WishlistModels.GetOrCreateWishlist | wishlist/views.py:37 | the returned wishlist is the user's and is in the table; no wishlist is lost |
| WishlistModels.GetOrCreateKeepsWishlistsValid | wishlist/models.py:6 | get_or_create keeps one wishlist per user; afterwards the user's wishlist is the one returned |
| WishlistModels.AppendKeepsWishItemsValid | wishlist/models.py:18 | a new item for a (wishlist, variant) not yet present keeps the item table invariant |
| WishlistModels.MoreWishlistsKeepWishItemsValid | wishlist/models.py:13 | adding wishlists never breaks the item table's foreign keys |
| WishlistViews.VisibleWishItems | wishlist/views.py:25 | exactly the items whose wishlist the user owns, in key order |
| WishlistViews.ListingShowsOwnWishlist | wishlist/views.py:25 | the listing holds exactly the items of the user's own wishlist |
| WishlistViews.AddOutcome | wishlist/views.py:27-43 | a missing or 0 variant_id gives 400 and an unknown variant 404, with no change; a variant already in the wishlist gives 200 and no change; otherwise exactly one item is appended (201); after any add of a known variant it is in the user's wishlist |
| WishlistViews.AddKeepsStateValid | wishlist/views.py:37-38 | adding keeps one wishlist per user and one item per (wishlist, variant) |
| WishlistViews.AddIdempotent | wishlist/views.py:38-41 | a second add of the same variant gives 200 and changes nothing |
| WishlistViews.AddWishlistItem | wishlist/views.py:27-43 | the method's result and new tables are those of `AddSpec` |
| WishlistViews.WithoutItem | wishlist/views.py:49 | deleting an item leaves exactly the other items, in key order |
| WishlistViews.RemoveOutcome | wishlist/views.py:45-49 | delete never answers 403; it succeeds exactly when the user owns an item with that key, removing exactly it; otherwise nothing changes |
| WishlistViews.RemoveKeepsStateValid | wishlist/views.py:45-49 | delete keeps both wishlist invariants |
| WishlistViews.RemoveWishlistItem | wishlist/views.py:45-49 | the method's result and new item table are those of `RemoveSpec` |
| ReviewViews.ReviewsOf | reviews/views.py:26-29 | exactly the reviews of the product in the URL |
| ReviewViews.HasReviewed | reviews/views.py:37 | true exactly when the user has a review of the product |
| ReviewViews.CreateReviewOutcome | reviews/views.py:31-40 | a second review is refused with no change; a first one for a URL key no product has reaches the insert, fails with a 500 and changes nothing; otherwise it is appended with the requesting user and the URL's product, the product exists, and it is listed under it; one review per (user, product) is kept |
| ReviewViews.SecondReviewRefused | reviews/views.py:37-38 | right after a review is saved (or refused as a second one), the same user's next review of that product is refused |
| ReviewViews.CreateReview | reviews/views.py:31-40 | the method's result and new table are those of `CreateReviewSpec`, missing-product 500 included |
| ProductViews.VisibleProducts | products/views.py:83-92 | staff see every product, anyone else exactly the active ones |
| ProductViews.StaffSeeEveryProduct | products/views.py:115-128 | staff see every product of the table; what others see is a part of it (the rows are in table order: the listing's newest-first order is left out) |
| ProductViews.ImagesOf | products/views.py:148-151 | exactly the images of the URL's product |
| ProductViews.VariantsOf | products/views.py:179-182 | exactly the variants of the URL's product, with their rows |
| ProductViews.ClearPrimaries | products/views.py:164 | every image of the product loses its primary flag; other images, keys and products are unchanged |
| ProductViews.CreateImageAppends | products/views.py:153-157 | staff with an existing product append exactly one image with the URL's product; other images are untouched; otherwise nothing changes |
| ProductViews.CreateImageCanLeaveTwoPrimaries | products/views.py:153-157 | a second primary upload leaves two primary images of one product |
| ProductViews.UpdateImageKeepsKeys | products/views.py:159-165 | an update keeps every key and product in place and writes the addressed image of the URL's product; non-staff get 403 |
| ProductViews.UpdateImageWritesFlag | products/views.py:159-165 | for an image of the URL's product, the update succeeds exactly for staff when the product exists, and writes that image with the validated `is_primary`, or its old flag when none is supplied |
| ProductViews.UpdateImageNeedsListedImage | products/views.py:145-165 | an image key outside the URL product's images gives 404 (403 for non-staff) and changes nothing |
| ProductViews.UpdateWithTrueLeavesSinglePrimary | products/views.py:163-165 | with raw `is_primary` exactly "true", the updated image is its product's only primary image |
| ProductViews.UpdateWithoutTrueTouchesNoOtherImage | products/views.py:163 | with any other raw value, no image but the addressed one changes |
| ProductViews.UpdateImageLeavesOtherProducts | products/views.py:164 | images of other products are never touched |
| ProductViews.CreateImage | products/views.py:153-157 | the method's result and new table are those of `CreateImageSpec` |
| ProductViews.UpdateImage | products/views.py:159-165 | the method's result and new table are those of `UpdateImageSpec`; the next key is unchanged |
| ProductViews.DeleteVariantOutcome | orders/models.py:40 | a variant an order item references is never deleted; a deletion removes the variant and exactly the cart lines and wishlist items naming it; both line tables keep their invariants and every order item still names a variant |
| ProductViews.DestroyVariant | products/views.py:168-182 | the method's result and new tables are those of `DeleteVariantSpec` |

## Left out

- Concurrency: there are no row locks and checkout is one sequential step, so concurrent checkouts are not modelled.
- The SSLCommerz `createSession` call is not modelled; its answer is an input of `InitiationResult`.
- The `APIRequestFactory`/`force_authenticate` re-entry of `payment_success` is modelled as a direct call of checkout.
- `TemporaryAddress` (payments/models.py): no modelled code reads or writes it.
- The order confirmation e-mail (orders/signals.py) is I/O. It fires on every order creation, including the empty order a stock shortage leaves.
- The average rating of reviews (reviews/signals.py) uses floating/Decimal aggregates.
- The admin dashboard (adminuser/) is made of ORM aggregates and date arithmetic.
- Registration, activation and JWT flows (users/views.py) are foreign library calls.
- Serializer output, message texts other than the callback's, URL routing, filters and search are left out.
- orders/permissions.py is not part of this model. `UpdateOrder` and `DestroyOrder` apply the staff checks of the view itself.
- OrderViews.Checkout, OrderViews.CreateStatus, OrderViews.VisibleOrders and PaymentViews.PaymentSuccess: the `IsAdminOrReadOnlyOrder` permission (orders/views.py:8,34) applies to every order action, and the model assumes it admits the requester, as the documented checkout of orders/views.py:26-31 implies. Should the class refuse the owner's checkout POST, checkout and the payment callback would answer 403, which the model does not capture.
- reviews/models.py and reviews/permissions.py are not part of this model. Review rows carry the fields the view writes; review update and delete are left out.
- Review rating bounds are not modelled, because the serializer's fields are not part of this model.
- Wishlist update, variant create and update, and image delete are framework glue with no rule of their own.
- Cart and wishlist deletion (the CASCADE from a user) is not modelled, because no modelled operation deletes a user, cart or wishlist.
- Listing orders that need timestamps (addresses: default first, then most recently updated; images: primary first, then newest; products: newest first by `Meta.ordering`, products/models.py:50-51) are not modelled. Only membership is stated; `VisibleProducts` keeps table order.
- Python `int()` is modelled as an optional sign followed by ASCII digits. Whitespace, underscores and non-ASCII digits are not accepted, and the cart key is compared as a plain integer.
- Decimal money is integer cents. The `max_digits` bounds are not modelled.
- Dates before year 1000 are left out, because the padding of `%Y` there depends on the platform.
- The `CartItem.quantity` default of 1 is the constant `CartModels.DefaultQuantity`. No endpoint uses it, because the serializer makes quantity required.
- CartSerializers.Validate: requires the instance's variant to exist, which the line table's foreign key guarantees. An unknown `variant_detail` key is refused first with `UnknownVariant`; DRF would also report other field errors of the same request in the same 400, and the model keeps only that one. A quantity <= 0 is refused by the field's `min_value=1` before `validate`, with the same 400 and another message.
- CartViews.PerformUpdate: the conflicting-variant branch ends in a 500 because it reads a missing attribute; the model keeps only its `get_or_create` of the requester's cart.
- ShippingModels.SaveKeepsAddressesValid: proved only for a new address or one whose key exists. A save with an explicit key that matches no row inserts it under that key, which may collide with a later key.
- ShippingModels.SaveKeepsOneDefaultPerUser: carries the same restriction on the key.
- ProductViews.UpdateImage: the raw form value is compared with "true" only. BooleanField's other spellings of true ("True", "1") set the flag without clearing other primaries, and the model captures that through the separate `raw` and `isPrimary` inputs.
- Request-level transactions (`ATOMIC_REQUESTS`) are taken to be off, because the settings are not part of this model. This is why the cart made by `get_or_create` persists when a later ValidationError or 500 ends the request (`CreateAlwaysLeavesCart`, the `PerformUpdate` 500).
- The wishlist `variant_id` is modelled as a JSON integer. A string such as "0" is truthy in Python and would reach the look-up (404), and a non-numeric string raises; neither is modelled.
- The review body's own `product` field, which the serializer requires, is not modelled; the saved review takes the URL's product.
- The IsAuthenticated permission of the cart, wishlist and order endpoints, and the IsAuthenticatedOrReadOnly permission of review create (reviews/views.py:24), are modelled by taking an account, not a possibly anonymous requester; the 401 for an anonymous write is not captured.
- ProductViews.CreateImageSpec, ProductViews.UpdateImageSpec: the inputs are the serializer's validated data. The 400s from field validation are not captured: no `image` file on create or a full update (the declared ImageField is required, products/serializers.py:31), and an `is_primary` that BooleanField rejects. The `raw` and `isPrimary` inputs are independent, so the model also admits pairs field validation cannot produce, such as a raw "true" with no validated flag.
