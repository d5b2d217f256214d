/**
 * products/views.py: the active-product filter of the two product
 * listings, the per-product image and variant listings, the primary-image
 * handling of image create and update, and variant deletion with the
 * protection and cascades products/models.py, orders/models.py,
 * cart/models.py and wishlist/models.py declare on the variant key.
 */
module ProductViews {
  import opened Wrappers
  import opened Accounts
  import opened ProductModels
  import opened ProductPermissions
  import opened CartModels
  import opened OrderModels
  import opened WishlistModels

  // ---------------------------------------------------------------- listings

  /**
   * `ProductViewSet.get_queryset` and `DetailProductViewSet.get_queryset`:
   * every product for staff, only the active ones for anyone else.
   */
  function VisibleProducts(products: seq<Product>, requester: Requester): (r: seq<Product>)
    ensures forall p :: p in r <==> p in products && (requester.IsStaff() || p.isActive)
    ensures |r| <= |products|
  {
    if products == [] then []
    else if requester.IsStaff() || products[0].isActive then [products[0]] + VisibleProducts(products[1..], requester)
    else VisibleProducts(products[1..], requester)
  }

  /** Staff see the whole table, in table order; anyone else sees a part of what staff see. */
  lemma {:induction false} StaffSeeEveryProduct(products: seq<Product>, staff: Requester, other: Requester)
    requires staff.IsStaff()
    ensures VisibleProducts(products, staff) == products
    ensures forall p | p in VisibleProducts(products, other) :: p in VisibleProducts(products, staff)
  {
    if products != [] {
      StaffSeeEveryProduct(products[1..], staff, other);
      assert [products[0]] + products[1..] == products;
    }
  }

  /** `ProductImageViewSet.get_queryset`: the images whose product is the one in the URL. */
  function ImagesOf(images: seq<ProductImage>, product: nat): (r: seq<ProductImage>)
    ensures forall x :: x in r <==> x in images && x.product == product
  {
    if images == [] then []
    else if images[0].product == product then [images[0]] + ImagesOf(images[1..], product)
    else ImagesOf(images[1..], product)
  }

  /** `ProductVariantViewSet.get_queryset`: the variants whose product is the one in the URL. */
  function VariantsOf(variants: map<nat, Variant>, product: nat): (r: map<nat, Variant>)
    ensures forall k :: k in r <==> k in variants && variants[k].product == product
    ensures forall k | k in r :: r[k] == variants[k]
  {
    map k | k in variants && variants[k].product == product :: variants[k]
  }

  // ---------------------------------------------------------------- images

  datatype ImageResult =
    | ImageSaved(image: ProductImage) // 201 on create, 200 on update
    | ImageForbidden                  // IsAdminUser refuses, 403
    | ImageNotFound                   // not among the product's images, 404
    | ProductMissing                  // `Product.objects.get` raises DoesNotExist, 500

  /** Position of the row with primary key `id`. */
  function ImageIndex(images: seq<ProductImage>, id: nat): (r: Option<nat>)
    ensures r.Some? ==> r.value < |images| && images[r.value].id == id
    ensures r.None? <==> forall x | x in images :: x.id != id
  {
    if images == [] then None
    else if images[0].id == id then Some(0)
    else match ImageIndex(images[1..], id)
      case None => None
      case Some(k) => Some(k + 1)
  }

  /** `ProductImage.objects.filter(product=product, is_primary=True).update(is_primary=False)`. */
  function ClearPrimaries(images: seq<ProductImage>, product: nat): (r: seq<ProductImage>)
    ensures |r| == |images|
    ensures forall i | 0 <= i < |images| :: r[i].id == images[i].id && r[i].product == images[i].product
    ensures forall i | 0 <= i < |images| :: images[i].product != product ==> r[i] == images[i]
    ensures forall i | 0 <= i < |images| :: images[i].product == product ==> !r[i].isPrimary
  {
    if images == [] then []
    else
      var head := if images[0].product == product && images[0].isPrimary then images[0].(isPrimary := false) else images[0];
      [head] + ClearPrimaries(images[1..], product)
  }

  /** `perform_create` behind IsAdminUser: the image is saved for the URL's product, whatever the other images say. */
  function CreateImageSpec(requester: Requester, product: nat, isPrimary: bool, products: seq<Product>,
                           images: seq<ProductImage>, nextId: nat): (ImageResult, seq<ProductImage>, nat)
  {
    if !requester.IsStaff() then (ImageForbidden, images, nextId)
    else if !ProductExists(products, product) then (ProductMissing, images, nextId)
    else
      var image := ProductImage(nextId, product, isPrimary);
      (ImageSaved(image), images + [image], nextId + 1)
  }

  /** Create only appends: it keeps the table invariant and leaves every other image, primary or not, as it was. */
  lemma CreateImageAppends(requester: Requester, product: nat, isPrimary: bool, products: seq<Product>,
                           images: seq<ProductImage>, nextId: nat)
    requires ImagesValid(images, nextId)
    ensures var (r, images', nextId') := CreateImageSpec(requester, product, isPrimary, products, images, nextId);
            && ImagesValid(images', nextId')
            && (r.ImageSaved? <==> requester.IsStaff() && ProductExists(products, product))
            && (r.ImageSaved? ==> images' == images + [r.image] && r.image.product == product
                                  && r.image.isPrimary == isPrimary)
            && (!r.ImageSaved? ==> images' == images)
  {
  }

  /** So create does not keep a single primary image: a second primary upload leaves two. */
  lemma CreateImageCanLeaveTwoPrimaries()
    ensures var images := [ProductImage(1, 5, true)];
            var (r, images', _) := CreateImageSpec(Authenticated(User(1, true)), 5, true, [Product(5, true)], images, 2);
            && r.ImageSaved?
            && images'[0].product == 5 && images'[0].isPrimary
            && images'[1].product == 5 && images'[1].isPrimary
            && images'[0] != images'[1]
  {
    assert Product(5, true) in [Product(5, true)];
  }

  /**
   * `perform_update` behind IsAdminUser, after `get_object` found the image
   * among the URL product's images: a raw `is_primary` of exactly "true"
   * first clears the product's primary flags, then the image is written with
   * the validated flag (absent in a partial update: unchanged).
   */
  function UpdateImageSpec(requester: Requester, product: nat, id: nat, raw: Option<string>, isPrimary: Option<bool>,
                           products: seq<Product>, images: seq<ProductImage>): (ImageResult, seq<ProductImage>)
  {
    if !requester.IsStaff() then (ImageForbidden, images)
    else
      var listed := ImagesOf(images, product);
      match ImageIndex(listed, id)
      case None => (ImageNotFound, images)
      case Some(j) =>
        if !ProductExists(products, product) then (ProductMissing, images)
        else
          assert listed[j] in images;
          var cleared := if raw == Some("true") then ClearPrimaries(images, product) else images;
          var saved := listed[j].(isPrimary := isPrimary.GetOr(listed[j].isPrimary));
          (ImageSaved(saved), cleared[ImageIndex(images, id).value := saved])
  }

  /** With increasing keys, two images under one key are the same image. */
  lemma ImageKeyUnique(images: seq<ProductImage>, nextId: nat, x: ProductImage, y: ProductImage)
    requires ImagesValid(images, nextId)
    requires x in images && y in images && x.id == y.id
    ensures x == y
  {
    var i :| 0 <= i < |images| && images[i] == x;
    var j :| 0 <= j < |images| && images[j] == y;
    assert i == j;
  }

  /** An update keeps every key in place, and writes the addressed image of the URL's product. */
  lemma UpdateImageKeepsKeys(requester: Requester, product: nat, id: nat, raw: Option<string>, isPrimary: Option<bool>,
                             products: seq<Product>, images: seq<ProductImage>, nextId: nat)
    requires ImagesValid(images, nextId)
    ensures var (r, images') := UpdateImageSpec(requester, product, id, raw, isPrimary, products, images);
            && ImagesValid(images', nextId)
            && |images'| == |images|
            && (forall i | 0 <= i < |images| :: images'[i].id == images[i].id && images'[i].product == images[i].product)
            && (r.ImageSaved? ==> r.image.id == id && r.image.product == product && r.image in images')
            && (!r.ImageSaved? ==> images' == images)
            && (!requester.IsStaff() ==> r == ImageForbidden)
  {
    var (r, images') := UpdateImageSpec(requester, product, id, raw, isPrimary, products, images);
    if r.ImageSaved? {
      var listed := ImagesOf(images, product);
      var x := listed[ImageIndex(listed, id).value];
      assert x in images;
      var i := ImageIndex(images, id).value;
      assert images'[i] == r.image;
    }
  }

  /**
   * An update succeeds exactly for staff addressing an image of an existing
   * URL product, and writes that image with the validated flag, or its old
   * flag when the data supplies none.
   */
  lemma UpdateImageWritesFlag(requester: Requester, product: nat, id: nat, raw: Option<string>, isPrimary: Option<bool>,
                              products: seq<Product>, images: seq<ProductImage>, nextId: nat, x: ProductImage)
    requires ImagesValid(images, nextId)
    requires x in images && x.id == id && x.product == product
    ensures var r := UpdateImageSpec(requester, product, id, raw, isPrimary, products, images).0;
            && (r.ImageSaved? <==> requester.IsStaff() && ProductExists(products, product))
            && (r.ImageSaved? ==> r.image == x.(isPrimary := isPrimary.GetOr(x.isPrimary)))
  {
    var listed := ImagesOf(images, product);
    assert x in listed;
    var j := ImageIndex(listed, id).value;
    assert listed[j] in images;
    ImageKeyUnique(images, nextId, x, listed[j]);
  }

  /** An update addressing no image of the URL's product is refused (403 or 404) and changes nothing. */
  lemma UpdateImageNeedsListedImage(requester: Requester, product: nat, id: nat, raw: Option<string>,
                                    isPrimary: Option<bool>, products: seq<Product>, images: seq<ProductImage>)
    requires forall x | x in images && x.product == product :: x.id != id
    ensures UpdateImageSpec(requester, product, id, raw, isPrimary, products, images)
            == (if requester.IsStaff() then ImageNotFound else ImageForbidden, images)
  {
  }

  /** After an update whose raw `is_primary` is exactly "true", the updated image is its product's only primary image. */
  lemma UpdateWithTrueLeavesSinglePrimary(requester: Requester, product: nat, id: nat, isPrimary: Option<bool>,
                                          products: seq<Product>, images: seq<ProductImage>, nextId: nat)
    requires ImagesValid(images, nextId)
    requires isPrimary == Some(true)
    ensures var (r, images') := UpdateImageSpec(requester, product, id, Some("true"), isPrimary, products, images);
            r.ImageSaved? ==>
              && r.image.isPrimary
              && forall x | x in images' && x.product == product && x.isPrimary :: x == r.image
  {
    var (r, images') := UpdateImageSpec(requester, product, id, Some("true"), isPrimary, products, images);
    if r.ImageSaved? {
      var cleared := ClearPrimaries(images, product);
      var i := ImageIndex(images, id).value;
      assert images' == cleared[i := r.image];
      forall x | x in images' && x.product == product && x.isPrimary ensures x == r.image {
        var k :| 0 <= k < |images'| && images'[k] == x;
        if k != i {
          assert images'[k] == cleared[k];
        }
      }
    }
  }

  /** An update whose raw `is_primary` is anything but "true" writes the addressed image and no other. */
  lemma UpdateWithoutTrueTouchesNoOtherImage(requester: Requester, product: nat, id: nat, raw: Option<string>,
                                             isPrimary: Option<bool>, products: seq<Product>,
                                             images: seq<ProductImage>, nextId: nat)
    requires ImagesValid(images, nextId)
    requires raw != Some("true")
    ensures var (r, images') := UpdateImageSpec(requester, product, id, raw, isPrimary, products, images);
            forall i | 0 <= i < |images| && images[i].id != id :: images'[i] == images[i]
  {
  }

  /** Images of other products are never touched by an update. */
  lemma UpdateImageLeavesOtherProducts(requester: Requester, product: nat, id: nat, raw: Option<string>,
                                       isPrimary: Option<bool>, products: seq<Product>,
                                       images: seq<ProductImage>, nextId: nat)
    requires ImagesValid(images, nextId)
    ensures var (r, images') := UpdateImageSpec(requester, product, id, raw, isPrimary, products, images);
            forall i | 0 <= i < |images| && images[i].product != product :: images'[i] == images[i]
  {
    var (r, images') := UpdateImageSpec(requester, product, id, raw, isPrimary, products, images);
    if r.ImageSaved? {
      var listed := ImagesOf(images, product);
      var x := listed[ImageIndex(listed, id).value];
      assert x in images;
      var i := ImageIndex(images, id).value;
      assert images[i] == x;
    }
  }

  /** `ProductImageViewSet.create` as a method on the image table. */
  method CreateImage(requester: Requester, product: nat, isPrimary: bool, products: ProductTable, images: ImageTable)
    returns (r: ImageResult)
    modifies images
    ensures CreateImageSpec(requester, product, isPrimary, products.rows, old(images.rows), old(images.nextId))
            == (r, images.rows, images.nextId)
  {
    if !requester.IsStaff() {
      return ImageForbidden;
    }
    if !ProductExists(products.rows, product) {
      return ProductMissing;
    }
    var image := ProductImage(images.nextId, product, isPrimary);
    images.rows, images.nextId := images.rows + [image], images.nextId + 1;
    r := ImageSaved(image);
  }

  /** `ProductImageViewSet.update` as a method on the image table; the clearing is one bulk update. */
  method UpdateImage(requester: Requester, product: nat, id: nat, raw: Option<string>, isPrimary: Option<bool>,
                     products: ProductTable, images: ImageTable) returns (r: ImageResult)
    modifies images
    ensures UpdateImageSpec(requester, product, id, raw, isPrimary, products.rows, old(images.rows)) == (r, images.rows)
    ensures images.nextId == old(images.nextId)
  {
    if !requester.IsStaff() {
      return ImageForbidden;
    }
    var listed := ImagesOf(images.rows, product);
    var j := ImageIndex(listed, id);
    if j.None? {
      return ImageNotFound;
    }
    if !ProductExists(products.rows, product) {
      return ProductMissing;
    }
    var instance := listed[j.value];
    assert instance in images.rows;
    var i := ImageIndex(images.rows, id).value;
    if raw == Some("true") {
      images.rows := ClearPrimaries(images.rows, product);
    }
    var saved := instance.(isPrimary := isPrimary.GetOr(instance.isPrimary));
    images.rows := images.rows[i := saved];
    r := ImageSaved(saved);
  }

  // ---------------------------------------------------------------- variants

  datatype VariantDeleteResult =
    | VariantDeleted    // 204
    | VariantForbidden  // IsAdminOrReadOnly refuses DELETE, 403
    | VariantMissing    // not among the product's variants, 404
    | VariantProtected  // an order item references it: ProtectedError, nothing deleted, 500

  datatype Catalogue = Catalogue(variants: map<nat, Variant>, cartItems: seq<CartItem>, wishItems: seq<WishlistItem>)

  /** `ProductVariantViewSet.destroy`: permission, `get_object`, then the delete with its PROTECT and CASCADE rules. */
  function DeleteVariantSpec(requester: Requester, product: nat, id: nat, orderItems: seq<OrderItem>, c: Catalogue)
    : (VariantDeleteResult, Catalogue)
  {
    if !IsAdminOrReadOnly("DELETE", requester) then (VariantForbidden, c)
    else if id !in VariantsOf(c.variants, product) then (VariantMissing, c)
    else if Referenced(orderItems, id) then (VariantProtected, c)
    else (VariantDeleted, Catalogue(c.variants - {id}, WithoutVariant(c.cartItems, id), WithoutVariantItems(c.wishItems, id)))
  }

  /**
   * A variant some order item references is never deleted; a deletion
   * removes the variant and exactly the cart lines and wishlist items that
   * name it, so both line tables keep their invariants and every order
   * item still names an existing variant.
   */
  lemma DeleteVariantOutcome(requester: Requester, product: nat, id: nat, orderItems: seq<OrderItem>, c: Catalogue,
                             carts: seq<Cart>, cartsNext: nat, lists: seq<Wishlist>, wishNext: nat)
    requires ItemsValid(c.cartItems, carts, c.variants, cartsNext)
    requires WishItemsValid(c.wishItems, lists, c.variants, wishNext)
    requires forall x | x in orderItems :: x.variant in c.variants
    ensures var (r, c') := DeleteVariantSpec(requester, product, id, orderItems, c);
            && (r.VariantProtected? <==>
                  requester.IsStaff() && id in c.variants && c.variants[id].product == product && Referenced(orderItems, id))
            && (!r.VariantDeleted? ==> c' == c)
            && (r.VariantDeleted? ==>
                  && !Referenced(orderItems, id)
                  && c'.variants.Keys == c.variants.Keys - {id}
                  && (forall k | k in c'.variants :: c'.variants[k] == c.variants[k])
                  && (forall x :: x in c'.cartItems <==> x in c.cartItems && x.variant != id)
                  && (forall x :: x in c'.wishItems <==> x in c.wishItems && x.variant != id))
            && ItemsValid(c'.cartItems, carts, c'.variants, cartsNext)
            && WishItemsValid(c'.wishItems, lists, c'.variants, wishNext)
            && (forall x | x in orderItems :: x.variant in c'.variants)
  {
    var (r, c') := DeleteVariantSpec(requester, product, id, orderItems, c);
    if r.VariantDeleted? {
      forall x | x in orderItems ensures x.variant != id {
        var i :| 0 <= i < |orderItems| && orderItems[i] == x;
      }
      assert UniquePerCartAndVariant(c'.cartItems);
      assert UniquePerWishlistAndVariant(c'.wishItems);
    }
  }

  /** `ProductVariantViewSet.destroy` as a method on the variant table and the two tables that cascade from it. */
  method DestroyVariant(requester: Requester, product: nat, id: nat, variants: VariantTable, orderItems: OrderItemTable,
                        cartItems: CartItemTable, wishItems: WishlistItemTable) returns (r: VariantDeleteResult)
    modifies variants, cartItems, wishItems
    ensures DeleteVariantSpec(requester, product, id, orderItems.rows,
                              old(Catalogue(variants.rows, cartItems.rows, wishItems.rows)))
            == (r, Catalogue(variants.rows, cartItems.rows, wishItems.rows))
  {
    if !IsAdminOrReadOnly("DELETE", requester) {
      return VariantForbidden;
    }
    if id !in VariantsOf(variants.rows, product) {
      return VariantMissing;
    }
    if Referenced(orderItems.rows, id) {
      return VariantProtected;
    }
    cartItems.rows := WithoutVariant(cartItems.rows, id);
    wishItems.rows := WithoutVariantItems(wishItems.rows, id);
    variants.rows := variants.rows - {id};
    r := VariantDeleted;
  }
}
