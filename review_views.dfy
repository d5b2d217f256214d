/**
 * reviews/views.py: the review listing of one product and the
 * one-review-per-product rule applied when a review is created. The review
 * table itself (reviews/models.py) is not part of this model; its rows are
 * taken to carry the fields the serializer names.
 */
module ReviewViews {
  import opened ProductModels

  datatype Review = Review(id: nat, user: nat, product: nat, rating: int, comment: string)

  class ReviewTable {
    var rows: seq<Review>
    var nextId: nat
  }

  /** At most one review per (user, product). */
  predicate OnePerUserAndProduct(rows: seq<Review>)
  {
    forall x, y | x in rows && y in rows && x.user == y.user && x.product == y.product :: x == y
  }

  /** Review table invariant: keys increasing and below the next key, one review per user and product. */
  predicate ReviewsValid(rows: seq<Review>, nextId: nat)
  {
    && (forall i, j | 0 <= i < j < |rows| :: rows[i].id < rows[j].id)
    && (forall x | x in rows :: x.id < nextId)
    && OnePerUserAndProduct(rows)
  }

  /** `get_queryset`: `Review.objects.filter(product_id=<product in the URL>)`. */
  function ReviewsOf(rows: seq<Review>, product: nat): (r: seq<Review>)
    ensures forall x :: x in r <==> x in rows && x.product == product
    ensures |r| <= |rows|
  {
    if rows == [] then []
    else if rows[0].product == product then [rows[0]] + ReviewsOf(rows[1..], product)
    else ReviewsOf(rows[1..], product)
  }

  /** `Review.objects.filter(user=user, product_id=product).exists()`. */
  function HasReviewed(rows: seq<Review>, user: nat, product: nat): (b: bool)
    ensures b <==> exists x | x in rows :: x.user == user && x.product == product
  {
    if rows == [] then false
    else (rows[0].user == user && rows[0].product == product) || HasReviewed(rows[1..], user, product)
  }

  datatype ReviewResult =
    | ReviewSaved(review: Review)  // 201
    | AlreadyReviewed              // ValidationError, 400
    | ProductMissing               // the insert breaks the `Review.product` foreign key: IntegrityError, 500

  datatype ReviewOutcome = ReviewOutcome(result: ReviewResult, rows: seq<Review>, nextId: nat)

  /**
   * `perform_create`: refuse a second review, otherwise save with the
   * requesting user and the URL's product. The URL key is never looked up,
   * so a key no product has reaches the insert, which fails and saves nothing.
   */
  function CreateReviewSpec(user: nat, product: nat, rating: int, comment: string, products: seq<Product>,
                            rows: seq<Review>, nextId: nat): ReviewOutcome
  {
    if HasReviewed(rows, user, product) then ReviewOutcome(AlreadyReviewed, rows, nextId)
    else if !ProductExists(products, product) then ReviewOutcome(ProductMissing, rows, nextId)
    else
      var review := Review(nextId, user, product, rating, comment);
      ReviewOutcome(ReviewSaved(review), rows + [review], nextId + 1)
  }

  /**
   * A second review is refused and nothing is saved; a first one for a
   * product that does not exist fails and nothing is saved; otherwise it is
   * appended with the requesting user and the URL's product, is listed under
   * that product, and the table invariant is kept.
   */
  lemma CreateReviewOutcome(user: nat, product: nat, rating: int, comment: string, products: seq<Product>,
                            rows: seq<Review>, nextId: nat)
    requires ReviewsValid(rows, nextId)
    ensures var out := CreateReviewSpec(user, product, rating, comment, products, rows, nextId);
            && ReviewsValid(out.rows, out.nextId)
            && (out.result.AlreadyReviewed? <==> exists x | x in rows :: x.user == user && x.product == product)
            && (out.result.ProductMissing? <==>
                  (forall x | x in rows :: x.user != user || x.product != product)
                  && (forall p | p in products :: p.id != product))
            && (out.result.ReviewSaved? ==> ProductExists(products, product))
            && (!out.result.ReviewSaved? ==> out.rows == rows && out.nextId == nextId)
            && (out.result.ReviewSaved? ==>
                  && out.rows == rows + [out.result.review]
                  && out.result.review.user == user && out.result.review.product == product
                  && out.result.review.rating == rating && out.result.review.comment == comment
                  && out.result.review in ReviewsOf(out.rows, product))
  {
    var out := CreateReviewSpec(user, product, rating, comment, products, rows, nextId);
    if out.result.ReviewSaved? {
      var rows' := out.rows;
      assert forall x | x in rows' :: x == out.result.review || x in rows;
      assert rows'[|rows|] == out.result.review;
    }
  }

  /** After a review is saved, or refused as a second one, the same user's next review of the product is refused. */
  lemma SecondReviewRefused(user: nat, product: nat, rating: int, comment: string, rating': int, comment': string,
                            products: seq<Product>, rows: seq<Review>, nextId: nat)
    requires ReviewsValid(rows, nextId)
    ensures var out := CreateReviewSpec(user, product, rating, comment, products, rows, nextId);
            !out.result.ProductMissing? ==>
              CreateReviewSpec(user, product, rating', comment', products, out.rows, out.nextId).result == AlreadyReviewed
  {
    var out := CreateReviewSpec(user, product, rating, comment, products, rows, nextId);
    if out.result.ReviewSaved? {
      assert out.rows[|rows|] == out.result.review;
    }
  }

  /** `ReviewViewSet.create` as a method on the review table. */
  method CreateReview(user: nat, product: nat, rating: int, comment: string, products: ProductTable,
                      reviews: ReviewTable) returns (r: ReviewResult)
    modifies reviews
    ensures CreateReviewSpec(user, product, rating, comment, products.rows, old(reviews.rows), old(reviews.nextId))
            == ReviewOutcome(r, reviews.rows, reviews.nextId)
  {
    if HasReviewed(reviews.rows, user, product) {
      return AlreadyReviewed;
    }
    if !ProductExists(products.rows, product) {
      return ProductMissing;
    }
    var review := Review(reviews.nextId, user, product, rating, comment);
    reviews.rows, reviews.nextId := reviews.rows + [review], reviews.nextId + 1;
    r := ReviewSaved(review);
  }
}
