/**
 * products/models.py: the catalogue rows the shop's rules read. Prices are
 * integer cents (the source's DecimalField with two decimal places) and
 * stock is a non-negative integer (PositiveIntegerField).
 */
module ProductModels {

  /** A product; name, description, category and brand play no part in the rules. */
  datatype Product = Product(id: nat, isActive: bool)

  /** A purchasable variant (product, colour, size) with its own stock and price. */
  datatype Variant = Variant(product: nat, stock: nat, price: nat)

  /** An uploaded image of a product; the file itself is left out. */
  datatype ProductImage = ProductImage(id: nat, product: nat, isPrimary: bool)

  /** The product table, in primary-key order. */
  class ProductTable {
    var rows: seq<Product>
  }

  /** The variant table, keyed by primary key. */
  class VariantTable {
    var rows: map<nat, Variant>
  }

  /** The product-image table, in primary-key order, with the next primary key to hand out. */
  class ImageTable {
    var rows: seq<ProductImage>
    var nextId: nat
  }

  /** Primary keys are increasing along the table and below the next key. */
  predicate ImagesValid(rows: seq<ProductImage>, nextId: nat)
  {
    && (forall i, j | 0 <= i < j < |rows| :: rows[i].id < rows[j].id)
    && (forall i | 0 <= i < |rows| :: rows[i].id < nextId)
  }

  /** Some product has primary key `pk`. */
  predicate ProductExists(products: seq<Product>, pk: nat)
  {
    exists p | p in products :: p.id == pk
  }
}
