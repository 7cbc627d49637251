/** The Product entity (model/Product.java). */
module ProductModel {
  import opened Wrappers
  import opened CategoryModel

  /** A price held as a Java Double; the code only copies it, never computes with it. */
  type Price = real

  /**
   * A product as application code handles it: every field may be null. `id` is
   * assigned by the store; name, description, price and stock are NOT NULL columns;
   * `category` is the required many-to-one reference, loaded together with the product.
   */
  datatype Product = Product(
    id: Option<int>,
    name: Option<string>,
    description: Option<string>,
    price: Option<Price>,
    stock: Option<int>,
    category: Option<Category>)

  /** The NOT NULL columns of the products table, and the non-null join column. */
  predicate HasRequiredColumns(p: Product)
  {
    p.name.Some? && p.description.Some? && p.price.Some? && p.stock.Some? && p.category.Some?
  }

  /** Two products are equal exactly when all six fields are equal, as the generated equals() has it. */
  lemma EqualityIsFieldwise(p: Product, q: Product)
    ensures p == q <==>
      p.id == q.id && p.name == q.name && p.description == q.description &&
      p.price == q.price && p.stock == q.stock && p.category == q.category
  {
  }
}
