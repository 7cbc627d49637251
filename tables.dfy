/**
 * The two tables behind the repositories: `categories(id, name UNIQUE NOT NULL,
 * description)` and `products(id, name UNIQUE NOT NULL, description, price, stock
 * NOT NULL, category_id NOT NULL REFERENCES categories)`. Rows are keyed by their
 * identity-column id. Entities are read back by joining a product row with its
 * category row (the eager many-to-one fetch).
 */
module Tables {
  import opened Wrappers
  import opened CategoryModel
  import opened ProductModel

  /** A stored category: the name is NOT NULL, the description nullable. */
  datatype CategoryRow = CategoryRow(name: string, description: Option<string>)

  /** A stored product: every column NOT NULL; `categoryId` is the foreign key. */
  datatype ProductRow = ProductRow(name: string, description: string, price: Price, stock: int, categoryId: int)

  // ---------------------------------------------------------------------------
  // Table constraints
  // ---------------------------------------------------------------------------

  /** Every id was handed out by an identity column that starts at 1 and is now at `next`. */
  predicate KeysInRange<V>(m: map<int, V>, next: int)
  {
    forall k :: k in m ==> 0 < k < next
  }

  predicate UniqueCategoryNames(categories: map<int, CategoryRow>)
  {
    forall a, b :: a in categories && b in categories && categories[a].name == categories[b].name ==> a == b
  }

  predicate UniqueProductNames(products: map<int, ProductRow>)
  {
    forall a, b :: a in products && b in products && products[a].name == products[b].name ==> a == b
  }

  /** Every product row references an existing category row. */
  predicate ForeignKeysHold(categories: map<int, CategoryRow>, products: map<int, ProductRow>)
  {
    forall k :: k in products ==> products[k].categoryId in categories
  }

  /** All the constraints the schema declares, plus the two identity counters. */
  predicate StoreInvariant(categories: map<int, CategoryRow>, products: map<int, ProductRow>,
                           nextCategoryId: int, nextProductId: int)
    // both identity counters always point at an id no row uses yet
    ensures StoreInvariant(categories, products, nextCategoryId, nextProductId) ==>
      nextCategoryId !in categories && nextProductId !in products
  {
    && KeysInRange(categories, nextCategoryId)
    && KeysInRange(products, nextProductId)
    && UniqueCategoryNames(categories)
    && UniqueProductNames(products)
    && ForeignKeysHold(categories, products)
  }

  /** Some category other than the one at `key` already has `name`. */
  predicate CategoryNameTaken(categories: map<int, CategoryRow>, name: string, key: int)
  {
    exists k :: k in categories && k != key && categories[k].name == name
  }

  /** Some product other than the one at `key` already has `name`. */
  predicate ProductNameTaken(products: map<int, ProductRow>, name: string, key: int)
  {
    exists k :: k in products && k != key && products[k].name == name
  }

  /**
   * The key a save writes to: the entity's own id when a row with that id exists (a
   * merge, which overwrites that row), otherwise the next identity value (an insert).
   */
  function SaveTarget<V>(id: Option<int>, table: map<int, V>, next: int): (key: int)
    // an entity whose row exists is written back to that row
    ensures id.Some? && id.value in table ==> key == id.value
    // in a table whose ids the counter handed out, a save never writes over a row other
    // than the one its entity names, and an insert gets a fresh, positive id
    ensures 0 < next && KeysInRange(table, next) ==>
      && (key in table ==> id == Some(key))
      && (key !in table <==> key == next)
      && 0 < key <= next
  {
    if id.Some? && id.value in table then id.value else next
  }

  // ---------------------------------------------------------------------------
  // Entities <-> rows
  // ---------------------------------------------------------------------------

  /** The row a category entity is written as; none when a NOT NULL column is null. */
  function CategoryRowOf(c: Category): (r: Option<CategoryRow>)
    ensures r.Some? <==> c.name.Some?
  {
    if c.name.Some? then Some(CategoryRow(c.name.value, c.description)) else None
  }

  /** The row a product entity is written as; none when a NOT NULL column or the category's id is null. */
  function ProductRowOf(p: Product): (r: Option<ProductRow>)
    ensures r.Some? <==> HasRequiredColumns(p) && p.category.value.id.Some?
  {
    if HasRequiredColumns(p) && p.category.value.id.Some? then
      Some(ProductRow(p.name.value, p.description.value, p.price.value, p.stock.value, p.category.value.id.value))
    else
      None
  }

  /** The category entity read from row `id`; writing it back gives the same row. */
  function LoadCategory(categories: map<int, CategoryRow>, id: int): (c: Category)
    requires id in categories
    ensures c.id == Some(id) && CategoryRowOf(c) == Some(categories[id])
  {
    Category(Some(id), Some(categories[id].name), categories[id].description)
  }

  /**
   * The product entity read from row `id`, with its category fetched along with it;
   * writing it back gives the same row.
   */
  function LoadProduct(categories: map<int, CategoryRow>, products: map<int, ProductRow>, id: int): (p: Product)
    requires id in products && products[id].categoryId in categories
    ensures p.id == Some(id) && ProductRowOf(p) == Some(products[id])
    ensures p.category == Some(LoadCategory(categories, products[id].categoryId))
  {
    var row := products[id];
    Product(Some(id), Some(row.name), Some(row.description), Some(row.price), Some(row.stock),
            Some(LoadCategory(categories, row.categoryId)))
  }

  // ---------------------------------------------------------------------------
  // Listing rows
  // ---------------------------------------------------------------------------

  /** No filter lists every product; `Some(c)` lists those whose category is `c`. */
  predicate Matches(row: ProductRow, filter: Option<int>)
  {
    filter.None? || row.categoryId == filter.value
  }

  /** The ids in [lo, hi) of the rows that pass `filter`. */
  function MatchingKeys(products: map<int, ProductRow>, filter: Option<int>, lo: int, hi: int): (keys: set<int>)
  {
    set k | k in products && lo <= k < hi && Matches(products[k], filter)
  }

  /**
   * The loaded products whose ids lie in [lo, hi) and pass `filter`, by ascending id:
   * each such row exactly once and nothing else.
   */
  function Collect(categories: map<int, CategoryRow>, products: map<int, ProductRow>,
                   filter: Option<int>, lo: int, hi: int): (r: seq<Product>)
    requires ForeignKeysHold(categories, products)
    ensures forall i :: 0 <= i < |r| ==>
      r[i].id.Some? && r[i].id.value in MatchingKeys(products, filter, lo, hi) &&
      r[i] == LoadProduct(categories, products, r[i].id.value)
    ensures forall k :: k in MatchingKeys(products, filter, lo, hi) ==> LoadProduct(categories, products, k) in r
    ensures forall i, j :: 0 <= i < j < |r| ==> r[i].id.value < r[j].id.value
    decreases hi - lo
  {
    if lo >= hi then []
    else
      var rest := Collect(categories, products, filter, lo + 1, hi);
      if lo in products && Matches(products[lo], filter) then [LoadProduct(categories, products, lo)] + rest
      else rest
  }

  /** A listing holds as many products as there are matching rows. */
  lemma {:induction false} CollectCount(categories: map<int, CategoryRow>, products: map<int, ProductRow>,
                                        filter: Option<int>, lo: int, hi: int)
    requires ForeignKeysHold(categories, products)
    ensures |Collect(categories, products, filter, lo, hi)| == |MatchingKeys(products, filter, lo, hi)|
    decreases hi - lo
  {
    var here := MatchingKeys(products, filter, lo, hi);
    if lo >= hi {
      assert here == {};
    } else {
      CollectCount(categories, products, filter, lo + 1, hi);
      var rest := MatchingKeys(products, filter, lo + 1, hi);
      if lo in products && Matches(products[lo], filter) {
        assert here == rest + {lo};
        assert lo !in rest;
      } else {
        assert here == rest;
      }
    }
  }

  /**
   * The products of category `categoryId` by ascending id, or none at all when no such
   * category exists (the products table is then not consulted).
   */
  function ProductsOfCategory(categories: map<int, CategoryRow>, products: map<int, ProductRow>,
                              nextProductId: int, categoryId: int): (r: seq<Product>)
    requires ForeignKeysHold(categories, products) && KeysInRange(products, nextProductId)
    ensures categoryId !in categories ==> r == []
    ensures categoryId in categories ==> forall i :: 0 <= i < |r| ==>
      r[i].category == Some(LoadCategory(categories, categoryId))
    ensures forall k :: k in products && products[k].categoryId == categoryId ==>
      LoadProduct(categories, products, k) in r
    ensures forall i :: 0 <= i < |r| ==>
      r[i].id.Some? && r[i].id.value in products && r[i] == LoadProduct(categories, products, r[i].id.value)
    ensures |r| == |set k | k in products && products[k].categoryId == categoryId|
  {
    var filtered := set k | k in products && products[k].categoryId == categoryId;
    if categoryId !in categories then
      assert filtered == {} by {
        forall k | k in products ensures products[k].categoryId != categoryId { }
      }
      []
    else
      assert MatchingKeys(products, Some(categoryId), 1, nextProductId) == filtered;
      CollectCount(categories, products, Some(categoryId), 1, nextProductId);
      Collect(categories, products, Some(categoryId), 1, nextProductId)
  }

  // ---------------------------------------------------------------------------
  // Cascade delete
  // ---------------------------------------------------------------------------

  /** The products table once every product of category `c` has been deleted with it. */
  function WithoutCategory(products: map<int, ProductRow>, c: int): (r: map<int, ProductRow>)
    ensures forall k :: k in r <==> k in products && products[k].categoryId != c
    ensures forall k :: k in r ==> r[k] == products[k]
    ensures |r| + |set k | k in products && products[k].categoryId == c| == |products|
  {
    var r := map k | k in products && products[k].categoryId != c :: products[k];
    var removed := set k | k in products && products[k].categoryId == c;
    assert r.Keys !! removed;
    assert r.Keys + removed == products.Keys;
    r
  }

  /** Deleting a category together with its products keeps every table constraint. */
  lemma CascadeDeletePreservesInvariant(categories: map<int, CategoryRow>, products: map<int, ProductRow>,
                                        nextCategoryId: int, nextProductId: int, c: int)
    requires StoreInvariant(categories, products, nextCategoryId, nextProductId)
    ensures StoreInvariant(categories - {c}, WithoutCategory(products, c), nextCategoryId, nextProductId)
  {
  }

  /** Listing some other category's products is not affected by the cascade. */
  lemma {:induction false} CollectIgnoresCascade(categories: map<int, CategoryRow>, products: map<int, ProductRow>,
                                                 c: int, d: int, lo: int, hi: int)
    requires ForeignKeysHold(categories, products) && c != d
    ensures ForeignKeysHold(categories - {c}, WithoutCategory(products, c))
    ensures Collect(categories - {c}, WithoutCategory(products, c), Some(d), lo, hi)
         == Collect(categories, products, Some(d), lo, hi)
    decreases hi - lo
  {
    if lo < hi {
      CollectIgnoresCascade(categories, products, c, d, lo + 1, hi);
    }
  }

  /**
   * After category `c` is deleted with its products: listing `c` yields nothing, none of
   * its former products is stored any more, and every other category lists exactly the
   * products it listed before.
   */
  lemma CascadeDeleteQueries(categories: map<int, CategoryRow>, products: map<int, ProductRow>,
                             nextProductId: int, c: int)
    requires ForeignKeysHold(categories, products) && KeysInRange(products, nextProductId)
    ensures ForeignKeysHold(categories - {c}, WithoutCategory(products, c))
    ensures KeysInRange(WithoutCategory(products, c), nextProductId)
    ensures ProductsOfCategory(categories - {c}, WithoutCategory(products, c), nextProductId, c) == []
    ensures forall k :: k in products && products[k].categoryId == c ==> k !in WithoutCategory(products, c)
    ensures forall d :: d != c ==>
      ProductsOfCategory(categories - {c}, WithoutCategory(products, c), nextProductId, d)
      == ProductsOfCategory(categories, products, nextProductId, d)
  {
    forall d | d != c
      ensures ProductsOfCategory(categories - {c}, WithoutCategory(products, c), nextProductId, d)
           == ProductsOfCategory(categories, products, nextProductId, d)
    {
      CollectIgnoresCascade(categories, products, c, d, 1, nextProductId);
    }
  }

  /**
   * Products carry their category as it is stored now: after category `c`'s row is
   * overwritten, each of its products loads the new row, and every other product loads
   * exactly as before.
   */
  lemma CategoryUpdateSeenByItsProducts(categories: map<int, CategoryRow>, products: map<int, ProductRow>,
                                        c: int, row: CategoryRow, k: int)
    requires ForeignKeysHold(categories, products) && c in categories && k in products
    ensures products[k].categoryId == c ==>
      LoadProduct(categories[c := row], products, k).category == Some(Category(Some(c), Some(row.name), row.description))
    ensures products[k].categoryId != c ==>
      LoadProduct(categories[c := row], products, k) == LoadProduct(categories, products, k)
  {
  }
}
