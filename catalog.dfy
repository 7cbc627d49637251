/**
 * The catalog store: the category and product repositories as two tables with their
 * identity counters, and the product service's operations over them
 * (service/ProductService.java). The category service only forwards to its repository,
 * so its operations are the repository operations here.
 */
module Catalog {
  import opened Wrappers
  import opened CategoryModel
  import opened ProductModel
  import opened Tables

  /**
   * How an operation fails: a category id that does not resolve (the service's
   * RuntimeException), a write the store rejects because it would break a NOT NULL,
   * UNIQUE or foreign-key constraint, or a null argument the code dereferences
   * (a NullPointerException).
   */
  datatype Error = CategoryNotFound(categoryId: int) | IntegrityViolation | NullReference

  /** A category id given on update replaces the current one only when present and different. */
  function ReassignedCategory(current: int, requested: Option<int>): (c: int)
    ensures requested.None? ==> c == current
    ensures requested.Some? ==> c == requested.value
  {
    if requested.Some? && requested.value != current then requested.value else current
  }

  class CatalogStore {
    var categories: map<int, CategoryRow>
    var products: map<int, ProductRow>
    var nextCategoryId: int
    var nextProductId: int

    /** The schema's constraints hold of the stored rows. */
    ghost predicate Valid()
      reads this
    {
      0 < nextCategoryId && 0 < nextProductId &&
      StoreInvariant(categories, products, nextCategoryId, nextProductId)
    }

    /** An empty store; both identity columns start at 1. */
    constructor ()
      ensures Valid()
      ensures categories == map[] && products == map[]
      ensures nextCategoryId == 1 && nextProductId == 1
    {
      categories := map[];
      products := map[];
      nextCategoryId := 1;
      nextProductId := 1;
    }

    // -------------------------------------------------------------------------
    // Categories (CategoryService and its repository)
    // -------------------------------------------------------------------------

    /** findById on categories: present exactly when a row has that id. */
    function GetCategoryById(id: int): (r: Option<Category>)
      reads this
      ensures r.Some? <==> id in categories
      ensures r.Some? ==> r.value.id == Some(id) && CategoryRowOf(r.value) == Some(categories[id])
    {
      if id in categories then Some(LoadCategory(categories, id)) else None
    }

    /**
     * save on categories: merges into the row the category's id names, or inserts it
     * under the next identity value. Rejected, with nothing written, when the name is
     * null or held by another category.
     */
    method SaveCategory(c: Category) returns (r: Result<Category, Error>)
      requires Valid()
      modifies this
      ensures Valid()
      ensures var key := SaveTarget(c.id, old(categories), old(nextCategoryId));
        && (r.Ok? <==> c.name.Some? && !CategoryNameTaken(old(categories), c.name.value, key))
        && (r.Ok? ==> categories == old(categories)[key := CategoryRowOf(c).value])
        && (r.Ok? ==> r.value == c.(id := Some(key)) && GetCategoryById(key) == Some(r.value))
        && (r.Ok? && key !in old(categories) ==> key == old(nextCategoryId) && nextCategoryId == key + 1)
        && (r.Ok? && key in old(categories) ==> nextCategoryId == old(nextCategoryId))
      ensures r.Err? ==> r.error == IntegrityViolation && categories == old(categories)
      ensures r.Err? ==> nextCategoryId == old(nextCategoryId)
      ensures products == old(products) && nextProductId == old(nextProductId)
    {
      if c.name.None? {
        return Err(IntegrityViolation);
      }
      var key := SaveTarget(c.id, categories, nextCategoryId);
      if CategoryNameTaken(categories, c.name.value, key) {
        return Err(IntegrityViolation);
      }
      categories := categories[key := CategoryRow(c.name.value, c.description)];
      if key == nextCategoryId {
        nextCategoryId := nextCategoryId + 1;
      }
      r := Ok(c.(id := Some(key)));
    }

    /**
     * deleteById on categories: removes the row if there is one, and with it every
     * product of that category (the cascade declared on the category's product list).
     */
    method DeleteCategoryById(id: int)
      requires Valid()
      modifies this
      ensures Valid()
      ensures categories == old(categories) - {id}
      ensures products == WithoutCategory(old(products), id)
      ensures nextCategoryId == old(nextCategoryId) && nextProductId == old(nextProductId)
      ensures GetProductsByCategoryId(id) == []
      ensures forall k :: k in old(products) && old(products)[k].categoryId == id ==> GetProductById(k) == None
      ensures forall d :: d != id ==> GetProductsByCategoryId(d) == old(GetProductsByCategoryId(d))
    {
      CascadeDeletePreservesInvariant(categories, products, nextCategoryId, nextProductId, id);
      CascadeDeleteQueries(categories, products, nextProductId, id);
      categories := categories - {id};
      products := WithoutCategory(products, id);
    }

    // -------------------------------------------------------------------------
    // Products (ProductService)
    // -------------------------------------------------------------------------

    /** getAllProducts: every stored product exactly once, by ascending id, each with its category. */
    function GetAllProducts(): (r: seq<Product>)
      reads this
      requires Valid()
      ensures |r| == |products|
      ensures forall k :: k in products ==> LoadProduct(categories, products, k) in r
      ensures forall i :: 0 <= i < |r| ==>
        r[i].id.Some? && r[i].id.value in products && r[i] == LoadProduct(categories, products, r[i].id.value)
      ensures forall i, j :: 0 <= i < j < |r| ==> r[i].id.value < r[j].id.value
    {
      assert MatchingKeys(products, None, 1, nextProductId) == products.Keys;
      CollectCount(categories, products, None, 1, nextProductId);
      Collect(categories, products, None, 1, nextProductId)
    }

    /** getProductById: present exactly when a row has that id; the product comes with its category. */
    function GetProductById(id: int): (r: Option<Product>)
      reads this
      requires Valid()
      ensures r.Some? <==> id in products
      ensures r.Some? ==> r.value.id == Some(id) && ProductRowOf(r.value) == Some(products[id])
      ensures r.Some? ==> r.value.category == Some(LoadCategory(categories, products[id].categoryId))
    {
      if id in products then Some(LoadProduct(categories, products, id)) else None
    }

    /**
     * getProductsByCategoryId: empty for an unknown category, otherwise exactly the
     * products of that category.
     */
    function GetProductsByCategoryId(categoryId: int): (r: seq<Product>)
      reads this
      requires Valid()
      ensures categoryId !in categories ==> r == []
      ensures |r| == |set k | k in products && products[k].categoryId == categoryId|
      ensures forall k :: k in products && products[k].categoryId == categoryId ==> GetProductById(k).value in r
      ensures forall i :: 0 <= i < |r| ==>
        r[i].id.Some? && r[i].id.value in products && products[r[i].id.value].categoryId == categoryId &&
        GetProductById(r[i].id.value) == Some(r[i])
    {
      ProductsOfCategory(categories, products, nextProductId, categoryId)
    }

    /**
     * saveProduct (the product repository's save): merges into the row the product's id
     * names, or inserts it under the next identity value. Rejected, with nothing
     * written, when a NOT NULL column is null, the category is missing or does not
     * exist, or the name is held by another product. An insert returns the entity
     * given, now with its id; a merge returns the row as reloaded.
     */
    method SaveProduct(p: Product) returns (r: Result<Product, Error>)
      requires Valid()
      modifies this
      ensures Valid()
      ensures var key := SaveTarget(p.id, old(products), old(nextProductId));
        && (r.Ok? <==>
              ProductRowOf(p).Some? && ProductRowOf(p).value.categoryId in old(categories) &&
              !ProductNameTaken(old(products), p.name.value, key))
        && (r.Ok? ==> products == old(products)[key := ProductRowOf(p).value])
        && (r.Ok? && key !in old(products) ==>
              key == old(nextProductId) && nextProductId == key + 1 && r.value == p.(id := Some(key)))
        && (r.Ok? && key in old(products) ==>
              nextProductId == old(nextProductId) && Some(r.value) == GetProductById(key))
      ensures r.Err? ==> r.error == IntegrityViolation
      ensures r.Err? ==> products == old(products) && nextProductId == old(nextProductId)
      ensures categories == old(categories) && nextCategoryId == old(nextCategoryId)
    {
      var row := ProductRowOf(p);
      if row.None? || row.value.categoryId !in categories {
        return Err(IntegrityViolation);
      }
      var key := SaveTarget(p.id, products, nextProductId);
      if ProductNameTaken(products, row.value.name, key) {
        return Err(IntegrityViolation);
      }
      var inserting := key == nextProductId;
      products := products[key := row.value];
      if inserting {
        nextProductId := nextProductId + 1;
        r := Ok(p.(id := Some(key)));
      } else {
        r := Ok(LoadProduct(categories, products, key));
      }
    }

    /**
     * createProduct: fails with CategoryNotFound, writing nothing, when the category id
     * does not resolve. Otherwise builds a product with no id and the resolved category
     * and saves it: on success exactly one product is added, under a fresh id, carrying
     * the given fields, and reading it back gives the product returned.
     */
    method CreateProduct(name: Option<string>, description: Option<string>, price: Option<Price>,
                         stock: Option<int>, categoryId: int) returns (r: Result<Product, Error>)
      requires Valid()
      modifies this
      ensures Valid()
      ensures categoryId !in old(categories) ==> r == Err(CategoryNotFound(categoryId))
      ensures categoryId in old(categories) ==>
        (r.Ok? <==>
           name.Some? && description.Some? && price.Some? && stock.Some? &&
           !ProductNameTaken(old(products), name.value, old(nextProductId)))
      ensures categoryId in old(categories) && r.Err? ==> r.error == IntegrityViolation
      ensures r.Ok? ==>
        var id := old(nextProductId);
        && categoryId in categories
        && id !in old(products)
        && products == old(products)[id := ProductRow(name.value, description.value, price.value, stock.value, categoryId)]
        && nextProductId == id + 1
        && r.value == Product(Some(id), name, description, price, stock, Some(LoadCategory(categories, categoryId)))
        && GetProductById(id) == Some(r.value)
      ensures r.Err? ==> products == old(products) && nextProductId == old(nextProductId)
      ensures categories == old(categories) && nextCategoryId == old(nextCategoryId)
    {
      var category := GetCategoryById(categoryId);
      if category.None? {
        return Err(CategoryNotFound(categoryId));
      }
      var newProduct := Product(None, name, description, price, stock, category);
      r := SaveProduct(newProduct);
    }

    /**
     * updateProduct: empty, writing nothing, when no product has the id. Otherwise
     * fails with NullReference, writing nothing, when the details are null, and else
     * overwrites name, description, price and stock with the details' values (null
     * ones included), moves the product to `categoryId` only when that is given and
     * differs from its current category (failing with CategoryNotFound, writing
     * nothing, when it does not resolve), and saves under the same id.
     */
    method UpdateProduct(id: int, productDetails: Option<Product>, categoryId: Option<int>)
      returns (r: Result<Option<Product>, Error>)
      requires Valid()
      modifies this
      ensures Valid()
      ensures id !in old(products) ==> r == Ok(None)
      ensures id in old(products) && productDetails.None? ==> r == Err(NullReference)
      ensures id in old(products) && productDetails.Some? ==>
        var details := productDetails.value;
        var target := ReassignedCategory(old(products)[id].categoryId, categoryId);
        && (target !in old(categories) ==> r == Err(CategoryNotFound(target)))
        && (target in old(categories) ==>
              (r.Ok? <==>
                 details.name.Some? && details.description.Some? && details.price.Some? && details.stock.Some? &&
                 !ProductNameTaken(old(products), details.name.value, id)))
        && (target in old(categories) && r.Err? ==> r.error == IntegrityViolation)
        && (r.Ok? ==>
              && products == old(products)[id := ProductRow(details.name.value, details.description.value,
                                                            details.price.value, details.stock.value, target)]
              && r.value.Some? && r.value.value.id == Some(id)
              && r.value == GetProductById(id))
      ensures r.Err? || r == Ok(None) ==> products == old(products)
      ensures categories == old(categories) && nextCategoryId == old(nextCategoryId)
      ensures nextProductId == old(nextProductId)
    {
      var found := GetProductById(id);
      if found.None? {
        return Ok(None);
      }
      if productDetails.None? {
        return Err(NullReference);
      }
      var details := productDetails.value;
      var product := found.value;
      product := product.(name := details.name);
      product := product.(description := details.description);
      product := product.(price := details.price);
      product := product.(stock := details.stock);
      if categoryId.Some? && Some(categoryId.value) != product.category.value.id {
        var category := GetCategoryById(categoryId.value);
        if category.None? {
          return Err(CategoryNotFound(categoryId.value));
        }
        product := product.(category := category);
      }
      var saved := SaveProduct(product);
      if saved.Err? {
        return Err(saved.error);
      }
      r := Ok(Some(saved.value));
    }

    /** deleteProduct: removes the row if there is one; nothing else changes. */
    method DeleteProduct(id: int)
      requires Valid()
      modifies this
      ensures Valid()
      ensures products == old(products) - {id}
      ensures GetProductById(id) == None
      ensures categories == old(categories)
      ensures nextCategoryId == old(nextCategoryId) && nextProductId == old(nextProductId)
    {
      products := products - {id};
    }
  }
}
