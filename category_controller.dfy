/**
 * What the category endpoints that write do to the store (controller/CategoryController.java):
 * create, update and delete. Hypermedia links are not part of a response here.
 */
module CategoryController {
  import opened Wrappers
  import opened CategoryModel
  import opened Tables
  import opened Catalog

  /** The status of a category endpoint's response, with its body where there is one. */
  datatype Response = Success(body: Category) | Created(body: Category) | NoContent | NotFound

  /**
   * POST: saves the request body as given and answers Created with the saved category.
   * A body without an id is inserted under a fresh id; a body whose id names a stored
   * category overwrites it. A null or duplicate name is rejected by the store.
   */
  method CreateCategory(store: CatalogStore, body: Category) returns (r: Result<Response, Error>)
    requires store.Valid()
    modifies store
    ensures store.Valid()
    ensures var key := SaveTarget(body.id, old(store.categories), old(store.nextCategoryId));
      && (r.Ok? <==> body.name.Some? && !CategoryNameTaken(old(store.categories), body.name.value, key))
      && (r.Ok? ==>
            && r.value == Created(body.(id := Some(key)))
            && store.categories == old(store.categories)[key := CategoryRow(body.name.value, body.description)]
            && store.GetCategoryById(key) == Some(r.value.body))
      && (body.id.None? && r.Ok? ==> key == old(store.nextCategoryId) && key !in old(store.categories))
      && (r.Ok? && key !in old(store.categories) ==> store.nextCategoryId == key + 1)
      && (r.Ok? && key in old(store.categories) ==> store.nextCategoryId == old(store.nextCategoryId))
    ensures r.Err? ==> r.error == IntegrityViolation && store.categories == old(store.categories)
    ensures r.Err? ==> store.nextCategoryId == old(store.nextCategoryId)
    ensures store.products == old(store.products) && store.nextProductId == old(store.nextProductId)
  {
    var saved := store.SaveCategory(body);
    if saved.Err? {
      return Err(saved.error);
    }
    r := Ok(Created(saved.value));
  }

  /**
   * PUT: NotFound, writing nothing, when no category has the id. Otherwise the stored
   * category gets the request's name and description, keeps its own id (any id in the
   * body is ignored), is saved, and is answered with as saved. No other category and
   * no product row changes.
   */
  method UpdateCategory(store: CatalogStore, id: int, details: Category) returns (r: Result<Response, Error>)
    requires store.Valid()
    modifies store
    ensures store.Valid()
    ensures id !in old(store.categories) ==> r == Ok(NotFound) && store.categories == old(store.categories)
    ensures id in old(store.categories) ==>
      && (r.Ok? <==> details.name.Some? && !CategoryNameTaken(old(store.categories), details.name.value, id))
      && (r.Ok? ==>
            && r.value == Success(Category(Some(id), details.name, details.description))
            && store.categories == old(store.categories)[id := CategoryRow(details.name.value, details.description)]
            && store.GetCategoryById(id) == Some(r.value.body))
      && (r.Err? ==> r.error == IntegrityViolation && store.categories == old(store.categories))
    ensures store.products == old(store.products)
    ensures store.nextCategoryId == old(store.nextCategoryId) && store.nextProductId == old(store.nextProductId)
  {
    var found := store.GetCategoryById(id);
    if found.None? {
      return Ok(NotFound);
    }
    var category := found.value;
    category := category.(name := details.name);
    category := category.(description := details.description);
    var saved := store.SaveCategory(category);
    if saved.Err? {
      return Err(saved.error);
    }
    r := Ok(Success(saved.value));
  }

  /**
   * DELETE: no existence check; the category, if stored, is removed together with its
   * products, and the answer is always NoContent.
   */
  method DeleteCategory(store: CatalogStore, id: int) returns (r: Response)
    requires store.Valid()
    modifies store
    ensures store.Valid()
    ensures r == NoContent
    ensures store.categories == old(store.categories) - {id}
    ensures store.products == WithoutCategory(old(store.products), id)
    ensures store.nextCategoryId == old(store.nextCategoryId) && store.nextProductId == old(store.nextProductId)
    ensures store.GetProductsByCategoryId(id) == []
  {
    store.DeleteCategoryById(id);
    r := NoContent;
  }
}
