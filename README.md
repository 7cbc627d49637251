# Product catalog service — a Dafny model of its store logic

The service keeps two resources, categories and products, in a relational store. It
reaches them through generated repositories (`findAll`, `findById`, `save`,
`deleteById`, `findByCategory`). The logic worth modelling is in `ProductService` and in
what `CategoryController` writes: product creation resolves a category id, and product
update overwrites fields and may re-resolve the category. The schema's constraints and
the cascade from a category to its products complete the picture.

The model keeps the two tables as maps from id to row in one class,
`Catalog.CatalogStore`, with the next value of each identity column. Its fields are
`categories`, `products`, `nextCategoryId` and `nextProductId`.

- `CategoryModel` and `ProductModel` hold the entities as application code sees them.
  Every Java field that may be null is an `Option`.
- `Tables` holds the rows and the schema constraints: NOT NULL, UNIQUE names, the
  foreign key and the id ranges. It also holds eager loading (a product row joined with
  its category row), the ordered listings and the cascade delete.
- `Catalog.CatalogStore` holds the repositories' writes and the product service's
  operations as methods. Each method keeps `Valid()`, the schema constraints. Each
  states the whole new state of both tables.
- `CategoryController` holds what create, update and delete of a category do to the
  store.

A product row stores its category's id, not a copy of the category. Loading a product
joins it with the current category row. So a renamed category shows up in every product
that is loaded afterwards (`CategoryUpdateSeenByItsProducts`).

The store rejects a write that breaks a constraint: a null NOT NULL column, a duplicate
name, or a missing or unknown category. The write then returns
`Err(IntegrityViolation)` and nothing changes. An unresolved category id in product
create or update returns `Err(CategoryNotFound(id))`. In the code that case is a
`RuntimeException`. Null product details in an update of an existing product return
`Err(NullReference)`, where the code throws a `NullPointerException`.

Repository `save` merges into the row named by the entity's id when that row exists.
Otherwise it inserts under the next identity value. An insert returns the entity it was
given, now carrying its id. A merge returns the row as reloaded. `deleteById` of an
absent id changes nothing. Listings are ordered by ascending id.

Names and product descriptions are only required to be non-null (a category's
description may be null); nothing checks that they are non-empty. Price and stock carry no range check, so the model has none either.

## Model

| member | source | states |
|---|---|---|
| CategoryModel.ConstructorsAgree | src/main/java/com/programthis/productcatalogservice/model/Category.java:35-44 | the two-argument constructor is the three-argument one with no description; both keep exactly the given id and name |
| ProductModel.EqualityIsFieldwise | src/main/java/com/programthis/productcatalogservice/model/Product.java:8-34 | two products are equal iff all six fields are equal |
| Tables.StoreInvariant | src/main/java/com/programthis/productcatalogservice/model/Product.java:15-34 | the schema constraints (identity ids, NOT NULL columns, unique names, category foreign key) hold of the rows; under them both identity counters name an unused id |
| Tables.SaveTarget | src/main/java/com/programthis/productcatalogservice/model/Product.java:15-17 | an entity whose row exists is written back to that row; under the id-range constraint a save never overwrites another row, and an insert gets a fresh positive id |
| Tables.CategoryRowOf | src/main/java/com/programthis/productcatalogservice/model/Category.java:25-29 | a category can be written iff its name is non-null; the description may be null |
| Tables.ProductRowOf | src/main/java/com/programthis/productcatalogservice/model/Product.java:19-34 | a product can be written iff name, description, price, stock and the category (with its id) are all non-null |
| Tables.LoadCategory | src/main/java/com/programthis/productcatalogservice/model/Category.java:21-29 | a loaded category carries its store id, and writing it back gives the stored row |
| Tables.LoadProduct | src/main/java/com/programthis/productcatalogservice/model/Product.java:31-34 | a loaded product carries its store id and comes with its category's current row; writing it back gives the stored row |
| Tables.Collect | src/main/java/com/programthis/productcatalogservice/repository/ProductRepository.java:11-14 | a listing holds every matching product exactly once, nothing else, each loaded with its category, by strictly ascending id |
| Tables.CollectCount | src/main/java/com/programthis/productcatalogservice/service/ProductService.java:22-24 | a listing is as long as the number of matching rows |
| Tables.ProductsOfCategory | src/main/java/com/programthis/productcatalogservice/service/ProductService.java:73-80 | an unknown category lists nothing; a known one lists exactly its products, each carrying that category, one per row |
| Tables.WithoutCategory | src/main/java/com/programthis/productcatalogservice/model/Category.java:31-33 | the cascade keeps exactly the product rows of other categories, unchanged; kept and removed rows partition the table |
| Tables.CascadeDeletePreservesInvariant | src/main/java/com/programthis/productcatalogservice/model/Category.java:31-33 | deleting a category with its products leaves every schema constraint holding, the foreign key included |
| Tables.CollectIgnoresCascade | src/main/java/com/programthis/productcatalogservice/model/Category.java:31-33 | the listing of any other category is identical before and after the cascade |
| Tables.CascadeDeleteQueries | src/main/java/com/programthis/productcatalogservice/model/Category.java:31-33 | after the cascade the deleted category lists nothing, none of its products is stored, and every other category lists as before |
| Tables.CategoryUpdateSeenByItsProducts | src/main/java/com/programthis/productcatalogservice/model/Product.java:31-34 | after a category row is overwritten its products load the new row; every other product loads as before |
| Catalog.ReassignedCategory | src/main/java/com/programthis/productcatalogservice/service/ProductService.java:56 | no requested category keeps the current one; a requested one (different or equal) becomes the category |
| Catalog.CatalogStore.GetCategoryById | src/main/java/com/programthis/productcatalogservice/service/CategoryService.java:21-23 | present iff a row has the id; the category carries that id and row |
| Catalog.CatalogStore.SaveCategory | src/main/java/com/programthis/productcatalogservice/service/CategoryService.java:25-27 | succeeds iff the name is non-null and not held by another category; then exactly that row is written (merge or fresh insert) and the saved entity reads back; on failure nothing changes |
| Catalog.CatalogStore.DeleteCategoryById | src/main/java/com/programthis/productcatalogservice/service/CategoryService.java:29-31 | removes the category and, by cascade, exactly its products; it lists nothing afterwards, its products are gone, other categories list as before |
| Catalog.CatalogStore.GetAllProducts | src/main/java/com/programthis/productcatalogservice/service/ProductService.java:22-24 | every stored product exactly once, loaded with its category, by ascending id; length equals the number of rows |
| Catalog.CatalogStore.GetProductById | src/main/java/com/programthis/productcatalogservice/service/ProductService.java:26-28 | present iff a row has the id; the product carries that id, that row, and its category |
| Catalog.CatalogStore.GetProductsByCategoryId | src/main/java/com/programthis/productcatalogservice/service/ProductService.java:73-80 | empty for an unknown category; otherwise exactly the products of that category, as getProductById returns them |
| Catalog.CatalogStore.SaveProduct | src/main/java/com/programthis/productcatalogservice/service/ProductService.java:31-33 | succeeds iff all NOT NULL columns are set, the category exists and the name is free; then exactly one row is written; insert returns the entity with its new id, merge the reloaded row; on failure nothing changes |
| Catalog.CatalogStore.CreateProduct | src/main/java/com/programthis/productcatalogservice/service/ProductService.java:36-44 | unknown category: CategoryNotFound, nothing written; else exactly one product added under a fresh id with the given fields and resolved category, and getProductById returns it |
| Catalog.CatalogStore.UpdateProduct | src/main/java/com/programthis/productcatalogservice/service/ProductService.java:47-66 | missing id: empty, nothing written; null details: NullReference, nothing written; else name/description/price/stock overwritten from the details, category moved only to a given different id (CategoryNotFound and nothing written if unknown), same id, other products untouched |
| Catalog.CatalogStore.DeleteProduct | src/main/java/com/programthis/productcatalogservice/service/ProductService.java:69-71 | removes that product row if present; categories and other products unchanged |
| CategoryController.CreateCategory | src/main/java/com/programthis/productcatalogservice/controller/CategoryController.java:51-56 | saves the body as given and answers Created with the saved category; an id-less body gets a fresh id |
| CategoryController.UpdateCategory | src/main/java/com/programthis/productcatalogservice/controller/CategoryController.java:60-69 | unknown id: NotFound, nothing written; else name and description replaced, stored id kept (body id ignored), answered with the saved category; other categories and all products unchanged |
| CategoryController.DeleteCategory | src/main/java/com/programthis/productcatalogservice/controller/CategoryController.java:74-77 | no existence check, always NoContent; the category and its products are removed |

## Left out

- Catalog.CatalogStore.UpdateProduct: does not state that no category lookup happens when the product is missing or the category id is absent or unchanged. The model has no call log. It states the consequences the tests observe: no error and nothing written.
- Catalog.CatalogStore.CreateProduct: does not state that `save` is never reached for an unknown category as a call fact. It states that nothing is written.
- CategoryController.UpdateCategory: the "never saves" of the not-found case is stated as "nothing written", not as a call fact.
- Hypermedia links (`toEntityModel`) and the HTTP wrapping of responses: framework output, not store behaviour.
- `ProductController`: HTTP routing and the mapping of exceptions to 400 and of empty results to 404. It only forwards to `ProductService`, which is modelled.
- The GET handlers of `CategoryController` and `CategoryService.getAllCategories`: pure mappings over a query. Only `getCategoryById`, which the update uses, is modelled.
- `ProductRepository.findByCategoryId`: declared but never called.
- The `products` list of a category is not a field of `Category`. It is the query `Tables.ProductsOfCategory`. Category equality in the code also compares that list and the hypermedia links; the model compares id, name and description only.
- Lombok's no-argument and all-argument constructors of `Category`: the datatype constructor plays the all-argument role.
- Price is a Java `Double`. It is modelled as an opaque `real` that is only copied. Stock is an unbounded `int`; the 32-bit range of `Integer` is not enforced, since nothing computes with it.
- Null ids passed to `findById` or `deleteById`, which the repositories reject, are not modelled. Ids are non-null integers, except the optional category id of a product update.
- Saving an entity whose id names no stored row is modelled as an insert under a fresh id. Hibernate before 6.6 behaves this way; later versions throw instead.
- Catalog.CatalogStore.SaveProduct, Catalog.CatalogStore.SaveCategory, Catalog.CatalogStore.CreateProduct: a rejected insert leaves the identity counter where it was. A real identity column may use up its value when the database rejects the INSERT, so the next id can be higher than the contract says. Ids handed out stay fresh either way.
- Transactions, concurrent requests, lazy and eager fetch mechanics, and how the store reports a constraint violation: the store is a single-threaded pair of maps. Violations become `Err(IntegrityViolation)` with nothing written.
- Tables.UniqueCategoryNames, Tables.UniqueProductNames, Tables.CategoryNameTaken, Tables.ProductNameTaken: name uniqueness is exact string equality. The UNIQUE columns' collation lives in a database schema that is not part of this model. A case-insensitive collation would treat more names as duplicates (for example "Laptop" and "laptop"), so the store would reject saves that the model accepts.
- The order of `findAll` and `findByCategory` is unspecified in SQL. The model lists by ascending id.
