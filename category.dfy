/** The Category entity (model/Category.java). */
module CategoryModel {
  import opened Wrappers

  /**
   * A category as application code handles it. Every field of the Java entity is a
   * reference that may be null, so each is an Option:
   *  - `id` is assigned by the store on insert (identity column);
   *  - `name` must be present and unique among stored categories;
   *  - `description` is optional.
   * The `products` back-reference is not a field here: it is read from the products
   * table (Tables.ProductsOfCategory). Equality is structural over the three fields.
   */
  datatype Category = Category(id: Option<int>, name: Option<string>, description: Option<string>)

  /** The constructor Category(id, name): description is left unset. */
  function NewCategory(id: Option<int>, name: Option<string>): (c: Category)
  {
    Category(id, name, None)
  }

  /** The constructor Category(id, name, description). */
  function NewCategoryWithDescription(id: Option<int>, name: Option<string>, description: Option<string>): (c: Category)
  {
    Category(id, name, description)
  }

  /**
   * The two-argument constructor is the three-argument one with no description; both
   * keep exactly the id and name they are given, and categories that differ only in
   * their description are different values.
   */
  lemma ConstructorsAgree(id: Option<int>, name: Option<string>, description: Option<string>)
    ensures NewCategory(id, name) == NewCategoryWithDescription(id, name, None)
    ensures NewCategory(id, name).description == None
    ensures var c := NewCategoryWithDescription(id, name, description);
      c.id == id && c.name == name && c.description == description
    ensures description != None ==> NewCategory(id, name) != NewCategoryWithDescription(id, name, description)
  {
  }
}
