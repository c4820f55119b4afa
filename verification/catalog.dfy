/**
 The category table of the catalog, as far as the login-gated operations
 touch it: an ordered list of categories, to which new ones are appended.
 */
module Catalog {

  /** One row of the category table; the database-assigned id is not modelled. */
  datatype Category = Category(name: string)

  /** The category table in insertion order. */
  type Store = seq<Category>

  /** Adds one category with the given name after all existing ones. */
  function Add(store: Store, name: string): (r: Store)
    ensures |r| == |store| + 1
    ensures store <= r
    ensures r[|store|] == Category(name)
  {
    store + [Category(name)]
  }
}
