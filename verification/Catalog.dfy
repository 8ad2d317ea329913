/** The seeded catalog and the allowlisted discount (catalog.py). */
module Catalog {
  import opened Wrappers
  import opened Money

  datatype Product = Product(productId: string, lineKey: string, price: Cents)

  const MAX_LINE_QUANTITY := 5

  const MUG := Product("mug-ceramic-001", "mug", 2500)
  const NOTEBOOK := Product("notebook-001", "notebook", 1200)
  const TOTE := Product("tote-001", "tote", 1800)

  const SAVE20 := "SAVE20"

  /** `CATALOG_BY_PRODUCT_ID.get`. */
  function ProductById(productId: string): Option<Product> {
    if productId == MUG.productId then Some(MUG)
    else if productId == NOTEBOOK.productId then Some(NOTEBOOK)
    else if productId == TOTE.productId then Some(TOTE)
    else None
  }

  /** `CATALOG_BY_LINE_KEY.get`. */
  function ProductByLineKey(lineKey: string): Option<Product> {
    if lineKey == MUG.lineKey then Some(MUG)
    else if lineKey == NOTEBOOK.lineKey then Some(NOTEBOOK)
    else if lineKey == TOTE.lineKey then Some(TOTE)
    else None
  }

  /** `DISCOUNTS.get`: the percentage of an allowlisted code. */
  function DiscountPercent(code: string): Option<int> {
    if code == SAVE20 then Some(20) else None
  }

  /** Line keys are unique: the two lookups find the same product. */
  lemma LookupsAgree(productId: string)
    ensures ProductById(productId).Some? ==>
              var p := ProductById(productId).value;
              && p.productId == productId
              && ProductByLineKey(p.lineKey) == Some(p)
  {
    assert |MUG.lineKey| == 3 && |NOTEBOOK.lineKey| == 8 && |TOTE.lineKey| == 4;
  }

  /** The seeded table: each product with its line key and price, and the one allowlisted code. */
  lemma CatalogIsSeeded(productId: string, code: string)
    ensures ProductById(productId).Some? <==> productId in {"mug-ceramic-001", "notebook-001", "tote-001"}
    ensures ProductById("mug-ceramic-001") == Some(Product("mug-ceramic-001", "mug", 25_00))
    ensures ProductById("notebook-001") == Some(Product("notebook-001", "notebook", 12_00))
    ensures ProductById("tote-001") == Some(Product("tote-001", "tote", 18_00))
    ensures DiscountPercent(code) == if code == "SAVE20" then Some(20) else None
  {
    assert |"mug-ceramic-001"| == 15 && |"notebook-001"| == 12 && |"tote-001"| == 8;
  }
}
