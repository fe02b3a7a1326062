/**
 * The storefront's fixed product catalog and lookup by identifier.
 * Image references and tags only affect rendering and are not modelled.
 */
module Catalog {
  import opened Wrappers
  import opened Seqs

  /** A catalog entry; `category` is the product's "type" label. */
  datatype Product = Product(id: int, name: string, category: string, price: int, stock: int)

  /** The sample catalog, in display order. */
  const Products: seq<Product> := [
    Product(1, "Modern 3-Seater Sofa", "Living Room", 24999, 15),
    Product(2, "Minimalist Dining Table", "6-Seater", 18999, 8),
    Product(3, "Storage Wardrobe", "4-Door", 32999, 5),
    Product(4, "Ergonomic Office Chair", "Adjustable", 8999, 20)
  ]

  /** No two catalog entries share an identifier. */
  predicate UniqueProductIds(s: seq<Product>) {
    forall i, j :: 0 <= i < j < |s| ==> s[i].id != s[j].id
  }

  /** The predicate `p => p.id === id` passed to `products.find`. */
  function HasId(id: int): Product -> bool {
    (p: Product) => p.id == id
  }

  /** `products.find(p => p.id === id)`. */
  function FindById(id: int): (r: Option<Product>)
    ensures r.Some? ==> r.value in Products && r.value.id == id
    ensures r.None? <==> forall p :: p in Products ==> p.id != id
  {
    Find(Products, HasId(id))
  }

  lemma CatalogIdsUnique()
    ensures UniqueProductIds(Products)
  {
  }

  /** Because identifiers are unique, lookup returns exactly the entry carrying the identifier. */
  lemma FindByIdExact(id: int, p: Product)
    ensures FindById(id) == Some(p) <==> p in Products && p.id == id
  {
    if p in Products && p.id == id {
      var r := FindById(id);
      assert r.Some?;
      var i :| 0 <= i < |Products| && Products[i] == p;
      var j :| 0 <= j < |Products| && Products[j] == r.value;
      CatalogIdsUnique();
      assert i == j;
    }
  }

  /** The sample catalog knows exactly the identifiers 1 to 4. */
  lemma FindByIdKnownIds(id: int)
    ensures FindById(id).Some? <==> 1 <= id <= 4
  {
    if 1 <= id <= 4 {
      assert Products[id - 1].id == id;
    }
  }

  /** Filtering the sample catalog, entry by entry. */
  lemma FilterProducts(p: Product -> bool)
    ensures Filter(Products, p) ==
      Keep(Products[0], p) + (Keep(Products[1], p) + (Keep(Products[2], p) + Keep(Products[3], p)))
  {
    FilterFour(Products, p);
  }
}
