/**
 * The offer tabs above the product grid: "lowest" lists the catalog by
 * ascending price, "lastchance" lists the entries with fewer than ten in
 * stock. Any other tab name leaves the list undefined.
 */
module Offers {
  import opened Wrappers
  import opened Seqs
  import opened Catalog

  const LowestTab: string := "lowest"
  const LastChanceTab: string := "lastchance"
  /** Entries with stock strictly below this are "last chance". */
  const LastChanceStock: int := 10

  predicate SortedByPrice(s: seq<Product>) {
    forall i, j :: 0 <= i < j < |s| ==> s[i].price <= s[j].price
  }

  /**
   * Inserts `x` before the first entry that costs at least as much, so that
   * `x` stays ahead of the equally priced entries that followed it.
   */
  function InsertByPrice(x: Product, s: seq<Product>): seq<Product>
    decreases |s|
  {
    if s == [] then [x]
    else if x.price <= s[0].price then [x] + s
    else [s[0]] + InsertByPrice(x, s[1..])
  }

  /**
   * `[...products].sort((a, b) => a.price - b.price)`: a stable sort by
   * ascending price (insertion sort).
   */
  function SortByPrice(s: seq<Product>): seq<Product>
    decreases |s|
  {
    if s == [] then [] else InsertByPrice(s[0], SortByPrice(s[1..]))
  }

  /** Insertion adds exactly `x` and nothing else. */
  lemma {:induction false} InsertByPricePermutes(x: Product, s: seq<Product>)
    ensures multiset(InsertByPrice(x, s)) == multiset(s) + multiset{x}
    decreases |s|
  {
    if s != [] && x.price > s[0].price {
      InsertByPricePermutes(x, s[1..]);
      assert s == [s[0]] + s[1..];
    }
  }

  /** Insertion keeps a price-sorted sequence sorted. */
  lemma {:induction false} InsertByPriceSorted(x: Product, s: seq<Product>)
    requires SortedByPrice(s)
    ensures SortedByPrice(InsertByPrice(x, s))
    decreases |s|
  {
    if s != [] && x.price > s[0].price {
      var rest := InsertByPrice(x, s[1..]);
      InsertByPriceSorted(x, s[1..]);
      InsertByPricePermutes(x, s[1..]);
      forall y | y in rest
        ensures s[0].price <= y.price
      {
        assert y in multiset(rest);
        assert y == x || y in s[1..];
      }
    }
  }

  /** The sorted list is a permutation of its input. */
  lemma {:induction false} SortByPricePermutes(s: seq<Product>)
    ensures multiset(SortByPrice(s)) == multiset(s)
    decreases |s|
  {
    if s != [] {
      var t := SortByPrice(s[1..]);
      SortByPricePermutes(s[1..]);
      InsertByPricePermutes(s[0], t);
      assert s == [s[0]] + s[1..];
      assert multiset(s) == multiset(s[1..]) + multiset{s[0]};
    }
  }

  /** The sorted list is ordered by non-decreasing price. */
  lemma {:induction false} SortByPriceSorted(s: seq<Product>)
    ensures SortedByPrice(SortByPrice(s))
    decreases |s|
  {
    if s != [] {
      SortByPriceSorted(s[1..]);
      InsertByPriceSorted(s[0], SortByPrice(s[1..]));
    }
  }

  function PriceIs(v: int): Product -> bool {
    (p: Product) => p.price == v
  }

  /** Inserting `x` keeps it ahead of every entry of the same price. */
  lemma {:induction false} InsertKeepsTies(x: Product, s: seq<Product>, v: int)
    ensures Filter(InsertByPrice(x, s), PriceIs(v)) == Keep(x, PriceIs(v)) + Filter(s, PriceIs(v))
    decreases |s|
  {
    var p := PriceIs(v);
    if s == [] {
      FilterCons(x, [], p);
    } else if x.price <= s[0].price {
      FilterCons(x, s, p);
    } else {
      InsertKeepsTies(x, s[1..], v);
      assert s == [s[0]] + s[1..];
      KeepPastOther(x, s[0], InsertByPrice(x, s[1..]), s[1..], p);
    }
  }

  /** Moving `x` past `y` leaves the filtered sequence alone when at most one of them is kept. */
  lemma KeepPastOther<T>(x: T, y: T, r: seq<T>, t: seq<T>, p: T -> bool)
    requires Filter(r, p) == Keep(x, p) + Filter(t, p)
    requires !(p(x) && p(y))
    ensures Filter([y] + r, p) == Keep(x, p) + Filter([y] + t, p)
  {
    FilterCons(y, r, p);
    FilterCons(y, t, p);
    if p(y) {
      assert Keep(x, p) == [];
    } else {
      assert Keep(y, p) == [];
    }
  }

  /** The sort is stable: entries of any one price keep their original relative order. */
  lemma {:induction false} SortByPriceStable(s: seq<Product>, v: int)
    ensures Filter(SortByPrice(s), PriceIs(v)) == Filter(s, PriceIs(v))
    decreases |s|
  {
    if s != [] {
      SortByPriceStable(s[1..], v);
      InsertKeepsTies(s[0], SortByPrice(s[1..]), v);
    }
  }

  function IsLastChance(p: Product): bool {
    p.stock < LastChanceStock
  }

  /** `products.filter(p => p.stock < 10)`. */
  function LastChance(s: seq<Product>): (r: seq<Product>)
    ensures forall p :: p in r <==> p in s && p.stock < LastChanceStock
    ensures forall p :: multiset(r)[p] == if p.stock < LastChanceStock then multiset(s)[p] else 0
    ensures IsSubsequence(r, s)
  {
    FilterIsSubsequence(s, IsLastChance);
    FilterMembers(s, IsLastChance);
    FilterCounts(s, IsLastChance);
    Filter(s, IsLastChance)
  }

  /**
   * The list `showOfferTab(tab)` renders; `None` where the JavaScript leaves
   * `filteredProducts` undefined.
   */
  function OfferTab(catalog: seq<Product>, tab: string): (r: Option<seq<Product>>)
    ensures r.Some? <==> tab == LowestTab || tab == LastChanceTab
    ensures tab == LowestTab ==>
      SortedByPrice(r.value) && multiset(r.value) == multiset(catalog)
    ensures tab == LowestTab ==>
      forall v :: Filter(r.value, PriceIs(v)) == Filter(catalog, PriceIs(v))
    ensures tab == LastChanceTab ==>
      IsSubsequence(r.value, catalog) &&
      (forall p :: p in r.value <==> p in catalog && p.stock < LastChanceStock) &&
      forall p :: multiset(r.value)[p] == if p.stock < LastChanceStock then multiset(catalog)[p] else 0
  {
    if tab == LowestTab then
      SortByPricePermutes(catalog);
      SortByPriceSorted(catalog);
      assert forall v :: Filter(SortByPrice(catalog), PriceIs(v)) == Filter(catalog, PriceIs(v)) by {
        forall v { SortByPriceStable(catalog, v); }
      }
      Some(SortByPrice(catalog))
    else if tab == LastChanceTab then Some(LastChance(catalog))
    else None
  }

  /** The ids of `s`, in order. */
  function Ids(s: seq<Product>): (r: seq<int>)
    ensures |r| == |s|
    ensures forall i :: 0 <= i < |s| ==> r[i] == s[i].id
  {
    seq(|s|, i requires 0 <= i < |s| => s[i].id)
  }

  lemma InsertTwo(x: Product, a: Product)
    ensures x.price <= a.price ==> InsertByPrice(x, [a]) == [x, a]
    ensures x.price > a.price ==> InsertByPrice(x, [a]) == [a, x]
  {
    assert [a][1..] == [];
  }

  lemma InsertThree(x: Product, a: Product, b: Product)
    requires a.price < x.price
    ensures InsertByPrice(x, [a, b]) == [a] + InsertByPrice(x, [b])
  {
    assert [a, b][1..] == [b];
  }

  lemma InsertFour(x: Product, a: Product, b: Product, c: Product)
    requires a.price < x.price
    ensures InsertByPrice(x, [a, b, c]) == [a] + InsertByPrice(x, [b, c])
  {
    assert [a, b, c][1..] == [b, c];
  }

  lemma SortStep(x: Product, s: seq<Product>)
    ensures SortByPrice([x] + s) == InsertByPrice(x, SortByPrice(s))
  {
    assert ([x] + s)[1..] == s;
  }

  /** Sorting four entries whose prices rank them d, b, a, c. */
  lemma SortFour(a: Product, b: Product, c: Product, d: Product)
    requires d.price < b.price < a.price < c.price
    ensures SortByPrice([a, b, c, d]) == [d, b, a, c]
  {
    SortStep(d, []);
    assert SortByPrice([d]) == [d];
    SortStep(c, [d]);
    InsertTwo(c, d);
    assert SortByPrice([c, d]) == [d, c];
    SortStep(b, [c, d]);
    InsertThree(b, d, c);
    InsertTwo(b, c);
    assert SortByPrice([b, c, d]) == [d, b, c];
    SortStep(a, [b, c, d]);
    InsertFour(a, d, b, c);
    InsertThree(a, b, c);
    InsertTwo(a, c);
  }

  /** On the sample catalog "lowest" lists the chair, the table, the sofa, the wardrobe. */
  lemma LowestTabExample()
    ensures OfferTab(Products, LowestTab) == Some([Products[3], Products[1], Products[0], Products[2]])
    ensures Ids(OfferTab(Products, LowestTab).value) == [4, 2, 1, 3]
  {
    LowestTabList();
    IdsFour(Products[3], Products[1], Products[0], Products[2]);
  }

  lemma IdsFour(a: Product, b: Product, c: Product, d: Product)
    ensures Ids([a, b, c, d]) == [a.id, b.id, c.id, d.id]
  {
  }

  lemma LowestTabList()
    ensures OfferTab(Products, LowestTab) == Some([Products[3], Products[1], Products[0], Products[2]])
  {
    SortCatalog();
  }

  lemma SortCatalog()
    ensures SortByPrice(Products) == [Products[3], Products[1], Products[0], Products[2]]
  {
    var s := Products;
    assert s == [s[0], s[1], s[2], s[3]];
    SortFour(s[0], s[1], s[2], s[3]);
  }

  /** On the sample catalog "lastchance" lists the table (stock 8) and the wardrobe (stock 5). */
  lemma LastChanceTabExample()
    ensures OfferTab(Products, LastChanceTab) == Some([Products[1], Products[2]])
    ensures Ids(OfferTab(Products, LastChanceTab).value) == [2, 3]
  {
    LastChanceTabList();
    IdsTwo(Products[1], Products[2]);
  }

  lemma IdsTwo(a: Product, b: Product)
    ensures Ids([a, b]) == [a.id, b.id]
  {
  }

  lemma LastChanceTabList()
    ensures OfferTab(Products, LastChanceTab) == Some([Products[1], Products[2]])
  {
    LastChanceFilter();
    assert LastChanceTab != LowestTab;
  }

  lemma LastChanceFilter()
    ensures Filter(Products, IsLastChance) == [Products[1], Products[2]]
  {
    var s := Products;
    FilterFour(s, IsLastChance);
    assert Keep(s[0], IsLastChance) == [];
    assert Keep(s[1], IsLastChance) == [s[1]];
    assert Keep(s[2], IsLastChance) == [s[2]];
    assert Keep(s[3], IsLastChance) == [];
  }

  /** Any other tab name has no defined list. */
  lemma OtherTabExample()
    ensures OfferTab(Products, "newarrivals") == None
  {
  }
}
