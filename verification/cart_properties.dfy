/**
 * Properties relating several cart operations: how each one moves the
 * totals, and how the operations undo or coincide with one another.
 */
module CartProperties {
  import opened Wrappers
  import opened Seqs
  import opened Catalog
  import opened Cart

  /** Both totals are additive over concatenation. */
  lemma {:induction false} TotalsAppend(a: Cart, b: Cart)
    ensures ItemCount(a + b) == ItemCount(a) + ItemCount(b)
    ensures TotalPrice(a + b) == TotalPrice(a) + TotalPrice(b)
    decreases |a|
  {
    if a == [] {
      assert a + b == b;
    } else {
      assert (a + b)[1..] == a[1..] + b;
      TotalsAppend(a[1..], b);
    }
  }

  /** Replacing one line moves the totals by the difference between the two lines. */
  lemma TotalsReplace(c: Cart, k: nat, x: LineItem)
    requires k < |c|
    ensures ItemCount(c[k := x]) == ItemCount(c) - c[k].quantity + x.quantity
    ensures TotalPrice(c[k := x]) == TotalPrice(c) - c[k].price * c[k].quantity + x.price * x.quantity
  {
    var a, b := c[..k], c[k + 1..];
    var was, now := [c[k]] + b, [x] + b;
    assert c == a + was;
    assert c[k := x] == a + now;
    assert was[0] == c[k] && was[1..] == b;
    assert now[0] == x && now[1..] == b;
    TotalsAppend(a, was);
    TotalsAppend(a, now);
  }

  /** In a cart with one line per identifier, removal deletes exactly that line. */
  lemma RemoveUniqueLine(c: Cart, id: int, k: nat)
    requires UniqueIds(c) && k < |c| && c[k].id == id
    ensures RemoveFromCart(c, id) == c[..k] + c[k + 1..]
  {
    FilterDropsOne(c, LineLacksId(id), k);
  }

  /** Deleting one line takes away exactly its share of both totals. */
  lemma TotalsDelete(c: Cart, k: nat)
    requires k < |c|
    ensures ItemCount(c[..k] + c[k + 1..]) == ItemCount(c) - c[k].quantity
    ensures TotalPrice(c[..k] + c[k + 1..]) == TotalPrice(c) - c[k].price * c[k].quantity
  {
    var a, b := c[..k], c[k + 1..];
    var mid := [c[k]] + b;
    assert c == a + mid;
    assert mid[0] == c[k] && mid[1..] == b;
    TotalsAppend(a, mid);
    TotalsAppend(a, b);
  }

  /** Adding one unit to the line at `k` adds one to the count and the line's price to the total. */
  lemma TotalsBump(c: Cart, k: nat)
    requires k < |c|
    ensures ItemCount(c[k := Adjust(c[k], 1)]) == ItemCount(c) + 1
    ensures TotalPrice(c[k := Adjust(c[k], 1)]) == TotalPrice(c) + c[k].price
  {
    TotalsReplace(c, k, Adjust(c[k], 1));
    assert c[k].price * (c[k].quantity + 1) == c[k].price * c[k].quantity + c[k].price;
  }

  /** Changing the quantity of the line at `k` by `change` moves the count by `change` and the total by `change` units of its price. */
  lemma TotalsChange(c: Cart, k: nat, change: int)
    requires k < |c|
    ensures ItemCount(c[k := Adjust(c[k], change)]) == ItemCount(c) + change
    ensures TotalPrice(c[k := Adjust(c[k], change)]) == TotalPrice(c) + change * c[k].price
  {
    TotalsReplace(c, k, Adjust(c[k], change));
    assert c[k].price * (c[k].quantity + change) == c[k].price * c[k].quantity + change * c[k].price;
  }

  /**
   * A successful `addToCart` adds one unit to the count, and, when every line
   * is a copy of its catalog entry, the product's price to the total.
   */
  lemma AddToCartTotals(cart: Cart, id: int, p: Product)
    requires FindById(id) == Some(p)
    ensures ItemCount(AddToCart(cart, id)) == ItemCount(cart) + 1
    ensures Faithful(cart) ==> TotalPrice(AddToCart(cart, id)) == TotalPrice(cart) + p.price
  {
    match LineIndex(cart, id)
    case Some(k) =>
      assert AddToCart(cart, id) == cart[k := Adjust(cart[k], 1)];
      TotalsBump(cart, k);
      if Faithful(cart) {
        assert IsSnapshot(cart[k]);
      }
    case None =>
      assert AddToCart(cart, id) == cart + [Snapshot(p, 1)];
      TotalsAppend(cart, [Snapshot(p, 1)]);
  }

  /**
   * Removing an identifier without a line leaves the totals alone; removing
   * the single line of an identifier takes away exactly that line's share.
   */
  lemma RemoveFromCartTotals(cart: Cart, id: int)
    ensures !HasLine(cart, id) ==> Totals(RemoveFromCart(cart, id)) == Totals(cart)
    ensures forall k :: UniqueIds(cart) && 0 <= k < |cart| && cart[k].id == id ==>
      ItemCount(RemoveFromCart(cart, id)) == ItemCount(cart) - cart[k].quantity &&
      TotalPrice(RemoveFromCart(cart, id)) == TotalPrice(cart) - cart[k].price * cart[k].quantity
  {
    forall k | UniqueIds(cart) && 0 <= k < |cart| && cart[k].id == id
      ensures ItemCount(RemoveFromCart(cart, id)) == ItemCount(cart) - cart[k].quantity
      ensures TotalPrice(RemoveFromCart(cart, id)) == TotalPrice(cart) - cart[k].price * cart[k].quantity
    {
      RemoveUniqueLine(cart, id, k);
      TotalsDelete(cart, k);
    }
  }

  /**
   * `updateQuantity` on the line at `k`: a surviving line moves the count by
   * `change` and the total by `change` times its price; a removed line (in a
   * cart with one line per identifier) takes its whole share away.
   */
  lemma UpdateQuantityTotals(cart: Cart, id: int, change: int, k: nat)
    requires FirstLine(cart, id, k)
    ensures cart[k].quantity + change > 0 ==>
      ItemCount(UpdateQuantity(cart, id, change)) == ItemCount(cart) + change &&
      TotalPrice(UpdateQuantity(cart, id, change)) == TotalPrice(cart) + change * cart[k].price
    ensures cart[k].quantity + change <= 0 && UniqueIds(cart) ==>
      ItemCount(UpdateQuantity(cart, id, change)) == ItemCount(cart) - cart[k].quantity &&
      TotalPrice(UpdateQuantity(cart, id, change)) == TotalPrice(cart) - cart[k].price * cart[k].quantity
  {
    if cart[k].quantity + change > 0 {
      assert UpdateQuantity(cart, id, change) == cart[k := Adjust(cart[k], change)];
      TotalsChange(cart, k, change);
    } else if UniqueIds(cart) {
      assert UpdateQuantity(cart, id, change) == RemoveFromCart(cart, id);
      RemoveUniqueLine(cart, id, k);
      TotalsDelete(cart, k);
    }
  }

  /** Removing a product after adding it is the same as just removing it. */
  lemma AddThenRemove(cart: Cart, id: int)
    ensures RemoveFromCart(AddToCart(cart, id), id) == RemoveFromCart(cart, id)
  {
    var p := LineLacksId(id);
    match FindById(id)
    case None =>
    case Some(prod) =>
      match LineIndex(cart, id)
      case Some(k) =>
        FilterReplaceDropped(cart, k, Adjust(cart[k], 1), p);
      case None =>
        FilterAppend(cart, [Snapshot(prod, 1)], p);
        assert Filter([Snapshot(prod, 1)], p) == [];
  }

  /** Removal is idempotent. */
  lemma RemoveIdempotent(cart: Cart, id: int)
    ensures RemoveFromCart(RemoveFromCart(cart, id), id) == RemoveFromCart(cart, id)
  {
  }

  /** The "+" button and "Add to Cart" agree on a product already in a cart of positive quantities. */
  lemma IncreaseIsAdd(cart: Cart, id: int)
    requires FindById(id).Some? && HasLine(cart, id) && PositiveQuantities(cart)
    ensures UpdateQuantity(cart, id, 1) == AddToCart(cart, id)
  {
    var k := LineIndex(cart, id).value;
    assert cart[k] in cart;
  }

  /** A positive change followed by the opposite change restores a valid cart. */
  lemma UpdateQuantityRoundTrip(cart: Cart, id: int, change: int)
    requires Valid(cart) && HasLine(cart, id) && change > 0
    ensures UpdateQuantity(UpdateQuantity(cart, id, change), id, -change) == cart
  {
    var k := LineIndex(cart, id).value;
    assert cart[k] in cart;
    var c1 := UpdateQuantity(cart, id, change);
    assert c1 == cart[k := Adjust(cart[k], change)];
    assert FirstLine(c1, id, k);
    var c2 := UpdateQuantity(c1, id, -change);
    assert c2 == c1[k := Adjust(c1[k], -change)];
    assert c2 == cart;
  }

  /** For a cart of positive quantities, checkout proceeds exactly when the item count is positive. */
  lemma CheckoutIffItems(c: Cart)
    requires PositiveQuantities(c)
    ensures ProceedToCheckout(c).Redirect? <==> Totals(c).items > 0
  {
    ItemCountBound(c);
  }

  lemma AddSofaToEmpty()
    ensures AddToCart([], 1) == [Snapshot(Products[0], 1)]
  {
    FindByIdExact(1, Products[0]);
  }

  lemma AddSofaAgain()
    ensures AddToCart([Snapshot(Products[0], 1)], 1) == [Snapshot(Products[0], 2)]
  {
    FindByIdExact(1, Products[0]);
    assert FirstLine([Snapshot(Products[0], 1)], 1, 0);
  }

  /** Adding the same product twice to an empty cart gives one line of quantity 2. */
  lemma AddTwiceExample()
    ensures AddToCart(AddToCart([], 1), 1) == [Snapshot(Products[0], 2)]
    ensures Totals(AddToCart(AddToCart([], 1), 1)) == CartTotals(2, 49998)
  {
    AddSofaToEmpty();
    AddSofaAgain();
    var c := [Snapshot(Products[0], 2)];
    assert ItemCount(c) == 2;
    assert TotalPrice(c) == 24999 * 2;
  }

  lemma AddChairToEmpty()
    ensures AddToCart([], 4) == [Snapshot(Products[3], 1)]
  {
    FindByIdExact(4, Products[3]);
  }

  /** Adding the chair and pressing "-" twice empties the cart; the second press is ignored. */
  lemma AddThenDecreaseExample()
    ensures UpdateQuantity(UpdateQuantity(AddToCart([], 4), 4, -1), 4, -1) == []
    ensures Totals(UpdateQuantity(UpdateQuantity(AddToCart([], 4), 4, -1), 4, -1)) == CartTotals(0, 0)
  {
    AddChairToEmpty();
    var c1 := [Snapshot(Products[3], 1)];
    assert FirstLine(c1, 4, 0);
    assert UpdateQuantity(c1, 4, -1) == [];
  }
}
