/**
 * The shopping cart: an ordered list of line items, each a snapshot of a
 * catalog product plus a quantity, and the operations the storefront
 * performs on it. Every operation is a pure transition from the cart before
 * the click to the cart after it; writing the result back to browser
 * storage is not modelled (the stored cart is taken to equal the one in
 * memory).
 *
 * The operations accept any cart, as the JavaScript code does with whatever
 * was loaded from storage. The invariant `Valid` (one line per identifier,
 * every quantity positive) is preserved by each of them.
 */
module Cart {
  import opened Wrappers
  import opened Seqs
  import opened Catalog

  /** A cart line: the product's fields copied on first addition, plus a quantity. */
  datatype LineItem = LineItem(id: int, name: string, category: string, price: int, stock: int, quantity: int)

  type Cart = seq<LineItem>

  /** `{...product, quantity}`: a copy of the product's fields with a quantity. */
  function Snapshot(p: Product, quantity: int): LineItem {
    LineItem(p.id, p.name, p.category, p.price, p.stock, quantity)
  }

  /** The line with its quantity changed by `change`. */
  function Adjust(l: LineItem, change: int): LineItem {
    l.(quantity := l.quantity + change)
  }

  /** At most one line per product identifier. */
  predicate UniqueIds(c: Cart) {
    forall i, j :: 0 <= i < j < |c| ==> c[i].id != c[j].id
  }

  predicate PositiveQuantities(c: Cart) {
    forall l :: l in c ==> l.quantity > 0
  }

  /** The cart invariant the operations maintain. */
  predicate Valid(c: Cart) {
    UniqueIds(c) && PositiveQuantities(c)
  }

  /** The line is an unaltered copy of the catalog entry with its identifier. */
  predicate IsSnapshot(l: LineItem) {
    FindById(l.id).Some? && l == Snapshot(FindById(l.id).value, l.quantity)
  }

  /** Every line is a copy of its catalog entry (true of every cart built by the operations below). */
  predicate Faithful(c: Cart) {
    forall l :: l in c ==> IsSnapshot(l)
  }

  predicate HasLine(c: Cart, id: int) {
    exists i :: 0 <= i < |c| && c[i].id == id
  }

  /** `k` is the position `cart.find(item => item.id === id)` stops at. */
  predicate FirstLine(c: Cart, id: int, k: int) {
    0 <= k < |c| && c[k].id == id && forall j :: 0 <= j < k ==> c[j].id != id
  }

  function LineHasId(id: int): LineItem -> bool {
    (l: LineItem) => l.id == id
  }

  function LineLacksId(id: int): LineItem -> bool {
    (l: LineItem) => l.id != id
  }

  /** Position of the line `cart.find(item => item.id === id)` returns. */
  function LineIndex(c: Cart, id: int): (r: Option<nat>)
    ensures r.Some? <==> HasLine(c, id)
    ensures r.Some? ==> FirstLine(c, id, r.value)
  {
    FindIndex(c, LineHasId(id))
  }

  lemma FirstLineUnique(c: Cart, id: int, k: int)
    requires UniqueIds(c)
    ensures FirstLine(c, id, k) <==> 0 <= k < |c| && c[k].id == id
  {
  }

  /**
   * `addToCart`: an identifier missing from the catalog is ignored; an
   * existing line gains one unit; otherwise a snapshot of the product with
   * quantity 1 is appended.
   */
  function AddToCart(cart: Cart, id: int): (r: Cart)
    ensures FindById(id).None? ==> r == cart
    ensures FindById(id).Some? && !HasLine(cart, id) ==>
      r == cart + [Snapshot(FindById(id).value, 1)]
    ensures forall k :: FindById(id).Some? && FirstLine(cart, id, k) ==>
      |r| == |cart| && r[k].quantity == cart[k].quantity + 1 && r[k] == Adjust(cart[k], 1) &&
      forall i :: 0 <= i < |cart| && i != k ==> r[i] == cart[i]
    ensures FindById(id).Some? ==> HasLine(r, id)
    ensures Valid(cart) ==> Valid(r)
    ensures Faithful(cart) ==> Faithful(r)
  {
    match FindById(id)
    case None => cart
    case Some(p) =>
      match LineIndex(cart, id)
      case Some(k) =>
        AdjustKeepsInvariants(cart, k, 1);
        assert Valid(cart) ==> cart[k] in cart && cart[k].quantity > 0;
        cart[k := Adjust(cart[k], 1)]
      case None =>
        FindByIdExact(id, p);
        AppendKeepsInvariants(cart, Snapshot(p, 1));
        cart + [Snapshot(p, 1)]
  }

  /** Appending a line with a fresh identifier and a positive quantity keeps the invariants. */
  lemma AppendKeepsInvariants(c: Cart, l: LineItem)
    requires !HasLine(c, l.id)
    ensures HasLine(c + [l], l.id)
    ensures Valid(c) && l.quantity > 0 ==> Valid(c + [l])
    ensures Faithful(c) && IsSnapshot(l) ==> Faithful(c + [l])
  {
    var r := c + [l];
    assert r[|c|] == l;
    assert forall i :: 0 <= i < |c| ==> r[i] == c[i];
  }

  /** Changing one line's quantity to a positive value keeps the invariants. */
  lemma AdjustKeepsInvariants(c: Cart, k: nat, change: int)
    requires k < |c|
    ensures Valid(c) && c[k].quantity + change > 0 ==> Valid(c[k := Adjust(c[k], change)])
    ensures Faithful(c) ==> Faithful(c[k := Adjust(c[k], change)])
  {
    var r := c[k := Adjust(c[k], change)];
    forall l | l in r
      ensures l == Adjust(c[k], change) || l in c
    {
      var i :| 0 <= i < |r| && r[i] == l;
      if i != k {
        assert l == c[i];
      }
    }
    if Faithful(c) {
      assert IsSnapshot(c[k]);
    }
  }

  /** `removeFromCart`: `cart.filter(item => item.id !== id)`. */
  function RemoveFromCart(cart: Cart, id: int): (r: Cart)
    ensures forall l :: l in r <==> l in cart && l.id != id
    ensures forall l :: multiset(r)[l] == if l.id != id then multiset(cart)[l] else 0
    ensures !HasLine(r, id)
    ensures IsSubsequence(r, cart)
    ensures !HasLine(cart, id) ==> r == cart
    ensures Valid(cart) ==> Valid(r)
    ensures Faithful(cart) ==> Faithful(r)
  {
    FilterIsSubsequence(cart, LineLacksId(id));
    FilterMembers(cart, LineLacksId(id));
    FilterCounts(cart, LineLacksId(id));
    FilterKeepsUniqueIds(cart, LineLacksId(id));
    if !HasLine(cart, id) then
      FilterKeepsAll(cart, LineLacksId(id));
      Filter(cart, LineLacksId(id))
    else
      Filter(cart, LineLacksId(id))
  }

  lemma {:induction false} FilterKeepsUniqueIds(c: Cart, p: LineItem -> bool)
    ensures UniqueIds(c) ==> UniqueIds(Filter(c, p))
    decreases |c|
  {
    if c != [] && UniqueIds(c) {
      var rest := Filter(c[1..], p);
      FilterKeepsUniqueIds(c[1..], p);
      FilterMembers(c[1..], p);
      assert UniqueIds(c[1..]) by {
        forall i, j | 0 <= i < j < |c| - 1
          ensures c[1..][i].id != c[1..][j].id
        {
          assert c[1..][i] == c[i + 1] && c[1..][j] == c[j + 1];
        }
      }
      if p(c[0]) {
        var r := [c[0]] + rest;
        assert Filter(c, p) == r;
        forall i, j | 0 <= i < j < |r|
          ensures r[i].id != r[j].id
        {
          if i == 0 {
            assert r[j] in rest;
            assert r[j] in c[1..];
            var m :| 0 <= m < |c[1..]| && c[1..][m] == r[j];
            assert c[m + 1] == r[j];
          } else {
            assert r[i] == rest[i - 1] && r[j] == rest[j - 1];
          }
        }
      }
    }
  }

  /**
   * `updateQuantity`: an identifier without a line is ignored; if the first
   * matching line's quantity plus `change` is at most zero every line with
   * that identifier is removed, otherwise only that line's quantity moves by
   * exactly `change`.
   */
  function UpdateQuantity(cart: Cart, id: int, change: int): (r: Cart)
    ensures !HasLine(cart, id) ==> r == cart
    ensures forall k :: FirstLine(cart, id, k) && cart[k].quantity + change <= 0 ==>
      r == RemoveFromCart(cart, id) &&
      !HasLine(r, id) && IsSubsequence(r, cart) && forall l :: l in r <==> l in cart && l.id != id
    ensures forall k :: FirstLine(cart, id, k) && cart[k].quantity + change > 0 ==>
      |r| == |cart| && r[k].quantity == cart[k].quantity + change && r[k] == Adjust(cart[k], change) &&
      forall i :: 0 <= i < |cart| && i != k ==> r[i] == cart[i]
    ensures Valid(cart) ==> Valid(r)
    ensures Faithful(cart) ==> Faithful(r)
  {
    match LineIndex(cart, id)
    case None => cart
    case Some(k) =>
      if cart[k].quantity + change <= 0 then
        RemoveFromCart(cart, id)
      else
        AdjustKeepsInvariants(cart, k, change);
        cart[k := Adjust(cart[k], change)]
  }

  /** Number of units in the cart: `cart.reduce((sum, item) => sum + item.quantity, 0)`. */
  function ItemCount(c: Cart): int
    decreases |c|
  {
    if c == [] then 0 else c[0].quantity + ItemCount(c[1..])
  }

  /** Price of the cart: `cart.reduce((sum, item) => sum + item.price * item.quantity, 0)`. */
  function TotalPrice(c: Cart): int
    decreases |c|
  {
    if c == [] then 0 else c[0].price * c[0].quantity + TotalPrice(c[1..])
  }

  /** With every quantity positive, the count is at least the number of lines. */
  lemma {:induction false} ItemCountBound(c: Cart)
    ensures PositiveQuantities(c) ==> ItemCount(c) >= |c|
    decreases |c|
  {
    if c != [] && PositiveQuantities(c) {
      assert forall l :: l in c[1..] ==> l in c;
      ItemCountBound(c[1..]);
    }
  }

  /** With no negative price and every quantity positive, the price is never negative. */
  lemma {:induction false} TotalPriceNonNegative(c: Cart)
    requires forall l :: l in c ==> l.price >= 0 && l.quantity > 0
    ensures TotalPrice(c) >= 0
    decreases |c|
  {
    if c != [] {
      assert forall l :: l in c[1..] ==> l in c;
      assert c[0] in c;
      TotalPriceNonNegative(c[1..]);
    }
  }

  /** The two figures the cart badge and the cart panel show. */
  datatype CartTotals = CartTotals(items: int, price: int)

  function Totals(c: Cart): (t: CartTotals)
    ensures c == [] ==> t == CartTotals(0, 0)
    ensures PositiveQuantities(c) ==> (t.items == 0 <==> c == [])
  {
    ItemCountBound(c);
    CartTotals(ItemCount(c), TotalPrice(c))
  }

  const CheckoutPage: string := "checkout.html"
  const EmptyCartMessage: string := "Your cart is empty!"

  /** What `proceedToCheckout` does: navigate, or warn and stay. */
  datatype CheckoutOutcome = Redirect(target: string) | EmptyCartAlert(message: string)

  function ProceedToCheckout(c: Cart): (r: CheckoutOutcome)
    ensures r.Redirect? <==> |c| > 0
    ensures r.Redirect? ==> r.target == CheckoutPage
    ensures r.EmptyCartAlert? ==> r.message == EmptyCartMessage
  {
    if |c| == 0 then EmptyCartAlert(EmptyCartMessage) else Redirect(CheckoutPage)
  }
}
