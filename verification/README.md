# Livora storefront: cart, catalog, search and offer tabs in Dafny

This project models the state logic of the Livora furniture storefront script
(`sccript.js`) with the browser stripped away. It covers:

- **Catalog.** The fixed list of four sample products (id, name, type label, price, stock)
  and lookup by identifier (`products.find`).
- **Cart.** An ordered list of line items, each a copy of a product's fields plus a quantity.
  - `addToCart` ignores unknown identifiers, adds one unit to an existing line, or appends a copy with quantity 1.
  - `removeFromCart` filters out the lines of an identifier.
  - `updateQuantity` moves the first matching line by a signed change and removes the identifier once the quantity reaches zero or below.
  - The cart badge figures are the item count and the price sum.
  - The checkout guard redirects only when the cart is non-empty.
  - Every operation accepts any cart, since the script accepts whatever the browser had stored. Each one is proved to preserve the cart invariant (one line per identifier, every quantity positive) and the "every line is a copy of its catalog entry" property.
- **Search suggestions.**
  - The typed text is lower-cased and trimmed.
  - A query under two characters shows nothing.
  - Otherwise the result is the catalog entries whose lower-cased name or type contains the query, in catalog order, at most five.
- **Offer tabs.**
  - `lowest` is the catalog sorted by ascending price. The sort is stable, as `Array.prototype.sort` is.
  - `lastchance` is the entries with fewer than ten in stock.
  - Any other tab name leaves the list undefined, modelled as `None`.

Each operation is a pure function from the state before a click to the state
after it. The stored cart is taken to be the one in memory.

Modules, one per file:

| module | file | role |
|---|---|---|
| `Wrappers` | `wrappers.dfy` | the `Option` type |
| `Seqs` | `seqs.dfy` | `find`, `filter`, `slice(0, n)` and their laws |
| `Catalog` | `catalog.dfy` | products and lookup |
| `Cart` | `cart.dfy` | line items, cart operations, totals, checkout guard |
| `CartProperties` | `cart_properties.dfy` | how operations move the totals and relate to each other; worked examples |
| `Text` | `text.dfy` | `toLowerCase` (ASCII), `trim`, `includes` |
| `Search` | `search.dfy` | the suggestion filter |
| `SearchExamples` | `search_examples.dfy` | suggestions on the sample catalog |
| `Offers` | `offers.dfy` | the two offer tabs, the sort's permutation, order and stability laws, sample results |

The script's field `type` is a Dafny keyword, so the model calls it `category`.

Three facts about the code that the model keeps:

- The tab names are `lowest` and `lastchance`.
- An unknown tab leaves `filteredProducts` undefined, modelled as `None`.
- `JSON.parse` throws on a corrupt stored cart, so there is no empty-cart fallback.

## Model

| member | source | states |
|---|---|---|
| `Catalog.CatalogIdsUnique` | sccript.js:2-39 | no two sample products share an identifier |
| `Catalog.FindByIdKnownIds` | sccript.js:2-39 | the sample catalog has a product for exactly the identifiers 1 to 4 |
| `Catalog.FindById` | sccript.js:87 | a product found is a catalog entry with that identifier; nothing is found exactly when no entry carries it |
| `Catalog.FindByIdExact` | sccript.js:87 | lookup returns `p` exactly when `p` is the catalog entry with that identifier |
| `Seqs.FindIndex` | sccript.js:90 | the index returned is the first whose element satisfies the predicate; none exactly when no element does |
| `Seqs.Filter` | sccript.js:108 | `Array.prototype.filter`: never longer than its input; which elements it keeps, how often and in what order is stated by `Seqs.FilterMembers`, `Seqs.FilterCounts` and `Seqs.FilterIsSubsequence` |
| `Seqs.Find` | sccript.js:87 | the element returned is the first element satisfying the predicate; none exactly when no element does |
| `Seqs.FilterMembers` | sccript.js:108 | `filter` keeps exactly the elements satisfying the predicate |
| `Seqs.FilterCounts` | sccript.js:108 | `filter` keeps every element satisfying the predicate as many times as it occurs, and no other element |
| `Seqs.FilterIsSubsequence` | sccript.js:108 | `filter` keeps the relative order of what it keeps |
| `Seqs.Take` | sccript.js:220 | `slice(0, n)` is a prefix of length `min(n, length)` |
| `Cart.LineIndex` | sccript.js:90 | a line is found exactly when the cart has a line with the identifier, and it is the first such line |
| `Cart.FirstLineUnique` | sccript.js:90 | in a cart with one line per identifier, the line `find` stops at is the only line with that identifier |
| `Cart.AddToCart` | sccript.js:86-99 | unknown identifier: cart unchanged. Existing line: only that line changes, by exactly +1. Otherwise: a copy of the product with quantity 1 is appended at the end. Afterwards the cart has a line for the product. The invariant and catalog faithfulness are preserved |
| `Cart.AppendKeepsInvariants` | sccript.js:95-98 | appending a fresh identifier with a positive quantity keeps one line per identifier and positive quantities |
| `Cart.AdjustKeepsInvariants` | sccript.js:119-121 | changing one line's quantity to a positive value keeps the invariant and catalog faithfulness |
| `Cart.RemoveFromCart` | sccript.js:107-108 | exactly the lines of other identifiers remain, each as many times as before, in their original order, and none with the identifier. An absent identifier leaves the cart unchanged. The invariant and faithfulness are preserved |
| `Cart.FilterKeepsUniqueIds` | sccript.js:108 | filtering a cart with one line per identifier keeps one line per identifier |
| `Cart.ItemCount` | sccript.js:135 | the badge count, `reduce` of the quantities; its bound is `Cart.ItemCountBound` and how each operation moves it is stated in `CartProperties` (`TotalsAppend` to `TotalsChange`) |
| `Cart.TotalPrice` | sccript.js:136 | the cart total, `reduce` of price times quantity; its sign is `Cart.TotalPriceNonNegative` and how each operation moves it is stated in `CartProperties` |
| `Cart.UpdateQuantity` | sccript.js:115-128 | no line: cart unchanged. New quantity at most 0: the result is `removeFromCart` of the identifier, so its lines are removed and the rest kept, with their copies, in order. Otherwise: only that line changes, by exactly `change`. The invariant and faithfulness are preserved in every case |
| `Cart.ItemCountBound` | sccript.js:135 | with positive quantities the item count is at least the number of lines |
| `Cart.TotalPriceNonNegative` | sccript.js:136 | with non-negative prices and positive quantities the total price is non-negative |
| `Cart.Totals` | sccript.js:135-136 | an empty cart shows (0, 0); with positive quantities the count is 0 only for the empty cart |
| `Cart.ProceedToCheckout` | sccript.js:194-202 | redirects to `checkout.html` exactly when the cart has a line, and otherwise alerts "Your cart is empty!" |
| `CartProperties.TotalsAppend` | sccript.js:135-136 | both totals are additive over concatenation of carts |
| `CartProperties.TotalsReplace` | sccript.js:135-136 | replacing one line moves both totals by the difference between the old and new line |
| `CartProperties.TotalsDelete` | sccript.js:135-136 | deleting one line takes away exactly its quantity and its price times quantity |
| `CartProperties.TotalsBump` | sccript.js:93 | one more unit on a line adds 1 to the count and the line's price to the total |
| `CartProperties.TotalsChange` | sccript.js:119 | changing a line by `change` moves the count by `change` and the total by `change` times the line's price |
| `CartProperties.RemoveUniqueLine` | sccript.js:108 | in a cart with one line per identifier, removal deletes exactly the one line and keeps the others in place |
| `CartProperties.AddToCartTotals` | sccript.js:90-98 | a successful add raises the count by 1, and in a faithful cart raises the total by the product's catalog price |
| `CartProperties.RemoveFromCartTotals` | sccript.js:107-112 | removing an absent identifier leaves the totals alone; removing an identifier's only line takes away exactly its share |
| `CartProperties.UpdateQuantityTotals` | sccript.js:115-128 | a surviving line moves the count by `change` and the total by `change` times its price; a removed line takes its whole share away |
| `CartProperties.AddThenRemove` | sccript.js:86-112 | adding a product and then removing it gives the same cart as only removing it |
| `CartProperties.RemoveIdempotent` | sccript.js:108 | removing an identifier twice is the same as removing it once |
| `CartProperties.IncreaseIsAdd` | sccript.js:115-119 | the "+" button on a product already in a cart with positive quantities gives the same cart as "Add to Cart" |
| `CartProperties.UpdateQuantityRoundTrip` | sccript.js:115-128 | on a valid cart, a positive change followed by the opposite change restores the cart |
| `CartProperties.CheckoutIffItems` | sccript.js:194-202 | with positive quantities, checkout proceeds exactly when the item count shown is positive |
| `CartProperties.AddTwiceExample` | sccript.js:86-98 | adding the sofa twice to an empty cart gives one sofa line of quantity 2 and totals (2, 49998) |
| `CartProperties.AddChairToEmpty` | sccript.js:95-98 | adding the office chair to an empty cart gives one chair line of quantity 1 |
| `CartProperties.AddThenDecreaseExample` | sccript.js:115-122 | adding the office chair and pressing "-" empties the cart; a second "-" then changes nothing, and the totals are (0, 0) |
| `Text.LowerChar` | sccript.js:210 | the result is never an ASCII capital; a capital moves down by 32, anything else is unchanged |
| `Text.ToLower` | sccript.js:210 | same length as the input, and each character is lower-cased in place |
| `Text.ToLowerSpec` | sccript.js:210 | lower-casing leaves no capital, and changes nothing in a string without capitals |
| `Text.LeadCountSpec` | sccript.js:210 | the leading run `trim` cuts holds only white space and is followed by none |
| `Text.TrailCountSpec` | sccript.js:210 | the trailing run `trim` cuts holds only white space and is preceded by none |
| `Text.Trim` | sccript.js:210 | `String.prototype.trim` over JavaScript white space and line terminators; what it returns is stated by `Text.TrimSpec`, `Text.TrimByFixed` and `Text.TrimKeepsNoUpper` |
| `Text.TrimSpec` | sccript.js:210 | `trim` returns the slice of the input between a maximal run of white space at each end |
| `Text.TrimByFixed` | sccript.js:210 | a string with no white space at either end is its own trim |
| `Text.TrimKeepsNoUpper` | sccript.js:210 | trimming a string without capitals leaves it without capitals |
| `Text.Normalise` | sccript.js:210 | `toLowerCase().trim()` of the typed text; its laws are `Text.NormaliseSpec` and `Text.NormaliseFixed` |
| `Text.NormaliseSpec` | sccript.js:210 | the normalised query has no capital and no white space at either end, and normalising it again changes nothing |
| `Text.NormaliseFixed` | sccript.js:210 | a string without capitals or edge white space is already normalised |
| `Text.Includes` | sccript.js:218-219 | `String.prototype.includes`; its meaning is `Text.IncludesIffOccurs` |
| `Text.IncludesIffOccurs` | sccript.js:218-219 | `includes` holds exactly when the query occurs at some position |
| `Text.AbsentLetter` | sccript.js:218-219 | if neither case of one of the query's letters appears in a text, its lower-cased form does not include the query |
| `Search.Matches` | sccript.js:218-219 | the suggestion test: the lower-cased name or type includes the query; `Search.AllMatches` states the filter built on it and `SearchExamples.OnlySofaMatchesSo` evaluates it on the sample catalog |
| `Search.AllMatches` | sccript.js:217-219 | exactly the catalog entries whose lower-cased name or type includes the query, each as often as in the catalog, in catalog order |
| `Search.Suggest` | sccript.js:209-220 | under two characters after normalising: nothing. Otherwise: at most 5 entries, each a matching catalog entry, in catalog order; the result is the first min(5, number of matches) entries of all matches, so a match is left out only when 5 are already shown, on any catalog, including one that repeats an entry |
| `SearchExamples.OnlySofaMatchesSo` | sccript.js:217-219 | of the sample products only the sofa has "so" in its lower-cased name or type |
| `SearchExamples.SuggestSofa` | sccript.js:210-220 | typing "so" suggests the sofa alone |
| `SearchExamples.SuggestShortQuery` | sccript.js:212-215 | typing "s" suggests nothing |
| `Offers.InsertByPrice` | sccript.js:267 | one insertion step of the stable sort by price; its laws are `Offers.InsertByPricePermutes`, `Offers.InsertByPriceSorted` and `Offers.InsertKeepsTies` |
| `Offers.InsertByPricePermutes` | sccript.js:267 | inserting an entry adds exactly that entry |
| `Offers.InsertByPriceSorted` | sccript.js:267 | inserting into a price-sorted list keeps it sorted |
| `Offers.SortByPricePermutes` | sccript.js:267 | the sorted list is a permutation of the catalog |
| `Offers.SortByPrice` | sccript.js:267 | `[...products].sort((a, b) => a.price - b.price)`; its laws are `Offers.SortByPricePermutes`, `Offers.SortByPriceSorted` and `Offers.SortByPriceStable` |
| `Offers.SortByPriceSorted` | sccript.js:267 | the sorted list has non-decreasing prices |
| `Offers.InsertKeepsTies` | sccript.js:267 | an inserted entry goes ahead of every entry of the same price |
| `Offers.SortByPriceStable` | sccript.js:267 | entries of equal price keep their original relative order |
| `Offers.LastChance` | sccript.js:269 | exactly the entries with stock below 10, each as often as in the catalog, in catalog order |
| `Offers.OfferTab` | sccript.js:265-270 | a list exists exactly for `lowest` and `lastchance`. `lowest` is a price-sorted permutation of the catalog that keeps equally priced entries in catalog order. `lastchance` holds exactly the low-stock entries, with their copies, in catalog order |
| `Offers.LowestTabExample` | sccript.js:266-267 | on the sample catalog `lowest` lists ids 4, 2, 1, 3 |
| `Offers.LastChanceTabExample` | sccript.js:268-269 | on the sample catalog `lastchance` lists ids 2, 3 |
| `Offers.OtherTabExample` | sccript.js:265-270 | a tab named `newarrivals` has no list |

## Left out

- Rendering is not modelled (`loadProducts`, `createProductCard`, `renderCartItems`, `toggleCart`, the click-outside handler, marking the active tab): it writes HTML and has no logic to prove.
- `selectProduct` is not modelled. Its lookup is `Catalog.FindById`; the rest scrolls the page.
- Browser storage is not modelled: the `localStorage` reads and writes and the `JSON.parse`/`JSON.stringify` round trip. The stored cart is taken to equal the cart in memory.
- `showNotification` and its timers are not modelled: they only animate a message.
- `toLocaleString` price formatting is not modelled: it is display only.
- The page redirect and `alert` are not performed. `Cart.ProceedToCheckout` returns which of the two happens.
- The wishlist is not modelled: the script only reads its length and never changes it.
- Quantities, prices and changes are unbounded integers. JavaScript numbers (doubles, fractional changes, rounding beyond 2^53) are not modelled.
- `Search.Suggest`: the two-character guard counts Unicode scalar values, because Dafny strings are sequences of them. JavaScript's `query.length` counts UTF-16 code units. A query of one character outside the Basic Multilingual Plane passes the script's guard but gets no suggestions in the model. No sample product's name or type has such a character.
- Lower-casing covers ASCII capitals only. Full Unicode `toLowerCase` is not modelled. `trim` uses the full set of JavaScript white-space and line-terminator characters.
- Product images and tags are not modelled: they are only rendered.
- `CartProperties.AddToCartTotals`: the claim that the total rises by the catalog price is proved only for carts whose lines are unaltered copies of their catalog entries (`Cart.Faithful`). Every cart built by the operations is one. For any other stored cart, the script adds the stored line's own price.
