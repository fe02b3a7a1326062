/**
 * The search box's live suggestions: catalog entries whose lower-cased
 * name or type label contains the normalised query, in catalog order, at
 * most five of them, and none at all for a query under two characters.
 */
module Search {
  import opened Seqs
  import opened Text
  import opened Catalog

  const MinQueryLength: nat := 2
  const MaxSuggestions: nat := 5

  /** The product's name or type label, lower-cased, contains `q`. */
  predicate Matches(p: Product, q: string) {
    Includes(ToLower(p.name), q) || Includes(ToLower(p.category), q)
  }

  function MatchesQuery(q: string): Product -> bool {
    (p: Product) => Matches(p, q)
  }

  /** Every entry of `catalog` matching `q`, in catalog order. */
  function AllMatches(catalog: seq<Product>, q: string): (r: seq<Product>)
    ensures forall p :: p in r <==> p in catalog && Matches(p, q)
    ensures forall p :: multiset(r)[p] == if Matches(p, q) then multiset(catalog)[p] else 0
    ensures IsSubsequence(r, catalog)
  {
    FilterIsSubsequence(catalog, MatchesQuery(q));
    FilterMembers(catalog, MatchesQuery(q));
    FilterCounts(catalog, MatchesQuery(q));
    Filter(catalog, MatchesQuery(q))
  }

  /**
   * The suggestions shown for the text `input` typed into the search box;
   * the empty sequence means the suggestion list is hidden.
   */
  function Suggest(catalog: seq<Product>, input: string): (r: seq<Product>)
    ensures |Normalise(input)| < MinQueryLength ==> r == []
    ensures |r| <= MaxSuggestions
    ensures forall p :: p in r ==> p in catalog && Matches(p, Normalise(input))
    ensures IsSubsequence(r, catalog)
    ensures |Normalise(input)| >= MinQueryLength ==> r <= AllMatches(catalog, Normalise(input))
    ensures |Normalise(input)| >= MinQueryLength ==>
      |r| == if |AllMatches(catalog, Normalise(input))| < MaxSuggestions
             then |AllMatches(catalog, Normalise(input))| else MaxSuggestions
    ensures |Normalise(input)| >= MinQueryLength ==>
      forall p :: p in catalog && Matches(p, Normalise(input)) && p !in r ==> |r| == MaxSuggestions
  {
    var q := Normalise(input);
    if |q| < MinQueryLength then []
    else
      var all := AllMatches(catalog, q);
      var r := Take(all, MaxSuggestions);
      PrefixIsSubsequence(r, all, catalog);
      r
  }
}
