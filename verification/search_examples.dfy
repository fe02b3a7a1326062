/**
 * Suggestions computed on the sample catalog. Each fact about a product's
 * text is proved on its own, by locating the query or by showing that one
 * of its letters occurs in neither case.
 */
module SearchExamples {
  import opened Seqs
  import opened Text
  import opened Catalog
  import opened Search

  lemma SofaMatchesSo()
    ensures Matches(Products[0], "so")
  {
    var l := ToLower(Products[0].name);
    assert l[16] == 's' && l[17] == 'o';
    OccursIncludes(l, "so", 16);
  }

  lemma TableLacksSo()
    ensures !Includes(ToLower("Minimalist Dining Table"), "so")
  {
    AbsentLetter("Minimalist Dining Table", "so", 1, 'O');
  }

  lemma SeaterLacksSo()
    ensures !Includes(ToLower("6-Seater"), "so")
  {
    AbsentLetter("6-Seater", "so", 1, 'O');
  }

  lemma TableMissesSo()
    ensures !Matches(Products[1], "so")
  {
    TableLacksSo();
    SeaterLacksSo();
  }

  /** The only 's' of "storage wardrobe" is at the front, followed by 't'. */
  lemma WardrobeLacksSo()
    ensures !Includes(ToLower("Storage Wardrobe"), "so")
  {
    var l := ToLower("Storage Wardrobe");
    AbsentLetterFrom("Storage Wardrobe", "so", 0, 'S', 1);
    assert l[1] == 't';
    IncludesIffOccurs(l, "so");
  }

  lemma DoorLacksSo()
    ensures !Includes(ToLower("4-Door"), "so")
  {
    AbsentLetter("4-Door", "so", 0, 'S');
  }

  lemma WardrobeMissesSo()
    ensures !Matches(Products[2], "so")
  {
    WardrobeLacksSo();
    DoorLacksSo();
  }

  lemma ChairLacksSo()
    ensures !Includes(ToLower("Ergonomic Office Chair"), "so")
  {
    AbsentLetter("Ergonomic Office Chair", "so", 0, 'S');
  }

  lemma AdjustableLacksSo()
    ensures !Includes(ToLower("Adjustable"), "so")
  {
    AbsentLetter("Adjustable", "so", 1, 'O');
  }

  lemma ChairMissesSo()
    ensures !Matches(Products[3], "so")
  {
    ChairLacksSo();
    AdjustableLacksSo();
  }

  /** Only the sofa's name or type contains "so". */
  lemma OnlySofaMatchesSo()
    ensures Matches(Products[0], "so")
    ensures !Matches(Products[1], "so") && !Matches(Products[2], "so") && !Matches(Products[3], "so")
  {
    SofaMatchesSo();
    TableMissesSo();
    WardrobeMissesSo();
    ChairMissesSo();
  }

  /** "so" finds only the sofa. */
  lemma SuggestSofa()
    ensures Suggest(Products, "so") == [Products[0]]
  {
    NormaliseFixed("so");
    SofaFilter();
    assert AllMatches(Products, "so") == [Products[0]];
  }

  lemma SofaFilter()
    ensures Filter(Products, MatchesQuery("so")) == [Products[0]]
  {
    OnlySofaMatchesSo();
    FilterProducts(MatchesQuery("so"));
  }

  /** A one-letter query shows nothing. */
  lemma SuggestShortQuery()
    ensures Suggest(Products, "s") == []
  {
    NormaliseFixed("s");
  }
}
