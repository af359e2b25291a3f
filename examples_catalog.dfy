/**
 * Worked examples of the catalog engine on small concrete lists.
 */
module CatalogExamples {
  import opened Options
  import opened JsString
  import opened Seqs
  import opened Movies
  import opened StableSort
  import opened Catalog

  /** Newest first, movies of 2000, 2010 and 2000 come out as the second,
      the first and the third: the two of 2000 keep their input order. */
  lemma NewestKeepsTieOrder(a: Movie, b: Movie, c: Movie)
    requires a.year == 2000 && b.year == 2010 && c.year == 2000
    ensures Visible([a, b, c], "", None, Newest) == [b, a, c]
  {
    var cmp := SortComparator(Newest);
    assert cmp(a, b) == 10 && cmp(a, c) == 0;
    SortOfThree(cmp, a, b, c);
    VisibleUnfiltered([a, b, c], None, Newest);
  }

  /** Insertion of `b` before `a`, then of `c` after `a`. */
  lemma SortOfThree(cmp: Comparator, a: Movie, b: Movie, c: Movie)
    requires cmp(a, b) > 0 && cmp(a, c) <= 0
    ensures SortBy(cmp, [a, b, c]) == [b, a, c]
  {
    assert [a, b, c][..2] == [a, b] && [a, b][..1] == [a] && [a][..0] == [];
    assert SortBy(cmp, [a]) == [a];
    assert Insert(cmp, [a], b) == [b, a] by {
      assert [a][..0] == [];
    }
    assert Insert(cmp, [b, a], c) == [b, a, c];
  }

  /** Selecting "Drama" keeps a movie whose genre field is "Crime, Drama". */
  lemma DramaMatchesCrimeDrama()
    ensures MatchesGenre(Movie(1, "Heat", 1995, "Crime, Drama", "Michael Mann", "", ""), "Drama")
  {
    var g := ToLower("Crime, Drama");
    assert g == "crime, drama";
    assert ToLower("Drama") == "drama";
    assert OccursAt(g, "drama", 7);
    IncludesIffOccurs(g, "drama");
  }

  /** Genre fields "Action, Adventure" and "Action" give the two facets
      "Action" and "Adventure", once each. */
  lemma ActionAdventureFacets(m1: Movie, m2: Movie)
    requires m1.genre == "Action, Adventure" && m2.genre == "Action"
    ensures Genres([m1, m2]) == ["Action", "Adventure"]
  {
    TokensOfTwo(m1, m2);
    ActionAdventurePieces();
    assert ["Action", "Adventure"] + ["Action"] == ["Action", "Adventure", "Action"];
    DedupExample();
  }

  lemma TokensOfTwo(m1: Movie, m2: Movie)
    ensures GenreTokens([m1, m2]) == GenrePieces(m1.genre) + GenrePieces(m2.genre)
  {
    assert [m1, m2][1..] == [m2] && [m2][1..] == [];
    assert GenreTokens([m2]) == GenrePieces(m2.genre) + GenreTokens([]);
    assert GenrePieces(m2.genre) + [] == GenrePieces(m2.genre);
  }

  lemma ActionAdventurePieces()
    ensures GenrePieces("Action, Adventure") == ["Action", "Adventure"]
    ensures GenrePieces("Action") == ["Action"]
  {
    PiecesOfPair();
    PiecesOfSingle();
  }

  lemma SplitOfPair()
    ensures Split("Action, Adventure", ',') == ["Action", " Adventure"]
  {
    assert Join(["Action", " Adventure"], ',') == "Action, Adventure";
    SplitJoin(["Action", " Adventure"], ',');
  }

  lemma PiecesOfPair()
    ensures GenrePieces("Action, Adventure") == ["Action", "Adventure"]
  {
    SplitOfPair();
    TrimOfPadded();
  }

  lemma PiecesOfSingle()
    ensures GenrePieces("Action") == ["Action"]
  {
    SplitOfPiece("Action", ',');
    TrimOfPadded();
  }

  lemma DedupExample()
    ensures Dedup(["Action", "Adventure", "Action"]) == ["Action", "Adventure"]
  {
    var s: seq<string> := ["Action", "Adventure", "Action"];
    assert s[..2] == ["Action", "Adventure"];
    assert ["Action", "Adventure"][..1] == ["Action"] && ["Action"][..0] == [];
    assert Dedup(["Action"]) == ["Action"];
    assert Dedup(["Action", "Adventure"]) == ["Action", "Adventure"];
  }

  lemma TrimOfPadded()
    ensures Trim("Action") == "Action" && Trim(" Adventure") == "Adventure"
  {
    VisibleNotWhitespace('A');
    VisibleNotWhitespace('n');
    VisibleNotWhitespace('e');
    TrimOfTrimmed("Action");
    var s := " Adventure";
    assert IsWhitespace(s[0]);
    assert LeadingWhitespace(s[1..]) == 0;
    assert LeadingWhitespace(s) == 1;
    assert TrailingWhitespace(s) == 0;
    assert s[1..|s|] == "Adventure";
  }

  /** The query "lo" finds a movie through its title "Apollo" and another
      through its director "Lopez". */
  lemma SearchAcrossFields(m1: Movie, m2: Movie)
    requires m1.title == "Apollo" && m2.director == "Lopez"
    ensures MatchesSearch(m1, "lo") && MatchesSearch(m2, "lo")
  {
    LowerOfExamples();
    assert OccursAt("apollo", "lo", 4);
    IncludesIffOccurs("apollo", "lo");
    assert StartsWith("lopez", "lo");
  }

  lemma LowerOfExamples()
    ensures ToLower("lo") == "lo" && ToLower("Apollo") == "apollo" && ToLower("Lopez") == "lopez"
  {
  }
}
