/**
 * The catalog engine of the movie list screen, as functions of its inputs:
 * the search and genre predicates, the visible list that
 * filterAndSortMovies computes, the genre facets (`allGenres`) and the
 * genre-chip toggle.
 */
module Catalog {
  import opened Options
  import opened JsString
  import opened Seqs
  import opened Movies
  import opened StableSort

  // ---------------------------------------------------------------------
  // The sort callback
  // ---------------------------------------------------------------------

  /** The callback passed to `filtered.sort` for a sort mode. */
  function SortComparator(mode: SortMode): Comparator {
    (a, b) => Compare(mode, a, b)
  }

  /** Each of the three callbacks is a consistent comparator. */
  lemma SortComparatorConsistent(mode: SortMode)
    ensures Consistent(SortComparator(mode))
  {
    var cmp := SortComparator(mode);
    forall a, b ensures cmp(a, b) == -cmp(b, a) {
      CompareAntisymmetric(mode, a, b);
    }
    forall a, b, c | cmp(a, b) <= 0 && cmp(b, c) <= 0 ensures cmp(a, c) <= 0 {
      CompareTransitive(mode, a, b, c);
    }
    forall a, b, c | cmp(a, b) == 0 ensures cmp(a, c) == cmp(b, c) {
      CompareTieCongruent(mode, a, b, c);
    }
  }

  // ---------------------------------------------------------------------
  // Filters
  // ---------------------------------------------------------------------

  /** The search box: the lower-cased query is a substring of the
      lower-cased title, director or genre field (any one of the three). */
  predicate MatchesSearch(m: Movie, query: string) {
    var q := ToLower(query);
    Includes(ToLower(m.title), q) || Includes(ToLower(m.director), q) || Includes(ToLower(m.genre), q)
  }

  /** The genre filter: the lower-cased genre field contains the lower-cased
      selected genre as a substring. */
  predicate MatchesGenre(m: Movie, genre: string) {
    Includes(ToLower(m.genre), ToLower(genre))
  }

  /** JavaScript truthiness of the `string | null` selected genre. */
  predicate IsSet(selected: Option<string>) {
    selected.Some? && selected.value != ""
  }

  predicate PassesGenre(m: Movie, selected: Option<string>) {
    selected.None? || MatchesGenre(m, selected.value)
  }

  /** A movie is shown when it passes both filters. */
  predicate Shown(m: Movie, query: string, selected: Option<string>) {
    MatchesSearch(m, query) && PassesGenre(m, selected)
  }

  function SearchFilter(query: string): Movie -> bool {
    m => MatchesSearch(m, query)
  }

  function GenreFilter(selected: Option<string>): Movie -> bool {
    m => PassesGenre(m, selected)
  }

  function ShownFilter(query: string, selected: Option<string>): Movie -> bool {
    m => Shown(m, query, selected)
  }

  /** The list the screen shows: the movies passing both filters, in the
      stable order of the sort mode. */
  function Visible(movies: seq<Movie>, query: string, selected: Option<string>, mode: SortMode): (r: seq<Movie>)
    ensures |r| <= |movies|
  {
    SortBy(SortComparator(mode), Filter(ShownFilter(query, selected), movies))
  }

  /** An empty query, and an empty selected genre, filter nothing: the
      source skips the filter for a falsy value, which is the same thing. */
  lemma EmptyFiltersKeepAll(m: Movie, query: string, selected: Option<string>)
    ensures query == [] ==> MatchesSearch(m, query)
    ensures !IsSet(selected) ==> PassesGenre(m, selected)
  {
  }

  /** The search filter and the genre filter may run in either order. */
  lemma FiltersCommute(movies: seq<Movie>, query: string, selected: Option<string>)
    ensures Filter(GenreFilter(selected), Filter(SearchFilter(query), movies))
         == Filter(ShownFilter(query, selected), movies)
    ensures Filter(SearchFilter(query), Filter(GenreFilter(selected), movies))
         == Filter(ShownFilter(query, selected), movies)
  {
    FilterFilter(SearchFilter(query), GenreFilter(selected), ShownFilter(query, selected), movies);
    FilterFilter(GenreFilter(selected), SearchFilter(query), ShownFilter(query, selected), movies);
  }

  // ---------------------------------------------------------------------
  // Properties of the visible list
  // ---------------------------------------------------------------------

  /** A movie is visible exactly when it is in the list and passes both
      filters, and it is visible no more often than it is in the list. */
  lemma VisibleMembers(movies: seq<Movie>, query: string, selected: Option<string>, mode: SortMode)
    ensures forall m :: m in Visible(movies, query, selected, mode) <==>
      m in movies && MatchesSearch(m, query) && PassesGenre(m, selected)
    ensures multiset(Visible(movies, query, selected, mode)) <= multiset(movies)
  {
    var f := Filter(ShownFilter(query, selected), movies);
    FilterMembers(ShownFilter(query, selected), movies);
    SortByPermutes(SortComparator(mode), f);
    assert multiset(Visible(movies, query, selected, mode)) == multiset(f);
    forall m ensures m in Visible(movies, query, selected, mode) <==> m in f {
      assert m in f <==> m in multiset(f);
    }
  }

  /** The visible list is in the sort mode's order: years non-increasing for
      newest first, non-decreasing for oldest first, titles in order. */
  lemma VisibleSorted(movies: seq<Movie>, query: string, selected: Option<string>, mode: SortMode)
    ensures var v := Visible(movies, query, selected, mode);
      && SortedBy(SortComparator(mode), v)
      && (mode == Newest ==> forall i, j :: 0 <= i < j < |v| ==> v[i].year >= v[j].year)
      && (mode == Oldest ==> forall i, j :: 0 <= i < j < |v| ==> v[i].year <= v[j].year)
      && (mode == Title ==> forall i, j :: 0 <= i < j < |v| ==> CompareStrings(v[i].title, v[j].title) <= 0)
  {
    var f := Filter(ShownFilter(query, selected), movies);
    SortComparatorConsistent(mode);
    SortBySorted(SortComparator(mode), f);
    SortedMeaning(mode, SortBy(SortComparator(mode), f));
  }

  /** What being in a mode's order says about years and titles. */
  lemma SortedMeaning(mode: SortMode, v: seq<Movie>)
    requires SortedBy(SortComparator(mode), v)
    ensures mode == Newest ==> forall i, j :: 0 <= i < j < |v| ==> v[i].year >= v[j].year
    ensures mode == Oldest ==> forall i, j :: 0 <= i < j < |v| ==> v[i].year <= v[j].year
    ensures mode == Title ==> forall i, j :: 0 <= i < j < |v| ==> CompareStrings(v[i].title, v[j].title) <= 0
  {
    forall i, j | 0 <= i < j < |v| ensures Compare(mode, v[i], v[j]) <= 0 {
      assert SortComparator(mode)(v[i], v[j]) <= 0;
    }
  }

  /** Movies that tie under the sort mode appear in their order in `movies`. */
  lemma VisibleStable(movies: seq<Movie>, query: string, selected: Option<string>, mode: SortMode)
    ensures Stable(SortComparator(mode), Filter(ShownFilter(query, selected), movies), Visible(movies, query, selected, mode))
  {
    SortComparatorConsistent(mode);
    SortByStable(SortComparator(mode), Filter(ShownFilter(query, selected), movies));
  }

  /** With no query and no genre the whole list is shown, sorted: a
      permutation of all of `movies`. */
  lemma VisibleUnfiltered(movies: seq<Movie>, selected: Option<string>, mode: SortMode)
    requires !IsSet(selected)
    ensures Visible(movies, [], selected, mode) == SortBy(SortComparator(mode), movies)
    ensures multiset(Visible(movies, [], selected, mode)) == multiset(movies)
  {
    FilterAll(ShownFilter([], selected), movies);
    SortByPermutes(SortComparator(mode), movies);
  }

  /** Filtering and sorting the visible list again changes nothing. */
  lemma VisibleIdempotent(movies: seq<Movie>, query: string, selected: Option<string>, mode: SortMode)
    ensures Visible(Visible(movies, query, selected, mode), query, selected, mode)
         == Visible(movies, query, selected, mode)
  {
    var p := ShownFilter(query, selected);
    var f := Filter(p, movies);
    var v := SortBy(SortComparator(mode), f);
    SortByPermutes(SortComparator(mode), f);
    forall k | 0 <= k < |v| ensures p(v[k]) {
      assert v[k] in multiset(v);
      assert v[k] in multiset(f);
    }
    FilterAll(p, v);
    SortComparatorConsistent(mode);
    SortBySorted(SortComparator(mode), f);
    SortByOfSorted(SortComparator(mode), v);
  }

  // ---------------------------------------------------------------------
  // Genre facets
  // ---------------------------------------------------------------------

  /** The trimmed comma-separated pieces of one genre field. */
  function GenrePieces(genre: string): (r: seq<string>)
    ensures |r| >= 1
  {
    var parts := Split(genre, ',');
    seq(|parts|, k requires 0 <= k < |parts| => Trim(parts[k]))
  }

  /** movies.flatMap(movie => movie.genre.split(',').map(g => g.trim())):
      every movie contributes at least one token. */
  function GenreTokens(movies: seq<Movie>): (r: seq<string>)
    ensures |r| >= |movies|
  {
    if movies == [] then [] else GenrePieces(movies[0].genre) + GenreTokens(movies[1..])
  }

  /** `allGenres`: the distinct genre tokens in first-occurrence order. */
  function Genres(movies: seq<Movie>): (r: seq<string>)
    ensures NoDuplicates(r)
    ensures forall k :: 0 <= k < |r| ==> r[k] in GenreTokens(movies)
  {
    Dedup(GenreTokens(movies))
  }

  /** `t` is a trimmed piece of the genre field of some movie. */
  ghost predicate IsGenreToken(movies: seq<Movie>, t: string) {
    exists i :: 0 <= i < |movies| && t in GenrePieces(movies[i].genre)
  }

  lemma {:induction false} GenreTokensMembers(movies: seq<Movie>, t: string)
    ensures t in GenreTokens(movies) <==> IsGenreToken(movies, t)
  {
    if movies != [] {
      GenreTokensMembers(movies[1..], t);
      if IsGenreToken(movies[1..], t) {
        var i :| 0 <= i < |movies[1..]| && t in GenrePieces(movies[1..][i].genre);
        assert movies[i + 1] == movies[1..][i];
      }
      if IsGenreToken(movies, t) {
        var i :| 0 <= i < |movies| && t in GenrePieces(movies[i].genre);
        if i > 0 {
          assert movies[1..][i - 1] == movies[i];
        }
      }
    }
  }

  /** The facet list holds each genre token once, exactly the trimmed
      pieces of all genre fields, in first-occurrence order. */
  lemma GenresFacets(movies: seq<Movie>)
    ensures NoDuplicates(Genres(movies))
    ensures forall t :: t in Genres(movies) <==> IsGenreToken(movies, t)
    ensures var g, tokens := Genres(movies), GenreTokens(movies);
      forall i, j :: 0 <= i < j < |g| ==> IndexOf(tokens, g[i]) < IndexOf(tokens, g[j])
  {
    var tokens := GenreTokens(movies);
    forall t ensures t in Genres(movies) <==> IsGenreToken(movies, t) {
      GenreTokensMembers(movies, t);
      if t in tokens {
        var k :| 0 <= k < |tokens| && tokens[k] == t;
      }
    }
    DedupFirstOccurrenceOrder(tokens);
  }

  /** An empty genre field splits into the single piece "", so it adds the
      empty genre to the facets. */
  lemma EmptyGenreFieldGivesEmptyFacet(movies: seq<Movie>, i: nat)
    requires i < |movies| && movies[i].genre == []
    ensures [] in Genres(movies)
  {
    assert GenrePieces(movies[i].genre)[0] == [];
    GenresFacets(movies);
  }

  // ---------------------------------------------------------------------
  // Genre chips
  // ---------------------------------------------------------------------

  /** The label of the first chip of the genre row. */
  const AllMovies: string := "All Movies"

  /** The labels of the genre row: "All Movies", then one per facet. */
  function ChipLabels(movies: seq<Movie>): (r: seq<string>)
    ensures |r| >= 1 && r[0] == AllMovies
    ensures forall g :: g in Genres(movies) ==> g in r
  {
    [AllMovies] + Genres(movies)
  }

  /** The new selected genre after the chip labelled `item` is pressed: the
      "All Movies" label clears the selection, any other label toggles it. */
  function PressChip(selected: Option<string>, item: string): (r: Option<string>)
    ensures item == AllMovies ==> r == None
    ensures item != AllMovies ==> (r == None <==> selected == Some(item))
    ensures r.Some? ==> r.value == item
  {
    if item == AllMovies then None
    else if selected == Some(item) then None
    else Some(item)
  }

  /** The chip labelled `item` is drawn highlighted. */
  predicate ChipActive(selected: Option<string>, item: string) {
    (item == AllMovies && !IsSet(selected)) || selected == Some(item)
  }

  /** Pressing a genre chip twice from "nothing selected" (or from that
      genre) gets back to where it started. */
  lemma PressTwiceRestores(selected: Option<string>, item: string)
    requires item != AllMovies
    requires selected == None || selected == Some(item)
    ensures PressChip(PressChip(selected, item), item) == selected
  {
  }

  /** Pressing a genre chip flips its highlight, at most one genre chip is
      highlighted at a time, and after "All Movies" only it is. */
  lemma PressFlipsHighlight(selected: Option<string>, item: string, other: string)
    requires item != AllMovies && other != AllMovies
    ensures ChipActive(PressChip(selected, item), item) <==> !ChipActive(selected, item)
    ensures ChipActive(selected, item) && ChipActive(selected, other) ==> item == other
    ensures ChipActive(PressChip(selected, AllMovies), AllMovies)
    ensures !ChipActive(PressChip(selected, AllMovies), item)
  {
  }

  /** The chip of the empty genre (see EmptyGenreFieldGivesEmptyFacet)
      selects "", which is falsy: the list is not narrowed and both that
      chip and "All Movies" are highlighted. */
  lemma EmptyGenreChip(movies: seq<Movie>, query: string, mode: SortMode)
    ensures Visible(movies, query, PressChip(None, ""), mode) == Visible(movies, query, None, mode)
    ensures ChipActive(PressChip(None, ""), "") && ChipActive(PressChip(None, ""), AllMovies)
  {
    var sel := PressChip(None, "");
    assert sel == Some("");
    forall k | 0 <= k < |movies| ensures ShownFilter(query, sel)(movies[k]) == ShownFilter(query, None)(movies[k]) {
      EmptyFiltersKeepAll(movies[k], query, sel);
    }
    FilterExtensional(ShownFilter(query, sel), ShownFilter(query, None), movies);
  }
}
