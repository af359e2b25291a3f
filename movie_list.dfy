/**
 * The movie list screen: its five pieces of catalog state (plus the two
 * loading flags), the recomputation that runs after every change, and the
 * handlers that change the state.
 */
module MovieList {
  import opened Options
  import opened Seqs
  import opened Movies
  import opened StableSort
  import opened Catalog

  /** `filtered.sort(comparator)`: a stable in-place sort of the array. */
  method SortInPlace(a: array<Movie>, cmp: Comparator)
    modifies a
    ensures a[..] == SortBy(cmp, old(a[..]))
  {
    ghost var input := a[..];
    var i := 0;
    while i < a.Length
      invariant 0 <= i <= a.Length
      invariant a[..i] == SortBy(cmp, input[..i])
      invariant forall k :: i <= k < a.Length ==> a[k] == input[k]
    {
      SortByPrefix(cmp, input, i);
      InsertAt(a, i, cmp);
      i := i + 1;
    }
    assert a[..a.Length] == a[..] && input[..a.Length] == input;
  }

  /** The sorted arrangement of one more movie of the input. */
  lemma SortByPrefix(cmp: Comparator, s: seq<Movie>, i: nat)
    requires i < |s|
    ensures SortBy(cmp, s[..i + 1]) == Insert(cmp, SortBy(cmp, s[..i]), s[i])
  {
    assert s[..i + 1][..i] == s[..i];
  }

  /** One pass of insertion sort: `a[i]` moves left into the sorted prefix
      `a[..i]` past the movies that go after it; the rest stays put. */
  method InsertAt(a: array<Movie>, i: nat, cmp: Comparator)
    requires i < a.Length
    modifies a
    ensures a[..i + 1] == Insert(cmp, old(a[..i]), old(a[i]))
    ensures forall k :: i < k < a.Length ==> a[k] == old(a[k])
  {
    var x := a[i];
    ghost var sorted := a[..i];
    var j := ShiftRight(a, i, x, cmp);
    a[j] := x;
    PlacedIsInsert(cmp, sorted, x, j, a[..i + 1]);
  }

  /** The inner loop: moves each movie of `a[..i]` that goes after `x` one
      place right, from the end of the prefix down, and returns the hole
      left behind. */
  method ShiftRight(a: array<Movie>, i: nat, x: Movie, cmp: Comparator) returns (j: nat)
    requires i < a.Length
    modifies a
    ensures j <= i
    ensures forall k :: 0 <= k < j ==> a[k] == old(a[k])
    ensures forall k :: j < k <= i ==> a[k] == old(a[k - 1])
    ensures forall k :: i < k < a.Length ==> a[k] == old(a[k])
    ensures j > 0 ==> cmp(old(a[j - 1]), x) <= 0
    ensures forall k :: j <= k < i ==> cmp(old(a[k]), x) > 0
  {
    j := i;
    while j > 0 && cmp(a[j - 1], x) > 0
      invariant 0 <= j <= i
      invariant forall k :: 0 <= k < j ==> a[k] == old(a[k])
      invariant forall k :: j < k <= i ==> a[k] == old(a[k - 1])
      invariant forall k :: i < k < a.Length ==> a[k] == old(a[k])
      invariant forall k :: j <= k < i ==> cmp(old(a[k]), x) > 0
    {
      a[j] := a[j - 1];
      j := j - 1;
    }
  }

  /** The arrangement the inner loop of InsertAt leaves: the movies of
      `sorted` before position `j`, then `x`, then the rest of `sorted`. */
  lemma PlacedIsInsert(cmp: Comparator, sorted: seq<Movie>, x: Movie, j: nat, t: seq<Movie>)
    requires j <= |sorted| && |t| == |sorted| + 1
    requires forall k :: 0 <= k < j ==> t[k] == sorted[k]
    requires t[j] == x
    requires forall k :: j < k < |t| ==> t[k] == sorted[k - 1]
    requires j > 0 ==> cmp(sorted[j - 1], x) <= 0
    requires forall k :: j <= k < |sorted| ==> cmp(sorted[k], x) > 0
    ensures t == Insert(cmp, sorted, x)
  {
    InsertPosition(cmp, sorted, j, x);
    PlacedAt(sorted, x, j, t);
  }

  /** Insert puts `x` right after the last movie that goes no later than it,
      which is where the inner loop of InsertAt stops. */
  lemma {:induction false} InsertPosition(cmp: Comparator, s: seq<Movie>, j: nat, x: Movie)
    requires j <= |s|
    requires j > 0 ==> cmp(s[j - 1], x) <= 0
    requires forall k :: j <= k < |s| ==> cmp(s[k], x) > 0
    ensures Insert(cmp, s, x) == s[..j] + [x] + s[j..]
  {
    if j < |s| {
      var n := |s| - 1;
      var init := s[..n];
      InsertPosition(cmp, init, j, x);
      SliceSnoc(s, j);
      assert Insert(cmp, s, x) == (s[..j] + [x] + init[j..]) + [s[n]];
    } else {
      assert s[..j] == s && s[j..] == [];
    }
  }

  /** The two filters of filterAndSortMovies, each skipped when its value
      is falsy. */
  method FilterMovies(movies: seq<Movie>, searchQuery: string, selectedGenre: Option<string>)
    returns (list: seq<Movie>)
    ensures list == Filter(ShownFilter(searchQuery, selectedGenre), movies)
  {
    list := movies;
    if searchQuery != [] {
      list := Filter(SearchFilter(searchQuery), list);
    } else {
      FilterAll(SearchFilter(searchQuery), movies);
    }
    ghost var searched := list;
    if IsSet(selectedGenre) {
      list := Filter(GenreFilter(selectedGenre), list);
    } else {
      FilterAll(GenreFilter(selectedGenre), searched);
    }
    FiltersCommute(movies, searchQuery, selectedGenre);
  }

  /** filterAndSortMovies: copy the list, narrow it by the search query and
      by the selected genre when those are set, then sort the copy. */
  method FilterAndSortMovies(movies: seq<Movie>, searchQuery: string, selectedGenre: Option<string>, sortBy: SortMode)
    returns (filtered: seq<Movie>)
    ensures filtered == Visible(movies, searchQuery, selectedGenre, sortBy)
  {
    var list := FilterMovies(movies, searchQuery, selectedGenre);
    var a := new Movie[|list|](k requires 0 <= k < |list| => list[k]);
    assert a[..] == list;
    SortInPlace(a, SortComparator(sortBy));
    filtered := a[..];
  }

  /** How a fetch of the movie list ended. */
  datatype FetchOutcome =
    | Responded(success: bool, data: seq<Movie>)  // the request completed
    | Threw                                       // the request raised an error

  class MovieListScreen {
    var movies: seq<Movie>
    var filteredMovies: seq<Movie>
    var loading: bool
    var refreshing: bool
    var searchQuery: string
    var selectedGenre: Option<string>
    var sortBy: SortMode

    /** The shown list is always the one computed from the other fields. */
    ghost predicate Valid()
      reads this
    {
      filteredMovies == Visible(movies, searchQuery, selectedGenre, sortBy)
    }

    /** `allGenres`, recomputed on every render: distinct tokens of the
        genre fields of the current movies. */
    function AllGenres(): (r: seq<string>)
      reads this
      ensures NoDuplicates(r)
      ensures forall k :: 0 <= k < |r| ==> r[k] in GenreTokens(movies)
    {
      Genres(movies)
    }

    constructor ()
      ensures Valid()
      ensures movies == [] && filteredMovies == []
      ensures loading && !refreshing
      ensures searchQuery == [] && selectedGenre == None && sortBy == Newest
    {
      movies := [];
      filteredMovies := [];
      loading := true;
      refreshing := false;
      searchQuery := [];
      selectedGenre := None;
      sortBy := Newest;
    }

    /** The effect that runs filterAndSortMovies after each change. */
    method Recompute()
      modifies this`filteredMovies
      ensures Valid()
    {
      filteredMovies := FilterAndSortMovies(movies, searchQuery, selectedGenre, sortBy);
    }

    /** Typing in the search box (and its clear button, with ""). */
    method SetSearchQuery(query: string)
      modifies this
      ensures Valid() && searchQuery == query
      ensures movies == old(movies) && selectedGenre == old(selectedGenre) && sortBy == old(sortBy)
      ensures loading == old(loading) && refreshing == old(refreshing)
    {
      searchQuery := query;
      Recompute();
    }

    /** The three sort buttons. */
    method SetSortBy(mode: SortMode)
      modifies this
      ensures Valid() && sortBy == mode
      ensures movies == old(movies) && searchQuery == old(searchQuery) && selectedGenre == old(selectedGenre)
      ensures loading == old(loading) && refreshing == old(refreshing)
    {
      sortBy := mode;
      Recompute();
    }

    /** A press on the chip labelled `item` of the genre row. */
    method PressGenreChip(item: string)
      modifies this
      ensures Valid() && selectedGenre == PressChip(old(selectedGenre), item)
      ensures movies == old(movies) && searchQuery == old(searchQuery) && sortBy == old(sortBy)
      ensures loading == old(loading) && refreshing == old(refreshing)
    {
      if item == AllMovies {
        selectedGenre := None;
      } else {
        selectedGenre := if selectedGenre == Some(item) then None else Some(item);
      }
      Recompute();
    }

    /** "Reset Filters": the whole list, newest first. */
    method ResetFilters()
      modifies this
      ensures Valid()
      ensures searchQuery == [] && selectedGenre == None && sortBy == Newest
      ensures filteredMovies == SortBy(SortComparator(Newest), movies)
      ensures movies == old(movies)
      ensures loading == old(loading) && refreshing == old(refreshing)
    {
      searchQuery := [];
      selectedGenre := None;
      sortBy := Newest;
      Recompute();
      VisibleUnfiltered(movies, None, Newest);
    }

    /** Pull to refresh: the flag is raised and a fetch starts. */
    method StartRefresh()
      requires Valid()
      modifies this`refreshing
      ensures Valid() && refreshing
    {
      refreshing := true;
    }

    /** The end of fetchMovies: only a successful response replaces the
        list; either way both loading flags are cleared. */
    method FetchFinished(outcome: FetchOutcome)
      modifies this
      ensures Valid()
      ensures movies == if outcome.Responded? && outcome.success then outcome.data else old(movies)
      ensures !loading && !refreshing
      ensures searchQuery == old(searchQuery) && selectedGenre == old(selectedGenre) && sortBy == old(sortBy)
    {
      if outcome.Responded? && outcome.success {
        movies := outcome.data;
      }
      loading := false;
      refreshing := false;
      Recompute();
    }
  }
}
