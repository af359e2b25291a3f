/**
 * The movie record served by the backend and the comparator the movie list
 * screen hands to Array.prototype.sort for each of its three sort orders.
 */
module Movies {
  import opened JsString

  /** A movie as the backend returns it; the screens never change one. */
  datatype Movie = Movie(
    id: int,
    title: string,
    year: int,
    genre: string,       // comma-separated genre names, free-form casing and spacing
    director: string,
    plot: string,
    posterUrl: string)

  /** The value of the `sortBy` state field. */
  datatype SortMode = Newest | Oldest | Title

  /** The sort callback: negative when `a` goes before `b`, positive when
      after, zero when the two tie; two movies tie exactly when they agree
      on the key of the mode. */
  function Compare(mode: SortMode, a: Movie, b: Movie): (r: int)
    ensures r == 0 <==> if mode == Title then a.title == b.title else a.year == b.year
  {
    match mode
    case Newest => b.year - a.year
    case Oldest => a.year - b.year
    case Title => CompareStringsZero(a.title, b.title); CompareStrings(a.title, b.title)
  }

  /** Every movie ties with itself. */
  lemma CompareReflexive(mode: SortMode, a: Movie)
    ensures Compare(mode, a, a) == 0
  {
    CompareStringsZero(a.title, a.title);
  }

  /** The comparator is consistent: swapping its arguments negates it. */
  lemma CompareAntisymmetric(mode: SortMode, a: Movie, b: Movie)
    ensures Compare(mode, a, b) == -Compare(mode, b, a)
  {
    CompareStringsAntisymmetric(a.title, b.title);
  }

  /** "Goes no later than" is transitive. */
  lemma CompareTransitive(mode: SortMode, a: Movie, b: Movie, c: Movie)
    requires Compare(mode, a, b) <= 0 && Compare(mode, b, c) <= 0
    ensures Compare(mode, a, c) <= 0
  {
    if mode == Title {
      CompareStringsTransitive(a.title, b.title, c.title);
    }
  }

  /** Tied movies compare alike against every third movie. */
  lemma CompareTieCongruent(mode: SortMode, a: Movie, b: Movie, c: Movie)
    requires Compare(mode, a, b) == 0
    ensures Compare(mode, a, c) == Compare(mode, b, c)
  {
    CompareStringsZero(a.title, b.title);
  }

  /** What each sort order means for two movies in order. */
  lemma CompareMeaning(mode: SortMode, a: Movie, b: Movie)
    ensures mode == Newest ==> (Compare(mode, a, b) <= 0 <==> a.year >= b.year)
    ensures mode == Oldest ==> (Compare(mode, a, b) <= 0 <==> a.year <= b.year)
    ensures mode == Title ==> (Compare(mode, a, b) == 0 <==> a.title == b.title)
  {
    CompareStringsZero(a.title, b.title);
  }
}
