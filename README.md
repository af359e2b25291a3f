# Movie review app: catalog engine and review form, in Dafny

This project models two screens of a React Native movie-review client.

**The movie list screen** (`MovieListScreen`) holds:
- the `movies` fetched from the backend;
- a search query, a selected genre, and a sort mode;
- the derived `filteredMovies`, which `filterAndSortMovies` recomputes after every change.

Its catalog engine:
- narrows the list by a case-insensitive substring search over title, director and genre;
- narrows it again by the selected genre, as a case-insensitive substring of the genre field;
- sorts the result stably: newest first, oldest first, or by title;
- derives the genre facets (`allGenres`) from the comma-separated genre fields;
- toggles the selected genre from a row of chips.

**The add-review screen** (`AddReviewScreen`) does four things:
- It validates a review before sending it: a rating must be chosen, then the comment must not be blank.
- It builds the payload: the trimmed author or `Anonymous`, the rating, and the trimmed comment.
- It raises a `submitting` flag while the request is in flight.
- It draws a five-star rating widget.

Layout:
- `js_string.dfy` (`JsString`) models the JavaScript string built-ins the screens use:
  - `trim`, with the exact ECMAScript whitespace set;
  - `toLowerCase`, `includes`, `split(',')` and `localeCompare`.
- `seqs.dfy` (`Seqs`) models `Array.prototype.filter` and `Array.from(new Set(xs))`.
- `options.dfy` (`Options`) is the `T | null` of the source.
- `movies.dfy` (`Movies`) holds the movie record and the sort callback of each sort mode.
- `stable_sort.dfy` (`StableSort`) specifies what `Array.prototype.sort` returns for a consistent comparator:
  - It is an insertion sort, `SortBy`.
  - Proved: its result is a sorted, stable permutation.
  - Proved: any sorted array with the input's groups of tied movies, in input order, equals it.
- `catalog.dfy` (`Catalog`) defines the engine as functions: the filters, `Visible`, the facets, and the chip toggle.
- `movie_list.dfy` (`MovieList`) has two parts:
  - The imperative `filterAndSortMovies`. It filters, copies into an array, and sorts the array in place with an insertion sort. It is proved to return `Visible`.
  - The class `MovieListScreen`. Its state keeps the invariant `filteredMovies == Visible(movies, searchQuery, selectedGenre, sortBy)`, and its handlers are methods.
- `add_review.dfy` (`AddReview`) holds:
  - the validation and the payload;
  - the star loop;
  - the class `ReviewForm`, with the `submitting` state machine.
- `examples_catalog.dfy` (`CatalogExamples`) works the engine on small concrete inputs.

Three behaviours of the code are easy to misread:
- The selected-genre filter is a case-insensitive *substring* test on the raw genre field (`MovieListScreen.tsx:69-73`). It is not a membership test on the facet set.
- An empty genre field is not dropped from the facets. `"".split(',')` is `[""]`, so it adds the facet `""` (`EmptyGenreFieldGivesEmptyFacet`).
  - Selecting that chip sets the selected genre to `""`.
  - `""` is falsy, so the list is not narrowed.
  - Both that chip and "All Movies" are highlighted (`EmptyGenreChip`).
- The "All Movies" chip is recognised by its label (`item === 'All Movies'`). A genre named `All Movies` therefore clears the selection instead of selecting itself (`PressChip`).

## Model

| member | source | states |
|---|---|---|
| JsString.Trim | src/screens/AddReviewScreen.tsx:29 | trim's result is `s` with only whitespace before and after; it starts and ends with non-whitespace; it is empty iff `s` is all whitespace |
| JsString.IsWhitespace | src/screens/AddReviewScreen.tsx:29 | the characters `trim` strips: the ECMAScript white-space and line-terminator code points, looked up in a table of 25 |
| JsString.LeadingWhitespace | src/screens/AddReviewScreen.tsx:37 | the number of leading characters of `s` that trim removes: all whitespace, followed by a non-whitespace one or the end |
| JsString.TrailingWhitespace | src/screens/AddReviewScreen.tsx:39 | the number of trailing characters trim removes: all whitespace, preceded by a non-whitespace one or the start |
| JsString.TrimIdempotent | src/screens/MovieListScreen.tsx:30 | trimming a trimmed genre piece changes nothing |
| JsString.VisibleNotWhitespace | src/screens/AddReviewScreen.tsx:37 | no visible ASCII character (such as the letters of `Anonymous`) is whitespace for trim |
| JsString.ToLower | src/screens/MovieListScreen.tsx:62-64 | lower-casing keeps the length, turns each capital A-Z into its small letter (code point + 32), and changes no other character |
| JsString.ToLowerCaseInsensitive | src/screens/MovieListScreen.tsx:62-71 | two strings that differ only in ASCII case lower-case to the same string, so the search and the genre test ignore case |
| JsString.ToLowerIdempotent | src/screens/MovieListScreen.tsx:62-64 | lower-casing twice is lower-casing once |
| JsString.Includes | src/screens/MovieListScreen.tsx:62-64 | every string includes the empty string |
| JsString.IncludesIffOccurs | src/screens/MovieListScreen.tsx:71 | `s.includes(t)` holds exactly when `t` occurs in `s` at some index |
| JsString.Split | src/screens/MovieListScreen.tsx:30 | `split(',')` gives at least one piece (so `""` gives `[""]`), no piece contains a comma, and joining the pieces with commas gives back the field |
| JsString.SplitJoin | src/screens/MovieListScreen.tsx:30 | splitting a comma-join of comma-free pieces gives back exactly those pieces |
| JsString.SplitOfPiece | src/screens/MovieListScreen.tsx:30 | a field without a comma splits into itself alone |
| JsString.SplitPrefix | src/screens/MovieListScreen.tsx:30 | splitting `w,rest` gives `w` followed by the pieces of `rest` |
| JsString.CompareStrings | src/screens/MovieListScreen.tsx:83 | the title comparison returns -1, 0 or 1 |
| JsString.CompareStringsZero | src/screens/MovieListScreen.tsx:83 | two titles compare equal exactly when they are the same string |
| JsString.CompareStringsAntisymmetric | src/screens/MovieListScreen.tsx:83 | swapping the titles negates the comparison |
| JsString.CompareStringsTransitive | src/screens/MovieListScreen.tsx:83 | "comes no later than" on titles is transitive |
| Seqs.Filter | src/screens/MovieListScreen.tsx:61 | `filter` keeps only elements that pass and never lengthens the array |
| Seqs.FilterMembers | src/screens/MovieListScreen.tsx:61-65 | an element is in the filtered array iff it is in the input and passes; no element is kept more often than it occurs |
| Seqs.FilterConcat | src/screens/MovieListScreen.tsx:70-72 | filtering distributes over concatenation |
| Seqs.FilterAll | src/screens/MovieListScreen.tsx:60 | a filter that every element passes changes nothing, which is why skipping a falsy filter is the same as applying it |
| Seqs.FilterFilter | src/screens/MovieListScreen.tsx:60-73 | two filters in a row are the one filter by their conjunction |
| Seqs.FilterExtensional | src/screens/MovieListScreen.tsx:69 | filters that agree on every element give the same array |
| Seqs.IndexOf | src/screens/MovieListScreen.tsx:28-29 | the index of the first occurrence of a present element |
| Seqs.Dedup | src/screens/MovieListScreen.tsx:28-29 | `Array.from(new Set(xs))` has no duplicates and holds exactly the elements of `xs` |
| Seqs.DedupFirstOccurrenceOrder | src/screens/MovieListScreen.tsx:28-29 | the distinct elements are listed in the order of their first occurrence in `xs` |
| Movies.Compare | src/screens/MovieListScreen.tsx:76-87 | the sort callback of each mode; two movies tie exactly when their years (newest, oldest) or their titles (title) are equal |
| Movies.CompareReflexive | src/screens/MovieListScreen.tsx:76-87 | every movie ties with itself under each sort callback |
| Movies.CompareAntisymmetric | src/screens/MovieListScreen.tsx:76-87 | swapping the two movies negates each sort callback |
| Movies.CompareTransitive | src/screens/MovieListScreen.tsx:76-87 | "goes no later than" is transitive for each sort callback |
| Movies.CompareTieCongruent | src/screens/MovieListScreen.tsx:76-87 | tied movies compare alike against every third movie |
| Movies.CompareMeaning | src/screens/MovieListScreen.tsx:78-83 | newest: `a` goes no later than `b` iff its year is not smaller; oldest: iff not larger; title: a tie iff the titles are equal |
| StableSort.Insert | src/screens/MovieListScreen.tsx:76 | insertion adds one element |
| StableSort.SortBy | src/screens/MovieListScreen.tsx:76 | sorting keeps the length |
| StableSort.InsertPermutes | src/screens/MovieListScreen.tsx:76 | insertion adds exactly the inserted movie to the multiset |
| StableSort.SortByPermutes | src/screens/MovieListScreen.tsx:76 | the sorted array is a permutation of its input |
| StableSort.Reflexive | src/screens/MovieListScreen.tsx:76 | a consistent comparator ties every movie with itself |
| StableSort.TiesConcat | src/screens/MovieListScreen.tsx:76 | the tie group of a concatenation is the concatenation of the tie groups |
| StableSort.TiesSingleton | src/screens/MovieListScreen.tsx:76 | the tie group of a single movie |
| StableSort.TiesCons | src/screens/MovieListScreen.tsx:76 | the tie group of an array splits at its first movie |
| StableSort.TiesOfMember | src/screens/MovieListScreen.tsx:76 | a movie lies in its own tie group |
| StableSort.SortedAppend | src/screens/MovieListScreen.tsx:76 | appending a movie that goes no earlier than all others keeps the order |
| StableSort.InsertFrom | src/screens/MovieListScreen.tsx:76 | every other movie of an insertion comes from the input |
| StableSort.InsertSorted | src/screens/MovieListScreen.tsx:76 | inserting into a sorted array keeps it sorted |
| StableSort.InsertBelow | src/screens/MovieListScreen.tsx:76 | a movie that goes no earlier than all of `s` and than `x` goes no earlier than anything in the insertion |
| StableSort.InsertTies | src/screens/MovieListScreen.tsx:76 | insertion puts the new movie after every movie it ties with |
| StableSort.SortBySorted | src/screens/MovieListScreen.tsx:76 | the sort result is in comparator order |
| StableSort.SortByTies | src/screens/MovieListScreen.tsx:76 | the sort keeps every group of tied movies in input order |
| StableSort.SortByStable | src/screens/MovieListScreen.tsx:76 | the sort is stable |
| StableSort.SortedHeadFirst | src/screens/MovieListScreen.tsx:76 | the first movie of a sorted array goes no later than any other |
| StableSort.SameTiesMember | src/screens/MovieListScreen.tsx:76 | a movie whose tie group is the same in two arrays is in both |
| StableSort.SameTiesHead | src/screens/MovieListScreen.tsx:76 | two sorted arrays whose heads have the same tie groups in both start with the same movie |
| StableSort.SameTiesTail | src/screens/MovieListScreen.tsx:76 | dropping the first movie keeps the tie groups of the rest |
| StableSort.SortedUnique | src/screens/MovieListScreen.tsx:76 | two sorted arrays with the same tie groups are equal |
| StableSort.StableSortIsSortBy | src/screens/MovieListScreen.tsx:76 | any array in comparator order whose groups of tied movies are those of the input, in input order (what a stable `Array.prototype.sort` must return), is the insertion-sort result |
| StableSort.SortByOfSorted | src/screens/MovieListScreen.tsx:76 | sorting an already sorted array changes nothing |
| Catalog.SortComparatorConsistent | src/screens/MovieListScreen.tsx:76-87 | each of the three sort callbacks is a consistent comparator |
| Catalog.MatchesSearch | src/screens/MovieListScreen.tsx:61-65 | the search test: the lower-cased query is a substring of the lower-cased title, director or genre field |
| Catalog.MatchesGenre | src/screens/MovieListScreen.tsx:70-72 | the genre test: the lower-cased selected genre is a substring of the lower-cased genre field |
| Catalog.IsSet | src/screens/MovieListScreen.tsx:69 | the truthiness of `selectedGenre`: not null and not `""` |
| Catalog.PassesGenre | src/screens/MovieListScreen.tsx:69-73 | no selected genre passes every movie; otherwise the genre test decides |
| Catalog.Visible | src/screens/MovieListScreen.tsx:56-90 | the list `filterAndSortMovies` sets: never longer than `movies`; its members, order and stability are stated by `VisibleMembers`, `VisibleSorted` and `VisibleStable` |
| Catalog.EmptyFiltersKeepAll | src/screens/MovieListScreen.tsx:60-73 | an empty query matches every movie; an unset or empty selected genre passes every movie |
| Catalog.FiltersCommute | src/screens/MovieListScreen.tsx:60-73 | search then genre, or genre then search, give the movies that pass both, in input order |
| Catalog.VisibleMembers | src/screens/MovieListScreen.tsx:56-90 | a movie is visible iff it is in `movies` and matches the title, director or genre search and the genre filter; the visible list is a sub-multiset of `movies` |
| Catalog.VisibleSorted | src/screens/MovieListScreen.tsx:76-87 | the visible list is in the order of the sort mode: years non-increasing, years non-decreasing, or titles ascending |
| Catalog.SortedMeaning | src/screens/MovieListScreen.tsx:78-83 | what comparator order means for years and titles in each mode |
| Catalog.VisibleStable | src/screens/MovieListScreen.tsx:76 | movies tied under the sort mode keep their order in `movies` |
| Catalog.VisibleUnfiltered | src/screens/MovieListScreen.tsx:56-90 | with no query and no genre, every movie is shown: the sorted `movies`, a permutation of it |
| Catalog.VisibleIdempotent | src/screens/MovieListScreen.tsx:56-90 | filtering and sorting the shown list again gives the same list |
| Catalog.GenrePieces | src/screens/MovieListScreen.tsx:30 | a genre field gives at least one trimmed piece |
| Catalog.GenreTokens | src/screens/MovieListScreen.tsx:29-31 | the `flatMap` of trimmed pieces: every movie contributes at least one token |
| Catalog.GenreTokensMembers | src/screens/MovieListScreen.tsx:29-31 | a token is in the flat-mapped list iff it is a trimmed piece of some movie's genre field |
| Catalog.Genres | src/screens/MovieListScreen.tsx:28-32 | `allGenres` lists no facet twice, and each facet is a token of some genre field |
| Catalog.GenresFacets | src/screens/MovieListScreen.tsx:28-32 | `allGenres` has no duplicates, holds exactly the trimmed pieces of all genre fields, in first-occurrence order |
| Catalog.EmptyGenreFieldGivesEmptyFacet | src/screens/MovieListScreen.tsx:30 | a movie with an empty genre field adds the facet `""` |
| Catalog.ChipLabels | src/screens/MovieListScreen.tsx:187 | the chip row's data: "All Movies" first, and every facet is a label |
| Catalog.PressChip | src/screens/MovieListScreen.tsx:196-202 | "All Movies" clears the selection; another label clears it iff that label was selected, else selects it |
| Catalog.ChipActive | src/screens/MovieListScreen.tsx:192 | a chip is highlighted when it is "All Movies" and no genre is set (null or `""`), or when it is the selected genre |
| Catalog.PressTwiceRestores | src/screens/MovieListScreen.tsx:200 | pressing the same genre chip twice restores the selection |
| Catalog.PressFlipsHighlight | src/screens/MovieListScreen.tsx:192 | a genre chip's press flips its highlight; at most one genre chip is highlighted; after "All Movies" only it is |
| Catalog.EmptyGenreChip | src/screens/MovieListScreen.tsx:69 | selecting the `""` chip does not narrow the list and highlights both it and "All Movies" |
| MovieList.SortInPlace | src/screens/MovieListScreen.tsx:76-87 | the in-place sort of the array leaves exactly `SortBy` of its old contents |
| MovieList.SortByPrefix | src/screens/MovieListScreen.tsx:76 | sorting one more movie is inserting it into the sorted prefix |
| MovieList.InsertAt | src/screens/MovieListScreen.tsx:76 | one pass moves `a[i]` to its insertion point in the sorted prefix, leaving the rest of the array alone |
| MovieList.ShiftRight | src/screens/MovieListScreen.tsx:76 | the inner loop shifts the movies that go after `x` one place right and stops after the last one going no later |
| MovieList.PlacedIsInsert | src/screens/MovieListScreen.tsx:76 | the arrangement the inner loop leaves is the insertion |
| MovieList.InsertPosition | src/screens/MovieListScreen.tsx:76 | insertion puts `x` right after the last movie going no later than it |
| MovieList.FilterMovies | src/screens/MovieListScreen.tsx:57-73 | the two filters, each skipped when falsy, keep the movies that pass both |
| MovieList.FilterAndSortMovies | src/screens/MovieListScreen.tsx:56-90 | returns exactly `Visible(movies, searchQuery, selectedGenre, sortBy)` |
| MovieList.MovieListScreen.constructor | src/screens/MovieListScreen.tsx:19-25 | starts with no movies, loading, empty query, no genre, newest first |
| MovieList.MovieListScreen.AllGenres | src/screens/MovieListScreen.tsx:28-32 | the facets of the current movies: no duplicates, each a token of some genre field |
| MovieList.MovieListScreen.Recompute | src/screens/MovieListScreen.tsx:38-40 | the shown list becomes the one computed from the state |
| MovieList.MovieListScreen.SetSearchQuery | src/screens/MovieListScreen.tsx:172-176 | typing or clearing sets the query, recomputes, touches nothing else |
| MovieList.MovieListScreen.SetSortBy | src/screens/MovieListScreen.tsx:224-249 | a sort button sets the mode, recomputes, touches nothing else |
| MovieList.MovieListScreen.PressGenreChip | src/screens/MovieListScreen.tsx:196-202 | a chip press sets the selection to `PressChip` of the old one and recomputes |
| MovieList.MovieListScreen.ResetFilters | src/screens/MovieListScreen.tsx:296-300 | clears query and genre, sorts newest first; the whole list is shown, newest first |
| MovieList.MovieListScreen.StartRefresh | src/screens/MovieListScreen.tsx:92-95 | pull to refresh raises the refreshing flag and keeps the shown list in step with the state |
| MovieList.MovieListScreen.FetchFinished | src/screens/MovieListScreen.tsx:42-54 | only a successful response replaces `movies`; a failure or an error keeps it; both flags are cleared either way |
| AddReview.ErrorAlert | src/screens/AddReviewScreen.tsx:24-31 | a failed check shows an alert titled "Error": "Please select a rating" for the rating check, "Please write a comment" for the comment check |
| AddReview.OutcomeAlert | src/screens/AddReviewScreen.tsx:44-60 | no alert exactly when the server answered without success; "Success" / "Review submitted successfully!" when it answered with success; "Error" / "Failed to submit review. Please try again." when the request threw |
| AddReview.AuthorName | src/screens/AddReviewScreen.tsx:37 | the author name is the trimmed author, or `Anonymous` when that is blank; it is never empty and never padded |
| AddReview.Validate | src/screens/AddReviewScreen.tsx:24-40 | rating 0 is rejected first; then a blank comment is rejected; otherwise the payload is author name, rating unchanged, trimmed comment |
| AddReview.AcceptedPayload | src/screens/AddReviewScreen.tsx:36-40 | an accepted payload has a non-empty trimmed author and comment and carries the rating, 1 to 5 for widget ratings |
| AddReview.PayloadBounds | src/screens/AddReviewScreen.tsx:97-115 | inputs within 50 and 500 characters give a payload within them |
| AddReview.Clip | src/screens/AddReviewScreen.tsx:97 | a `maxLength` input keeps the first `max` characters, or all of a text that fits |
| AddReview.RenderRatingStars | src/screens/AddReviewScreen.tsx:67-77 | five stars; star `i` is highlighted iff `i <= rating` |
| AddReview.CountHighlighted | src/screens/AddReviewScreen.tsx:72 | never more highlighted stars than stars |
| AddReview.HighlightedStars | src/screens/AddReviewScreen.tsx:69-72 | exactly `rating` stars are highlighted (none below 0, all above 5) |
| AddReview.ReviewForm.constructor | src/screens/AddReviewScreen.tsx:17-21 | empty author and comment, rating 0, not submitting |
| AddReview.ReviewForm.SetAuthor | src/screens/AddReviewScreen.tsx:92-98 | the stored author never exceeds 50 characters; it is the new text clipped to 50 characters |
| AddReview.ReviewForm.SetComment | src/screens/AddReviewScreen.tsx:107-116 | the stored comment never exceeds 500 characters; it is the new text clipped to 500 characters |
| AddReview.ReviewForm.PressStar | src/screens/AddReviewScreen.tsx:71 | star `i` sets the rating to `i`, so the rating stays within 0 to 5 |
| AddReview.ReviewForm.BeginSubmit | src/screens/AddReviewScreen.tsx:23-42 | the checks of `Validate` in order, with their error alerts; the flag is raised exactly when the payload goes out |
| AddReview.ReviewForm.FinishSubmit | src/screens/AddReviewScreen.tsx:44-64 | lowers the flag whatever the outcome; success alert, error alert, or none when the server answered without success |
| AddReview.ReviewForm.HandleSubmit | src/screens/AddReviewScreen.tsx:23-65 | nothing is sent when a check fails; otherwise the validated payload is sent, with a rating of 1 to 5 and an author and comment within 50 and 500 characters; the flag is down at the end |
| CatalogExamples.NewestKeepsTieOrder | src/screens/MovieListScreen.tsx:78-79 | movies of 2000, 2010, 2000 sorted newest first come out second, first, third |
| CatalogExamples.SortOfThree | src/screens/MovieListScreen.tsx:76 | the insertion sort of three movies with `b` before `a` and `c` after it |
| CatalogExamples.DramaMatchesCrimeDrama | src/screens/MovieListScreen.tsx:69-73 | the genre "Drama" keeps a movie whose genre field is "Crime, Drama" |
| CatalogExamples.ActionAdventureFacets | src/screens/MovieListScreen.tsx:28-32 | genre fields "Action, Adventure" and "Action" give the facets "Action" and "Adventure" once each |
| CatalogExamples.SearchAcrossFields | src/screens/MovieListScreen.tsx:60-66 | the query "lo" finds "Apollo" by its title and a film by "Lopez" by its director |

## Left out

- Rendering is not modelled: the movie cards, the result-count line, the "out of 5 stars" caption, the loading spinner and the empty-list text. The chip highlight is modelled as `ChipActive`.
- Navigation is not modelled: the movie detail screen, the review list, and `goBack` from the success alert's OK button or the Cancel button.
- The network is not modelled (`src/services/api.ts`). Each request's outcome is a parameter instead: `FetchOutcome` for `getMovies`, `SendOutcome` for `addReview`.
- Asynchrony is not modelled. A fetch is split at its `await` into `StartRefresh`/`FetchFinished`, and a submission into `BeginSubmit`/`FinishSubmit`. Interleavings of overlapping fetches are not explored: a late response simply overwrites the list, as in the source.
- Disabled buttons are modelled as preconditions. Submit and Cancel are disabled while submitting, so `BeginSubmit` requires the flag down.
- Cancel's navigation is not modelled.
- `console.error` logging is not modelled.
- MovieDetailScreen.tsx and ReviewListScreen.tsx are not part of this model. They only fetch and display.
- JsString.ToLower: lower-cases only the ASCII letters A-Z. JavaScript's full Unicode case mapping is not modelled.
- JsString.CompareStrings: compares titles by code point, lexicographically. The locale-aware collation of `localeCompare` (accents, case tiers) depends on the runtime's locale data. Only the laws the sort needs are proved: antisymmetry, transitivity, and zero iff equal.
- Strings are sequences of Unicode characters. JavaScript's UTF-16 code units are not modelled. This affects `length` (and `maxLength`) for characters outside the Basic Multilingual Plane.
- Movies.Compare: treats years as unbounded integers. JavaScript numbers are doubles, so this matches for every realistic year.
- The `default:` branch of the sort callback is unreachable, since `sortBy` is typed to the three modes. It is not modelled.
- `keyExtractor` and the React keys are not modelled.
- AddReview.Clip: models `maxLength` as keeping the first characters of the edited text. This matches the native input only for edits at the end of the text. A character typed into the middle of a full field is refused, and a paste into the middle keeps only the part that fits, at the cursor; Clip instead drops characters from the end. What the model guarantees is the limits: `|author| <= 50` and `|comment| <= 500` in every state (`ReviewForm.Valid`).
- AddReview.ReviewForm.SetAuthor: stores the clipped text, which is the platform's value only for edits at the end (see `AddReview.Clip`); the cursor position is not modelled.
- AddReview.ReviewForm.SetComment: the same as `SetAuthor`, with the limit 500.

