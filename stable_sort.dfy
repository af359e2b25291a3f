/**
 * What `filtered.sort(comparator)` produces.  ECMAScript requires
 * Array.prototype.sort to be stable (since the 2019 edition, section 23.1.3
 * of ECMA-262), so with a consistent comparator the result is the unique
 * ordering that is sorted and keeps tied movies in their input order.  It
 * is specified here by insertion sort, and that uniqueness is proved.
 */
module StableSort {
  import opened Movies
  import opened Seqs

  /** A sort callback: negative, zero or positive as its first argument
      goes before, ties with, or goes after its second. */
  type Comparator = (Movie, Movie) -> int

  /** ECMA-262 asks the callback to be a consistent comparator; these are
      the laws that make the sorted order well defined. */
  ghost predicate Consistent(cmp: Comparator) {
    && (forall a, b :: cmp(a, b) == -cmp(b, a))
    && (forall a, b, c :: cmp(a, b) <= 0 && cmp(b, c) <= 0 ==> cmp(a, c) <= 0)
    && (forall a, b, c :: cmp(a, b) == 0 ==> cmp(a, c) == cmp(b, c))
  }

  /** Every earlier movie goes no later than every later one. */
  ghost predicate SortedBy(cmp: Comparator, s: seq<Movie>) {
    forall i, j :: 0 <= i < j < |s| ==> cmp(s[i], s[j]) <= 0
  }

  function TiesWith(cmp: Comparator, p: Movie): Movie -> bool {
    x => cmp(x, p) == 0
  }

  /** The movies of `s` that tie with `p`, in their order in `s`. */
  function Ties(cmp: Comparator, s: seq<Movie>, p: Movie): seq<Movie> {
    Filter(TiesWith(cmp, p), s)
  }

  /** `r` keeps every group of tied movies of `s` in the order of `s`. */
  ghost predicate Stable(cmp: Comparator, s: seq<Movie>, r: seq<Movie>) {
    forall p :: Ties(cmp, r, p) == Ties(cmp, s, p)
  }

  /** Puts `x` after the last movie of `s` that goes no later than it. */
  function Insert(cmp: Comparator, s: seq<Movie>, x: Movie): (r: seq<Movie>)
    ensures |r| == |s| + 1
  {
    if s == [] || cmp(s[|s| - 1], x) <= 0 then s + [x]
    else Insert(cmp, s[..|s| - 1], x) + [s[|s| - 1]]
  }

  /** The sorted arrangement (see SortByPermutes, SortBySorted and
      SortByStable for what it is). */
  function SortBy(cmp: Comparator, s: seq<Movie>): (r: seq<Movie>)
    ensures |r| == |s|
  {
    if s == [] then []
    else Insert(cmp, SortBy(cmp, s[..|s| - 1]), s[|s| - 1])
  }

  /** Insertion adds exactly `x`. */
  lemma {:induction false} InsertPermutes(cmp: Comparator, s: seq<Movie>, x: Movie)
    ensures multiset(Insert(cmp, s, x)) == multiset(s) + multiset{x}
  {
    if s != [] {
      var init := s[..|s| - 1];
      assert s == init + [s[|s| - 1]];
      InsertPermutes(cmp, init, x);
    }
  }

  /** The sorted arrangement is a permutation of its input. */
  lemma {:induction false} SortByPermutes(cmp: Comparator, s: seq<Movie>)
    ensures multiset(SortBy(cmp, s)) == multiset(s)
  {
    if s != [] {
      var init := s[..|s| - 1];
      assert s == init + [s[|s| - 1]];
      SortByPermutes(cmp, init);
      InsertPermutes(cmp, SortBy(cmp, init), s[|s| - 1]);
    }
  }

  lemma Reflexive(cmp: Comparator, a: Movie)
    requires Consistent(cmp)
    ensures cmp(a, a) == 0
  {
    assert cmp(a, a) == -cmp(a, a);
  }

  // ---------------------------------------------------------------------
  // Ties
  // ---------------------------------------------------------------------

  lemma TiesConcat(cmp: Comparator, a: seq<Movie>, b: seq<Movie>, p: Movie)
    ensures Ties(cmp, a + b, p) == Ties(cmp, a, p) + Ties(cmp, b, p)
  {
    FilterConcat(TiesWith(cmp, p), a, b);
  }

  lemma TiesSingleton(cmp: Comparator, x: Movie, p: Movie)
    ensures Ties(cmp, [x], p) == if cmp(x, p) == 0 then [x] else []
  {
    assert [x][1..] == [];
  }

  lemma TiesCons(cmp: Comparator, s: seq<Movie>, p: Movie)
    requires s != []
    ensures Ties(cmp, s, p) == (if cmp(s[0], p) == 0 then [s[0]] else []) + Ties(cmp, s[1..], p)
  {
  }

  /** A movie always lies in its own group of ties. */
  lemma TiesOfMember(cmp: Comparator, s: seq<Movie>, k: nat)
    requires Consistent(cmp)
    requires k < |s|
    ensures s[k] in Ties(cmp, s, s[k])
  {
    Reflexive(cmp, s[k]);
    FilterMembers(TiesWith(cmp, s[k]), s);
  }

  // ---------------------------------------------------------------------
  // Insertion keeps order and ties
  // ---------------------------------------------------------------------

  /** Appending a movie that goes no earlier than all of `s` keeps order. */
  lemma SortedAppend(cmp: Comparator, s: seq<Movie>, x: Movie)
    requires SortedBy(cmp, s)
    requires forall i :: 0 <= i < |s| ==> cmp(s[i], x) <= 0
    ensures SortedBy(cmp, s + [x])
  {
  }

  /** Every movie of Insert(s, x) other than `x` comes from `s`. */
  lemma InsertFrom(cmp: Comparator, s: seq<Movie>, x: Movie, k: nat)
    requires k < |Insert(cmp, s, x)| && Insert(cmp, s, x)[k] != x
    ensures exists i :: 0 <= i < |s| && s[i] == Insert(cmp, s, x)[k]
  {
    var ins := Insert(cmp, s, x);
    InsertPermutes(cmp, s, x);
    assert ins[k] in multiset(ins);
    assert ins[k] in multiset(s);
  }

  lemma {:induction false} InsertSorted(cmp: Comparator, s: seq<Movie>, x: Movie)
    requires Consistent(cmp)
    requires SortedBy(cmp, s)
    ensures SortedBy(cmp, Insert(cmp, s, x))
  {
    if s != [] {
      var n := |s| - 1;
      var last, init := s[n], s[..n];
      if cmp(last, x) > 0 {
        InsertSorted(cmp, init, x);
        assert cmp(x, last) == -cmp(last, x);
        InsertBelow(cmp, init, x, last);
        SortedAppend(cmp, Insert(cmp, init, x), last);
      } else {
        forall i | 0 <= i < |s| ensures cmp(s[i], x) <= 0 {
          if i < n {
            assert cmp(s[i], last) <= 0;
          }
        }
        SortedAppend(cmp, s, x);
      }
    }
  }

  /** A movie that goes no earlier than all of `s` and than `x` goes no
      earlier than anything in Insert(s, x). */
  lemma InsertBelow(cmp: Comparator, s: seq<Movie>, x: Movie, y: Movie)
    requires forall i :: 0 <= i < |s| ==> cmp(s[i], y) <= 0
    requires cmp(x, y) <= 0
    ensures forall k :: 0 <= k < |Insert(cmp, s, x)| ==> cmp(Insert(cmp, s, x)[k], y) <= 0
  {
    var ins := Insert(cmp, s, x);
    forall k | 0 <= k < |ins| ensures cmp(ins[k], y) <= 0 {
      if ins[k] != x {
        InsertFrom(cmp, s, x, k);
      }
    }
  }

  lemma {:induction false} InsertTies(cmp: Comparator, s: seq<Movie>, x: Movie, p: Movie)
    requires Consistent(cmp)
    ensures Ties(cmp, Insert(cmp, s, x), p) == Ties(cmp, s, p) + Ties(cmp, [x], p)
  {
    if s == [] || cmp(s[|s| - 1], x) <= 0 {
      TiesConcat(cmp, s, [x], p);
    } else {
      var n := |s| - 1;
      var last, init := s[n], s[..n];
      assert s == init + [last];
      InsertTies(cmp, init, x, p);
      TiesConcat(cmp, Insert(cmp, init, x), [last], p);
      TiesConcat(cmp, init, [last], p);
      TiesSingleton(cmp, x, p);
      TiesSingleton(cmp, last, p);
      if cmp(last, p) == 0 {
        assert cmp(last, x) == cmp(p, x) == -cmp(x, p);
      }
    }
  }

  // ---------------------------------------------------------------------
  // What SortBy is: it sorts, it is stable, and it is the only stable
  // sort
  // ---------------------------------------------------------------------

  /** The sorted arrangement is in order. */
  lemma {:induction false} SortBySorted(cmp: Comparator, s: seq<Movie>)
    requires Consistent(cmp)
    ensures SortedBy(cmp, SortBy(cmp, s))
  {
    if s != [] {
      SortBySorted(cmp, s[..|s| - 1]);
      InsertSorted(cmp, SortBy(cmp, s[..|s| - 1]), s[|s| - 1]);
    }
  }

  /** Tied movies keep their relative input order. */
  lemma {:induction false} SortByTies(cmp: Comparator, s: seq<Movie>, p: Movie)
    requires Consistent(cmp)
    ensures Ties(cmp, SortBy(cmp, s), p) == Ties(cmp, s, p)
  {
    if s != [] {
      var n := |s| - 1;
      assert s == s[..n] + [s[n]];
      SortByTies(cmp, s[..n], p);
      InsertTies(cmp, SortBy(cmp, s[..n]), s[n], p);
      TiesConcat(cmp, s[..n], [s[n]], p);
    }
  }

  lemma SortByStable(cmp: Comparator, s: seq<Movie>)
    requires Consistent(cmp)
    ensures Stable(cmp, s, SortBy(cmp, s))
  {
    forall p ensures Ties(cmp, SortBy(cmp, s), p) == Ties(cmp, s, p) {
      SortByTies(cmp, s, p);
    }
  }

  /** The first movie of a sorted sequence goes no later than any of its movies. */
  lemma SortedHeadFirst(cmp: Comparator, s: seq<Movie>, x: Movie)
    requires Consistent(cmp)
    requires SortedBy(cmp, s) && x in s
    ensures cmp(s[0], x) <= 0
  {
    var k :| 0 <= k < |s| && s[k] == x;
    if k == 0 {
      Reflexive(cmp, x);
    }
  }

  /** A movie of a sequence with the same ties as `r` is a movie of `r`. */
  lemma SameTiesMember(cmp: Comparator, r: seq<Movie>, t: seq<Movie>, k: nat)
    requires Consistent(cmp)
    requires k < |t| && Ties(cmp, r, t[k]) == Ties(cmp, t, t[k])
    ensures t[k] in r
  {
    TiesOfMember(cmp, t, k);
    FilterMembers(TiesWith(cmp, t[k]), r);
  }

  /** Sorted sequences with the same ties start with the same movie. */
  lemma SameTiesHead(cmp: Comparator, r: seq<Movie>, t: seq<Movie>)
    requires Consistent(cmp)
    requires r != [] && t != [] && SortedBy(cmp, r) && SortedBy(cmp, t)
    requires Ties(cmp, r, r[0]) == Ties(cmp, t, r[0])
    requires Ties(cmp, r, t[0]) == Ties(cmp, t, t[0])
    ensures r[0] == t[0]
  {
    var a, b := r[0], t[0];
    SameTiesMember(cmp, t, r, 0);
    SameTiesMember(cmp, r, t, 0);
    SortedHeadFirst(cmp, r, b);
    SortedHeadFirst(cmp, t, a);
    assert cmp(a, b) == -cmp(b, a);
    Reflexive(cmp, a);
    TiesCons(cmp, r, a);
    TiesCons(cmp, t, a);
    assert Ties(cmp, r, a)[0] == a && Ties(cmp, t, a)[0] == b;
  }

  /** Dropping a common first movie keeps the ties equal. */
  lemma SameTiesTail(cmp: Comparator, r: seq<Movie>, t: seq<Movie>, p: Movie)
    requires r != [] && t != [] && r[0] == t[0]
    requires Ties(cmp, r, p) == Ties(cmp, t, p)
    ensures Ties(cmp, r[1..], p) == Ties(cmp, t[1..], p)
  {
    TiesCons(cmp, r, p);
    TiesCons(cmp, t, p);
    var h := if cmp(r[0], p) == 0 then [r[0]] else [];
    assert Ties(cmp, r[1..], p) == Ties(cmp, r, p)[|h|..];
    assert Ties(cmp, t[1..], p) == Ties(cmp, t, p)[|h|..];
  }

  /** Two sorted sequences with the same groups of ties, in the same
      orders, are equal. */
  lemma {:induction false} SortedUnique(cmp: Comparator, r: seq<Movie>, t: seq<Movie>)
    requires Consistent(cmp)
    requires SortedBy(cmp, r) && SortedBy(cmp, t)
    requires forall p :: Ties(cmp, r, p) == Ties(cmp, t, p)
    ensures r == t
  {
    if r != [] {
      SameTiesMember(cmp, t, r, 0);
    }
    if t != [] {
      SameTiesMember(cmp, r, t, 0);
    }
    if r != [] && t != [] {
      SameTiesHead(cmp, r, t);
      forall p ensures Ties(cmp, r[1..], p) == Ties(cmp, t[1..], p) {
        SameTiesTail(cmp, r, t, p);
      }
      SortedUnique(cmp, r[1..], t[1..]);
      assert r == [r[0]] + r[1..] && t == [t[0]] + t[1..];
    }
  }

  /** Any sorted, stable rearrangement of `s` is SortBy(s): whichever stable
      algorithm the JavaScript engine runs, its result is this one. */
  lemma StableSortIsSortBy(cmp: Comparator, s: seq<Movie>, r: seq<Movie>)
    requires Consistent(cmp)
    requires SortedBy(cmp, r) && Stable(cmp, s, r)
    ensures r == SortBy(cmp, s)
  {
    SortBySorted(cmp, s);
    SortByStable(cmp, s);
    SortedUnique(cmp, r, SortBy(cmp, s));
  }

  /** Sorting a sequence that is already in order changes nothing. */
  lemma SortByOfSorted(cmp: Comparator, s: seq<Movie>)
    requires Consistent(cmp)
    requires SortedBy(cmp, s)
    ensures SortBy(cmp, s) == s
  {
    StableSortIsSortBy(cmp, s, s);
  }
}
