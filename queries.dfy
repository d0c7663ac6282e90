/** The two query resolvers, `listMovies` and `getMovie`, as functions of the store. */
module Queries {
  import opened Wrappers
  import opened Text
  import opened Movies
  import opened Filters
  import opened Sorting

  /** `order and order.upper() == "DESC"`; the resolver's default `order` is "ASC". */
  predicate Descending(order: Option<string>)
  {
    order.Some? && Upper(order.value) == "DESC"
  }

  /** Any spelling of "desc" in any mix of cases, and nothing else, asks for descending order. */
  lemma DescendingIff(o: string)
    ensures Descending(Some(o)) <==>
            |o| == 4 && o[0] in "dD" && o[1] in "eE" && o[2] in "sS" && o[3] in "cC"
  {
  }

  /** The records that survive the filter stage (all of them when there is no filter). */
  function Matching(db: seq<Movie>, filter: Option<MovieFilter>): seq<Movie>
  {
    if filter.Some? then ApplyFilter(db, filter.value) else db
  }

  /**
   * `resolve_list_movies`: filter, then optionally sort, then replace an empty
   * result by the placeholder. `limit` is accepted and ignored.
   */
  function ListMovies(db: seq<Movie>, filter: Option<MovieFilter>, limit: Option<int>,
                      sortBy: Option<SortField>, order: Option<string>): (r: seq<Movie>)
    ensures r != []
  {
    var filtered := Matching(db, filter);
    var sorted := if sortBy.Some? then SortMovies(filtered, sortBy.value, Descending(order)) else filtered;
    if sorted == [] then [NoMoviesFound] else sorted
  }

  /** Without a filter every record matches. */
  lemma {:induction false} NoFilterMatchesAll(db: seq<Movie>, f: MovieFilter)
    requires Predicates(f) == []
    ensures Matching(db, Some(f)) == db
  {
  }

  /** The store records that pass the filter are exactly those satisfying every present condition, in store order. */
  lemma MatchingSpec(db: seq<Movie>, filter: Option<MovieFilter>)
    ensures IsSubsequence(Matching(db, filter), db)
    ensures forall m :: m in Matching(db, filter) <==> m in db && (filter.Some? ==> Matches(filter.value, m))
  {
    if filter.Some? {
      ApplyFilterSpec(db, filter.value);
    } else {
      SubsequenceOfItself(db);
    }
  }

  lemma {:induction false} SubsequenceOfItself(s: seq<Movie>)
    ensures IsSubsequence(s, s)
  {
    if s != [] {
      SubsequenceOfItself(s[1..]);
    }
  }

  /** When no record passes the filter, the answer is the one placeholder record, never an empty list. */
  lemma ListEmpty(db: seq<Movie>, f: MovieFilter, limit: Option<int>,
                  sortBy: Option<SortField>, order: Option<string>)
    requires forall m :: m in db ==> !Matches(f, m)
    ensures ListMovies(db, Some(f), limit, sortBy, order) == [NoMoviesFound]
  {
    ApplyFilterSpec(db, f);
    forall m | m in db ensures !AllHold(Predicates(f), m) {
      PredicatesMeanMatches(f, m);
    }
    FilteredNone(db, Predicates(f));
  }

  /** An empty store lists as the placeholder whatever the arguments. */
  lemma ListEmptyStore(filter: Option<MovieFilter>, limit: Option<int>,
                       sortBy: Option<SortField>, order: Option<string>)
    ensures ListMovies([], filter, limit, sortBy, order) == [NoMoviesFound]
  {
    if filter.Some? {
      ApplyFilterSpec([], filter.value);
    }
  }

  /**
   * Unsorted: the answer is the filtered store, a subsequence of the store in
   * store order holding exactly the records that satisfy the filter.
   */
  lemma ListUnsorted(db: seq<Movie>, filter: Option<MovieFilter>, limit: Option<int>, order: Option<string>)
    requires Matching(db, filter) != []
    ensures ListMovies(db, filter, limit, None, order) == Matching(db, filter)
    ensures IsSubsequence(ListMovies(db, filter, limit, None, order), db)
    ensures forall m :: m in ListMovies(db, filter, limit, None, order) <==>
                        m in db && (filter.Some? ==> Matches(filter.value, m))
  {
    MatchingSpec(db, filter);
  }

  /**
   * Sorted: the answer is a permutation of the filtered store, ordered by the
   * key in the requested direction, and records with equal keys keep their
   * filtered order.
   */
  lemma ListSorted(db: seq<Movie>, filter: Option<MovieFilter>, limit: Option<int>,
                   field: SortField, order: Option<string>)
    requires Matching(db, filter) != []
    ensures var r := ListMovies(db, filter, limit, Some(field), order);
      && multiset(r) == multiset(Matching(db, filter))
      && Ordered(r, field, Descending(order))
      && forall k :: Ties(r, field, k) == Ties(Matching(db, filter), field, k)
  {
    var filtered := Matching(db, filter);
    var sorted := SortMovies(filtered, field, Descending(order));
    assert |sorted| == |filtered| by {
      assert |multiset(sorted)| == |multiset(filtered)|;
    }
    SortOrdered(filtered, field, Descending(order));
    forall k ensures Ties(sorted, field, k) == Ties(filtered, field, k) {
      SortStable(filtered, field, Descending(order), k);
    }
  }

  /** Every record of the answer is the placeholder or a store record satisfying every present condition. */
  lemma ListSound(db: seq<Movie>, filter: Option<MovieFilter>, limit: Option<int>,
                  sortBy: Option<SortField>, order: Option<string>)
    ensures forall m :: m in ListMovies(db, filter, limit, sortBy, order) ==>
      m == NoMoviesFound || (m in db && (filter.Some? ==> Matches(filter.value, m)))
  {
    MatchingSpec(db, filter);
    var filtered := Matching(db, filter);
    if sortBy.Some? {
      var sorted := SortMovies(filtered, sortBy.value, Descending(order));
      forall m | m in sorted ensures m in filtered {
        assert m in multiset(sorted);
      }
    }
  }

  /** `limit` has no effect: its truncation is commented out. */
  lemma LimitIgnored(db: seq<Movie>, filter: Option<MovieFilter>, a: Option<int>, b: Option<int>,
                     sortBy: Option<SortField>, order: Option<string>)
    ensures ListMovies(db, filter, a, sortBy, order) == ListMovies(db, filter, b, sortBy, order)
  {
  }

  /** The index of the record that the `next(...)` at backend/app.py:153 and 170 finds: the first whose title matches. */
  function FirstMatch(db: seq<Movie>, title: string): (r: Option<nat>)
    ensures r.Some? ==> r.value < |db| && TitleMatches(db[r.value], title)
    ensures r.Some? ==> forall j :: 0 <= j < r.value ==> !TitleMatches(db[j], title)
    ensures r.None? ==> forall j :: 0 <= j < |db| ==> !TitleMatches(db[j], title)
  {
    if db == [] then None
    else if TitleMatches(db[0], title) then Some(0)
    else match FirstMatch(db[1..], title)
      case None => None
      case Some(i) => Some(i + 1)
  }

  /** `resolve_get_movie`: the first record with the title, or the "No movie found" placeholder. */
  function GetMovie(db: seq<Movie>, title: string): (r: Movie)
    ensures (exists i :: 0 <= i < |db| && TitleMatches(db[i], title)) ==>
      exists i :: 0 <= i < |db| && r == db[i] && TitleMatches(db[i], title) &&
        forall j :: 0 <= j < i ==> !TitleMatches(db[j], title)
    ensures (forall i :: 0 <= i < |db| ==> !TitleMatches(db[i], title)) ==> r == NoMovieFound(title)
  {
    match FirstMatch(db, title)
    case Some(i) => db[i]
    case None => NoMovieFound(title)
  }

  /** The record of a one-record store holding Inception. */
  function Inception(): Movie
  {
    Movie(Some(1), "Inception", None, None, None, None, Some(2010), None, Some(8.8), None, None)
  }

  function RatingFilter(r: real): MovieFilter
  {
    MovieFilter(None, Some(r), None, None, None, None, None, None, None, None)
  }

  /** A rating threshold of 8.0 keeps Inception and one of 9.0 yields the placeholder. */
  lemma InceptionByRating()
    ensures ListMovies([Inception()], Some(RatingFilter(8.0)), None, None, None) == [Inception()]
    ensures ListMovies([Inception()], Some(RatingFilter(9.0)), None, None, None) == [NoMoviesFound]
  {
  }
}
