/**
 * The filter stage of `resolve_list_movies`: every key present in `filter`
 * narrows the list by one list comprehension, in a fixed order.
 */
module Filters {
  import opened Wrappers
  import opened Text
  import opened Movies

  /** `MovieFilterInput`; `None` is a key absent from the filter dictionary. */
  datatype MovieFilter = MovieFilter(
    titleContains: Option<string>,
    minRating: Option<real>,
    minYear: Option<int>,
    maxYear: Option<int>,
    exactYear: Option<int>,
    genreContains: Option<string>,
    directorContains: Option<string>,
    actorContains: Option<string>,
    minRuntime: Option<int>,
    maxRuntime: Option<int>)

  /** One list comprehension of the filter stage. */
  datatype Predicate =
    | TitleIs(term: string)
    | MinRating(rating: real)
    | MinYear(year: int)
    | MaxYear(year: int)
    | ExactYear(year: int)
    | MinRuntime(runtime: int)
    | MaxRuntime(runtime: int)
    | GenreHas(term: string)
    | DirectorHas(term: string)
    | ActorsHas(term: string)

  // The guard `m.get(X) and ...` fails on a missing key, on None and on a falsy
  // value (the empty string, 0 or 0.0).

  /** `m.get("Title") and m["Title"].lower() == term`: equality, not containment. */
  predicate TitleEquals(m: Movie, term: string)
  {
    m.title != [] && Lower(m.title) == Lower(term)
  }

  /** `m.get(X) and term in m[X].lower()`. */
  predicate TextHas(field: Option<string>, term: string)
  {
    field.Some? && field.value != [] && Contains(Lower(field.value), Lower(term))
  }

  /** `m.get(X) and m[X] >= bound` for an integer field. */
  predicate IntAtLeast(field: Option<int>, bound: int)
  {
    field.Some? && field.value != 0 && field.value >= bound
  }

  /** `m.get(X) and m[X] <= bound` for an integer field. */
  predicate IntAtMost(field: Option<int>, bound: int)
  {
    field.Some? && field.value != 0 && field.value <= bound
  }

  /** `m.get("Rating") and m["Rating"] >= bound`. */
  predicate RealAtLeast(field: Option<real>, bound: real)
  {
    field.Some? && field.value != 0.0 && field.value >= bound
  }

  /** The condition of the comprehension for predicate `p`. */
  predicate Holds(p: Predicate, m: Movie)
  {
    match p
    case TitleIs(t) => TitleEquals(m, t)
    case MinRating(r) => RealAtLeast(m.rating, r)
    case MinYear(y) => IntAtLeast(m.year, y)
    case MaxYear(y) => IntAtMost(m.year, y)
    case ExactYear(y) => m.year == Some(y)
    case MinRuntime(n) => IntAtLeast(m.runtime, n)
    case MaxRuntime(n) => IntAtMost(m.runtime, n)
    case GenreHas(t) => TextHas(m.genre, t)
    case DirectorHas(t) => TextHas(m.director, t)
    case ActorsHas(t) => TextHas(m.actors, t)
  }

  // One stage per filter key: the comprehension it adds, if the key is present.
  function TitleStage(f: MovieFilter): seq<Predicate> { if f.titleContains.Some? then [TitleIs(f.titleContains.value)] else [] }
  function MinRatingStage(f: MovieFilter): seq<Predicate> { if f.minRating.Some? then [MinRating(f.minRating.value)] else [] }
  function MinYearStage(f: MovieFilter): seq<Predicate> { if f.minYear.Some? then [MinYear(f.minYear.value)] else [] }
  function MaxYearStage(f: MovieFilter): seq<Predicate> { if f.maxYear.Some? then [MaxYear(f.maxYear.value)] else [] }
  function ExactYearStage(f: MovieFilter): seq<Predicate> { if f.exactYear.Some? then [ExactYear(f.exactYear.value)] else [] }
  function MinRuntimeStage(f: MovieFilter): seq<Predicate> { if f.minRuntime.Some? then [MinRuntime(f.minRuntime.value)] else [] }
  function MaxRuntimeStage(f: MovieFilter): seq<Predicate> { if f.maxRuntime.Some? then [MaxRuntime(f.maxRuntime.value)] else [] }
  function GenreStage(f: MovieFilter): seq<Predicate> { if f.genreContains.Some? then [GenreHas(f.genreContains.value)] else [] }
  function DirectorStage(f: MovieFilter): seq<Predicate> { if f.directorContains.Some? then [DirectorHas(f.directorContains.value)] else [] }
  function ActorStage(f: MovieFilter): seq<Predicate> { if f.actorContains.Some? then [ActorsHas(f.actorContains.value)] else [] }

  /** The comprehensions `resolve_list_movies` applies for `f`, in the order it applies them. */
  function Predicates(f: MovieFilter): seq<Predicate>
  {
    TitleStage(f) + (MinRatingStage(f) + (MinYearStage(f) + (MaxYearStage(f) + (ExactYearStage(f) + (MinRuntimeStage(f) + (MaxRuntimeStage(f) + (GenreStage(f) + (DirectorStage(f) + (ActorStage(f))))))))))
  }

  /** One comprehension `[m for m in s if <p>]`. */
  function Keep(s: seq<Movie>, p: Predicate): (r: seq<Movie>)
    ensures forall m :: m in r <==> m in s && Holds(p, m)
    ensures IsSubsequence(r, s)
  {
    if s == [] then []
    else if Holds(p, s[0]) then [s[0]] + Keep(s[1..], p)
    else Keep(s[1..], p)
  }

  /** The comprehensions applied one after another, as the resolver does. */
  function Chain(s: seq<Movie>, ps: seq<Predicate>): seq<Movie>
    decreases ps
  {
    if ps == [] then s else Chain(Keep(s, ps[0]), ps[1..])
  }

  /** The filter stage (backend/app.py:111-135) for a given filter. */
  function ApplyFilter(s: seq<Movie>, f: MovieFilter): seq<Movie>
  {
    Chain(s, Predicates(f))
  }

  /** Every predicate of `ps` holds of `m`. */
  predicate AllHold(ps: seq<Predicate>, m: Movie)
  {
    ps == [] || (Holds(ps[0], m) && AllHold(ps[1..], m))
  }

  /** Reference definition: the records of `s` that satisfy every predicate, in the order of `s`. */
  function Filtered(s: seq<Movie>, ps: seq<Predicate>): (r: seq<Movie>)
    ensures forall m :: m in r <==> m in s && AllHold(ps, m)
    ensures IsSubsequence(r, s)
    ensures |r| <= |s|
  {
    if s == [] then []
    else if AllHold(ps, s[0]) then [s[0]] + Filtered(s[1..], ps)
    else Filtered(s[1..], ps)
  }

  // The condition each filter key imposes when it is present.
  predicate TitleOk(f: MovieFilter, m: Movie) { f.titleContains.Some? ==> TitleEquals(m, f.titleContains.value) }
  predicate MinRatingOk(f: MovieFilter, m: Movie) { f.minRating.Some? ==> RealAtLeast(m.rating, f.minRating.value) }
  predicate MinYearOk(f: MovieFilter, m: Movie) { f.minYear.Some? ==> IntAtLeast(m.year, f.minYear.value) }
  predicate MaxYearOk(f: MovieFilter, m: Movie) { f.maxYear.Some? ==> IntAtMost(m.year, f.maxYear.value) }
  predicate ExactYearOk(f: MovieFilter, m: Movie) { f.exactYear.Some? ==> m.year == f.exactYear }
  predicate MinRuntimeOk(f: MovieFilter, m: Movie) { f.minRuntime.Some? ==> IntAtLeast(m.runtime, f.minRuntime.value) }
  predicate MaxRuntimeOk(f: MovieFilter, m: Movie) { f.maxRuntime.Some? ==> IntAtMost(m.runtime, f.maxRuntime.value) }
  predicate GenreOk(f: MovieFilter, m: Movie) { f.genreContains.Some? ==> TextHas(m.genre, f.genreContains.value) }
  predicate DirectorOk(f: MovieFilter, m: Movie) { f.directorContains.Some? ==> TextHas(m.director, f.directorContains.value) }
  predicate ActorOk(f: MovieFilter, m: Movie) { f.actorContains.Some? ==> TextHas(m.actors, f.actorContains.value) }

  /** Reference definition of a filter: every condition whose key is present holds. */
  predicate Matches(f: MovieFilter, m: Movie)
  {
    TitleOk(f, m) && MinRatingOk(f, m) && MinYearOk(f, m) && MaxYearOk(f, m) && ExactYearOk(f, m) &&
    MinRuntimeOk(f, m) && MaxRuntimeOk(f, m) && GenreOk(f, m) && DirectorOk(f, m) && ActorOk(f, m)
  }

  /** Filtering by `p` and then by `ps` keeps what filtering by all of `[p] + ps` keeps. */
  lemma {:induction false} KeepThenFiltered(s: seq<Movie>, p: Predicate, ps: seq<Predicate>)
    ensures Filtered(Keep(s, p), ps) == Filtered(s, [p] + ps)
  {
    if s != [] {
      KeepThenFiltered(s[1..], p, ps);
      AllHoldCons([p], ps, s[0]);
    }
  }

  /** The chain of comprehensions is their conjunction. */
  lemma {:induction false} ChainIsConjunction(s: seq<Movie>, ps: seq<Predicate>)
    ensures Chain(s, ps) == Filtered(s, ps)
    decreases ps
  {
    if ps == [] {
      FilteredNothing(s);
    } else {
      ChainIsConjunction(Keep(s, ps[0]), ps[1..]);
      KeepThenFiltered(s, ps[0], ps[1..]);
      assert [ps[0]] + ps[1..] == ps;
    }
  }

  /** A list none of whose records satisfies `ps` filters to nothing. */
  lemma {:induction false} FilteredNone(s: seq<Movie>, ps: seq<Predicate>)
    requires forall m :: m in s ==> !AllHold(ps, m)
    ensures Filtered(s, ps) == []
  {
    if s != [] {
      assert s[0] in s;
      assert forall m :: m in s[1..] ==> m in s;
      FilteredNone(s[1..], ps);
    }
  }

  /** With no predicate every record is kept. */
  lemma {:induction false} FilteredNothing(s: seq<Movie>)
    ensures Filtered(s, []) == s
  {
    if s != [] {
      FilteredNothing(s[1..]);
    }
  }

  /** A list of at most one predicate in front of `rest`. */
  lemma AllHoldCons(o: seq<Predicate>, rest: seq<Predicate>, m: Movie)
    requires |o| <= 1
    ensures AllHold(o + rest, m) <==> (o != [] ==> Holds(o[0], m)) && AllHold(rest, m)
  {
    if o != [] {
      assert (o + rest)[1..] == rest;
    } else {
      assert o + rest == rest;
    }
  }

  /** The last five stages of `Predicates`. */
  lemma LaterStagesMeanMatches(f: MovieFilter, m: Movie)
    ensures AllHold(MinRuntimeStage(f) + (MaxRuntimeStage(f) + (GenreStage(f) + (DirectorStage(f) + (ActorStage(f))))), m) <==>
            MinRuntimeOk(f, m) && MaxRuntimeOk(f, m) && GenreOk(f, m) && DirectorOk(f, m) && ActorOk(f, m)
  {
    var t9 := ActorStage(f);
    assert AllHold(t9, m) <==> ActorOk(f, m) by {
      AllHoldCons(t9, [], m);
      assert t9 + [] == t9;
    }
    var t8 := DirectorStage(f) + t9;
    assert AllHold(t8, m) <==> DirectorOk(f, m) && AllHold(t9, m) by {
      AllHoldCons(DirectorStage(f), t9, m);
    }
    var t7 := GenreStage(f) + t8;
    assert AllHold(t7, m) <==> GenreOk(f, m) && AllHold(t8, m) by {
      AllHoldCons(GenreStage(f), t8, m);
    }
    var t6 := MaxRuntimeStage(f) + t7;
    assert AllHold(t6, m) <==> MaxRuntimeOk(f, m) && AllHold(t7, m) by {
      AllHoldCons(MaxRuntimeStage(f), t7, m);
    }
    var t5 := MinRuntimeStage(f) + t6;
    assert AllHold(t5, m) <==> MinRuntimeOk(f, m) && AllHold(t6, m) by {
      AllHoldCons(MinRuntimeStage(f), t6, m);
    }
  }

  /** The predicates generated from `f` hold of `m` exactly when `m` matches `f`. */
  lemma PredicatesMeanMatches(f: MovieFilter, m: Movie)
    ensures AllHold(Predicates(f), m) <==> Matches(f, m)
  {
    var t5 := MinRuntimeStage(f) + (MaxRuntimeStage(f) + (GenreStage(f) + (DirectorStage(f) + (ActorStage(f)))));
    LaterStagesMeanMatches(f, m);
    var t4 := ExactYearStage(f) + t5;
    assert AllHold(t4, m) <==> ExactYearOk(f, m) && AllHold(t5, m) by {
      AllHoldCons(ExactYearStage(f), t5, m);
    }
    var t3 := MaxYearStage(f) + t4;
    assert AllHold(t3, m) <==> MaxYearOk(f, m) && AllHold(t4, m) by {
      AllHoldCons(MaxYearStage(f), t4, m);
    }
    var t2 := MinYearStage(f) + t3;
    assert AllHold(t2, m) <==> MinYearOk(f, m) && AllHold(t3, m) by {
      AllHoldCons(MinYearStage(f), t3, m);
    }
    var t1 := MinRatingStage(f) + t2;
    assert AllHold(t1, m) <==> MinRatingOk(f, m) && AllHold(t2, m) by {
      AllHoldCons(MinRatingStage(f), t2, m);
    }
    var t0 := TitleStage(f) + t1;
    assert AllHold(t0, m) <==> TitleOk(f, m) && AllHold(t1, m) by {
      AllHoldCons(TitleStage(f), t1, m);
    }
  }

  /**
   * The filter stage keeps exactly the records that satisfy every present
   * condition, as a subsequence of its input.
   */
  lemma ApplyFilterSpec(s: seq<Movie>, f: MovieFilter)
    ensures ApplyFilter(s, f) == Filtered(s, Predicates(f))
    ensures IsSubsequence(ApplyFilter(s, f), s)
    ensures forall m :: m in ApplyFilter(s, f) <==> m in s && Matches(f, m)
  {
    ChainIsConjunction(s, Predicates(f));
    forall m ensures AllHold(Predicates(f), m) <==> Matches(f, m) {
      PredicatesMeanMatches(f, m);
    }
  }

  /**
   * A numeric threshold rejects a record whose field is missing or zero, and a
   * text condition one whose field is missing or empty, whatever the bound.
   */
  lemma FalsyFieldsExcluded(f: MovieFilter, m: Movie)
    ensures (f.minRating.Some? && (m.rating.None? || m.rating == Some(0.0))) ==> !Matches(f, m)
    ensures ((f.minYear.Some? || f.maxYear.Some?) && (m.year.None? || m.year == Some(0))) ==> !Matches(f, m)
    ensures ((f.minRuntime.Some? || f.maxRuntime.Some?) && (m.runtime.None? || m.runtime == Some(0))) ==> !Matches(f, m)
    ensures (f.genreContains.Some? && (m.genre.None? || m.genre == Some([]))) ==> !Matches(f, m)
    ensures (f.directorContains.Some? && (m.director.None? || m.director == Some([]))) ==> !Matches(f, m)
    ensures (f.actorContains.Some? && (m.actors.None? || m.actors == Some([]))) ==> !Matches(f, m)
    ensures (f.titleContains.Some? && m.title == []) ==> !Matches(f, m)
  {
  }

  /** `titleContains` compares whole titles: a term that occurs inside the title does not match it. */
  lemma TitleFilterIsEquality()
    ensures Contains(Lower("ab"), Lower("a"))
    ensures !Holds(TitleIs("a"), Movie(Some(1), "ab", None, None, None, None, None, None, None, None, None))
  {
  }
}
