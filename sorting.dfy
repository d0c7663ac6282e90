/**
 * The sorting stage of `resolve_list_movies`:
 * `sorted(movies, key=lambda m: m.get(sortBy) or 0, reverse=...)`, a stable sort.
 */
module Sorting {
  import opened Wrappers
  import opened Movies

  /** The numeric fields `sortBy` can name; `ByUnknown` is a name no record carries. */
  datatype SortField = ByIds | ByYear | ByRuntime | ByRating | ByVotes | ByRevenue | ByUnknown

  function IntKey(v: Option<int>): real { if v.Some? then v.value as real else 0.0 }
  function RealKey(v: Option<real>): real { if v.Some? then v.value else 0.0 }

  /** `m.get(sortBy) or 0`: a missing or null field sorts as 0 (and 0 or 0.0 is 0 anyway). */
  function SortKey(m: Movie, f: SortField): real
  {
    match f
    case ByIds => IntKey(m.ids)
    case ByYear => IntKey(m.year)
    case ByRuntime => IntKey(m.runtime)
    case ByRating => RealKey(m.rating)
    case ByVotes => IntKey(m.votes)
    case ByRevenue => RealKey(m.revenue)
    case ByUnknown => 0.0
  }

  /** `a` must come strictly before `b`: a smaller key, or a larger one with `reverse=True`. */
  predicate Precedes(a: Movie, b: Movie, f: SortField, desc: bool)
  {
    if desc then SortKey(a, f) > SortKey(b, f) else SortKey(a, f) < SortKey(b, f)
  }

  /** `a` may stand before `b`: its key is not larger (not smaller when `desc`). */
  predicate InOrder(a: Movie, b: Movie, f: SortField, desc: bool)
  {
    if desc then SortKey(a, f) >= SortKey(b, f) else SortKey(a, f) <= SortKey(b, f)
  }

  /** Non-decreasing by key, or non-increasing when `desc`. */
  predicate Ordered(s: seq<Movie>, f: SortField, desc: bool)
  {
    forall i, j :: 0 <= i < j < |s| ==> InOrder(s[i], s[j], f, desc)
  }

  /** Puts `x` in front of the first element of `s` that does not strictly precede it. */
  function Insert(x: Movie, s: seq<Movie>, f: SortField, desc: bool): (r: seq<Movie>)
    ensures multiset(r) == multiset(s) + multiset{x}
  {
    if s == [] then [x]
    else if Precedes(s[0], x, f, desc) then
      assert s == [s[0]] + s[1..];
      [s[0]] + Insert(x, s[1..], f, desc)
    else [x] + s
  }

  /** Python's `sorted` with a key, stable in both directions. */
  function SortMovies(s: seq<Movie>, f: SortField, desc: bool): (r: seq<Movie>)
    ensures multiset(r) == multiset(s)
  {
    if s == [] then []
    else
      assert s == [s[0]] + s[1..];
      Insert(s[0], SortMovies(s[1..], f, desc), f, desc)
  }

  /** The elements of `s` whose key is `k`, in the order of `s`. */
  function Ties(s: seq<Movie>, f: SortField, k: real): seq<Movie>
  {
    if s == [] then []
    else (if SortKey(s[0], f) == k then [s[0]] else []) + Ties(s[1..], f, k)
  }

  lemma {:induction false} InsertOrdered(x: Movie, s: seq<Movie>, f: SortField, desc: bool)
    requires Ordered(s, f, desc)
    ensures Ordered(Insert(x, s, f, desc), f, desc)
  {
    if s != [] && Precedes(s[0], x, f, desc) {
      var t := Insert(x, s[1..], f, desc);
      InsertOrdered(x, s[1..], f, desc);
      forall y | y in t ensures InOrder(s[0], y, f, desc) {
        assert y in multiset(t);
        if y != x {
          assert y in multiset(s[1..]);
          var j :| 0 <= j < |s[1..]| && s[1..][j] == y;
          assert s[j + 1] == y;
        }
      }
      var r := [s[0]] + t;
      forall i, j | 0 <= i < j < |r| ensures InOrder(r[i], r[j], f, desc) {
        if i == 0 {
          assert r[j] == t[j - 1];
        } else {
          assert r[i] == t[i - 1] && r[j] == t[j - 1];
        }
      }
    } else if s != [] {
      var r := [x] + s;
      forall i, j | 0 <= i < j < |r| ensures InOrder(r[i], r[j], f, desc) {
        if i == 0 {
          assert r[j] == s[j - 1];
          assert InOrder(x, s[0], f, desc);
          if j - 1 > 0 { assert InOrder(s[0], s[j - 1], f, desc); }
        } else {
          assert r[i] == s[i - 1] && r[j] == s[j - 1];
        }
      }
    }
  }

  /** The sorted list is ordered by the key in the requested direction. */
  lemma {:induction false} SortOrdered(s: seq<Movie>, f: SortField, desc: bool)
    ensures Ordered(SortMovies(s, f, desc), f, desc)
  {
    if s != [] {
      SortOrdered(s[1..], f, desc);
      InsertOrdered(s[0], SortMovies(s[1..], f, desc), f, desc);
    }
  }

  lemma {:induction false} InsertTies(x: Movie, s: seq<Movie>, f: SortField, desc: bool, k: real)
    ensures Ties(Insert(x, s, f, desc), f, k) ==
            (if SortKey(x, f) == k then [x] else []) + Ties(s, f, k)
  {
    var own := if SortKey(x, f) == k then [x] else [];
    if s == [] {
      assert Ties([x], f, k) == own + Ties([], f, k);
    } else if Precedes(s[0], x, f, desc) {
      var t := Insert(x, s[1..], f, desc);
      var head := if SortKey(s[0], f) == k then [s[0]] else [];
      InsertTies(x, s[1..], f, desc, k);
      assert ([s[0]] + t)[0] == s[0] && ([s[0]] + t)[1..] == t;
      assert Ties([s[0]] + t, f, k) == head + Ties(t, f, k);
      assert Ties(s, f, k) == head + Ties(s[1..], f, k);
      assert SortKey(s[0], f) != SortKey(x, f);
      if SortKey(x, f) == k {
        assert head == [];
        assert head + (own + Ties(s[1..], f, k)) == own + Ties(s[1..], f, k);
      } else {
        assert own == [];
        assert own + Ties(s[1..], f, k) == Ties(s[1..], f, k);
        assert own + (head + Ties(s[1..], f, k)) == head + Ties(s[1..], f, k);
      }
    } else {
      assert ([x] + s)[0] == x && ([x] + s)[1..] == s;
    }
  }

  /** Stability: among records with equal keys the sorted list keeps the input order. */
  lemma {:induction false} SortStable(s: seq<Movie>, f: SortField, desc: bool, k: real)
    ensures Ties(SortMovies(s, f, desc), f, k) == Ties(s, f, k)
  {
    if s != [] {
      SortStable(s[1..], f, desc, k);
      InsertTies(s[0], SortMovies(s[1..], f, desc), f, desc, k);
    }
  }

  /** When every key is equal (an unknown `sortBy`), sorting changes nothing. */
  lemma {:induction false} SortUnknownIsIdentity(s: seq<Movie>, desc: bool)
    ensures SortMovies(s, ByUnknown, desc) == s
  {
    if s != [] {
      SortUnknownIsIdentity(s[1..], desc);
      var t := SortMovies(s[1..], ByUnknown, desc);
      assert t == s[1..];
      if t != [] {
        assert !Precedes(t[0], s[0], ByUnknown, desc);
      }
      assert [s[0]] + s[1..] == s;
    }
  }
}
