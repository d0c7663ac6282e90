/**
 * What the three mutation resolvers compute, as functions of the store they
 * read: the identifier `createMovie` assigns, the record `updateMovie` writes
 * back and the list `deleteMovie` keeps.
 */
module Mutations {
  import opened Wrappers
  import opened Text
  import opened Movies
  import opened Queries

  /** Some record of `db` has `title`, ignoring case. */
  predicate HasTitle(db: seq<Movie>, title: string)
  {
    exists i :: 0 <= i < |db| && TitleMatches(db[i], title)
  }

  function Max(a: int, b: int): int { if a < b then b else a }

  /**
   * `max([m['Ids'] for m in db]) + 1 if db else 1`; `None` when some record has
   * no integer `Ids`, on which Python raises.
   */
  function NextId(db: seq<Movie>): (r: Option<int>)
    ensures r.None? <==> exists i :: 0 <= i < |db| && db[i].ids.None?
    ensures r.Some? ==> forall i :: 0 <= i < |db| ==> db[i].ids.value < r.value
    ensures r.Some? && db != [] ==> exists i :: 0 <= i < |db| && db[i].ids == Some(r.value - 1)
    ensures db == [] ==> r == Some(1)
  {
    if db == [] then Some(1)
    else if db[0].ids.None? then None
    else if |db| == 1 then Some(db[0].ids.value + 1)
    else match NextId(db[1..])
      case None => None
      case Some(n) => Some(Max(db[0].ids.value + 1, n))
  }

  /** `{**input, "Ids": id}`. */
  function WithId(input: MovieInput, id: int): Movie
  {
    Movie(Some(id), input.title, input.genre, input.description, input.director, input.actors,
          input.year, input.runtime, input.rating, input.votes, input.revenue)
  }

  /** The record `resolve_create_movie` appends, or the exception it raises. */
  function Create(db: seq<Movie>, input: MovieInput): Result<Movie, Error>
  {
    if HasTitle(db, input.title) then Err(DuplicateTitle(input.title))
    else match NextId(db)
      case None => Err(MissingId)
      case Some(id) => Ok(WithId(input, id))
  }

  /**
   * A duplicate title (in any case) is refused; otherwise the new record is
   * the input with an identifier larger than every identifier in the store,
   * and 1 in an empty store.
   */
  lemma CreateSpec(db: seq<Movie>, input: MovieInput)
    ensures HasTitle(db, input.title) <==> Create(db, input) == Err(DuplicateTitle(input.title))
    ensures !HasTitle(db, input.title) ==>
            (Create(db, input).Err? <==> exists i :: 0 <= i < |db| && db[i].ids.None?)
    ensures Create(db, input).Ok? ==>
      var m := Create(db, input).value;
      && m.ids.Some?
      && m.title == input.title && m.genre == input.genre && m.description == input.description
      && m.director == input.director && m.actors == input.actors && m.year == input.year
      && m.runtime == input.runtime && m.rating == input.rating && m.votes == input.votes
      && m.revenue == input.revenue
      && (forall i :: 0 <= i < |db| ==> db[i].ids.Some? && db[i].ids.value < m.ids.value)
      && (db == [] ==> m.ids == Some(1))
  {
  }

  /** No two records share an identifier. */
  predicate IdsDistinct(db: seq<Movie>)
  {
    forall i, j :: 0 <= i < j < |db| ==> db[i].ids != db[j].ids
  }

  /** Appending the created record keeps the identifiers distinct. */
  lemma CreateKeepsIdsDistinct(db: seq<Movie>, input: MovieInput)
    requires IdsDistinct(db)
    requires Create(db, input).Ok?
    ensures IdsDistinct(db + [Create(db, input).value])
  {
  }

  /** After a successful create, looking the title up in any case finds the new record. */
  lemma CreateThenGet(db: seq<Movie>, input: MovieInput, title: string)
    requires Create(db, input).Ok?
    requires Lower(title) == Lower(input.title)
    ensures GetMovie(db + [Create(db, input).value], title) == Create(db, input).value
  {
    var m := Create(db, input).value;
    var db' := db + [m];
    assert TitleMatches(db'[|db|], title);
    forall j | 0 <= j < |db| ensures !TitleMatches(db'[j], title) {
      assert db'[j] == db[j];
      assert !TitleMatches(db[j], input.title);
    }
  }

  /** A second create with the same title, in any case, is refused. */
  lemma CreateTwiceFails(db: seq<Movie>, input: MovieInput, again: MovieInput)
    requires Create(db, input).Ok?
    requires Lower(again.title) == Lower(input.title)
    ensures Create(db + [Create(db, input).value], again) == Err(DuplicateTitle(again.title))
  {
    var db' := db + [Create(db, input).value];
    assert TitleMatches(db'[|db|], again.title);
  }

  function TitleOnly(title: string): MovieInput
  {
    MovieInput(title, None, None, None, None, None, None, None, None, None)
  }

  /**
   * Identifiers are not reserved: a create can hand out again the identifier
   * of a deleted record. With `Ids` 1 and 2, deleting the record with 2 and
   * creating another gives the new record 2.
   */
  lemma IdReusedAfterDelete()
    ensures Remaining([WithId(TitleOnly("A"), 1), WithId(TitleOnly("B"), 2)], "B") == [WithId(TitleOnly("A"), 1)]
    ensures Create([WithId(TitleOnly("A"), 1)], TitleOnly("C")) == Ok(WithId(TitleOnly("C"), 2))
  {
  }

  // ----- updateMovie -----

  /** The keys of `UpdateMovieInput`. */
  datatype Key = Genre | Description | Director | Actors | Year | Runtime | Rating | Votes | Revenue

  /** The order in which the update loop visits the keys. */
  const UpdateKeys: seq<Key> := [Genre, Description, Director, Actors, Year, Runtime, Rating, Votes, Revenue]

  /** Where `k` stands in `UpdateKeys`. */
  function Position(k: Key): (r: nat)
    ensures r < |UpdateKeys| && UpdateKeys[r] == k
  {
    match k
    case Genre => 0
    case Description => 1
    case Director => 2
    case Actors => 3
    case Year => 4
    case Runtime => 5
    case Rating => 6
    case Votes => 7
    case Revenue => 8
  }

  /** The loop visits each key once: the key at index `i` has position `i`. */
  lemma PositionOfKeyAt(i: nat)
    requires i < |UpdateKeys|
    ensures Position(UpdateKeys[i]) == i
  {
  }

  /** `if value is not None: record[key] = value` for one field. */
  function Pick<T>(value: Option<T>, current: Option<T>): Option<T>
  {
    if value.Some? then value else current
  }

  /** One iteration of the update loop: the value of `k` in `u`, if it is not None, overwrites `m`'s. */
  function Assign(m: Movie, k: Key, u: UpdateMovieInput): Movie
  {
    match k
    case Genre => m.(genre := Pick(u.genre, m.genre))
    case Description => m.(description := Pick(u.description, m.description))
    case Director => m.(director := Pick(u.director, m.director))
    case Actors => m.(actors := Pick(u.actors, m.actors))
    case Year => m.(year := Pick(u.year, m.year))
    case Runtime => m.(runtime := Pick(u.runtime, m.runtime))
    case Rating => m.(rating := Pick(u.rating, m.rating))
    case Votes => m.(votes := Pick(u.votes, m.votes))
    case Revenue => m.(revenue := Pick(u.revenue, m.revenue))
  }

  /** The whole update at once: every non-None value of `u` replaces the field, nothing else changes. */
  function Patch(m: Movie, u: UpdateMovieInput): Movie
  {
    m.(genre := Pick(u.genre, m.genre), description := Pick(u.description, m.description),
       director := Pick(u.director, m.director), actors := Pick(u.actors, m.actors),
       year := Pick(u.year, m.year), runtime := Pick(u.runtime, m.runtime),
       rating := Pick(u.rating, m.rating), votes := Pick(u.votes, m.votes),
       revenue := Pick(u.revenue, m.revenue))
  }

  /** An update of nothing changes nothing. */
  lemma PatchNothing(m: Movie)
    ensures Patch(m, UpdateMovieInput(None, None, None, None, None, None, None, None, None)) == m
  {
  }

  /** Updating twice with the same input is updating once. */
  lemma PatchIdempotent(m: Movie, u: UpdateMovieInput)
    ensures Patch(Patch(m, u), u) == Patch(m, u)
  {
  }

  /** `Ids` and `Title` cannot be changed, so the record is still found under the same title. */
  lemma PatchKeepsIdentity(m: Movie, u: UpdateMovieInput, title: string)
    ensures Patch(m, u).ids == m.ids && Patch(m, u).title == m.title
    ensures TitleMatches(Patch(m, u), title) <==> TitleMatches(m, title)
  {
  }

  /** After an update, looking the title up finds the updated record. */
  lemma UpdateThenGet(db: seq<Movie>, title: string, u: UpdateMovieInput)
    requires FirstMatch(db, title).Some?
    ensures var i := FirstMatch(db, title).value;
      GetMovie(db[i := Patch(db[i], u)], title) == Patch(db[i], u)
  {
    var i := FirstMatch(db, title).value;
    var db' := db[i := Patch(db[i], u)];
    assert TitleMatches(db'[i], title);
    forall j | 0 <= j < i ensures !TitleMatches(db'[j], title) {
      assert db'[j] == db[j];
    }
  }

  // ----- deleteMovie -----

  /** `[m for m in db if m['Title'].lower() != title.lower()]`. */
  function Remaining(db: seq<Movie>, title: string): (r: seq<Movie>)
    ensures forall m :: m in r <==> m in db && !TitleMatches(m, title)
    ensures IsSubsequence(r, db)
    ensures |r| <= |db|
  {
    if db == [] then []
    else if TitleMatches(db[0], title) then Remaining(db[1..], title)
    else [db[0]] + Remaining(db[1..], title)
  }

  /** Delete keeps every other record as often as the store held it and drops every matching one. */
  lemma {:induction false} RemainingCounts(db: seq<Movie>, title: string)
    ensures forall m ::
              multiset(Remaining(db, title))[m] == if TitleMatches(m, title) then 0 else multiset(db)[m]
  {
    if db != [] {
      RemainingCounts(db[1..], title);
      assert db == [db[0]] + db[1..];
    }
  }

  /** With a matching record the list gets shorter. */
  lemma {:induction false} RemainingShrinks(db: seq<Movie>, title: string)
    requires HasTitle(db, title)
    ensures |Remaining(db, title)| < |db|
  {
    if !TitleMatches(db[0], title) {
      var j :| 0 <= j < |db| && TitleMatches(db[j], title);
      assert j != 0;
      assert TitleMatches(db[1..][j - 1], title);
      RemainingShrinks(db[1..], title);
    }
  }

  /** With no matching record the list is unchanged. */
  lemma {:induction false} RemainingUnchanged(db: seq<Movie>, title: string)
    requires !HasTitle(db, title)
    ensures Remaining(db, title) == db
  {
    if db != [] {
      assert !TitleMatches(db[0], title);
      assert !HasTitle(db[1..], title) by {
        forall j | 0 <= j < |db[1..]|
          ensures !TitleMatches(db[1..][j], title)
        {
          assert db[1..][j] == db[j + 1];
        }
      }
      RemainingUnchanged(db[1..], title);
      assert [db[0]] + db[1..] == db;
    }
  }

  /** The list shrinks exactly when some record has the title; otherwise it is unchanged. */
  lemma RemainingShrinksIff(db: seq<Movie>, title: string)
    ensures |Remaining(db, title)| < |db| <==> HasTitle(db, title)
    ensures !HasTitle(db, title) ==> Remaining(db, title) == db
  {
    if HasTitle(db, title) {
      RemainingShrinks(db, title);
    } else {
      RemainingUnchanged(db, title);
    }
  }

  /** After a delete the title is not found any more. */
  lemma DeleteThenGet(db: seq<Movie>, title: string)
    ensures GetMovie(Remaining(db, title), title) == NoMovieFound(title)
  {
  }

  /** The message `resolve_delete_movie` returns with `success`. */
  function DeleteMessage(success: bool, title: string): string
  {
    if success then "Movie '" + title + "' was deleted successfully."
    else "Movie '" + title + "' not found."
  }
}
