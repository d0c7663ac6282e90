/**
 * The shared state of backend/app.py: the in-memory list `movies_db` and the
 * file `imdb.json` it is saved to, with the three mutation resolvers that
 * update them.
 */
module Store {
  import opened Wrappers
  import opened Movies
  import opened Queries
  import opened Mutations

  class MovieStore {
    /** `movies_db`, the list every resolver reads. */
    var movies: seq<Movie>
    /** The records last written to `imdb.json`; `None` while the file does not exist. */
    var file: Option<seq<Movie>>

    /** `movies_db = load_movies_from_db()`: the file's records, or no records when there is no file. */
    constructor Load(saved: Option<seq<Movie>>)
      ensures file == saved
      ensures movies == (if saved.Some? then saved.value else [])
    {
      file := saved;
      movies := if saved.Some? then saved.value else [];
    }

    /** `save_movies_to_db(movies_db)`: the file now holds exactly the list. */
    method Save()
      modifies this`file
      ensures file == Some(movies)
    {
      file := Some(movies);
    }

    /**
     * `resolve_create_movie`: refuse a taken title, otherwise append the input
     * with the next identifier and save.
     */
    method CreateMovie(input: MovieInput) returns (r: Result<Movie, Error>)
      modifies this
      ensures r == Create(old(movies), input)
      ensures r.Ok? ==> movies == old(movies) + [r.value] && file == Some(movies)
      ensures r.Err? ==> movies == old(movies) && file == old(file)
    {
      if HasTitle(movies, input.title) {
        return Err(DuplicateTitle(input.title));
      }
      var id := NextId(movies);
      if id.None? {
        return Err(MissingId);
      }
      var created := WithId(input, id.value);
      movies := movies + [created];
      Save();
      r := Ok(created);
    }

    /**
     * `resolve_update_movie`: find the first record with the title, write each
     * non-None value of `input` into it field by field, and save.
     */
    method UpdateMovie(title: string, input: UpdateMovieInput) returns (r: Result<Movie, Error>)
      modifies this
      ensures FirstMatch(old(movies), title).None? ==>
        r == Err(NotFound(title)) && movies == old(movies) && file == old(file)
      ensures FirstMatch(old(movies), title).Some? ==>
        var i := FirstMatch(old(movies), title).value;
        && r == Ok(Patch(old(movies)[i], input))
        && movies == old(movies)[i := r.value]
        && file == Some(movies)
    {
      var found := FirstMatch(movies, title);
      if found.None? {
        return Err(NotFound(title));
      }
      var i := found.value;
      var m := movies[i];
      var cur := m;
      var k := 0;
      while k < |UpdateKeys|
        invariant 0 <= k <= |UpdateKeys|
        invariant movies == old(movies) && file == old(file)
        invariant cur.ids == m.ids && cur.title == m.title
        invariant cur.genre == if Position(Genre) < k then Pick(input.genre, m.genre) else m.genre
        invariant cur.description == if Position(Description) < k then Pick(input.description, m.description) else m.description
        invariant cur.director == if Position(Director) < k then Pick(input.director, m.director) else m.director
        invariant cur.actors == if Position(Actors) < k then Pick(input.actors, m.actors) else m.actors
        invariant cur.year == if Position(Year) < k then Pick(input.year, m.year) else m.year
        invariant cur.runtime == if Position(Runtime) < k then Pick(input.runtime, m.runtime) else m.runtime
        invariant cur.rating == if Position(Rating) < k then Pick(input.rating, m.rating) else m.rating
        invariant cur.votes == if Position(Votes) < k then Pick(input.votes, m.votes) else m.votes
        invariant cur.revenue == if Position(Revenue) < k then Pick(input.revenue, m.revenue) else m.revenue
      {
        PositionOfKeyAt(k);
        cur := Assign(cur, UpdateKeys[k], input);
        k := k + 1;
      }
      movies := movies[i := cur];
      Save();
      r := Ok(cur);
    }

    /**
     * `resolve_delete_movie`: drop every record with the title; save and
     * report success only when the list got shorter.
     */
    method DeleteMovie(title: string) returns (p: DeletePayload)
      modifies this
      ensures movies == Remaining(old(movies), title)
      ensures p.success <==> |movies| < |old(movies)|
      ensures p.success <==> HasTitle(old(movies), title)
      ensures !p.success ==> movies == old(movies)
      ensures p.message == DeleteMessage(p.success, title)
      ensures p.success ==> file == Some(movies)
      ensures !p.success ==> file == old(file)
    {
      var initialCount := |movies|;
      RemainingShrinksIff(movies, title);
      movies := Remaining(movies, title);
      if |movies| < initialCount {
        Save();
        return DeletePayload(true, DeleteMessage(true, title));
      }
      p := DeletePayload(false, DeleteMessage(false, title));
    }
  }
}
