/** The records held in `movies_db` and the inputs of the mutations (backend/app.py, the GraphQL schema). */
module Movies {
  import opened Wrappers
  import opened Text

  /**
   * One movie record. `Ids` is optional because a record is a dictionary: the
   * placeholder records the resolvers return carry no `Ids` at all. Every other
   * field except `Title` may be missing or null, both of which are `None`.
   */
  datatype Movie = Movie(
    ids: Option<int>,
    title: string,
    genre: Option<string>,
    description: Option<string>,
    director: Option<string>,
    actors: Option<string>,
    year: Option<int>,
    runtime: Option<int>,
    rating: Option<real>,
    votes: Option<int>,
    revenue: Option<real>)

  /** `MovieInput`, the argument of `createMovie`: a title and optional fields. */
  datatype MovieInput = MovieInput(
    title: string,
    genre: Option<string>,
    description: Option<string>,
    director: Option<string>,
    actors: Option<string>,
    year: Option<int>,
    runtime: Option<int>,
    rating: Option<real>,
    votes: Option<int>,
    revenue: Option<real>)

  /** `UpdateMovieInput`, the argument of `updateMovie`: neither `Ids` nor `Title` can be set. */
  datatype UpdateMovieInput = UpdateMovieInput(
    genre: Option<string>,
    description: Option<string>,
    director: Option<string>,
    actors: Option<string>,
    year: Option<int>,
    runtime: Option<int>,
    rating: Option<real>,
    votes: Option<int>,
    revenue: Option<real>)

  /** The exceptions the mutations raise. */
  datatype Error =
    | DuplicateTitle(title: string)  // createMovie: the title is already taken
    | MissingId                      // createMovie: `max(...) + 1` over a record without an integer `Ids`
    | NotFound(title: string)        // updateMovie: no record has this title

  /** `DeletePayload`, the answer of `deleteMovie`. */
  datatype DeletePayload = DeletePayload(success: bool, message: string)

  /** The exception text the client sees. */
  function Message(e: Error): string
  {
    match e
    case DuplicateTitle(t) => "Movie with title '" + t + "' already exists."
    case MissingId => "'Ids'"  // the KeyError text; a null `Ids` raises a TypeError instead
    case NotFound(t) => "Movie with title '" + t + "' not found."
  }

  /** The case-insensitive title comparison every resolver uses: `m['Title'].lower() == title.lower()`. */
  predicate TitleMatches(m: Movie, title: string)
  {
    Lower(m.title) == Lower(title)
  }

  /** A record that stands for "nothing found": only a title and a description. */
  function Placeholder(title: string, description: string): Movie
  {
    Movie(None, title, None, Some(description), None, None, None, None, None, None, None)
  }

  /** What `listMovies` returns when no record passes the filter. */
  const NoMoviesFound: Movie := Placeholder("No movies found", "No movies matched your criteria")

  /** What `getMovie` returns when no record has the title. */
  function NoMovieFound(title: string): Movie
  {
    Placeholder("No movie found", "No movie with title '" + title + "' was found")
  }

  /** `r` is obtained from `s` by deleting elements, keeping the order of the rest. */
  predicate IsSubsequence<T(==)>(r: seq<T>, s: seq<T>)
  {
    if r == [] then true
    else if s == [] then false
    else (r[0] == s[0] && IsSubsequence(r[1..], s[1..])) || IsSubsequence(r, s[1..])
  }
}
