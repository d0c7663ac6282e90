# Movie catalogue backend, modelled in Dafny

This project models the movie store of the movie chat bot's backend
(`backend/app.py`). The store is a list of movie records, `movies_db`, loaded
from `imdb.json` and saved back after each mutation. Five GraphQL resolvers
work on it:

- `listMovies`: filters the records by up to ten optional conditions, may
  sort them by a numeric field, and answers a placeholder record when nothing
  matches.
- `getMovie`: looks up the first record whose title matches, ignoring case.
- `createMovie`: refuses a title that is already taken. Otherwise it appends
  the input with the identifier `max(Ids) + 1`, or 1 in an empty store.
- `updateMovie`: writes every non-null value of its input into the first
  record with the title.
- `deleteMovie`: removes every record with the title and reports whether the
  list got shorter.

Files, one module each:

- `wrappers.dfy`: `Option` and `Result`.
- `text.dfy`: ASCII lower/upper casing and Python's substring test.
- `movies.dfy`: the `Movie` record, the two mutation inputs, the errors and
  the placeholder records.
- `filters.dfy`: the filter stage. Each present key adds one list
  comprehension. The chain is proved equal to the conjunction of the present
  conditions (`Matches`).
- `sorting.dfy`: the key `m.get(sortBy) or 0` and a stable sort. The sort is
  proved to be a permutation, to be ordered in both directions, and to keep
  records with equal keys in their input order.
- `queries.dfy`: `ListMovies` and `GetMovie` as functions of the store.
- `mutations.dfy`: what each mutation computes, as pure functions with their
  lemmas.
- `store.dfy`: the class `MovieStore`. Its fields are the list `movies` and
  the file contents `file`. Its methods are the three mutation resolvers, and
  each ties the new list and file to the pure functions. `UpdateMovie` keeps
  the source's field-by-field loop and proves it against `Patch`.

Where the code does something its names or comments do not suggest, the
model follows the code:

- `limit` is accepted and ignored: the lines that would truncate the list are
  commented out.
- An empty answer is a one-element list holding a placeholder record.
- `titleContains` tests whole-title equality, not containment.
- Thresholds also reject a field equal to zero, because of the `m.get(X) and`
  guard.
- Identifiers are `max + 1` and are not reserved, so a create can hand out
  again the identifier of a deleted record. For example, with `Ids` 1 and 2,
  deleting the record with 2 and creating another gives the new record 2
  (`IdReusedAfterDelete`).

## Model

| member | source | states |
|---|---|---|
| `Text.Lower` | backend/app.py:113 | lower-casing keeps the length and lower-cases every character (ASCII) |
| `Text.Upper` | backend/app.py:139 | upper-casing keeps the length and upper-cases every character (ASCII) |
| `Text.ContainsIff` | backend/app.py:129 | `term in text` holds exactly when `term` occurs at some offset of `text`; the empty term occurs everywhere |
| `Filters.Keep` | backend/app.py:114 | one comprehension keeps exactly the records satisfying its condition, as a subsequence of its input |
| `Filters.Filtered` | backend/app.py:111-135 | reference filter: exactly the records satisfying every predicate, in input order, never more than the input |
| `Filters.ChainIsConjunction` | backend/app.py:111-135 | applying the comprehensions one after another equals keeping the records that satisfy all of them |
| `Filters.FilteredNothing` | backend/app.py:111 | with no condition present the filter stage keeps every record: `Filtered(s, []) == s` |
| `Filters.FilteredNone` | backend/app.py:111-135 | a list none of whose records satisfies the conditions filters to nothing |
| `Filters.PredicatesMeanMatches` | backend/app.py:112-135 | the comprehensions generated for a filter all hold of a record iff every present key's condition holds (title equality, thresholds, exact year, substring tests) |
| `Filters.LaterStagesMeanMatches` | backend/app.py:123-135 | the same for the runtime, genre, director and actor keys |
| `Filters.ApplyFilterSpec` | backend/app.py:111-135 | the filter stage returns a subsequence of the store holding exactly the records that satisfy every present condition |
| `Filters.FalsyFieldsExcluded` | backend/app.py:114-135 | a threshold rejects a missing or zero field; a text condition rejects a missing or empty field; the title filter rejects an empty title |
| `Filters.TitleFilterIsEquality` | backend/app.py:112-114 | for example, the term `a` does not match the title `ab`, which contains it: `titleContains` compares whole titles |
| `Sorting.Insert` | backend/app.py:140 | inserting adds exactly one occurrence of the record |
| `Sorting.SortMovies` | backend/app.py:140 | `sorted` returns a permutation of its input |
| `Sorting.InsertOrdered` | backend/app.py:140 | inserting into an ordered list keeps it ordered |
| `Sorting.SortOrdered` | backend/app.py:138-140 | the sorted list is non-decreasing by `m.get(sortBy) or 0`, non-increasing with `reverse=True` |
| `Sorting.InsertTies` | backend/app.py:140 | inserting a record places it before the records with its key, keeping their order |
| `Sorting.SortStable` | backend/app.py:140 | for every key value, the records with that key appear in the sorted list in their input order, also with `reverse=True` |
| `Sorting.SortUnknownIsIdentity` | backend/app.py:140 | sorting by a name no record carries (every key 0) leaves the list as it was |
| `Queries.DescendingIff` | backend/app.py:139 | descending order is chosen exactly for "desc" in any mix of cases |
| `Queries.ListMovies` | backend/app.py:107-149 | `listMovies` never returns an empty list |
| `Queries.NoFilterMatchesAll` | backend/app.py:111 | a filter with no key present keeps the whole store |
| `Queries.MatchingSpec` | backend/app.py:109-135 | the filtered list is a subsequence of the store holding exactly the store records that satisfy the filter |
| `Queries.SubsequenceOfItself` | backend/app.py:109 | every list is a subsequence of itself (`IsSubsequence(s, s)`), so the unfiltered store qualifies as a filter result |
| `Queries.ListEmpty` | backend/app.py:146-147 | when no store record satisfies the filter the answer is exactly the one "No movies found" record |
| `Queries.ListEmptyStore` | backend/app.py:146-147 | an empty store answers the placeholder whatever the arguments |
| `Queries.ListUnsorted` | backend/app.py:109-135 | without `sortBy` the answer is the filtered store, in store order, holding exactly the matching records |
| `Queries.ListSorted` | backend/app.py:137-140 | with `sortBy` the answer is a permutation of the filtered store, ordered in the requested direction, with ties in filtered order |
| `Queries.ListSound` | backend/app.py:107-149 | every record answered is the placeholder or a store record satisfying every present condition |
| `Queries.LimitIgnored` | backend/app.py:142-144 | the answer does not depend on `limit` |
| `Queries.InceptionByRating` | backend/app.py:115-116 | on a one-record store holding Inception (rating 8.8), a minimum rating of 8.0 keeps the record and 9.0 yields the placeholder |
| `Queries.FirstMatch` | backend/app.py:153 | the index found has a matching title and no earlier record matches; none is found only when no record matches |
| `Queries.GetMovie` | backend/app.py:151-156 | the answer is the first record whose title matches ignoring case, or the "No movie found" placeholder when none does |
| `Mutations.NextId` | backend/app.py:162 | the next identifier exceeds every identifier in the store and is one more than one of them, or 1 in an empty store; there is none when some record lacks `Ids` |
| `Mutations.CreateSpec` | backend/app.py:158-166 | a case-insensitive duplicate title is refused; otherwise the new record is the input plus an identifier larger than all existing ones |
| `Mutations.CreateKeepsIdsDistinct` | backend/app.py:162-164 | appending the created record keeps identifiers pairwise distinct |
| `Mutations.CreateThenGet` | backend/app.py:153-164 | after a create, looking the title up in any case returns the created record |
| `Mutations.CreateTwiceFails` | backend/app.py:160-161 | a second create with the same title in any case is refused |
| `Mutations.IdReusedAfterDelete` | backend/app.py:162-183 | a create can hand out again the identifier of a deleted record: with `Ids` 1 and 2, deleting the record with 2 and creating another gives the new record 2 |
| `Mutations.Position` | backend/app.py:173 | each update key has a position in the loop's key order |
| `Mutations.PositionOfKeyAt` | backend/app.py:173 | the loop meets each key exactly once |
| `Mutations.PatchNothing` | backend/app.py:173-175 | an update whose values are all null changes nothing |
| `Mutations.PatchIdempotent` | backend/app.py:173-175 | repeating an update changes nothing more |
| `Mutations.PatchKeepsIdentity` | backend/app.py:56-66 | an update never changes `Ids` or `Title`, so the record is still found under its title |
| `Mutations.UpdateThenGet` | backend/app.py:170-177 | after an update, looking the title up returns the updated record |
| `Mutations.Remaining` | backend/app.py:183 | delete keeps exactly the records whose title does not match, as a subsequence in store order |
| `Mutations.RemainingCounts` | backend/app.py:183 | delete drops every occurrence of a matching record and keeps every other record exactly as often as the store held it, duplicates included |
| `Mutations.RemainingShrinks` | backend/app.py:183-184 | when some record matches, the list gets shorter |
| `Mutations.RemainingUnchanged` | backend/app.py:183-184 | when no record matches, the list is unchanged |
| `Mutations.RemainingShrinksIff` | backend/app.py:182-187 | the list shrinks iff some record matches; when none matches the list is unchanged |
| `Mutations.DeleteThenGet` | backend/app.py:153-183 | after a delete the title is not found |
| `Store.MovieStore.Load` | backend/app.py:14-24 | the store starts as the file's records, or empty when there is no file |
| `Store.MovieStore.Save` | backend/app.py:20-22 | after saving, the file holds exactly the list |
| `Store.MovieStore.CreateMovie` | backend/app.py:158-166 | on success the list gains exactly the created record at its end and is saved; on error list and file are unchanged |
| `Store.MovieStore.UpdateMovie` | backend/app.py:168-177 | with no match it raises and changes nothing; otherwise only the first matching record changes, into `Patch` of it, and the list is saved |
| `Store.MovieStore.DeleteMovie` | backend/app.py:179-187 | the list becomes the non-matching records in order; success iff some record matched; saved only on success, unchanged otherwise |

## Left out

- Flask routes, the GraphiQL explorer and Ariadne's schema executor (backend/app.py:9, 189-201) are framework plumbing. The model gives resolver results, not GraphQL responses. The placeholder records carry no `Ids`, as in the source, but the schema declares `Ids: Int!` (backend/app.py:30); a query that selects `Ids` then gets an executor error instead of the placeholder, and that GraphQL consequence is not modelled.
- The chatbot endpoint (backend/app.py:203-317) is left out: prompt building, the HTTP call to the Ollama model, code-fence stripping and re-execution. It is a network client around a language-model black box.
- JSON file I/O is abstracted. The file is an `Option<seq<Movie>>`, where `None` means no file exists, and saving sets it to the current list. JSON serialisation is not modelled, nor the difference between an absent key and a `null` one.
- Lower- and upper-casing are ASCII only. Python's Unicode case mapping is not modelled.
- `sortBy` ranges over the numeric fields plus `ByUnknown`, a name that no record carries. Sorting by a text field is not modelled: Python then compares strings, or raises when a string meets the default 0.
- Filter keys given an explicit `null` are not modelled; `None` means an absent key. The schema declares `titleContains: String!` (backend/app.py:69), so every filter a GraphQL client sends holds a title condition; the model also allows filters without one. In Python, `exactYear: null` keeps the records without a year; a null threshold raises only once a record whose field is truthy reaches the comparison (backend/app.py:116-126); a null genre, director or actor term raises at once on `.lower()` (backend/app.py:128-135).
- Records without a `Title` are not modelled. The title is a required string. `getMovie`, `createMovie`, `updateMovie` and `deleteMovie` would raise on such a record.
- GraphQL's 32-bit `Int` range is not modelled. Integers are unbounded.
- Aliasing is not modelled. `listMovies` may return the `movies_db` list itself, and `updateMovie` mutates a record dictionary in place. The model has value semantics and writes the updated record back at its index.
- The update loop visits the keys in a fixed order, while Python visits the client's order. The keys are distinct, so the order does not affect the result.
- `Movies.Message` gives the text of only one of the two exceptions `createMovie` can raise when an `Ids` is missing or null. It uses the `KeyError` text; a null `Ids` raises a `TypeError` with other text.
- The start-up `print` (backend/app.py:25) and all of `frontend/app.py` are left out. The frontend is Streamlit UI rendering and HTTP calls.
- Concurrency is not modelled. The resolvers run one at a time on the shared list.
