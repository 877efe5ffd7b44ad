# Ring App book inventory — a Dafny model

`RingApp.js` is a React widget that keeps a list of books by ISBN: the user
types an identifier, the widget checks its shape, appends it, fetches its
metadata from the Open Library API, shows a card per book with a title, an
author line, a cover image and a five-star rating control, and lets the user
rate and delete books. This project models the logic under the UI:

- `Text` — the JavaScript built-ins the widget leans on: `String.prototype.trim`
  over a fixed whitespace set, and `Array.prototype.join`.
- `Isbn` — `isValidISBN`, the regular expression `^(97(8|9))?\d{9}(\d|X)$`,
  written as a matcher that follows the expression's structure, and proved
  equal to an explicit character-level description of the two accepted shapes
  (ISBN-10 and ISBN-13 of ISO 2108, shape only, no check digit).
- `Catalog` — `fetchCoverImage` (the cover URL), the shape of a metadata
  response, and the title and author lines of a card with their fallback
  strings.
- `Stars` — `StarRating`/`renderStars`: the loop that builds five stars, the
  fill rule and the rating a click reports.
- `Inventory` — the component state and its handlers. `Snapshot` is the state
  as a value and `AfterAdd`, `AfterRating`, `AfterDelete` and `AfterFetch` are
  the handlers' effects on it; the lemmas state what each handler changes and
  what it keeps, and an invariant (`Coherent`) that add, delete and fetch
  preserve, and that a rating change preserves only for a rating reported by
  the star control (`Inventory.ClickedRatingKeepsCoherent`). The
  class `RingApp` holds the six state hooks as fields; each handler is a method
  whose postcondition ties the new state to the matching `After...` function
  of the old one.

Three facts about `RingApp.js` that the model keeps:

- A 13-character identifier must begin with `978` or `979` (RingApp.js:60);
  other 13-digit strings are rejected, and an `X` is accepted as the last
  character of the 13-character form too.
- Ratings are not limited to 0..5 by the controller (RingApp.js:79-81):
  `handleRatingChange` stores whatever it is given. Only the star control keeps
  ratings in range (`Inventory.ClickedRatingKeepsCoherent` against
  `Inventory.RatingIsUnchecked`).
- Loading stored state (RingApp.js:16-18) does not recover from a corrupt
  field: a missing key, or a stored value that parses to a falsy value
  (`null`, `false`, `0`, `""`), falls back to the empty default, while a
  malformed value makes `JSON.parse` throw. Loading is left out of the model
  (below).

## Model

| member | source | states |
|---|---|---|
| `Text.Trim` | RingApp.js:66 | `trim()` yields an infix of the input with only whitespace removed at both ends, empty exactly when the input is all whitespace, and otherwise neither starting nor ending with whitespace |
| `Text.TrimIdempotent` | RingApp.js:66-67 | trimming an already trimmed identifier changes nothing |
| `Text.TrimNoSpace` | RingApp.js:66 | a string without whitespace is its own trim |
| `Text.TrimSurrounded` | RingApp.js:66 | whitespace around a word that does not start or end with whitespace is exactly what trimming removes |
| `Text.Join` | RingApp.js:126 | `join` starts with the first string and, for two or more strings, is at least as long as the first string and one separator |
| `Text.JoinEmptyIff` | RingApp.js:126 | with a non-empty separator, `join` is empty exactly for no strings or one empty string |
| `Isbn.DigitRun` | RingApp.js:60 | `\d{n}` succeeds exactly when the first `n` characters are ASCII digits, and leaves the rest of the string |
| `Isbn.IsValidIsbn` | RingApp.js:59-61 | `isValidISBN`, matching the expression group by group, accepts exactly the 10-character shape (nine digits, then a digit or `X`) and the 13-character shape (`978` or `979`, nine digits, then a digit or `X`) |
| `Isbn.ValidLength` | RingApp.js:60 | every accepted identifier has 10 or 13 characters |
| `Isbn.OtherPrefixRejected` | RingApp.js:60 | a 13-character string not starting with `978` or `979` is rejected |
| `Isbn.LowercaseXRejected` | RingApp.js:60 | a lower-case `x` at the end is never accepted |
| `Isbn.ValidIsTrimmed` | RingApp.js:66-67 | an accepted identifier holds no whitespace, so trimming leaves it as it is |
| `Isbn.AcceptedSamples` | RingApp.js:60 | `0306406152`, `0306406153` (wrong check digit) and `978030640615X` are accepted: no check digit is computed |
| `Isbn.RejectedSamples` | RingApp.js:60 | letters, 9, 11 and 12 characters, and 13 digits with another prefix are rejected |
| `Catalog.CoverUrl` | RingApp.js:54-56 | the cover URL starts with the fixed prefix, ends with `-L.jpg`, and holds exactly the identifier between them |
| `Catalog.CoverRoundTrip` | RingApp.js:54-56 | the identifier can be read back from its cover URL |
| `Catalog.CoverIsbnSound` | RingApp.js:54-56 | every URL of the cover form is the cover URL of the identifier read from it |
| `Catalog.CoverUrlInjective` | RingApp.js:54-56 | distinct identifiers have distinct cover URLs |
| `Catalog.Lookup` | RingApp.js:123 | the optional chain yields a record exactly when a response is stored for the identifier and holds its `ISBN:<identifier>` key, and then it is the record under that key |
| `Catalog.TitleText` | RingApp.js:123 | the title line is never empty, and anything other than `Title not available` is the stored record's title |
| `Catalog.TitleShown` | RingApp.js:123 | a non-empty stored title is shown as it is |
| `Catalog.TitleTextMissing` | RingApp.js:123 | without a stored response, without its `ISBN:<identifier>` record, or without a non-empty title, `Title not available` is shown |
| `Catalog.Names` | RingApp.js:126 | `authors.map(author => author.name)` keeps length and order |
| `Catalog.AuthorText` | RingApp.js:126 | the author line is never empty, and anything other than `Author not available` is the `, `-joined names of the stored record's authors |
| `Catalog.AuthorTextCases` | RingApp.js:126 | the joined author names are shown exactly when there are two or more authors or one with a non-empty name, and `Author not available` otherwise |
| `Catalog.AuthorTextMissing` | RingApp.js:126 | a missing record or authors field shows `Author not available` |
| `Catalog.AuthorLine` | RingApp.js:124-126 | a card has an author line exactly when a response is stored under its identifier |
| `Stars.RenderStars` | RingApp.js:145-159 | the loop yields five stars numbered 1..5, star `i` filled exactly when `i <= rating` (never when the rating is missing) |
| `Stars.Fills` | RingApp.js:151 | `i <= rating` is false for a missing rating, true only when `i` is at most the rating, and true for every star when the rating is 5 or more |
| `Stars.ClickedRating` | RingApp.js:152 | on a rendered row, clicking the star at position `k` reports `k + 1` |
| `Stars.ClickedRatingInRange` | RingApp.js:152 | a click on any star reports a rating in 1..5 |
| `Stars.FilledArePrefix` | RingApp.js:151 | the filled stars are exactly the first ones, as many as the rating clamped to 0..5 |
| `Stars.FilledCountOfRow` | RingApp.js:147-151 | a rendered row has as many filled stars as the clamped rating |
| `Inventory.Without` | RingApp.js:85 | the filter never lengthens the list, removes the deleted identifier, and keeps only listed identifiers |
| `Inventory.WithoutMembers` | RingApp.js:85 | the filter keeps exactly the identifiers other than the deleted one |
| `Inventory.WithoutMultiset` | RingApp.js:85 | the filter removes every occurrence and keeps each other identifier's count |
| `Inventory.WithoutAppend` | RingApp.js:85 | the filter works piecewise over concatenation, so the remaining identifiers keep their relative order |
| `Inventory.WithoutAbsent` | RingApp.js:85 | filtering an unlisted identifier returns the list unchanged |
| `Inventory.AfterAdd` | RingApp.js:64-76 | adding either leaves the list or appends the trimmed input, and never touches the metadata or the loading flag |
| `Inventory.AfterRating` | RingApp.js:79-81 | a rating change stores the new value under the identifier and keeps the list and the metadata |
| `Inventory.AfterDelete` | RingApp.js:84-90 | after a delete the identifier is in neither the list nor either map, and the list is no longer than before |
| `Inventory.AfterFetch` | RingApp.js:39-51 | after a fetch the loading flag is cleared, list and ratings are kept, a parsed response is stored under the identifier and a failure keeps the metadata |
| `Inventory.AddBlankIsNoop` | RingApp.js:66 | adding with a blank input box changes no part of the state, not the error either |
| `Inventory.AddValid` | RingApp.js:67-71 | a valid identifier is appended once at the end with no deduplication, earlier entries keep their places, its rating becomes 0 (overwriting an old one), other ratings, metadata and loading flag are kept, and the input box and error are cleared |
| `Inventory.AddInvalid` | RingApp.js:72-74 | an invalid identifier sets the fixed error message and changes nothing else |
| `Inventory.AddTrimsInput` | RingApp.js:66-68 | the appended identifier is the input without surrounding whitespace |
| `Inventory.RatingEffects` | RingApp.js:79-81 | a rating change stores the value as given, for any identifier, keeping every other rating and every other part of the state |
| `Inventory.DeleteEffects` | RingApp.js:84-90 | delete filters the list, removing every occurrence and keeping each other identifier's count (the order is kept by `Inventory.WithoutAppend`), and removes the key from both maps, keeping every other entry and the rest of the state |
| `Inventory.DeleteAbsent` | RingApp.js:84-90 | deleting an identifier that is neither listed nor a key leaves the state equal |
| `Inventory.DeleteIdempotent` | RingApp.js:84-90 | deleting twice is deleting once |
| `Inventory.DeleteUndoesAdd` | RingApp.js:64-90 | deleting a freshly added, previously unknown identifier restores the list and both maps |
| `Inventory.FetchSuccess` | RingApp.js:39-45 | a parsed response is stored under its identifier, other metadata entries are kept, and the loading flag ends cleared |
| `Inventory.FetchFailure` | RingApp.js:46-50 | a failed request changes nothing but clearing the loading flag |
| `Inventory.FetchAfterDeleteOrphans` | RingApp.js:39-51 | a response arriving after its identifier was deleted re-adds a metadata key that is not listed and has no rating |
| `Inventory.InitialCoherent` | RingApp.js:6-11 | the initial state satisfies the invariant: listed identifiers are valid and rated, ratings in 0..5 |
| `Inventory.AddKeepsCoherent` | RingApp.js:64-76 | adding keeps the invariant |
| `Inventory.DeleteKeepsCoherent` | RingApp.js:84-90 | deleting keeps the invariant |
| `Inventory.FetchKeepsCoherent` | RingApp.js:39-51 | merging a fetch outcome keeps the invariant |
| `Inventory.ClickedRatingKeepsCoherent` | RingApp.js:79-81 | a rating reported by the star control keeps the invariant |
| `Inventory.RatingIsUnchecked` | RingApp.js:79-81 | a rating outside 0..5 is stored and breaks the range: the handler checks nothing |
| `Inventory.RingApp.constructor` | RingApp.js:6-11 | the state hooks start empty, with no error and not loading |
| `Inventory.RingApp.InputChange` | RingApp.js:34-36 | typing replaces the input box and nothing else |
| `Inventory.RingApp.AddIsbn` | RingApp.js:64-76 | `handleAddIsbm` leaves the state `AfterAdd` of the old one |
| `Inventory.RingApp.RatingChange` | RingApp.js:79-81 | `handleRatingChange` leaves the state `AfterRating` of the old one |
| `Inventory.RingApp.Delete` | RingApp.js:84-90 | `handleDelete` leaves the state `AfterDelete` of the old one |
| `Inventory.RingApp.FetchBookDetails` | RingApp.js:39-51 | `fetchBookDetails`, given the outcome of its request, leaves the state `AfterFetch` of the old one |

## Left out

- The network request and `response.json()` (RingApp.js:43-44): foreign I/O. `FetchBookDetails` takes their outcome as a parameter, `None` standing for a request or parse that throws; the error log line is not modelled.
- Loading and saving through `localStorage`, with `JSON.parse` and `JSON.stringify` (RingApp.js:14-31): I/O through a serialiser outside the model. A malformed stored value makes `JSON.parse` throw; there is no per-field recovery to model.
- The effect that re-fetches every listed identifier whenever the list changes (RingApp.js:93-97), and the interleaving of concurrent fetches, including races on `isLoading`: each fetch is modelled as one atomic merge, in whatever order the caller applies them. For the same reason the model does not distinguish the closure value of `isbnList` used by `setIsbnList` from the updater form used by `setRatings`; in a sequential run they agree.
- JSX rendering, CSS and the button's `disabled`/`Fetching...` text, and the `Rating: n/5` line (RingApp.js:99-140, 161-165): presentation.
- `Inventory.RingApp.InputChange` stands in for `handleInputChange` only so that the input box can be set; the DOM event is not modelled.
- `Text.Trim`: the whitespace set is ECMAScript's WhiteSpace and LineTerminator code points with the Unicode category Zs fixed at its present membership, not whatever a given engine's Unicode version holds.
- `Catalog.AuthorTextCases`: author names are modelled as strings; a JSON author without a `name`, a title that is not a string, or a `null` response body are not modelled.
