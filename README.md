# Bookshelf API: a Dafny model of the book store and its validation rules

This project models the core of the bookshelf application.

The server side is `src/handler.js`. Its five hapi handlers share one in-memory, ordered `books` array:
- add (`POST /books`);
- list with filters (`GET /books?name=&reading=&finished=`);
- get by id (`GET /books/{bookId}`);
- edit (`PUT /books/{bookId}`);
- delete (`DELETE /books/{bookId}`).

The client side is `frontend/js/utils.js`, with the form check `validateField` and the helper `truncateText`.

Modules:

- `Options` (options.dfy): `Option`. A JavaScript property that may be `undefined` is an `Option`.
- `Seqs` (seqs.dfy): `Array.prototype.filter` as `Filter`, and the subsequence relation it preserves.
- `Text` (text.dfy): `toLowerCase` and `includes`, as used by the name filter.
- `Books` (books.dfy): the `Book` record, the request `Payload` and the two payload checks. It also holds the store invariant and `findIndex`, which is both the `FirstIndex` function and the `FindIndex` loop.
- `Handler` (handler.dfy): the reply datatype (HTTP code, success or fail, message, data) and the handlers. List and get are pure functions of the store contents. Add, edit and delete are methods of the `BookStore` class. That class owns the shared `books` sequence and updates it in place.
- `Utils` (utils.dfy): `validateField` over a small model of JavaScript values (`undefined`, `null`, string, integer, `NaN`), `trim`, and `truncateText`.

The nanoid id and the current ISO time are parameters of the add and edit methods. Add requires that the id is not already stored, which stands in for nanoid's uniqueness. Under that condition, every write keeps `StoreInvariant`:
- ids are distinct;
- names are non-empty;
- `finished == (pageCount == readPage)`;
- no record has `readPage > pageCount`.

The server's checks are narrower than the client's:
- The server validates only `name` and `readPage > pageCount`. Year, author, publisher and page-count rules are not enforced on the server; only the client checks them.
- The server name check is JavaScript's `!name`. It rejects an absent name or `""`. A name of spaces only is accepted.
- `readPage > pageCount` is false when either value is absent, so such payloads are accepted.
- `finished` is `pageCount === readPage`. It is therefore also true when both are absent.

## Model

| member | source | states |
|---|---|---|
| `Seqs.Filter` | src/handler.js:93-110 | every value in the result is in the input and accepted, every accepted value of the input is in the result, and the result is a subsequence of the input (order kept) |
| `Seqs.FilterCounts` | src/handler.js:93-110 | each accepted value occurs in the result exactly as often as in the input, and each rejected value not at all |
| `Seqs.FilterTwice` | src/handler.js:89-110 | filtering by one callback and then another equals a single filter by their conjunction (the AND-combination of the chained filters) |
| `Seqs.FilterHead` | src/handler.js:130 | element `[0]` of a filter is the first element of the input the callback accepts |
| `Text.ToLower` | src/handler.js:94 | lower-casing keeps the length and maps every character through `LowerChar` |
| `Text.LowerChar` | src/handler.js:94 | each of 'A'..'Z' becomes the matching letter of 'a'..'z' (same offset from the start of the alphabet), every other character is kept |
| `Text.ToLowerExample` | src/handler.js:94 | "ABC", "aBc" and "abc" all lower-case to "abc" |
| `Text.IncludesIff` | src/handler.js:94 | `includes` holds exactly when the needle occurs at some position of the haystack |
| `Books.FirstIndex` | src/handler.js:187 | the result is -1 exactly when no record has the id, otherwise the index of a record with that id with none before it |
| `Books.FindIndex` | src/handler.js:229 | the left-to-right scan returns exactly `FirstIndex` |
| `Handler.NewBookWellFormed` | src/handler.js:37-57 | an accepted payload yields a record with the given id, the payload's name, year, author, summary, publisher, pageCount, readPage and reading, `finished == (pageCount == readPage)`, `insertedAt == updatedAt == now`, and the store invariant's per-record conditions |
| `Handler.RevisedWellFormed` | src/handler.js:190-205 | a revised record keeps `id` and `insertedAt`, takes the payload's name, year, author, summary, publisher, pageCount, readPage and reading, recomputes `finished`, takes the new `updatedAt` and is well formed |
| `Handler.ListBooks` | src/handler.js:112-123 | listing always succeeds with code 200 and no message, and its list is exactly the `{id, name, publisher}` projections of the stored books that pass every supplied filter, in store order |
| `Handler.ListedBooksSpec` | src/handler.js:89-119 | the three optional filters applied in sequence, then projected to `{id, name, publisher}`, equal the projection of one filter by "every supplied filter holds" |
| `Handler.ListedBooksMembers` | src/handler.js:89-119 | the listing is a subsequence of the store's projections, and a stored book is listed exactly when it passes every supplied filter |
| `Handler.SummariesSubsequence` | src/handler.js:115-119 | projecting to `{id, name, publisher}` keeps the subsequence relation |
| `Handler.ListWithoutFilters` | src/handler.js:89-92 | with no query parameter the whole store is listed in store order |
| `Handler.OptionalFilter` | src/handler.js:92-110 | a filter applied only when its query parameter is supplied equals one filter by "not supplied, or accepted" |
| `Handler.NameMatchByLowerCase` | src/handler.js:92-96 | two name queries that lower-case to the same string select the same books |
| `Handler.NameMatchCaseExample` | src/handler.js:92-96 | `name=ABC` and `name=abc` select the same books |
| `Handler.NameMatchIgnoresCase` | src/handler.js:92-96 | the name filter gives the same answer for the query or the stored name lower-cased |
| `Handler.GetBook` | src/handler.js:127-148 | a success has code 200 and carries a stored book; a failure is exactly 404 "Buku tidak ditemukan" |
| `Handler.GetBookSpec` | src/handler.js:130-148 | get answers the first record with the id when one exists, and 404 exactly when none does |
| `Handler.BookStore.AddBook` | src/handler.js:5-83 | a missing or empty name gives 400 with the store unchanged; otherwise `readPage > pageCount` gives 400 with the store unchanged; otherwise exactly one new record is appended after the untouched old ones, with the given id, `finished == (pageCount == readPage)` and equal timestamps, and the reply is 201 with the id; the 500 branch is proved unreachable; the store invariant is kept |
| `Handler.BookStore.EditBookById` | src/handler.js:152-222 | name, then `readPage <= pageCount`, are checked before the lookup (so a bad payload for an unknown id gives 400); an unknown id gives 404 with the store unchanged; otherwise only the entry at the first matching index is replaced by its revision, the length is kept, every other index is unchanged, and the reply is 200 |
| `Handler.BookStore.DeleteBookById` | src/handler.js:225-249 | an unknown id gives 404 with the store unchanged; otherwise the store becomes the old one without exactly the element at the first matching index (the rest keep their order) and the reply is 200 |
| `Handler.DeleteThenGetNotFound` | src/handler.js:229-233 | with distinct ids, after the splice the store is one shorter, no record has the id, and get answers 404 |
| `Handler.AddedFinishedBookListed` | src/handler.js:40-59 | in the store after the add, a book added with a fresh id and `readPage == pageCount` is listed under `finished=true` and not under `finished=false` |
| `Utils.TrimStart` | frontend/js/utils.js:50 | the result is a suffix of the input that does not start with white space, and everything dropped is white space |
| `Utils.TrimEnd` | frontend/js/utils.js:50 | the result is a prefix of the input that does not end with white space, and everything dropped is white space |
| `Utils.TrimEmptyIff` | frontend/js/utils.js:50 | a string trims to `''` exactly when all its characters are white space |
| `Utils.ValidateField` | frontend/js/utils.js:47-90 | an unrecognised field name gives null; any error is one of the nine field messages |
| `Utils.TextFieldRule` | frontend/js/utils.js:49-71 | for `name`, `author` and `publisher` the result is an error exactly when the value is missing or blank, and the error is that field's own message |
| `Utils.YearRule` | frontend/js/utils.js:59-66 | `year` is an error exactly when it is not a number in 1000..2100; a falsy value (0 included) gives the "empty" message, a truthy one out of range the "invalid" message; both bounds are valid |
| `Utils.PageCountRule` | frontend/js/utils.js:72-76 | `pageCount` is an error exactly when it is not a number of at least 1, and the error is the "more than 0" message |
| `Utils.ReadPageRule` | frontend/js/utils.js:77-87 | `readPage` is checked in order: absent or `''`, then negative, then above a given `pageCount`; otherwise null, so 0 is valid unless the page count is negative |
| `Utils.ReadPageNaNAccepted` | frontend/js/utils.js:77-87 | a `NaN` read page (what `parseInt` makes of an empty input) passes every check |
| `Utils.TruncateText` | frontend/js/utils.js:120-123 | a text no longer than `maxLength` is returned unchanged; a longer one becomes its first `maxLength` characters (none when negative) followed by `"..."`; the result is never longer than `maxLength + 3` |
| `Utils.TruncateIdempotent` | frontend/js/utils.js:120-123 | truncating an already truncated text changes nothing |

## Left out

- The hapi plumbing (`request.payload`, `request.params`, `h.response`, `response.code`) is reduced to parameters and the `Reply` datatype.
- `nanoid(16)` and `new Date().toISOString()` are parameters. Add requires a fresh id, in place of nanoid's probabilistic uniqueness.
- `src/books.js` is not part of this model. The store is assumed to start empty (`BookStore.constructor`).
- Query flags: `!!Number(reading)` and `!!Number(finished)` are modelled as an already decoded `Option<bool>`. The string-to-number coercion is not modelled.
- Payload types: JavaScript type mixing is not modelled. A non-string `name` would make `toLowerCase` throw. A `null` page count compares as 0. `NaN` and floating-point page numbers are not modelled either. Payload numbers are integers and an absent property is `undefined`.
- `Text.ToLower`: only ASCII letters are lower-cased. JavaScript's full Unicode case mapping is not modelled.
- `Text.LowerChar`: a non-ASCII capital such as 'Ä' is kept unchanged, whereas JavaScript's `toLowerCase` lower-cases it.
- `Utils.TruncateText`: lengths count Dafny characters, not UTF-16 code units.
- `Utils.ValidateField`: a value is assumed to have the kind the form code passes: a trimmed string for text fields, and a `parseInt` result for numeric fields (plus `''` for `readPage`). Other kinds would throw on `.trim()` or use JavaScript coercions, which are not modelled.
- Concurrency: none. Handlers run one at a time, as on Node's single thread.
- `frontend/js/app.js` and `frontend/js/components.js` are fetch calls, DOM and UI code. They are not part of this model.
- Other parts of `frontend/js/utils.js` are not part of this model:
  - `debounce`: timers;
  - `formatDate`: locale formatting;
  - `sanitizeHTML`, `showElement`, `hideElement`, `scrollToTop`: DOM;
  - `calculateProgress`: floating-point division and rounding.
