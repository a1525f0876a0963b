# Personal library book store, modelled in Dafny

This project models the in-memory store behind the service's `/api/books` routes. The store is one ordered
table of books (`{_id, title, comments}`). Six request handlers act on it: list, create and delete-all on
`/api/books`, and get, add-comment and delete on `/api/books/:id`.

- `api.dfy`, module `Api`. The data model is the datatypes `Book`, `Summary`, `Payload` and `Reply`, with the
  five reply strings as constants. The class `BookStore` has a single field `books: seq<Book>` and one method per
  handler. Its invariant `Valid()` says that ids are pairwise distinct and that every title is non-empty.
  The pure functions `Summaries` (the listing) and `Without` (removal by id, used as the reference for delete)
  come with the lemmas that connect the in-place splice to `Without`.
- `functional_tests.dfy`, module `FunctionalTests`. Client scenarios built on the functional tests, some of them
  extended, run on any valid store. Their postconditions follow from the handlers' contracts alone.

Replies: a handler that sends a bare JSON string, whether an error message or an acknowledgement such as
`"delete successful"`, returns `Msg(text)`. A handler that sends an object or an array returns `Ok(payload)`.
Request fields are `Option<string>`. A field is missing when it is absent or the empty string.
The id that `uuidv4()` would produce is passed to `Create` as `freshId`, with the precondition that no stored book
already has it.

The store is an ordered array searched linearly by id. A title is stored as given and never trimmed, so `"  "`
is a valid title.

## Model

| member | source | states |
|---|---|---|
| Api.BookStore.constructor | routes/api.js:4 | the store starts empty and satisfies the invariant (distinct ids, non-empty titles) |
| Api.Summaries | routes/api.js:12-16 | exactly one summary per book, in store order, each with that book's id, title and comment count |
| Api.BookStore.List | routes/api.js:10-18 | the reply is a listing with one entry per stored book, in order, whose commentcount is the live length of that book's comments; the store is not modified |
| Api.BookStore.Create | routes/api.js:20-40 | missing or empty title: reply "missing required field title" and the store is unchanged; otherwise exactly one book with the fresh id, the title and no comments is appended at the end, the reply is `{_id, title}`, and ids stay distinct |
| Api.BookStore.DeleteAll | routes/api.js:42-46 | the store becomes empty and the reply is "complete delete successful" |
| Api.BookStore.FindIndex | routes/api.js:88 | returns the index of the first book with the id, or -1 exactly when no book has it; `Get` and `AddComment` also use it for the `books.find` lookups at lines 52 and 72 |
| Api.BookStore.Get | routes/api.js:50-61 | unknown id: reply "no book exists"; otherwise the matching book's id, title and full comments; the store is not modified |
| Api.BookStore.AddComment | routes/api.js:63-84 | a missing comment is reported before the id is looked up, whatever the id; unknown id: "no book exists" and the store is unchanged; otherwise only the matching book changes, by appending the comment after its earlier comments, with id and title kept, and the reply holds the updated comments |
| Api.BookStore.Delete | routes/api.js:86-100 | unknown id: "no book exists" and the store is unchanged; otherwise "delete successful" and the store equals the old one without that id; afterwards no book has the id |
| Api.Without | routes/api.js:96 | reference removal: a book is kept exactly when it was stored and its id differs from the one removed |
| Api.WithoutAbsent | routes/api.js:91-93 | removing an id no book carries leaves the table as it is |
| Api.SpliceIsWithout | routes/api.js:96 | when ids are distinct, splicing out the matching index equals the reference removal, so the remaining books keep their relative order |
| Api.SpliceKeepsDistinct | routes/api.js:96 | after the splice, ids stay distinct and the removed id is absent |
| FunctionalTests.CreateThenGet | tests/2_functional-tests.js:95-113 | creating a book and then getting its id returns that id, the title and an empty comment list |
| FunctionalTests.CreateWithoutTitle | tests/2_functional-tests.js:50-59 | an absent or empty title is answered with "missing required field title" and nothing is stored |
| FunctionalTests.CreateThenList | tests/2_functional-tests.js:65-79 | after creating a book, the create reply is `{_id, title}` as the test at lines 37-48 checks, and the listing has one more entry than before, the last with that id, that title and commentcount 0 |
| FunctionalTests.CommentTwice | tests/2_functional-tests.js:119-138 | extends the single-comment test to two comments: posting "nice" and then "great" to a new book gives the comment lists ["nice"] and then ["nice", "great"] |
| FunctionalTests.CommentMissing | tests/2_functional-tests.js:140-156 | an absent or empty comment gives "missing required field comment" for any id, and the store is unchanged |
| FunctionalTests.UnknownId | tests/2_functional-tests.js:85-93 | also covers the unknown-id tests at tests/2_functional-tests.js lines 158-167 and 190-198: for an unknown id, get, add-comment and delete all reply "no book exists" and leave the store unchanged |
| FunctionalTests.DeleteThenGet | tests/2_functional-tests.js:173-188 | extends the delete test: create then delete replies "delete successful"; a later get and a second delete both reply "no book exists"; the store is back where it started |
| FunctionalTests.DeleteAllThenList | routes/api.js:42-46 | after delete-all, the listing is empty |

## Left out

- The HTTP layer is not modelled: routing, body parsing, JSON serialisation and status codes. Every reply in the source is a 200 response, and a `Reply` value stands for its body. The 404 fallback for unmatched routes is not modelled either.
- server.js is not modelled. It is framework wiring: static files, CORS, the listener, the database connection and the timed test-runner launch.
- The internals of `uuidv4` are not modelled because it is a foreign library. Its output is the `freshId` parameter.
- Api.BookStore.Create: requires the fresh id even when the title is missing and no id would be generated. The precondition stands for the generator's uniqueness guarantee, not for anything the caller supplies.
- JavaScript truthiness beyond absent or empty strings is not modelled (`0`, `false`, `null`, non-string titles or comments), because the fields are typed as strings.
- A comment added with `push` changes the stored book object in place. Here that book's value is replaced in the sequence instead. A reply object that shares the comments array with the store is not modelled: the reply is serialised at once, so the sharing cannot be observed.
- Api.BookStore.Get: `find` returns the first match. The postcondition relies on the invariant that ids are distinct, so any match is the only one. `FindIndex` still states the first-match property.
- Api.BookStore.AddComment: `find` returns the first match, and its postcondition describes the update for every index whose id matches. This also relies on the invariant that ids are distinct, so exactly one book is updated.
- Concurrency is not modelled. Node runs each handler to completion, so handlers run one after another.
