# Book collection service: a Dafny model of its request handlers

The service keeps a collection of book records in one JSON file and exposes
five HTTP operations on it: create (`POST /books`), list (`GET /books`), get
by id (`GET /books/:id`), update (`PUT /books/:id`) and delete
(`DELETE /books/:id`). Create, update and delete load the whole collection,
edit it in memory, and on success write the whole collection back; create
validates the payload before it loads anything. List and get only load the
collection and never write it.

This project models the handlers in `routes.js` and proves what they promise.

- `js_values.dfy` (module `JsValues`): the JavaScript values a JSON body can
  hold, with `undefined` for a missing property. It gives explicit
  truthiness (`Truthy`), `typeof` (`TypeOf`) and strict equality
  (`StrictEq`). A book record is a `map<string, Value>`.
- `validation.dfy` (module `Validation`): `validateBookData`. All six
  properties `book_id`, `title`, `author`, `genre`, `year` and `copies` must be
  truthy, and `year` and `copies` must be numbers. So `year: 0`, `copies: 0`
  and an empty title are all rejected.
- `collection.dfy` (module `Collection`): the array operations the handlers
  use. `some` becomes `AnyHasId`, `find` becomes `Find` and `findIndex`
  becomes `FindIndex`, all as loops. `splice(i, 1)` becomes `RemoveAt` and
  `{...existing, ...patch}` becomes `Merge`. `FindIndex` and `Find` are
  proved against the specification function `FirstIndex`, and `AnyHasId`
  against the predicate `Contains`. All of them compare a record's
  `book_id`, which `Id` reads as `Get(book, "book_id")`. The lemmas cover the two
  collection invariants: ids are unique (no two are `===`), and every record
  is valid.
- `routes.dfy` (module `Routes`): the class `BookStore`. Its field `books`
  stands for the backing file. Reading the field is `readBooks()` and
  assigning it is `writeBooks(books)`. Each handler is a method that returns
  a `Response`: `Created`, `Ok` (one book, all books, or a message),
  `BadRequest` or `NotFound`. Each failure path leaves `books` unchanged.
  `ExampleSession` goes through a typical exchange: create `b1`, get
  it, create it again (refused), patch `copies`, delete it, get it again
  (404). Every step is asserted from the handlers' contracts and the
  collection lemmas.

Behaviour of the code that a reader may not expect:

- `book_id` only has to be truthy. A number, `true` or an object passes
  validation, even though it is described as a string.
- A route id is always a string. A record whose `book_id` is a number can
  be created, but get, update and delete can never reach it.
- `===` compares objects by identity. So a record whose `book_id` is an
  object is never seen as a duplicate; `AppendedIdIsTaken` needs the id not
  to be an object.
- Update makes no uniqueness check, so it can give two records the same id
  (`UpdateCanDuplicateIds`). Create and delete keep ids unique in
  the `===` sense only: two records whose ids are objects are never `===`,
  so such a collection counts as unique even when the ids look alike.
- When ids are duplicated, delete removes only the first match, and later
  records with that id stay (`RemoveFirstMatchKeepsLater`).

## Model

| member | source | states |
|---|---|---|
| `Validation.ValidateBookData` | routes.js:6-21 | true exactly when every one of the six required properties is present and truthy and both `year` and `copies` are numbers |
| `Validation.ValidShape` | routes.js:6-21 | a valid record has non-zero numeric `year` and `copies`, and no required property is missing, `null`, `false`, `0` or `""` |
| `Validation.FalsyValuesRejected` | routes.js:7-16 | a `year` or `copies` of 0, or any required property equal to the empty string, makes the record invalid |
| `Validation.NumericStringsRejected` | routes.js:17-19 | a string `year` or `copies` is rejected: there is no type coercion |
| `JsValues.StrictEqString` | routes.js:62 | a record's id is `===` to the route's string parameter exactly when it is that string |
| `JsValues.StrictEqProperties` | routes.js:35 | `===` is symmetric and relates only equal values |
| `JsValues.Get` | routes.js:8-13 | a property the object has reads as its value; a missing one reads as `undefined`, which is falsy and of type "undefined" |
| `JsValues.Truthy` | routes.js:8-13 | falsy exactly for `""`, `0`, `false`, `null` and `undefined`; every other value, including every object or array, is truthy |
| `JsValues.TypeOf` | routes.js:17 | one of the five type names; "number" exactly for numbers, "object" exactly for `null` and objects or arrays |
| `JsValues.StrictEq` | routes.js:35-103 | `a === b` holds exactly when the values are equal and are not an object or array (those compare by identity) |
| `Collection.HasId` | routes.js:35-103 | the callback `b.book_id === key` holds exactly when the record's `book_id` equals the key and the key is not an object or array |
| `Routes.Response.Status` | routes.js:29-106 | a response's status is one of 200, 201, 400, 404: 201 exactly for a created record, 400 exactly for a bad request, 404 exactly for not found |
| `Collection.FirstIndex` | routes.js:78 | the result is -1 exactly when no record has the id; otherwise it is an index whose record has the id and no earlier record has it |
| `Collection.FindIndex` | routes.js:78 | the left-to-right scan returns the first matching index, or -1 (equal to `FirstIndex`) |
| `Collection.Find` | routes.js:62 | returns nothing exactly when no record has the id, and otherwise the record at the first matching index |
| `Collection.AnyHasId` | routes.js:35 | true exactly when some record of the collection has `book_id === key` |
| `Collection.RemoveAt` | routes.js:109 | the result is one shorter; records before the index are unchanged and records after it move down one place, keeping their order |
| `Collection.Merge` | routes.js:84 | the merged record has the keys of both; every key of the patch takes the patch's value, and every other key keeps the existing value (absent stays `undefined`) |
| `Collection.AppendKeepsIdsUnique` | routes.js:35-39 | appending a record whose id no record has keeps the ids unique |
| `Collection.AppendedIsFirstMatch` | routes.js:39 | after appending a record with string id `s` that no record had, a lookup by `s` finds the appended record |
| `Collection.AppendedIdIsTaken` | routes.js:35-36 | once a record with a non-object id has been appended, that id counts as taken for the next create |
| `Collection.RemoveKeepsIdsUnique` | routes.js:109 | removing a record from a collection with unique ids leaves the ids unique |
| `Collection.RemoveKeepsAllValid` | routes.js:109 | removing a record from a collection of valid records leaves only valid records |
| `Collection.RemoveFirstMatchLeavesNone` | routes.js:103-109 | with unique ids, once the first match is removed no record has that id, so a later get returns not found |
| `Collection.RemoveFirstMatchKeepsLater` | routes.js:103-109 | without unique ids, a later record with the same id survives the removal, one place down, and is still found |
| `Routes.BookStore.constructor` | server.js:32-40 | the store starts with the given collection as the file's content |
| `Routes.BookStore.Create` | routes.js:24-46 | An invalid payload gets "Invalid book data" whatever the collection holds. A valid payload with a taken id gets "Book ID already exists". Both failures leave the collection unchanged. Otherwise the payload is appended at the end and returned with status 201. Validity of all records is kept, and so is uniqueness of ids in the `===` sense (object ids are never `===`, so they never clash). |
| `Routes.BookStore.List` | routes.js:49-56 | returns 200 with the collection as loaded, and changes nothing |
| `Routes.BookStore.Get` | routes.js:59-72 | returns "Book not found" when no record has the string id, otherwise the first matching record; never changes the collection |
| `Routes.BookStore.Update` | routes.js:75-97 | With no match: "Book not found" and no change. If the merged record is invalid: "Invalid book data" and no change. Otherwise exactly the first matching index is replaced with the merged record, which is returned. Validity of all records is kept. |
| `Routes.BookStore.Delete` | routes.js:100-116 | With no match: "Book not found" and no change. Otherwise exactly the first matching record is spliced out and the success message is returned. Validity and uniqueness are kept. |
| `Routes.UpdateCanDuplicateIds` | routes.js:84-90 | a concrete valid patch of the record that a lookup by "b" finds (index 1) turns a collection with unique ids into one with a duplicated id: update does not keep the uniqueness invariant |

## Left out

- File storage (`server.js`): creating the data directory and the empty file at startup, and reading and writing the file with `JSON.parse` and `JSON.stringify`. These are modelled only as reading and assigning `BookStore.books`. So the JSON round-trip stability of `writeBooks` followed by `readBooks` is not modelled.
- The `catch` branches that answer 500 "Internal server error". With Express 4, whose JSON parser leaves the body as `{}` when there is none, these fire only on storage or parse faults, and those are not modelled. The model assumes Express 4.
- A request with no JSON body under Express 5: there `req.body` stays undefined, so reading `book.book_id` throws and create answers 500. In the model the nearest input is the empty map, which gets 400 "Invalid book data".
- Express: routing, the `req`/`res` objects, the JSON body parser, the `PORT` environment variable and `listen`. Handlers take the route id and the parsed body as parameters and return the response as a value.
- Concurrent requests: the awaits in a handler can interleave, which can lose an update. The model runs one handler at a time.
- JavaScript number semantics: floats, `NaN` and `-0` are not modelled, and numbers are unbounded integers.
- The order of properties inside a record: a record is a map, so `JSON.stringify`'s key order is not captured.
- Request bodies that are JSON arrays rather than objects: a body is always an object (a map).
- Object identity: an object or array value is treated as never `===` to anything, which holds because the compared values always come from separately parsed documents.
- Histories of many requests (for example, that list returns the created records not yet deleted): these follow by chaining the per-handler contracts, as `ExampleSession` does, but no general lemma over request sequences is stated.
