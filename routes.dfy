/** The five request handlers of the book service, as methods on a store
    that holds the backing file's collection. Create, update and delete load
    the collection, edit it in memory and, on success, write it back (create
    validates the payload before loading); list and get only load it. */
module Routes {
  import opened JsValues
  import opened Validation
  import opened Collection

  const InvalidBookData := "Invalid book data"
  const BookIdExists := "Book ID already exists"
  const BookNotFound := "Book not found"
  const BookDeleted := "Book deleted successfully"

  /** The JSON body of a 200 response. */
  datatype Body =
    | OneBook(book: Book)
    | AllBooks(books: seq<Book>)
    | Message(message: string)

  /** A handler's response: 201, 200, 400 or 404, with its JSON body. */
  datatype Response =
    | Created(book: Book)
    | Ok(body: Body)
    | BadRequest(error: string)
    | NotFound(error: string)
  {
    /** The HTTP status code the handler sets: 201 only for a created
        record, 400 and 404 for the two kinds of refusal, 200 otherwise. */
    function Status(): (code: int)
      ensures code in {200, 201, 400, 404}
      ensures code == 201 <==> Created?
      ensures code == 400 <==> BadRequest?
      ensures code == 404 <==> NotFound?
    {
      match this
      case Created(_) => 201
      case Ok(_) => 200
      case BadRequest(_) => 400
      case NotFound(_) => 404
    }
  }

  /** The backing file `data/books.json`. `books` is its content; reading it
      is `readBooks()`, assigning it is `writeBooks(books)`. */
  class BookStore {
    var books: seq<Book>

    constructor (initial: seq<Book>)
      ensures books == initial
    {
      books := initial;
    }

    /** POST /books. The payload is validated before the collection is read;
        a payload whose id some record already has is refused; otherwise it
        is appended. Both store invariants (all records valid, ids unique)
        are kept. */
    method Create(payload: Book) returns (r: Response)
      modifies this
      ensures !ValidateBookData(payload) ==>
        r == BadRequest(InvalidBookData) && books == old(books)
      ensures ValidateBookData(payload) && Contains(old(books), Id(payload)) ==>
        r == BadRequest(BookIdExists) && books == old(books)
      ensures ValidateBookData(payload) && !Contains(old(books), Id(payload)) ==>
        r == Created(payload) && books == old(books) + [payload]
      ensures AllValid(old(books)) ==> AllValid(books)
      ensures IdsUnique(old(books)) ==> IdsUnique(books)
    {
      if !ValidateBookData(payload) {
        return BadRequest(InvalidBookData);
      }
      var loaded := books;
      var taken := AnyHasId(loaded, Id(payload));
      if taken {
        return BadRequest(BookIdExists);
      }
      assert IdsUnique(loaded) ==> IdsUnique(loaded + [payload]) by {
        if IdsUnique(loaded) {
          AppendKeepsIdsUnique(loaded, payload);
        }
      }
      loaded := loaded + [payload];
      books := loaded;
      r := Created(payload);
    }

    /** GET /books: the collection as loaded. */
    method List() returns (r: Response)
      ensures r.Ok? && r.body == AllBooks(books)
    {
      var loaded := books;
      r := Ok(AllBooks(loaded));
    }

    /** GET /books/:id: the first record whose `book_id` is the string `id`. */
    method Get(id: string) returns (r: Response)
      ensures !Contains(books, Str(id)) ==> r == NotFound(BookNotFound)
      ensures Contains(books, Str(id)) ==> r == Ok(OneBook(books[FirstIndex(books, Str(id))]))
    {
      var loaded := books;
      var found := Find(loaded, Str(id));
      if found.None? {
        return NotFound(BookNotFound);
      }
      r := Ok(OneBook(found.value));
    }

    /** PUT /books/:id: the patch is shallow-merged over the first record with
        that id; the merged record is validated and written in its place. No
        uniqueness check is made (see UpdateCanDuplicateIds). */
    method Update(id: string, patch: Book) returns (r: Response)
      modifies this
      ensures !Contains(old(books), Str(id)) ==>
        r == NotFound(BookNotFound) && books == old(books)
      ensures Contains(old(books), Str(id)) ==>
        var i := FirstIndex(old(books), Str(id));
        var merged := Merge(old(books)[i], patch);
        && (!ValidateBookData(merged) ==> r == BadRequest(InvalidBookData) && books == old(books))
        && (ValidateBookData(merged) ==> r == Ok(OneBook(merged)) && books == old(books)[i := merged])
      ensures AllValid(old(books)) ==> AllValid(books)
    {
      var loaded := books;
      var i := FindIndex(loaded, Str(id));
      if i == -1 {
        return NotFound(BookNotFound);
      }
      var updated := Merge(loaded[i], patch);
      if !ValidateBookData(updated) {
        return BadRequest(InvalidBookData);
      }
      loaded := loaded[i := updated];
      books := loaded;
      r := Ok(OneBook(updated));
    }

    /** DELETE /books/:id: the first record with that id is spliced out. */
    method Delete(id: string) returns (r: Response)
      modifies this
      ensures !Contains(old(books), Str(id)) ==>
        r == NotFound(BookNotFound) && books == old(books)
      ensures Contains(old(books), Str(id)) ==>
        r == Ok(Message(BookDeleted)) && books == RemoveAt(old(books), FirstIndex(old(books), Str(id)))
      ensures AllValid(old(books)) ==> AllValid(books)
      ensures IdsUnique(old(books)) ==> IdsUnique(books)
    {
      var loaded := books;
      var i := FindIndex(loaded, Str(id));
      if i == -1 {
        return NotFound(BookNotFound);
      }
      assert AllValid(loaded) ==> AllValid(RemoveAt(loaded, i)) by {
        if AllValid(loaded) {
          RemoveKeepsAllValid(loaded, i);
        }
      }
      assert IdsUnique(loaded) ==> IdsUnique(RemoveAt(loaded, i)) by {
        if IdsUnique(loaded) {
          RemoveKeepsIdsUnique(loaded, i);
        }
      }
      loaded := RemoveAt(loaded, i);
      books := loaded;
      r := Ok(Message(BookDeleted));
    }
  }

  /** Update may give a record an id another record already has: starting
      from two records with distinct ids, a valid patch of the second record's
      `book_id` leaves a collection whose ids are not unique. */
  lemma UpdateCanDuplicateIds()
    ensures
      var a := map["book_id" := Str("a"), "title" := Str("T"), "author" := Str("A"),
                   "genre" := Str("G"), "year" := Num(2020), "copies" := Num(3)];
      var b := a["book_id" := Str("b")];
      var patch := map["book_id" := Str("a")];
      && IdsUnique([a, b])
      && ValidateBookData(Merge(b, patch))
      && FirstIndex([a, b], Str("b")) == 1
      && !IdsUnique([a, b][1 := Merge(b, patch)])
  {
    var a := map["book_id" := Str("a"), "title" := Str("T"), "author" := Str("A"),
                 "genre" := Str("G"), "year" := Num(2020), "copies" := Num(3)];
    var b := a["book_id" := Str("b")];
    var patch := map["book_id" := Str("a")];
    var s := [a, b][1 := Merge(b, patch)];
    assert Id(s[0]) == Str("a") && Id(s[1]) == Str("a");
  }

  /** A typical exchange: create a record, get it, create it again,
      patch its number of copies, delete it, get it again. */
  method ExampleSession()
  {
    var b1 := map["book_id" := Str("b1"), "title" := Str("T"), "author" := Str("A"),
                  "genre" := Str("G"), "year" := Num(2020), "copies" := Num(3)];
    var store := new BookStore([]);

    var r := store.Create(b1);
    assert Get(b1, "book_id") == Str("b1");
    assert r == Created(b1) && r.Status() == 201;

    AppendedIsFirstMatch([], b1, "b1");
    r := store.Get("b1");
    assert r == Ok(OneBook(b1));

    var again := store.Create(b1);
    AppendedIdIsTaken([], b1);
    assert again == BadRequest(BookIdExists) && store.books == [b1];

    r := store.Update("b1", map["copies" := Num(5)]);
    var b1' := Merge(b1, map["copies" := Num(5)]);
    assert Get(b1', "copies") == Num(5) && Get(b1', "title") == Str("T") && Id(b1') == Str("b1");
    assert r == Ok(OneBook(b1')) && store.books == [b1'];

    assert HasId([b1'][0], Str("b1"));
    r := store.Delete("b1");
    assert r == Ok(Message(BookDeleted)) && store.books == [];

    r := store.Get("b1");
    assert r == NotFound(BookNotFound) && r.Status() == 404;
  }
}
