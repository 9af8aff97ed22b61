/** The array operations the routes apply to the loaded collection:
    `some`, `find` and `findIndex` keyed on `book_id`, `splice(i, 1)`, and
    the shallow merge `{...existing, ...patch}`; with the specification
    functions they are proved against and the lemmas about them. */
module Collection {
  import opened JsValues
  import opened Validation

  datatype Option<T> = None | Some(value: T)

  /** `book.book_id` */
  function Id(book: Book): (v: Value)
  {
    Get(book, "book_id")
  }

  /** The callback the routes hand to `some`, `find` and `findIndex`:
      `book.book_id === key`. */
  function HasId(book: Book, key: Value): (matches: bool)
    ensures matches <==> Id(book) == key && !key.Other?
  {
    StrictEq(Id(book), key)
  }

  /** Some record of the collection has `book_id === key`. */
  predicate Contains(books: seq<Book>, key: Value)
  {
    exists j :: 0 <= j < |books| && HasId(books[j], key)
  }

  /** No two records of the collection have strictly equal ids. */
  predicate IdsUnique(books: seq<Book>)
  {
    forall i, j :: 0 <= i < j < |books| ==> !StrictEq(Id(books[i]), Id(books[j]))
  }

  /** Every record of the collection passes `validateBookData`. */
  predicate AllValid(books: seq<Book>)
  {
    forall i :: 0 <= i < |books| ==> ValidateBookData(books[i])
  }

  /** The index `findIndex` reports: that of the first record whose id is
      `key`, or -1 when there is none. */
  function FirstIndex(books: seq<Book>, key: Value): (r: int)
    ensures -1 <= r < |books|
    ensures r == -1 <==> !Contains(books, key)
    ensures 0 <= r ==> HasId(books[r], key) && forall j :: 0 <= j < r ==> !HasId(books[j], key)
  {
    if |books| == 0 then -1
    else if HasId(books[0], key) then 0
    else
      var k := FirstIndex(books[1..], key);
      assert forall j :: 1 <= j < |books| ==> books[j] == books[1..][j - 1];
      if k == -1 then -1 else k + 1
  }

  /** `books.findIndex((b) => b.book_id === key)`: a left-to-right scan. */
  method FindIndex(books: seq<Book>, key: Value) returns (i: int)
    ensures i == FirstIndex(books, key)
  {
    i := 0;
    while i < |books|
      invariant 0 <= i <= |books|
      invariant forall j :: 0 <= j < i ==> !HasId(books[j], key)
    {
      if HasId(books[i], key) {
        return;
      }
      i := i + 1;
    }
    i := -1;
  }

  /** `books.find((b) => b.book_id === key)`: the first matching record, or
      `undefined` (here `None`) when there is none. */
  method Find(books: seq<Book>, key: Value) returns (r: Option<Book>)
    ensures r.None? <==> !Contains(books, key)
    ensures r.Some? ==> r.value == books[FirstIndex(books, key)]
  {
    var i := FindIndex(books, key);
    if i == -1 {
      r := None;
    } else {
      r := Some(books[i]);
    }
  }

  /** `books.some((b) => b.book_id === key)`: a scan that stops at the first hit. */
  method AnyHasId(books: seq<Book>, key: Value) returns (found: bool)
    ensures found <==> Contains(books, key)
  {
    var i := 0;
    while i < |books|
      invariant 0 <= i <= |books|
      invariant forall j :: 0 <= j < i ==> !HasId(books[j], key)
    {
      if HasId(books[i], key) {
        return true;
      }
      i := i + 1;
    }
    return false;
  }

  /** `books.splice(i, 1)`: the collection without its `i`-th record, the
      others in their original order. */
  function RemoveAt(books: seq<Book>, i: nat): (r: seq<Book>)
    requires i < |books|
    ensures |r| == |books| - 1
    ensures forall j :: 0 <= j < i ==> r[j] == books[j]
    ensures forall j :: i <= j < |r| ==> r[j] == books[j + 1]
  {
    books[..i] + books[i + 1..]
  }

  /** `{...existing, ...patch}`: every property of the patch, and every
      property of the existing record that the patch does not name. */
  function Merge(existing: Book, patch: Book): (m: Book)
    ensures m.Keys == existing.Keys + patch.Keys
    ensures forall k :: k in patch ==> Get(m, k) == patch[k]
    ensures forall k :: k !in patch ==> Get(m, k) == Get(existing, k)
  {
    existing + patch
  }

  /** Appending a record whose id no record has keeps the ids unique. */
  lemma AppendKeepsIdsUnique(books: seq<Book>, book: Book)
    requires IdsUnique(books)
    requires !Contains(books, Id(book))
    ensures IdsUnique(books + [book])
  {
    var s := books + [book];
    forall i, j | 0 <= i < j < |s|
      ensures !StrictEq(Id(s[i]), Id(s[j]))
    {
      if j == |books| {
        assert !HasId(books[i], Id(book));
      }
    }
  }

  /** Appending a record whose id no record has makes it the one a lookup
      by that id finds. */
  lemma AppendedIsFirstMatch(books: seq<Book>, book: Book, s: string)
    requires Id(book) == Str(s)
    requires !Contains(books, Str(s))
    ensures FirstIndex(books + [book], Str(s)) == |books|
  {
    var t := books + [book];
    assert HasId(t[|books|], Str(s));
    forall j | 0 <= j < |books|
      ensures !HasId(t[j], Str(s))
    {
      assert t[j] == books[j];
    }
  }

  /** Once a record is in the collection, its id is taken: a second create
      with that id finds it. This needs the id not to be an object or an
      array, which is never `===` to a separately parsed copy. */
  lemma AppendedIdIsTaken(books: seq<Book>, book: Book)
    requires !Id(book).Other?
    ensures Contains(books + [book], Id(book))
  {
    var t := books + [book];
    assert HasId(t[|books|], Id(book));
  }

  /** Removing one record keeps the remaining ids unique. */
  lemma RemoveKeepsIdsUnique(books: seq<Book>, i: nat)
    requires i < |books|
    requires IdsUnique(books)
    ensures IdsUnique(RemoveAt(books, i))
  {
    var r := RemoveAt(books, i);
    forall a, b | 0 <= a < b < |r|
      ensures !StrictEq(Id(r[a]), Id(r[b]))
    {
      var a' := if a < i then a else a + 1;
      var b' := if b < i then b else b + 1;
      assert r[a] == books[a'] && r[b] == books[b'];
    }
  }

  /** Removing a record keeps every other record valid. */
  lemma RemoveKeepsAllValid(books: seq<Book>, i: nat)
    requires i < |books|
    requires AllValid(books)
    ensures AllValid(RemoveAt(books, i))
  {
    var r := RemoveAt(books, i);
    forall j | 0 <= j < |r|
      ensures ValidateBookData(r[j])
    {
      if j >= i {
        assert r[j] == books[j + 1];
      }
    }
  }

  /** When ids are unique, removing the record a lookup finds leaves no record
      with that id. */
  lemma RemoveFirstMatchLeavesNone(books: seq<Book>, s: string)
    requires IdsUnique(books)
    requires Contains(books, Str(s))
    ensures !Contains(RemoveAt(books, FirstIndex(books, Str(s))), Str(s))
  {
    var i := FirstIndex(books, Str(s));
    var r := RemoveAt(books, i);
    forall j | 0 <= j < |r|
      ensures !HasId(r[j], Str(s))
    {
      var j' := if j < i then j else j + 1;
      assert r[j] == books[j'];
      StrictEqString(Id(books[i]), s);
      assert Id(books[i]) == Str(s);
      if j' < i {
        assert !StrictEq(Id(books[j']), Id(books[i]));
      } else {
        assert !StrictEq(Id(books[i]), Id(books[j']));
        StrictEqProperties(Id(books[i]), Id(books[j']));
      }
    }
  }

  /** Without unique ids, removing the first match leaves any later record
      with the same id in place, and a lookup finds it. */
  lemma RemoveFirstMatchKeepsLater(books: seq<Book>, s: string, j: nat)
    requires j < |books|
    requires HasId(books[j], Str(s))
    requires FirstIndex(books, Str(s)) < j
    ensures Contains(RemoveAt(books, FirstIndex(books, Str(s))), Str(s))
    ensures RemoveAt(books, FirstIndex(books, Str(s)))[j - 1] == books[j]
  {
    var r := RemoveAt(books, FirstIndex(books, Str(s)));
    assert r[j - 1] == books[j];
    assert HasId(r[j - 1], Str(s));
  }
}
