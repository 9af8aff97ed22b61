/** The record-shape rule applied to a new book and to a merged update. */
module Validation {
  import opened JsValues

  /** The six properties every stored book must carry. */
  const RequiredFields: set<string> := {"book_id", "title", "author", "genre", "year", "copies"}

  /** `validateBookData`: every required property is truthy, and `year` and
      `copies` are of type number. */
  function ValidateBookData(book: Book): (ok: bool)
    ensures ok <==>
      && (forall k :: k in RequiredFields ==> k in book && Truthy(book[k]))
      && Get(book, "year").Num?
      && Get(book, "copies").Num?
  {
    if || !Truthy(Get(book, "book_id"))
       || !Truthy(Get(book, "title"))
       || !Truthy(Get(book, "author"))
       || !Truthy(Get(book, "genre"))
       || !Truthy(Get(book, "year"))
       || !Truthy(Get(book, "copies"))
    then false
    else if TypeOf(Get(book, "year")) != "number" || TypeOf(Get(book, "copies")) != "number" then false
    else true
  }

  /** What a valid record looks like in concrete terms: `year` and `copies`
      are non-zero numbers, and no required property is missing, `null`,
      `false`, `0` or the empty string. */
  lemma ValidShape(book: Book)
    requires ValidateBookData(book)
    ensures Get(book, "year").Num? && Get(book, "year").n != 0
    ensures Get(book, "copies").Num? && Get(book, "copies").n != 0
    ensures forall k :: k in RequiredFields ==>
      k in book && book[k] != Str("") && book[k] != Num(0) && book[k] != Bool(false)
      && book[k] != Null && book[k] != Undefined
  {
  }

  /** Zero counts and empty strings are rejected, even though the property
      is present and of the right type. */
  lemma FalsyValuesRejected(book: Book)
    ensures Get(book, "year") == Num(0) ==> !ValidateBookData(book)
    ensures Get(book, "copies") == Num(0) ==> !ValidateBookData(book)
    ensures forall k :: k in RequiredFields && Get(book, k) == Str("") ==> !ValidateBookData(book)
  {
  }

  /** A numeric string for `year` or `copies` is rejected: there is no coercion. */
  lemma NumericStringsRejected(book: Book, s: string)
    ensures Get(book, "year") == Str(s) ==> !ValidateBookData(book)
    ensures Get(book, "copies") == Str(s) ==> !ValidateBookData(book)
  {
  }
}
