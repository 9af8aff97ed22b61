/** The slice of JavaScript value semantics that the book routes rely on:
    truthiness (`!x`), `typeof`, strict equality (`===`) and property reads
    on a JSON-decoded object. */
module JsValues {

  /** A value as `JSON.parse` (or Express's JSON body parser) produces it,
      plus `undefined`, which is what reading a missing property yields.
      Numbers are modelled as integers. */
  datatype Value =
    | Str(s: string)
    | Num(n: int)
    | Bool(b: bool)
    | Null
    | Undefined
    | Other  // a nested object or an array

  /** A book record (or a request body): a JSON object, keyed by property name. */
  type Book = map<string, Value>

  /** `obj[key]`: a property the object does not have reads as `undefined`. */
  function Get(obj: Book, key: string): (v: Value)
    ensures key in obj ==> v == obj[key]
    ensures key !in obj ==> v == Undefined && !Truthy(v) && TypeOf(v) == "undefined"
  {
    if key in obj then obj[key] else Undefined
  }

  /** JavaScript truthiness: `""`, `0`, `false`, `null` and `undefined` are
      falsy; every other string and number, `true`, and every object or
      array are truthy. */
  function Truthy(v: Value): (t: bool)
    ensures !t <==> v in {Str(""), Num(0), Bool(false), Null, Undefined}
  {
    match v
    case Str(s) => s != ""
    case Num(n) => n != 0
    case Bool(b) => b
    case Null => false
    case Undefined => false
    case Other => true
  }

  /** The `typeof` operator (note that `typeof null` is "object"). */
  function TypeOf(v: Value): (t: string)
    ensures t in {"string", "number", "boolean", "object", "undefined"}
    ensures t == "number" <==> v.Num?
    ensures t == "object" <==> v.Null? || v.Other?
  {
    match v
    case Str(_) => "string"
    case Num(_) => "number"
    case Bool(_) => "boolean"
    case Null => "object"
    case Undefined => "undefined"
    case Other => "object"
  }

  /** `a === b`. Objects and arrays compare by identity; the values compared
      by the routes always come from separately parsed documents, so an
      object or array is never strictly equal to anything. */
  function StrictEq(a: Value, b: Value): (eq: bool)
    ensures eq <==> a == b && !a.Other?
  {
    match (a, b)
    case (Str(x), Str(y)) => x == y
    case (Num(x), Num(y)) => x == y
    case (Bool(x), Bool(y)) => x == y
    case (Null, Null) => true
    case (Undefined, Undefined) => true
    case _ => false
  }

  /** `===` against a string is plain equality of values. */
  lemma StrictEqString(v: Value, s: string)
    ensures StrictEq(v, Str(s)) <==> v == Str(s)
  {
  }

  /** `===` is symmetric, and it relates only equal values. */
  lemma StrictEqProperties(a: Value, b: Value)
    ensures StrictEq(a, b) <==> StrictEq(b, a)
    ensures StrictEq(a, b) ==> a == b
  {
  }
}
