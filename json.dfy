/**
 * The JSON values a vision reply can carry, with Python's truthiness. Numbers,
 * booleans and nested objects are abstracted to whether they are truthy.
 */
module Json {

  datatype Value =
    | Null
    | Str(s: string)
    | List(items: seq<Value>)
    | Other(truthy: bool)

  /** A decoded top-level JSON object, as a Python dict. */
  type Object = map<string, Value>

  /** `bool(v)` in Python. */
  predicate Truthy(v: Value) {
    match v
    case Null => false
    case Str(s) => s != []
    case List(items) => items != []
    case Other(t) => t
  }
}
