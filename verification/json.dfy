/** JSON values as they travel in the controller's message payloads and
    as they are stored in the per-key files. */
module Json {

  /** A JSON value. Objects are association lists in the order that
      JavaScript's `Object.keys` enumerates them. */
  datatype Json =
    | JNull
    | JBool(b: bool)
    | JNum(n: real)
    | JStr(s: string)
    | JArr(items: seq<Json>)
    | JObj(fields: seq<(string, Json)>)

  /** A JavaScript plain object: its own enumerable properties, in order. */
  type Obj = seq<(string, Json)>

  /** JavaScript truthiness of a JSON value: `null`, `false`, `0` and the
      empty string are falsy; every array and object is truthy. */
  predicate Truthy(v: Json) {
    match v
    case JNull => false
    case JBool(b) => b
    case JNum(n) => n != 0.0
    case JStr(s) => s != ""
    case JArr(_) => true
    case JObj(_) => true
  }
}
