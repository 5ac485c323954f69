/** JSON values as they are passed through the API-key configuration, with Python's truthiness. */
module Json {

  /** A decoded JSON document (numbers as reals). */
  datatype JsonValue =
    | JNull
    | JBool(b: bool)
    | JNumber(n: real)
    | JString(s: string)
    | JArray(items: seq<JsonValue>)
    | JObject(members: map<string, JsonValue>)

  /** Python truthiness of the decoded value: null, false, zero, "" and empty containers are falsy. */
  predicate Truthy(j: JsonValue) {
    match j
    case JNull => false
    case JBool(b) => b
    case JNumber(n) => n != 0.0
    case JString(s) => s != []
    case JArray(items) => items != []
    case JObject(members) => members != map[]
  }

  /** The values a field typed `dict | None` accepts: an object or null. */
  predicate IsObjectOrNull(j: JsonValue) {
    j.JObject? || j.JNull?
  }

  /** The empty object `{}`. */
  const EmptyObject: JsonValue := JObject(map[])
}
