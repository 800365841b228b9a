/**
 * The JSON values QJsonDocument hands out, as an abstract tree. Text parsing
 * and printing are library code and are not modelled: a document arrives
 * already parsed, or as the parser's error.
 */
module JsonValue {
  datatype Json =
    | JNull
    | JBool(b: bool)
    | JNumber(n: real)
    | JString(s: string)
    | JArray(items: seq<Json>)
    | JObject(fields: map<string, Json>)

  /** An outcome that may be an error message (a thrown QString in the source). */
  datatype Result<T> = Success(value: T) | Failure(error: string)

  /** obj[key].toString(): the string held under `key`, or "" when it is missing or not a string. */
  function StringField(fields: map<string, Json>, key: string): (s: string)
  {
    if key in fields && fields[key].JString? then fields[key].s else ""
  }
}
