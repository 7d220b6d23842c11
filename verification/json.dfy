/** The untyped values the remote feed returns once its JSON body is decoded.
    A raw record is a `JObject`; anything else in the `records` list is a
    value that fails validation. */
module Json {

  datatype Json =
    | JNull
    | JBool(b: bool)
    | JInt(i: int)
    | JFloat(x: real)
    | JString(s: string)
    | JArray(items: seq<Json>)
    | JObject(fields: map<string, Json>)
}
