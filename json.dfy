/** JSON values, as they travel in request bodies and in parsed response bodies. */
module Json {

  /** Numbers are whole numbers here; floating point is not modelled. */
  datatype Json =
    | JNull
    | JBool(b: bool)
    | JNumber(n: int)
    | JString(s: string)
    | JArray(items: seq<Json>)
    | JObject(members: seq<(string, Json)>)

  /** The empty object `{}`. */
  const EmptyObject: Json := JObject([])
}
