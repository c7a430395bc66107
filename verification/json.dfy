/**
 * A JSON document after byte-level parsing: the input the feed decoder
 * walks. Numbers are kept as exact decimals (`real`); objects are keyed
 * by member name, and duplicate member names are already resolved.
 */
module Json {

  datatype Json =
    | JNull
    | JBool(b: bool)
    | JNumber(n: real)
    | JString(s: string)
    | JArray(elems: seq<Json>)
    | JObject(fields: map<string, Json>)
}
