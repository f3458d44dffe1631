/** Decoded JSON documents, as `json.load` and `json.loads` hand them to
    the program. Numbers are kept as exact reals. */
module JsonValue {
  datatype Json =
    | JNull
    | JBool(truth: bool)
    | JNum(num: real)
    | JStr(str: string)
    | JList(items: seq<Json>)
    | JObject(fields: map<string, Json>)
}
