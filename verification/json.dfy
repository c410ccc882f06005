/** The JSON-compatible values that the serialisers build and `jsonify` encodes. */
module Json {

  datatype Value =
    | Null
    | Int(n: int)
    | Str(s: string)
    | Array(items: seq<Value>)
    | Object(fields: map<string, Value>)
}
