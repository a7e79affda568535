/**
 * A JSON document tree, as `serde_json::Value` holds it. Objects are maps from
 * keys to values (serde_json's default map keeps each key once); numbers are
 * integers only.
 */
module Json {

  datatype Json =
    | Null
    | Bool(b: bool)
    | Num(n: int)
    | Str(s: string)
    | Arr(items: seq<Json>)
    | Obj(fields: map<string, Json>)
}
