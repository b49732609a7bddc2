/** JSON values, as `serde_json::Value` has them. Numbers are kept as their text. */
module JsonModel {
  datatype Json =
    | Null
    | Bool(b: bool)
    | Num(digits: string)
    | Str(text: string)
    | Arr(items: seq<Json>)
    | Obj(fields: map<string, Json>)
}
