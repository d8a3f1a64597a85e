/** JSON values. Numbers are integers, which is all the modelled fields use. */
module Json {
  datatype Json =
    | Null
    | Bool(b: bool)
    | Number(n: int)
    | Str(s: string)
    | Array(items: seq<Json>)
    | Object(fields: map<string, Json>)
}
