/** JSON values as Go's encoding/json decodes them into interface{}. Numbers are float64 in the
    source and mathematical reals here. */
module Json {
  datatype Json =
    | Null
    | Bool(b: bool)
    | Num(n: real)
    | Str(s: string)
    | Arr(items: seq<Json>)
    | Obj(fields: map<string, Json>)
}
