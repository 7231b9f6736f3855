/** JSON values, as the configuration and the Lua host handle them. */
module JsonValue {

  /** A JSON value; numbers are compared by value, as nlohmann::json does. */
  datatype Json =
    | Null
    | Bool(b: bool)
    | Num(n: real)
    | Str(s: string)
    | Arr(items: seq<Json>)
    | Obj(fields: map<string, Json>)
}
