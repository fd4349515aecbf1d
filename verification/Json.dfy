/** JSON values, as `serde_json::Value` without the `preserve_order` feature: an
    object is a map, and iterating one visits its keys in ascending order. */
module Json {
  import opened Base

  datatype Json =
    | Null
    | Bool(b: bool)
    | Number(n: int)
    | String(s: string)
    | Array(items: seq<Json>)
    | Object(fields: map<string, Json>)
  {
    /** `Value::get` with a string key: absent on anything but an object. */
    function Get(key: string): Option<Json> {
      if Object? && key in fields then Some(fields[key]) else None
    }

    /** `Value::as_str`. */
    function AsStr(): Option<string> {
      if String? then Some(s) else None
    }
  }
}
