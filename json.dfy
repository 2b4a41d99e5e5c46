/**
 * JSON values as `serde_json::Value` holds them, and the accessors the client uses on them.
 * Parsing text into a value is not modelled here: wherever the source calls
 * `serde_json::from_str`, the model takes a parse function as a parameter.
 */
module Json {
  import opened Wrappers

  /** A JSON value. Numbers are kept as integers; objects map each key to one value. */
  datatype Json =
    | Null
    | Bool(b: bool)
    | Number(n: int)
    | Str(s: string)
    | Array(items: seq<Json>)
    | Object(fields: map<string, Json>)

  /** `Value::get(key)`: the field of an object, None for a missing key or a non-object. */
  function Get(j: Json, key: string): (r: Option<Json>)
    ensures r.Some? <==> j.Object? && key in j.fields
  {
    if j.Object? && key in j.fields then Some(j.fields[key]) else None
  }

  /** `value[key]`: like `Get`, but Null where `Get` gives None. */
  function Index(j: Json, key: string): (r: Json)
    ensures Get(j, key).Some? ==> r == Get(j, key).value
    ensures Get(j, key).None? ==> r == Null
  {
    match Get(j, key)
    case Some(v) => v
    case None => Null
  }

  /** `Value::as_str`. */
  function AsStr(j: Json): Option<string> {
    if j.Str? then Some(j.s) else None
  }

  /** `Value::as_bool`. */
  function AsBool(j: Json): Option<bool> {
    if j.Bool? then Some(j.b) else None
  }

  /** `get(key).and_then(|v| v.as_array())`: the items of an array field. */
  function ArrayField(j: Json, key: string): (r: Option<seq<Json>>)
    ensures r.Some? <==> Get(j, key).Some? && Get(j, key).value.Array?
    ensures r.Some? ==> Get(j, key) == Some(Array(r.value))
  {
    match Get(j, key)
    case Some(Array(items)) => Some(items)
    case _ => None
  }
}
