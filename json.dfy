/**
 * The part of a decoded JSON document (serde_json's `Value`) the tools look at.
 * Numbers are kept as integers; no tool here reads a number.
 */
module Json {
  import opened Wrappers

  datatype Json =
    | JNull
    | JBool(b: bool)
    | JNumber(n: int)
    | JString(s: string)
    | JArray(items: seq<Json>)
    | JObject(fields: map<string, Json>)

  /** `v[key]`: the member named `key`, and null when `v` is not an object or has no such member. */
  function Field(v: Json, key: string): Json {
    if v.JObject? && key in v.fields then v.fields[key] else JNull
  }

  /** `v[k0][k1]...`: indexing along a path of member names. */
  function Path(v: Json, keys: seq<string>): Json
    decreases |keys|
  {
    if keys == [] then v else Path(Field(v, keys[0]), keys[1..])
  }

  /** `v.as_str()`. */
  function AsStr(v: Json): Option<string> {
    if v.JString? then Some(v.s) else None
  }

  /** `v.as_array()`. */
  function AsArray(v: Json): Option<seq<Json>> {
    if v.JArray? then Some(v.items) else None
  }
}
