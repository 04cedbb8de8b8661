/** Python values as the application sees them: `None`-able results and the
    JSON documents that come back from `json.load` / `json.loads`. */
module Values {

  /** A value that may be absent (Python `None`). */
  datatype Option<+T> = None | Some(value: T)

  /** A decoded JSON document. Floating-point numbers are not modelled. */
  datatype Json =
    | JNull
    | JBool(b: bool)
    | JInt(i: int)
    | JStr(s: string)
    | JList(items: seq<Json>)
    | JObj(fields: map<string, Json>)

  /** `d.get(key, default)` on a dict. */
  function Get(fields: map<string, Json>, key: string, default: Json): (r: Json)
    ensures key in fields ==> r == fields[key]
    ensures key !in fields ==> r == default
  {
    if key in fields then fields[key] else default
  }

  /** `obj[key]` on an arbitrary JSON value: `None` where Python raises
      (`TypeError` on a non-dict, `KeyError` on a missing key). */
  function Field(obj: Json, key: string): (r: Option<Json>)
    ensures r.Some? <==> obj.JObj? && key in obj.fields
    ensures r.Some? ==> r.value == obj.fields[key]
  {
    if obj.JObj? && key in obj.fields then Some(obj.fields[key]) else None
  }
}
