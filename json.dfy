/** JSON documents as serde_json sees them, and the stored byte payloads that hold them. */
module Json {
  import opened Base

  datatype Json =
    | JNull
    | JBool(b: bool)
    | JInt(i: int)
    | JStr(s: string)
    | JArr(items: seq<Json>)
    | JObj(fields: map<string, Json>)

  /** A stored value: either the bytes of a JSON document, or bytes serde_json rejects. */
  datatype Bytes = Doc(json: Json) | Malformed

  /** serde_json's `Value::get` with a string key: only objects have fields. */
  function Get(j: Json, key: string): (r: Option<Json>)
    ensures r.Some? <==> j.JObj? && key in j.fields
  {
    if j.JObj? && key in j.fields then Some(j.fields[key]) else None
  }
}
