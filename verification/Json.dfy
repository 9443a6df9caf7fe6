/** JSON values as the client sees them. An integer token within the 64-bit ranges is `JInt`;
    any other number is `JFloat`, which never equals an integer. */
module Json {
  import opened Outcomes

  datatype Json =
    | JNull
    | JBool(b: bool)
    | JInt(n: int)
    | JFloat(x: real)
    | JString(s: string)
    | JArray(items: seq<Json>)
    | JObject(fields: map<string, Json>)

  const I64_LIMIT: int := 0x8000_0000_0000_0000

  /** A field of an object; nothing for any other value. */
  function Get(v: Json, key: string): Option<Json> {
    if v.JObject? && key in v.fields then Some(v.fields[key]) else None
  }

  function AsString(v: Option<Json>): Option<string> {
    match v
    case Some(JString(s)) => Some(s)
    case _ => None
  }

  function AsI64(v: Option<Json>): Option<int> {
    match v
    case Some(JInt(n)) => if -I64_LIMIT <= n < I64_LIMIT then Some(n) else None
    case _ => None
  }
}
