/** The values json.loads produces and json.dumps accepts, shared by the tool wrappers. */
module JsonValue {
  import opened Wrappers
  import opened PyDict

  /** A JSON value as Python holds it: objects are dicts in insertion order. */
  datatype Json =
    | JNull
    | JBool(b: bool)
    | JInt(i: int)
    | JFloat(x: real)
    | JStr(s: string)
    | JList(items: seq<Json>)
    | JObject(fields: Dict<Json>)

  /** The value of a Python number; bool is a subclass of int, so True and False count as 1 and 0. */
  function Number(j: Json): Option<real> {
    match j
    case JBool(b) => Some(if b then 1.0 else 0.0)
    case JInt(i) => Some(i as real)
    case JFloat(x) => Some(x)
    case _ => None
  }
}
