/** JSON values as Python holds them after `json.loads`, which also reads NaN and infinities, and the
    codec the stream code calls. */
module Json {
  import opened Text

  datatype Json =
    | JNull
    | JBool(b: bool)
    | JInt(i: int)
    | JFloat(r: real)
    | JNonFinite(name: string)
    | JStr(s: string)
    | JArr(items: seq<Json>)
    | JObj(fields: map<string, Json>)

  /** `loads` is `json.loads` with `None` for ValueError; `dumps` is the compact `json.dumps`. */
  datatype Codec = Codec(dumps: Json -> string, loads: string -> Option<Json>)

  /** Python's truth value. */
  predicate Truthy(v: Json) {
    match v
    case JNull => false
    case JBool(b) => b
    case JInt(i) => i != 0
    case JFloat(r) => r != 0.0
    case JNonFinite(_) => true
    case JStr(s) => s != ""
    case JArr(items) => items != []
    case JObj(fields) => fields != map[]
  }

  /** `d.get(key)` on a dict. */
  function Get(fields: map<string, Json>, key: string): Json {
    if key in fields then fields[key] else JNull
  }

  /** `as_dict`: the object's fields, or none for any other value. */
  function AsDict(v: Json): map<string, Json> {
    if v.JObj? then v.fields else map[]
  }

  /** The seven values that are false. */
  lemma FalsyExactly(v: Json)
    ensures !Truthy(v) <==>
              v == JNull || v == JBool(false) || v == JInt(0) || v == JFloat(0.0) || v == JStr("") || v == JArr([])
              || v == JObj(map[])
  {}
}
