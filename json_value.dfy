/** JSON documents as Python's json module loads them, with Python's notion
    of truthiness. Objects are maps, so the order of their keys is not kept. */
module JsonValue {
  datatype Json =
    | JNull
    | JBool(b: bool)
    | JNum(n: real)
    | JStr(s: string)
    | JArr(items: seq<Json>)
    | JObj(fields: map<string, Json>)

  /** bool(x) in Python: null, false, 0, "", [] and {} are false. */
  predicate Truthy(j: Json) {
    match j
    case JNull => false
    case JBool(b) => b
    case JNum(n) => n != 0.0
    case JStr(s) => |s| > 0
    case JArr(items) => |items| > 0
    case JObj(fields) => |fields| > 0
  }

  /** A JSON file as a reader finds it: absent, not valid JSON, or a document. */
  datatype JsonFile = Missing | Unparseable | Parsed(doc: Json)

  /** d.get(key, default) on a dict. */
  function Field(fields: map<string, Json>, key: string, default: Json): Json {
    if key in fields then fields[key] else default
  }

  /** The string-valued fields of an object. */
  function StrFields(fields: map<string, Json>): (m: map<string, string>)
    ensures forall k :: k in m <==> k in fields && fields[k].JStr?
    ensures forall k :: k in m ==> fields[k] == JStr(m[k])
  {
    map k | k in fields && fields[k].JStr? :: fields[k].s
  }

  /** A dict of strings as a JSON object. */
  function StrObject(m: map<string, string>): (j: Json)
    ensures j.JObj? && j.fields.Keys == m.Keys
    ensures forall k :: k in m ==> j.fields[k] == JStr(m[k])
  {
    JObj(map k | k in m :: JStr(m[k]))
  }
}
