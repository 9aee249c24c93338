/** The decoded JSON values a Popolo record holds in its `data` dictionary. */
module Json {

  /** A JSON value as Python holds it after decoding (numbers are integers here). */
  datatype Value =
    | Null
    | Bool(b: bool)
    | Int(i: int)
    | Str(s: string)
    | Arr(items: seq<Value>)
    | Obj(fields: map<string, Value>)

  /** A record's backing dictionary. */
  type Data = map<string, Value>

  /** Python truthiness: None, False, 0, "", [] and {} are false. */
  predicate Truthy(v: Value) {
    match v
    case Null => false
    case Bool(b) => b
    case Int(i) => i != 0
    case Str(s) => s != []
    case Arr(items) => items != []
    case Obj(fields) => fields != map[]
  }

  /** `dict.get(key)`: the stored value, or None when the key is absent. */
  function Get(d: Data, key: string): Value {
    if key in d then d[key] else Null
  }
}
