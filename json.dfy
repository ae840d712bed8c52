/**
 * JSON values as `json.loads` returns them, and the two Python operations the
 * request handlers apply to a parsed payload: the membership test `key in payload`
 * and the subscript `payload[key]`.
 */
module Json {
  import opened Wrappers
  import opened Text

  datatype Value =
    | Null
    | Bool(b: bool)
    | Int(i: int)
    | Float(r: real)
    | Str(s: string)
    | Array(items: seq<Value>)
    | Object(members: map<string, Value>)

  /**
   * `key in v` for a string key: key membership for an object, element equality
   * for a list, substring for a string; `None` where Python raises `TypeError`
   * (numbers, booleans and `null` are not containers).
   */
  function Membership(v: Value, key: string): Option<bool> {
    match v
    case Object(m) => Some(key in m)
    case Array(items) => Some(Str(key) in items)
    case Str(s) => Some(Contains(s, key))
    case _ => None
  }

  /**
   * `v[key]` for a string key: only an object can be indexed by a string;
   * `None` where Python raises (`KeyError` or `TypeError`).
   */
  function Subscript(v: Value, key: string): Option<Value> {
    match v
    case Object(m) => if key in m then Some(m[key]) else None
    case _ => None
  }
}
