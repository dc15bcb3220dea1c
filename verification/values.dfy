/** The values the XML-RPC transport hands back, with the bits of Python
    semantics the client applies to them. */
module Values {

  /** An XML-RPC value. `Nil` is the `None` the transport is allowed to return. */
  datatype Value =
    | Nil
    | Boolean(b: bool)
    | Integer(i: int)
    | String(s: string)
    | Array(items: seq<Value>)
    | Struct(fields: map<string, Value>)

  /** A response of the service: a struct with at least a status line. */
  type Envelope = map<string, Value>

  /** Python's truth value of the object the transport produced. */
  predicate Truthy(v: Value) {
    match v
    case Nil => false
    case Boolean(b) => b
    case Integer(i) => i != 0
    case String(s) => |s| > 0
    case Array(xs) => |xs| > 0
    case Struct(m) => |m| > 0
  }

  /** `dict.get(key)`: a missing key reads as `None`, like a stored nil. */
  function Get(env: Envelope, key: string): Value {
    if key in env then env[key] else Nil
  }

  /** Python's `v == 1`; `bool` is a subclass of `int`, so `True == 1` holds. */
  predicate EqualsOne(v: Value) {
    v == Integer(1) || v == Boolean(true)
  }
}
