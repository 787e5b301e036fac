/** The values `JSON.parse` can produce, with JavaScript's truthiness and
    property access on them. Parsing itself is not modelled: callers take it
    as a partial function `string -> Option<JsonValue>`. */
module Json {
  import opened Common

  /** Numbers are finite reals: JSON text cannot denote NaN or the infinities. */
  datatype JsonValue =
    | JNull
    | JBool(b: bool)
    | JNum(n: real)
    | JStr(s: string)
    | JArr(items: seq<JsonValue>)
    | JObj(fields: map<string, JsonValue>)

  /** The result of reading `v.key` in JavaScript. */
  datatype Access = Undefined | Defined(value: JsonValue) | Throws

  /** `!!v` */
  predicate Truthy(v: JsonValue) {
    match v
    case JNull => false
    case JBool(b) => b
    case JNum(n) => n != 0.0
    case JStr(s) => s != []
    case JArr(_) => true
    case JObj(_) => true
  }

  predicate AccessTruthy(a: Access) {
    a.Defined? && Truthy(a.value)
  }

  /** `v.key` for a key that is not inherited from a prototype: reading a
      property of `null` throws a TypeError, a missing key is `undefined`. */
  function Get(v: JsonValue, key: string): (a: Access)
    ensures a.Throws? <==> v.JNull?
    ensures a.Defined? <==> v.JObj? && key in v.fields
    ensures a.Defined? ==> a.value == v.fields[key]
  {
    match v
    case JNull => Throws
    case JObj(fields) => if key in fields then Defined(fields[key]) else Undefined
    case _ => Undefined
  }

  /** `a || fallback` for a property read that did not throw. */
  function OrElse(a: Access, fallback: JsonValue): (r: JsonValue)
    ensures AccessTruthy(a) ==> r == a.value
    ensures !AccessTruthy(a) ==> r == fallback
  {
    if AccessTruthy(a) then a.value else fallback
  }
}
