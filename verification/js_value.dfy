/**
 An untyped JavaScript value, as the status response of the device API is seen
 before any validation: just enough structure for `typeof`, `!== null`,
 the `in` operator and property access.
 */
module JsValue {

  datatype Value =
    | Undefined
    | Null
    | Bool(b: bool)
    | Num(n: real)
    | Str(s: string)
    | Arr(elems: seq<Value>)
    | Obj(fields: map<string, Value>)

  /** JavaScript's `typeof` operator; note that `typeof null` is "object". */
  function TypeOf(v: Value): string
  {
    match v
    case Undefined => "undefined"
    case Null => "object"
    case Bool(_) => "boolean"
    case Num(_) => "number"
    case Str(_) => "string"
    case Arr(_) => "object"
    case Obj(_) => "object"
  }

  /** `typeof v === "object" && v !== null`: the test made before every descent. */
  function IsObject(v: Value): (b: bool)
    ensures b <==> v.Arr? || v.Obj?
  {
    TypeOf(v) == "object" && v != Null
  }

  /** The program's `hasKey(k, v)`, i.e. `k in v`, on the object's own string keys. */
  function HasKey(v: Value, k: string): (b: bool)
    ensures b ==> IsObject(v)
    ensures b ==> v.Obj? && k in v.fields
  {
    v.Obj? && k in v.fields
  }

  /** Property access `v[k]`, which is `undefined` when there is no such property. */
  function Get(v: Value, k: string): Value
  {
    if v.Obj? && k in v.fields then v.fields[k] else Undefined
  }
}
