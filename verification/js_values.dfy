/** The loosely-typed JavaScript values that the weather client reads from
    parsed JSON responses, together with the few language operations it
    applies to them: truthiness (`||`), nullish coalescing (`??`), property
    access, `Array.isArray`, array indexing and strict equality (`===`). */
module JsValues {

  /** A JavaScript number. Arithmetic is exact: floating-point rounding is
      not modelled, but the non-finite values are, because `JSON.parse`
      turns an over-large literal such as `1e999` into `Infinity`. */
  datatype JsNumber = Finite(r: real) | NaN | PosInfinity | NegInfinity

  /** A JavaScript value as produced by `JSON.parse`, plus `undefined` for a
      missing property or array element. Objects are maps from property
      name to value; property order plays no part in this client. */
  datatype JsValue =
    | Undefined
    | Null
    | Bool(b: bool)
    | Num(n: JsNumber)
    | Str(s: string)
    | Arr(items: seq<JsValue>)
    | Obj(fields: map<string, JsValue>)

  const Zero: JsValue := Num(Finite(0.0))

  const EmptyObject: JsValue := Obj(map[])

  /** `null` or `undefined`: the values `??` skips. */
  predicate IsNullish(v: JsValue) {
    v.Undefined? || v.Null?
  }

  /** JavaScript truthiness: every value except `undefined`, `null`,
      `false`, `0`, `NaN` and `""` is truthy. */
  predicate Truthy(v: JsValue) {
    match v
    case Undefined => false
    case Null => false
    case Bool(b) => b
    case Num(n) => !(n.NaN? || n == Finite(0.0))
    case Str(s) => s != ""
    case Arr(_) => true
    case Obj(_) => true
  }

  /** `a ?? b` */
  function Coalesce(a: JsValue, b: JsValue): (r: JsValue)
    ensures !IsNullish(a) ==> r == a
    ensures IsNullish(a) ==> r == b
  {
    if IsNullish(a) then b else a
  }

  /** `a || b` */
  function Or(a: JsValue, b: JsValue): (r: JsValue)
    ensures Truthy(a) ==> r == a
    ensures !Truthy(a) ==> r == b
  {
    if Truthy(a) then a else b
  }

  /** `v[key]` for a property name `key` on a value that is neither `null`
      nor `undefined` (on those two the access throws, and callers model
      that separately). Only objects carry the named properties this client
      reads; on numbers, strings, booleans and arrays such a name is
      `undefined`. */
  function Get(v: JsValue, key: string): (r: JsValue)
    ensures !v.Obj? ==> r == Undefined
    ensures v.Obj? && key !in v.fields ==> r == Undefined
    ensures v.Obj? && key in v.fields ==> r == v.fields[key]
  {
    match v
    case Obj(fields) => if key in fields then fields[key] else Undefined
    case _ => Undefined
  }

  /** `arr[index]` on an array: the element when `index` is in range,
      `undefined` otherwise (a negative index such as -1 names no element). */
  function ElementAt(arr: JsValue, index: int): (r: JsValue)
    requires arr.Arr?
    ensures 0 <= index < |arr.items| ==> r == arr.items[index]
    ensures !(0 <= index < |arr.items|) ==> r == Undefined
  {
    if 0 <= index < |arr.items| then arr.items[index] else Undefined
  }

  /** `a === b` for values taken from separately parsed JSON. Primitives
      compare by value, `NaN` equals nothing, and two arrays or objects are
      never the same reference. */
  predicate StrictEq(a: JsValue, b: JsValue) {
    match a
    case Arr(_) => false
    case Obj(_) => false
    case Num(NaN) => false
    case _ => a == b
  }

  /** A number, `null` or `undefined`: the shape of every weather quantity
      in a well-formed forecast. */
  predicate IsNumOrNullish(v: JsValue) {
    v.Num? || IsNullish(v)
  }
}
