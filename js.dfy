/** JavaScript values as they arrive in the storefront's JSON records, and the
    two JavaScript rules the components depend on: truthiness and `a || b`. */
module Js {

  /** An optional value; `None` stands for JavaScript's `null`. */
  datatype Option<+T> = None | Some(value: T) {
    /** The value, or `default` when there is none. */
    function GetOr(default: T): T {
      match this
      case Some(v) => v
      case None => default
    }
  }

  /** A primitive JSON / JavaScript value. Numbers are exact reals; `NaN` is kept
      apart because every comparison with it is false. */
  datatype Value =
    | Undefined
    | Null
    | Bool(b: bool)
    | Number(n: real)
    | NaN
    | Str(s: string)

  /** JavaScript truthiness, which is also what `Boolean(v)` returns. */
  predicate Truthy(v: Value) {
    match v
    case Undefined => false
    case Null => false
    case Bool(b) => b
    case Number(n) => n != 0.0
    case NaN => false
    case Str(s) => s != ""
  }

  /** `a || b`: the left operand when it is truthy, the right one otherwise. */
  function Or(a: Value, b: Value): (r: Value)
    ensures Truthy(a) ==> r == a
    ensures !Truthy(a) ==> r == b
    ensures Truthy(r) <==> Truthy(a) || Truthy(b)
  {
    if Truthy(a) then a else b
  }

  /** `v === undefined || v === null`: the two values optional chaining stops at. */
  predicate Nullish(v: Value) {
    v.Undefined? || v.Null?
  }
}
