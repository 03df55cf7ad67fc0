/**
 * The slice of JavaScript value semantics that the modelled code relies on:
 * values, ToBoolean, the `&&` and `||` operators, thrown errors, and the three
 * ways an async function can end (it returns, it throws, or it calls
 * `process.exit`).
 */
module Js {
  import opened Wrappers

  /** A JavaScript value. Objects other than arrays are never needed; NaN and -0 are not modelled. */
  datatype JsValue =
    | Undef
    | Null
    | Bool(b: bool)
    | Num(n: real)
    | Str(s: string)
    | Arr(elems: seq<JsValue>)

  /** ToBoolean (section 7.1.2 of ECMA-262). */
  predicate Truthy(v: JsValue) {
    match v
    case Undef => false
    case Null => false
    case Bool(b) => b
    case Num(n) => n != 0.0
    case Str(s) => s != ""
    case Arr(_) => true
  }

  /** `a && b`: yields one of its operands, never a coerced boolean. */
  function And(a: JsValue, b: JsValue): (r: JsValue)
    ensures r == a || r == b
    ensures Truthy(r) <==> Truthy(a) && Truthy(b)
  {
    if Truthy(a) then b else a
  }

  /** `(x) && x` is `x` itself, whatever `x` is: falsy values such as `0` are kept, not dropped. */
  lemma AndSelf(x: JsValue)
    ensures And(x, x) == x
  {
  }

  /** `a || b`: yields one of its operands, never a coerced boolean. */
  function Or(a: JsValue, b: JsValue): (r: JsValue)
    ensures r == a || r == b
    ensures Truthy(r) <==> Truthy(a) || Truthy(b)
  {
    if Truthy(a) then a else b
  }

  /** ToString of a value that is neither a number nor an array. */
  function StringOf(v: JsValue): string
    requires !v.Num? && !v.Arr?
  {
    match v
    case Undef => "undefined"
    case Null => "null"
    case Bool(b) => if b then "true" else "false"
    case Str(s) => s
  }

  /** `acc += s` where `s` is a string: string concatenation after ToString of the left operand. */
  function AppendString(acc: JsValue, s: string): JsValue
    requires !acc.Num? && !acc.Arr?
  {
    Str(StringOf(acc) + s)
  }

  /** A thrown error: its constructor name, its message and its `code` property, if any. */
  datatype JsError = JsError(name: string, message: string, code: Option<string>)

  /** `new Error(message)` */
  function PlainError(message: string): JsError {
    JsError("Error", message, None)
  }

  /** How a call ends: it returns a value, it throws, or the process exits with a status. */
  datatype Completion<+T> = Returned(value: T) | Threw(error: JsError) | Exited(status: int)
}
