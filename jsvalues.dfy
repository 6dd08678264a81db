/**
 * The JavaScript values that reach the request handlers, reduced to what the
 * coercions in the source look at: truthiness (`if (!x)`, `a || b`) and
 * `Number(x)`. How `Number()` parses a string is not modelled: a string value
 * carries the number that `Number()` yields for it.
 */
module JsValues {

  /** A JavaScript number, as far as the handlers distinguish them (no -0). */
  datatype JsNumber = Finite(value: real) | NaN | PosInfinity | NegInfinity

  datatype JsValue =
    | Undefined
    | Null
    | Bool(b: bool)
    | Num(n: JsNumber)
    | Str(s: string, numeric: JsNumber)  // `numeric` is what Number(s) gives
    | Arr(elems: seq<JsValue>)
    | Obj                                // a plain object

  /** `Number.isInteger(n)`. */
  predicate IsInteger(n: JsNumber)
  {
    n.Finite? && n.value.Floor as real == n.value
  }

  /** JavaScript truthiness: what `if (x)` and `x || y` test. */
  predicate Truthy(v: JsValue)
  {
    match v
    case Undefined => false
    case Null => false
    case Bool(b) => b
    case Num(n) => !(n.NaN? || n == Finite(0.0))
    case Str(s, _) => s != ""
    case Arr(_) => true
    case Obj => true
  }

  /** `a || b`: the first operand when it is truthy, else the second. */
  function Or(a: JsValue, b: JsValue): JsValue
  {
    if Truthy(a) then a else b
  }

  /** A JavaScript number holding the integer `i`. */
  function FromInt(i: int): JsValue
  {
    Num(Finite(i as real))
  }

  /**
   * `Number(v)`. An array converts through its string form: `[]` is 0, `[x]` is
   * the number of `String(x)` (with `null` and `undefined` giving ""), and an
   * array of two or more elements contains a comma, so it is NaN.
   */
  function ToNumber(v: JsValue): JsNumber
  {
    match v
    case Undefined => NaN
    case Null => Finite(0.0)
    case Bool(b) => if b then Finite(1.0) else Finite(0.0)
    case Num(n) => n
    case Str(_, n) => n
    case Arr(elems) =>
      if |elems| == 0 then Finite(0.0)
      else if |elems| > 1 then NaN
      else if elems[0].Undefined? || elems[0].Null? then Finite(0.0)
      else if elems[0].Bool? || elems[0].Obj? then NaN
      else ToNumber(elems[0])
    case Obj => NaN
  }
}
