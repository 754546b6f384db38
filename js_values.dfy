/**
  JavaScript values as a request handler sees them after a JSON body has been
  parsed. A field that the body does not carry reads as `undefined`. `Num`
  stands for the finite double that `JSON.parse` produced from a number
  literal; a literal too large for a double parses to `Inf`, with its sign.
  JSON cannot produce NaN. Objects and arrays are known only by their
  identity, and every object or array in a request body is freshly parsed, so
  its identity differs from that of every value stored earlier.
 */
module JsValues {

  datatype JsValue =
    | Undefined
    | Null
    | Bool(b: bool)
    | Num(n: real)
    | Inf(positive: bool)
    | Str(s: string)
    | Ref(id: nat)

  /** The values for which `!v` is true: undefined, null, false, 0 and "". */
  predicate Falsy(v: JsValue) {
    match v
    case Undefined => true
    case Null => true
    case Bool(b) => !b
    case Num(n) => n == 0.0
    case Inf(_) => false
    case Str(s) => s == ""
    case Ref(_) => false
  }

  /**
    `a === b`. Without NaN among the values, strict equality is equality of
    primitives of the same type (an infinity equals only the infinity of the
    same sign) and identity of objects, which is what
    equality of these datatype values is.
   */
  predicate StrictEquals(a: JsValue, b: JsValue) {
    a == b
  }
}
