/**
 * The part of JavaScript's value model that the currency module relies on:
 * numbers with their non-finite values, untyped values as they arrive from
 * a JSON document, truthiness, `typeof` and property reads.
 */
module JsValues {

  /**
   * A JavaScript number. Finite numbers are exact reals (no rounding, no
   * overflow, no signed zero); the non-finite ones are tagged.
   */
  datatype Number = Finite(value: real) | NaN | Infinity(negative: bool)

  /**
   * JavaScript's `a * b` on numbers, following the IEEE-754 rules for the
   * non-finite operands: NaN is absorbing, zero times an infinity is NaN,
   * and the sign of an infinite product is the exclusive or of the signs.
   */
  function Mul(a: Number, b: Number): (r: Number)
    ensures r.Finite? <==> a.Finite? && b.Finite?
    ensures r.Finite? ==> r.value == a.value * b.value
    ensures (a.NaN? || b.NaN?) ==> r.NaN?
  {
    match (a, b)
    case (Finite(x), Finite(y)) => Finite(x * y)
    case (NaN, _) => NaN
    case (_, NaN) => NaN
    case (Finite(x), Infinity(n)) => if x == 0.0 then NaN else Infinity(n != (x < 0.0))
    case (Infinity(n), Finite(y)) => if y == 0.0 then NaN else Infinity(n != (y < 0.0))
    case (Infinity(n), Infinity(m)) => Infinity(n != m)
  }

  lemma MulCommutes(a: Number, b: Number)
    ensures Mul(a, b) == Mul(b, a)
  {
  }

  /** An untyped JavaScript value, as `unknown` admits it. */
  datatype Value =
    | Undefined
    | Null
    | Bool(b: bool)
    | Num(n: Number)
    | Str(s: string)
    | Arr(elements: seq<Value>)
    | Obj(properties: map<string, Value>)
    | Func

  /** JavaScript's `Boolean(v)`: false exactly for the falsy values. */
  predicate Truthy(v: Value) {
    match v
    case Undefined => false
    case Null => false
    case Bool(b) => b
    case Num(n) => !(n.NaN? || (n.Finite? && n.value == 0.0))
    case Str(s) => s != ""
    case Arr(_) => true
    case Obj(_) => true
    case Func => true
  }

  /** JavaScript's `typeof v` (note `typeof null` is "object"). */
  function TypeOf(v: Value): string {
    match v
    case Undefined => "undefined"
    case Null => "object"
    case Bool(_) => "boolean"
    case Num(_) => "number"
    case Str(_) => "string"
    case Arr(_) => "object"
    case Obj(_) => "object"
    case Func => "function"
  }

  /**
   * The property read `v[key]` for a key that is neither an array index,
   * nor "length", nor a member of a built-in prototype: an object yields
   * its own property or undefined, every other value yields undefined.
   */
  function Get(v: Value, key: string): (r: Value)
    ensures r != Undefined ==> v.Obj? && key in v.properties
    ensures v.Obj? && key in v.properties ==> r == v.properties[key]
  {
    if v.Obj? && key in v.properties then v.properties[key] else Undefined
  }
}
