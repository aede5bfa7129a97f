/** The few JavaScript values the counter application handles, and the truthiness
    rule behind its `x || 0` and `x && ...` idioms. Numbers are mathematical
    integers or NaN; the safe-integer range and negative zero are not modelled
    (a `-0` is represented by `Int(0)`, which is falsy like `-0`). */
module JsValues {

  /** A JavaScript number as this application produces it: an integer, or NaN. */
  datatype Num = Int(value: int) | NaN

  /** An optional value: a property or query field that may be `undefined`. */
  datatype Optional<+T> = Undefined | Defined(value: T)

  /** JavaScript truthiness of a number: everything but 0 and NaN. */
  predicate NumTruthy(n: Num) {
    n.Int? && n.value != 0
  }

  /** JavaScript truthiness of a string: everything but the empty string. */
  predicate StringTruthy(s: string) {
    s != ""
  }

  /** `x || fallback` for an optional number property `x`, read as an integer. */
  function NumberOr(x: Optional<Num>, fallback: int): int
  {
    if x.Defined? && NumTruthy(x.value) then x.value.value else fallback
  }
}
