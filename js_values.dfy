// The few JavaScript value semantics the component relies on: a string that
// may be `undefined`, its truthiness, and the `||` operator over such strings.

module JsValues {

  /** `Some(x)` for a present value, `None` for `undefined` (or `null`). */
  datatype Option<+T> = None | Some(value: T)

  /** A JavaScript string that may be `undefined`. */
  type JsString = Option<string>

  /** JavaScript truthiness of a string-or-undefined: `undefined` and `""` are falsy. */
  predicate Truthy(v: JsString)
  {
    v.Some? && v.value != ""
  }

  /** The JavaScript expression `a || b`: `a` when it is truthy, `b` otherwise. */
  function Or(a: JsString, b: JsString): JsString
  {
    if Truthy(a) then a else b
  }
}
