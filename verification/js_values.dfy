/** The few JavaScript value notions the screens rely on: optional values,
    truthiness of strings, and the short-circuit `||` operator. */
module JsValues {

  /** An optional value; `None` stands for JavaScript's `null` or `undefined`. */
  datatype Option<T> = None | Some(value: T)

  /** JavaScript truthiness of a value that is either a string or absent:
      it is truthy exactly when it is present and non-empty. */
  predicate Truthy(v: Option<string>) {
    v.Some? && v.value != ""
  }

  /** JavaScript `a || b` on optional strings: `a` when it is truthy, otherwise `b`. */
  function Or(a: Option<string>, b: Option<string>): (r: Option<string>)
    ensures Truthy(r) <==> Truthy(a) || Truthy(b)
    ensures Truthy(a) ==> r == a
    ensures !Truthy(a) ==> r == b
  {
    if Truthy(a) then a else b
  }
}
