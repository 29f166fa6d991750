/** JavaScript values as the mock server and the UI read them from parsed JSON. */
module Js {
  import opened Wrappers

  /** A string-valued JSON field; `None` is undefined or null. */
  type JsString = Option<string>

  /** JavaScript truthiness of such a field: undefined, null and '' are falsy. */
  predicate Falsy(v: JsString) {
    v.None? || v.value == ""
  }

  /** The expression `v || fallback`. */
  function Or(v: JsString, fallback: string): (r: string)
    ensures Falsy(v) ==> r == fallback
    ensures !Falsy(v) ==> Some(r) == v
  {
    if Falsy(v) then fallback else v.value
  }
}
