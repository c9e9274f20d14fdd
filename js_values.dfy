/** Request and environment fields as the passkey server sees them: a field may
    be absent, and JavaScript's `!x` treats an absent field and the empty string
    alike. */
module JsValues {

  datatype Option<+T> = None | Some(value: T)

  /** JavaScript truthiness of a string-valued field: present and non-empty. */
  predicate Truthy(f: Option<string>) {
    f.Some? && f.value != ""
  }

  /** `x || fallback` for a string-valued field. */
  function OrElse(f: Option<string>, fallback: string): (r: string)
    ensures Truthy(f) ==> Some(r) == f
    ensures !Truthy(f) ==> r == fallback
  {
    if Truthy(f) then f.value else fallback
  }
}
