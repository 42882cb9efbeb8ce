/** JavaScript value shapes that the application code tests or propagates. */
module Values {

  /** A value that may be `null`/`undefined` (None) or present (Some). */
  datatype Option<+T> = None | Some(value: T) {

    /** The `x ?? d` operator: the value unless it is null or undefined. */
    function OrElse(default: T): (r: T)
      ensures Some? ==> r == value
      ensures None? ==> r == default
    {
      match this
      case Some(v) => v
      case None => default
    }
  }

  /** The outcome of an awaited call into code outside the model: it returned a value, or it threw. */
  datatype Reply<+T> = Returned(value: T) | Threw

  /** JavaScript truthiness of an optional string: present and non-empty. */
  predicate Truthy(s: Option<string>)
  {
    s.Some? && s.value != ""
  }

  /** The `s || d` operator on an optional string: a missing or empty string gives way to `d`. */
  function StringOr(s: Option<string>, default: string): (r: string)
    ensures Truthy(s) ==> r == s.value
    ensures !Truthy(s) ==> r == default
    ensures r == "" ==> default == ""
  {
    if Truthy(s) then s.value else default
  }
}
