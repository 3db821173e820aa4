/** Shared vocabulary of the server actions: optional values (SQL null, a missing
    session), and the `{ error }` / success shapes the actions return. */
module Basics {

  /** A value that may be absent: SQL `null`, an anonymous session, a missing form field. */
  datatype Option<+T> = None | Some(value: T)

  /** What a server action returns: a value, or an `{ error: "..." }` object. */
  datatype Result<+T> = Ok(value: T) | Err(error: string)

  /** What an action without a payload returns: `{ success: true }` or `{ error: "..." }`. */
  datatype Outcome = Success | Failure(error: string)

  /** Opaque user identifier issued by the auth provider (a UUID string). */
  type UserId = string

  /** JavaScript truthiness of a possibly-null string: null and "" are falsy. */
  predicate Truthy(s: Option<string>)
  {
    s.Some? && s.value != ""
  }

  /** `a || b` on a nullable string: `a` when it is truthy, otherwise `b`. */
  function OrElse(a: Option<string>, b: string): (r: string)
    ensures Truthy(a) ==> r == a.value
    ensures !Truthy(a) ==> r == b
  {
    if Truthy(a) then a.value else b
  }

  /** `s || null`: the empty string is stored as SQL null. */
  function NullIfEmpty(s: Option<string>): (r: Option<string>)
    ensures r.None? <==> !Truthy(s)
    ensures r.Some? ==> r == s && r.value != ""
  {
    if Truthy(s) then s else None
  }
}
