/** Optional values and promise settlements, plus the two ways the pages turn a
    rejection into the text shown in their error banner. */
module Wrappers {

  /** A value that may be `null`/`undefined` in the source. */
  datatype Option<+T> = None | Some(value: T) {

    /** JavaScript's `value ?? fallback`. */
    function GetOr(fallback: T): T {
      match this
      case Some(v) => v
      case None => fallback
    }
  }

  /** How an awaited promise settles. `Err(Some(m))` is a rejection with an
      `Error` whose `message` is `m`; `Err(None)` is a rejection with a thrown
      value that is not an `Error`. */
  datatype Outcome<+T> = Ok(value: T) | Err(message: Option<string>)

  /** A string is truthy in JavaScript exactly when it is present and non-empty. */
  predicate Truthy(s: Option<string>) {
    s.Some? && s.value != ""
  }

  /** `s || fallback` on an optional string. */
  function OrElse(s: Option<string>, fallback: string): (r: string)
    ensures Truthy(s) ==> r == s.value
    ensures !Truthy(s) ==> r == fallback
  {
    if Truthy(s) then s.value else fallback
  }

  /** `e instanceof Error ? e.message : fallback`: an `Error` keeps its message
      even when that message is empty. */
  function ErrorText(e: Option<string>, fallback: string): (r: string)
    ensures e.Some? ==> r == e.value
    ensures e.None? ==> r == fallback
  {
    e.GetOr(fallback)
  }

  /** `(e as Error).message || fallback`: an empty message or a non-`Error`
      rejection both fall back. */
  function MessageOr(e: Option<string>, fallback: string): (r: string)
    ensures Truthy(e) ==> r == e.value
    ensures !Truthy(e) ==> r == fallback
  {
    OrElse(e, fallback)
  }
}
