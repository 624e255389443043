/**
 * Values that stand for JavaScript's `null`/`undefined`, for a settled promise,
 * and for whatever a `throw` or a rejected promise carries.
 */
module Outcomes {

  datatype Option<+T> = None | Some(value: T)

  datatype Result<+T, +E> = Ok(value: T) | Err(error: E)

  /** A thrown value: an `Error` instance (with its `name` and `message`), or anything else. */
  datatype Thrown = ErrorObject(name: string, message: string) | NonError

  /** `new Error(message)`: the name of a plain error is "Error". */
  function NewError(message: string): (t: Thrown)
    ensures t.ErrorObject? && t.message == message
  {
    ErrorObject("Error", message)
  }

  /**
   * What a `catch (e)` block shows: `e.message` when `e instanceof Error`,
   * otherwise the handler's fallback text.
   */
  function MessageOr(e: Thrown, fallback: string): (msg: string)
    ensures e.ErrorObject? ==> msg == e.message
    ensures e.NonError? ==> msg == fallback
  {
    if e.ErrorObject? then e.message else fallback
  }

  /** JavaScript truthiness of a `string | null` value: `null` and `""` are falsy. */
  predicate Truthy(s: Option<string>)
  {
    s.Some? && s.value != ""
  }
}
