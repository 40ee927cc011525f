/** Values shared by every controller: optional request fields, the error
    codes the API answers with, and JavaScript's `||` and `!== undefined`
    merge rules for request fields. */
module Common {

  datatype Option<+T> = None | Some(value: T)

  /** Why the auth gate refused a request. */
  datatype AuthFailure = NoToken | InvalidToken

  /** The outcome code of a handler: a success, or one of the error codes of
      the API's taxonomy. `ServerError` is what the handlers' catch blocks
      answer when a save is rejected by the schema or a property of an
      absent body field is read. */
  datatype Code =
    | Ok
    | Created
    | NotFound
    | InvalidCategory
    | CategoryExists
    | CategoryInUse(count: nat)
    | UserExists
    | InvalidCredentials
    | ValidationError
    | Unauthorized(reason: AuthFailure)
    | Forbidden
    | ServerError

  /** A request string field is truthy in JavaScript iff it is present and
      not the empty string. */
  predicate Truthy(field: Option<string>) {
    field.Some? && field.value != ""
  }

  /** `field || fallback` for a string field. */
  function OrElse(field: Option<string>, fallback: string): string {
    if Truthy(field) then field.value else fallback
  }

  /** `field !== undefined ? field : fallback`. */
  function IfDefined<T>(field: Option<T>, fallback: T): T {
    if field.Some? then field.value else fallback
  }
}
